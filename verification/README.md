# My Blackhole: a verified model of its core logic

My Blackhole (`my_blackhole_V10.py`) is a Streamlit application that keeps
files, text snippets and YouTube audio playlists in a GitHub repository.
Most of the program is user interface and REST glue. This project models
the logic inside it in Dafny and proves what that logic promises:

- **Playlist editing** (`playlist.dfy`, module `PlaylistEditing`): the
  session playlist is a list of tracks, a current index and a playing flag.
  The row buttons move a track up or down, delete it, or play it. The form
  adds a track, and the broom button clears the list. The edits are
  functions on a list and an index. Class `Playlist` applies them to its
  fields and keeps the index on a track.
- **Durations and stored tracks** (`tracks.dfy`, module `Tracks`): the
  playlist's total length and the elapsed time before a track, and the
  mapping of a `Track` to and from the JSON object stored in a playlist
  file. The JSON object is modelled as a datatype whose fields may be
  absent, null or present.
- **Formatting and naming** (`duration.dfy`, `filenames.dfy`, `paths.dfy`,
  `text.dfy`):
  - `format_duration`.
  - `_sanitize_filename` and `_pl_path`. `_sanitize_filename` strips a
    trailing "_" after the replacement, so "My List!!" gives "My List".
  - `path_join` and `ensure_folder_path`.
  - The Python string operations they rely on: `str.strip` with the exact
    `str.isspace` character set, `strip("/")`, `split(":", 1)` and decimal
    formatting.
- **The repository** (`store.dfy`, class `Store.Store`): the hosting
  service's contents API, seen as a map from path to content and version
  token (sha).
- **Snippets** (`snippets.dfy`): normalisation of stored items, loading and
  saving `snippets.json`, and parsing the `hint:text` input. The register
  and delete-by-index actions load the stored list, change it and save it
  back. The reorder action loads the stored file only for its sha, and
  saves the list the page sent.
- **Upload** (`upload.dfy`): POSIX `os.path.splitext`, the sequence of
  candidate paths `name`, `base (1)ext`, `base (2)ext`, ..., the loop that
  picks the first free one, and the 95 MiB limit.
- **Saved-playlist list** (`listing.dfy`): the folders searched, the
  dictionary that merges their listings by path, and the stable sort by
  lower-cased name.

## Model

| member | source | states |
|---|---|---|
| Text.Strip | my_blackhole_V10.py:64-68 | `str.strip(chars)`: the result is no longer than the input, and neither of its ends is a stripped character |
| Text.StripRight | my_blackhole_V10.py:1657 | `s.rstrip()`: no longer than `s`, starts with the same character when not empty, and does not end with a stripped character |
| Text.StripRightEmpty | my_blackhole_V10.py:1657 | `s.rstrip()` is empty exactly when every character of `s` is stripped |
| Text.StripAround | my_blackhole_V10.py:64-68 | stripping a string whose middle part has unstrippable ends strips only the outer parts: `Strip(a+m+b) == StripLeft(a)+m+StripRight(b)` |
| Text.StripKeepsProperty | my_blackhole_V10.py:64-68 | stripping never introduces a character: a property held by every input character holds for every output character |
| Text.StripUnchanged | my_blackhole_V10.py:64-68 | a string whose ends are not stripped characters is left unchanged |
| Text.NatToString | my_blackhole_V10.py:429-432 | `f"{n:d}"` is a non-empty string of digits with no leading zero |
| Text.NatToStringRoundTrip | my_blackhole_V10.py:429-432 | the decimal value of `f"{n:d}"` is `n` |
| Text.NatToStringInjective | my_blackhole_V10.py:429-432 | different numbers are printed differently |
| Text.Pad2 | my_blackhole_V10.py:430-432 | `f"{n:02d}"` for n < 100: exactly two digits whose value is n |
| Text.SplitFirst | my_blackhole_V10.py:1665 | `s.split(c, 1)` when `c` occurs: `s == left + c + right`, with no `c` in `left` |
| Text.SplitFirstOf | my_blackhole_V10.py:1665 | splitting `a + c + b` where `a` has no `c` gives back `(a, b)` |
| Paths.EnsureFolderPath | my_blackhole_V10.py:67-68 | `path.strip().strip("/")`: the result neither starts nor ends with "/", is no longer than the input, and leaves a path with clean ends unchanged |
| Paths.CleanPartsConcat | my_blackhole_V10.py:63-65 | the parts `path_join` keeps from a concatenation are the parts kept from each half |
| Paths.BlankPartIgnored | my_blackhole_V10.py:63-65 | a blank part anywhere leaves `path_join` unchanged |
| Paths.PathJoinSingle | my_blackhole_V10.py:63-68 | `path_join(p) == ensure_folder_path(p)` |
| Paths.PathJoinTwo | my_blackhole_V10.py:63-68 | `path_join(folder, name)` for a non-blank name is the cleaned folder, "/", and the cleaned name, or the cleaned name alone when the folder is blank |
| Paths.SplitJoin | my_blackhole_V10.py:63-65 | splitting a "/"-join of slash-free segments at "/" gives the segments back |
| Paths.PathJoinSplit | my_blackhole_V10.py:63-65 | when no cleaned part contains "/", splitting `path_join(parts)` at "/" gives the cleaned parts |
| Paths.SlashOnlyPartLeavesEmptySegment | my_blackhole_V10.py:63-65 | a part made only of "/" is kept but cleaned to "", so `path_join("a", "/", "b") == "a//b"` |
| Duration.FormatDuration | my_blackhole_V10.py:423-432 | a missing or negative input gives "0:00"; every result has at least four characters and a ':' before its last two |
| Duration.FormatDurationReadsBack | my_blackhole_V10.py:423-432 | reading `format_duration(n)` back as `h:mm:ss` or `m:ss` gives parts with m < 60, s < 60 and h*3600 + m*60 + s == n, in the long form exactly when n >= 3600 |
| Duration.FormatDurationInjective | my_blackhole_V10.py:423-432 | different non-negative durations are shown differently |
| Duration.ZeroShownAsEmptyClock | my_blackhole_V10.py:423-425 | zero, any negative input and a missing input are all shown as "0:00" |
| Filenames.ReplaceRuns | my_blackhole_V10.py:550-552 | the `re.sub` step: every character of the result is allowed, and the result is no longer than the input |
| Filenames.ReplaceRunsKeepsAllowed | my_blackhole_V10.py:550-552 | a name made only of allowed characters passes through unchanged |
| Filenames.ReplaceRunsOfRun | my_blackhole_V10.py:550-552 | a run of disallowed characters becomes a single "_" |
| Filenames.ReplaceRunsSplitsAtAllowed | my_blackhole_V10.py:550-552 | allowed characters separate independent replacements |
| Filenames.SanitizeFilename | my_blackhole_V10.py:551-554 | the result is never empty, uses only allowed characters, and neither starts nor ends with space, "." or "_" |
| Filenames.SanitizeIdempotent | my_blackhole_V10.py:551-554 | sanitising a sanitised name changes nothing |
| Filenames.SanitizeBlank | my_blackhole_V10.py:551-554 | a blank name falls back to "playlist" |
| Filenames.SanitizeDropsTrailingRun | my_blackhole_V10.py:551-554 | a trailing run of disallowed, non-space characters disappears entirely from a clean name |
| Filenames.SanitizeCollides | my_blackhole_V10.py:551-554 | "My List!!" and "My List??" both become "My List" |
| Filenames.JsonNameClean | my_blackhole_V10.py:566-567 | a sanitised name plus ".json" is kept by `path_join` unchanged and contains no "/" |
| Filenames.PlaylistPath | my_blackhole_V10.py:566-567 | `_pl_path(folder, name)` is the cleaned folder and "/" (when the folder is not blank) followed by the sanitised name and ".json", and that file name has no "/" |
| Tracks.Clamp | my_blackhole_V10.py:546-547 | `max(0, min(idx, n))` lies in [0, n] and is idx when idx is already there |
| Tracks.SumBeforeIndex | my_blackhole_V10.py:546-547 | an index at or below 0 gives 0, and an index at or past the end gives the playlist total |
| Tracks.TotalSecs | my_blackhole_V10.py:543-544 | with no negative duration, the total is not negative and is at least the duration of each single track |
| Tracks.TotalSecsConcat | my_blackhole_V10.py:543-544 | the total of two lists joined is the sum of their totals |
| Tracks.SumBeforeIndexStep | my_blackhole_V10.py:546-547 | moving the index one track forward adds that track's duration, 0 when it has none |
| Tracks.SumBeforeIndexSplits | my_blackhole_V10.py:543-547 | the time before track i plus the total from track i onwards is the playlist total |
| Tracks.SumBeforeIndexMonotone | my_blackhole_V10.py:546-547 | with no negative durations, the elapsed time before a track grows with the index |
| Tracks.SumsExample | my_blackhole_V10.py:543-547 | durations 30, 45, 0 and 12 give a total of 87 and 75 seconds before the third track |
| Tracks.DefaultThumbnail | my_blackhole_V10.py:589 | the fallback thumbnail URL is never empty |
| Tracks.SerializeTrack | my_blackhole_V10.py:569-575 | all four keys are written, and decoding the object gives back the track exactly when the track has a duration, a non-empty thumbnail and no audio URL |
| Tracks.SerializeTracks | my_blackhole_V10.py:569-575 | one stored object per track and nothing else, so a later load skips none of them |
| Tracks.DecodeTrack | my_blackhole_V10.py:584-592 | a decoded track has a duration, a non-empty thumbnail and no audio URL |
| Tracks.DecodeElements | my_blackhole_V10.py:582-593 | items that are not objects are skipped, so there are never more tracks than items |
| Tracks.DecodeElementsConcat | my_blackhole_V10.py:582-593 | decoding a list is decoding each part and joining the results, in order |
| Tracks.DecodeElementsOne | my_blackhole_V10.py:582-593 | one object decodes to its one track; an item that is not an object decodes to nothing |
| Tracks.DeserializeTracks | my_blackhole_V10.py:577-594 | the loop of appends returns the decoding of the payload's items: the `tracks` field of an object (or none), a list as it is, nothing otherwise |
| Tracks.TrackRoundTrip | my_blackhole_V10.py:569-594 | serialising then deserialising a track keeps its id and title, turns a missing duration into 0, replaces an empty thumbnail with the default one, and drops the audio URL |
| Tracks.TracksRoundTrip | my_blackhole_V10.py:569-594 | a stored list decodes to as many tracks as it held, each the round trip of its track |
| Tracks.SavedTracksReadBack | my_blackhole_V10.py:569-594 | a list of tracks reads back as itself exactly when every track has a duration, a non-empty thumbnail and no audio URL |
| Tracks.RoundTripKeepsTotal | my_blackhole_V10.py:569-594 | saving and reloading a playlist keeps its total duration |
| Tracks.RoundTripStable | my_blackhole_V10.py:569-594 | a second save and reload changes nothing more |
| PlaylistEditing.MovedUp | my_blackhole_V10.py:1082-1091 | for i > 0, exactly tracks i-1 and i are swapped and every other track stays in place, so the list is a permutation of the original; the current track stays current |
| PlaylistEditing.MovedDown | my_blackhole_V10.py:1093-1102 | for i < len-1, exactly tracks i and i+1 are swapped and every other track stays in place, so the list is a permutation of the original; the current track stays current |
| PlaylistEditing.Removed | my_blackhole_V10.py:1104-1111 | exactly track i goes and the others keep their order; the index is then on a track, or 0 when none is left; an index still in range keeps its number, so a track deleted before the current one hands the marker to the following track |
| PlaylistEditing.Appended | my_blackhole_V10.py:743-745 | the track goes at the end, the first track becomes current, and a valid index stays valid |
| PlaylistEditing.MoveUpKeepsTotal | my_blackhole_V10.py:1082-1091 | moving a track up keeps the total duration |
| PlaylistEditing.MoveDownKeepsTotal | my_blackhole_V10.py:1093-1102 | moving a track down keeps the total duration |
| PlaylistEditing.RemoveTakesOffDuration | my_blackhole_V10.py:1104-1111 | deleting a track takes exactly its duration off the total |
| PlaylistEditing.Playlist.constructor | my_blackhole_V10.py:707-712 | the session starts with no tracks, index 0 and nothing playing |
| PlaylistEditing.Playlist.Add | my_blackhole_V10.py:743-745 | the new state is `Appended` of the old one, the index stays on a track, and the playing flag is untouched |
| PlaylistEditing.Playlist.MoveUp | my_blackhole_V10.py:1082-1091 | the new state is `MovedUp` of the old one, the track at the current index is the same track, and playback pauses when the button acts |
| PlaylistEditing.Playlist.MoveDown | my_blackhole_V10.py:1093-1102 | the new state is `MovedDown` of the old one, the track at the current index is the same track, and playback pauses when the button acts |
| PlaylistEditing.Playlist.Delete | my_blackhole_V10.py:1104-1111 | the new state is `Removed` of the old one, the index stays valid, and playback pauses |
| PlaylistEditing.Playlist.PlayRow | my_blackhole_V10.py:1064-1080 | the row becomes current; the current row toggles playback, any other row starts playing |
| PlaylistEditing.Playlist.Clear | my_blackhole_V10.py:818-828 | no tracks, index 0, nothing playing |
| Store.Store.constructor | my_blackhole_V10.py:70-112 | an empty repository |
| Store.Store.Get | my_blackhole_V10.py:70-79 | `get_file_sha_if_exists`: the stored object exactly when the path exists |
| Store.Store.Put | my_blackhole_V10.py:81-89 | `put_file` stores the content at the path under a sha no stored object had, and changes no other path |
| Store.Store.Delete | my_blackhole_V10.py:102-112 | `delete_file` removes exactly that path and reports whether it existed |
| Snippets.Normalize | my_blackhole_V10.py:168-176 | the result always has a text and never an empty hint; a bare string s becomes `{t: s}`; a present `t` is kept |
| Snippets.ToObject | my_blackhole_V10.py:171-175 | the stored object always has `t`, and normalising it gives back exactly the well-formed snippets |
| Snippets.NormalizeIdempotent | my_blackhole_V10.py:168-176 | normalising a normalised item changes nothing |
| Snippets.LoadSnippets | my_blackhole_V10.py:178-188 | a stored array loads as its items, each normalised, in order, and all well formed; a missing or non-array file loads as nothing |
| Snippets.SaveBody | my_blackhole_V10.py:190-191 | one stored object per snippet |
| Snippets.SaveThenLoad | my_blackhole_V10.py:178-196 | loading what was saved gives back the same snippets in the same order |
| Snippets.ParseEntry | my_blackhole_V10.py:1657-1670 | a registered snippet never has an empty hint |
| Snippets.ParseEntryText | my_blackhole_V10.py:1657-1670 | typing `hint:text` (or a text without a colon) registers exactly that snippet |
| Snippets.ParseEntryBlank | my_blackhole_V10.py:1657-1659 | an input is refused exactly when it is whitespace only |
| Snippets.Register | my_blackhole_V10.py:1656-1683 | a refused input changes nothing; otherwise the stored list becomes the old one with the new snippet appended, and no other file changes |
| Snippets.DeleteAt | my_blackhole_V10.py:353-366 | an index inside the stored list removes exactly that item and keeps the rest in order; any other index leaves the repository untouched; the repository holds the same paths afterwards |
| Snippets.Reorder | my_blackhole_V10.py:377-391 | the stored list becomes the normalised list sent by the page, in its order; the snippet file's path is the only path that may be added, and no other file changes |
| Upload.LastIndexOf | my_blackhole_V10.py:1169 | `str.rfind`: the last position holding the character, -1 when there is none |
| Upload.Splitext | my_blackhole_V10.py:1169 | `base + ext` is the name; the extension is empty or a single dot-led segment with no other "." and no "/" |
| Upload.SplitextExtension | my_blackhole_V10.py:1169 | there is an extension exactly when the last path segment holds a "." with a character other than "." before it, and the extension then starts at the last "." |
| Upload.SplitextExamples | my_blackhole_V10.py:1169 | "report.pdf", "archive.tar.gz", ".bashrc" and "notes" split as POSIX `splitext` splits them |
| Upload.SuffixedShape | my_blackhole_V10.py:1173 | a suffixed candidate is the cleaned folder, the trimmed base, "(k)" and the trimmed extension |
| Upload.CandidateShape | my_blackhole_V10.py:1170-1173 | the first path tried is the folder prefix and the cleaned name; path k >= 1 is the folder prefix, the trimmed base with a space, "(k)" and the trimmed extension |
| Upload.CandidateInjective | my_blackhole_V10.py:1170-1174 | different suffix numbers give different paths |
| Upload.SuffixedCount | my_blackhole_V10.py:1170-1174 | the first n suffixed candidates are n distinct paths |
| Upload.TakenBound | my_blackhole_V10.py:1170-1174 | at most as many suffixed candidates can be taken as there are existing paths, so the loop ends |
| Upload.ChooseUploadPath | my_blackhole_V10.py:1170-1174 | the chosen path is candidate n, it does not exist, and every earlier candidate exists |
| Upload.UploadFile | my_blackhole_V10.py:1168-1178 | content over 95 MiB is refused and nothing changes; otherwise the content is stored at the first free candidate, which did not exist before, and nothing else changes |
| Upload.FirstCandidateExample | my_blackhole_V10.py:1170 | "report.pdf" uploaded into "docs" is first tried as "docs/report.pdf" |
| Upload.SecondCandidateExample | my_blackhole_V10.py:1169-1173 | and then as "docs/report (1).pdf" |
| Listing.PlaylistFolders | my_blackhole_V10.py:556-564 | the playlist folder comes first; the legacy folder follows only when it is not blank and differs from it |
| Listing.Record | my_blackhole_V10.py:629-637 | `seen[key] = row`: the row goes under its path, a new path joins the end of the insertion order, and an existing one keeps its place |
| Listing.CollectFolder | my_blackhole_V10.py:624-637 | `_collect` keeps the dictionary consistent: each key once in insertion order, and each row under its own path |
| Listing.CollectAll | my_blackhole_V10.py:640-642 | collecting every folder in turn from an empty dictionary gives a consistent dictionary |
| Listing.CollectedPaths | my_blackhole_V10.py:624-643 | the table holds exactly the paths of the ".json" files of the folders that were listed |
| Listing.LastFolderWins | my_blackhole_V10.py:631-643 | a file the last folder lists is shown with that folder, whatever earlier folders held |
| Listing.LexLeqTotal | my_blackhole_V10.py:644 | any two sort keys are ordered one way or the other |
| Listing.InsertByName | my_blackhole_V10.py:644 | inserting after every row with a key that is not greater keeps the rows sorted and adds exactly that row |
| Listing.SortByName | my_blackhole_V10.py:644 | the sorted rows are in order of lower-cased name and are a permutation of the input |
| Listing.PermutationKeepsDistinctPaths | my_blackhole_V10.py:643-644 | reordering rows with distinct paths keeps the paths distinct and the same |
| Listing.ListSavedPlaylists | my_blackhole_V10.py:621-645 | the two loops and the sort return the sorted values of the merged dictionary |
| Listing.ListingShape | my_blackhole_V10.py:621-645 | the list is sorted by lower-cased name, has one row per path, and covers exactly the ".json" files listed |

## Left out

- Network I/O is not modelled. This covers the REST calls (`get_file_sha_if_exists`, `put_file`, `list_folder`, `delete_file`, `get_raw_file_bytes` and `repo_is_private`), proxy settings and HTTP errors. The repository is the `Store` map, and folder listings are inputs to `Listing.ListSavedPlaylists`.
- Store.Store.Put: does not check the sha sent with a write. That optimistic-concurrency check happens on the hosting service, not in this program. The program never detects or retries a conflict.
- Base64 and JSON encoding are not modelled. Stored files are datatypes: `Tracks.Payload`, `Snippets.SnippetFile`, and the `Field` type for absent, null or present JSON members. Any file that does not decode to a JSON array counts as not an array.
- `str()` and `int()` of JSON values of other types are not modelled. Examples are a number in `video_id`, a non-integer `duration`, or a non-string `hint` such as `0`. Fields hold strings or integers; `None` prints as "None".
- Text.Lower: lower-cases ASCII letters only. Python's `str.lower` also lower-cases other scripts. Playlist names sorted by `Listing.SortByName` are compared on that key.
- Listing.ListSavedPlaylists: an exception raised while iterating one folder's items is not modelled. Only the failure of the folder listing as a whole is modelled (`entries == None`). Names and paths are strings; rows with a missing name cannot pass the ".json" filter.
- Listing.SortByName: is proved sorted and a permutation. Stability (rows with equal keys keep their dictionary order) is built into `InsertByName` but not stated as a lemma.
- Tracks.SumBeforeIndexMonotone: needs durations that are not negative. The stored form can hold a negative `duration`, and then the prefix sums are not monotone.
- Elapsed-time tracking (`_elapsed_now`, `elapsed_acc`, `play_start_ts`) is not modelled. It uses floating-point wall-clock time. So are `audio_nonce` and the rerun counters.
- Track metadata lookup (`extract_video_id`, the yt-dlp and pytube lookups, `resolve_track`) is not modelled. These are foreign libraries and network calls. A track reaches `Playlist.Add` already resolved.
- Saving, loading, appending to and deleting playlist files are not modelled (`save_current_playlist_to_repo`, `load_playlist_from_repo`, `append_track_to_playlist_path`, `delete_playlist_by_path`). Their data handling is covered by `Tracks.SerializeTracks`, `Tracks.DeserializeTracks` and `Filenames.PlaylistPath`. Loading takes the stored `current_index` unchecked, so a loaded playlist need not satisfy `Playlist.Valid`.
- Upload.UploadFile: models one file. Left out are the loop over several files, the per-file result rows and their size in KB, and the selection signature that skips a re-upload. A failed read of the file is also not modelled.
- The Streamlit rendering, query-parameter routing and embedded HTML, CSS and JavaScript are not modelled; they are user interface.
- Paths.PathJoin: carries no contract of its own. Its behaviour is stated by `Paths.PathJoinSingle`, `Paths.PathJoinTwo`, `Paths.PathJoinSplit` and `Paths.BlankPartIgnored`, which keeps the many paths built from literal strings cheap to verify.
- Upload.Candidate: carries no contract of its own, for the same reason. Its shape is stated by `Upload.CandidateShape`.
