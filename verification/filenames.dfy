/**
 * Playlist file names: `_sanitize_filename` and `_pl_path`
 * (my_blackhole_V10.py lines 550-554 and 566-567).
 */
module Filenames {
  import opened Text
  import opened Paths

  /**
   * The characters `SAFE_FILENAME_RX` leaves alone: ASCII digits and letters,
   * the Hangul syllables U+AC00..U+D7A3, space, `_`, `-`, `.`, `(` and `)`.
   */
  predicate Allowed(c: char) {
    || '0' <= c <= '9'
    || 'A' <= c <= 'Z'
    || 'a' <= c <= 'z'
    || '\U{AC00}' <= c <= '\U{D7A3}'
    || c == ' ' || c == '_' || c == '-' || c == '.' || c == '(' || c == ')'
  }

  predicate Disallowed(c: char) { !Allowed(c) }

  /** The characters `s.strip(" ._")` removes. */
  predicate IsEdge(c: char) { c == ' ' || c == '.' || c == '_' }

  predicate AllAllowed(s: string) {
    forall k :: 0 <= k < |s| ==> Allowed(s[k])
  }

  /** `SAFE_FILENAME_RX.sub("_", s)`: every maximal run of disallowed characters becomes one "_". */
  function ReplaceRuns(s: string): (r: string)
    ensures AllAllowed(r)
    ensures |r| <= |s|
    decreases |s|
  {
    if s == [] then []
    else if Allowed(s[0]) then [s[0]] + ReplaceRuns(s[1..])
    else "_" + ReplaceRuns(StripLeft(s[1..], Disallowed))
  }

  /** A string of allowed characters is left as it is. */
  lemma {:induction false} ReplaceRunsKeepsAllowed(s: string)
    requires AllAllowed(s)
    ensures ReplaceRuns(s) == s
    decreases |s|
  {
    if s != [] {
      ReplaceRunsKeepsAllowed(s[1..]);
    }
  }

  /** A run of disallowed characters, however long, becomes a single "_". */
  lemma ReplaceRunsOfRun(s: string)
    requires s != [] && forall k :: 0 <= k < |s| ==> Disallowed(s[k])
    ensures ReplaceRuns(s) == "_"
  {
    StripLeftAll(s[1..], Disallowed);
  }

  /** Replacement works piecewise on either side of an allowed character. */
  lemma {:induction false} ReplaceRunsSplitsAtAllowed(a: string, c: char, b: string)
    requires Allowed(c)
    ensures ReplaceRuns(a + [c] + b) == ReplaceRuns(a) + [c] + ReplaceRuns(b)
    decreases |a|
  {
    var s := a + [c] + b;
    if a == [] {
      assert s[0] == c && s[1..] == b;
    } else if Allowed(a[0]) {
      assert s[0] == a[0] && s[1..] == a[1..] + [c] + b;
      ReplaceRunsSplitsAtAllowed(a[1..], c, b);
    } else {
      assert s[0] == a[0] && s[1..] == a[1..] + ([c] + b);
      StripLeftConcat(a[1..], [c] + b, Disallowed);
      var a' := StripLeft(a[1..], Disallowed);
      assert StripLeft(s[1..], Disallowed) == a' + [c] + b;
      ReplaceRunsSplitsAtAllowed(a', c, b);
    }
  }

  /** `_sanitize_filename(name)`. */
  function SanitizeFilename(name: string): (r: string)
    ensures r != []
    ensures AllAllowed(r)
    ensures !IsEdge(r[0]) && !IsEdge(r[|r| - 1])
  {
    var replaced := ReplaceRuns(Strip(name, IsSpace));
    var s := Strip(replaced, IsEdge);
    StripKeepsProperty(replaced, IsEdge, Allowed);
    if s == [] then "playlist" else s
  }

  /** Sanitizing a sanitized name changes nothing. */
  lemma SanitizeIdempotent(name: string)
    ensures SanitizeFilename(SanitizeFilename(name)) == SanitizeFilename(name)
  {
    var r := SanitizeFilename(name);
    StripUnchanged(r, IsSpace);
    ReplaceRunsKeepsAllowed(r);
    StripUnchanged(r, IsEdge);
  }

  /** A blank name falls back to "playlist". */
  lemma SanitizeBlank(name: string)
    requires forall k :: 0 <= k < |name| ==> IsSpace(name[k])
    ensures SanitizeFilename(name) == "playlist"
  {
    StripLeftAll(name, IsSpace);
  }

  /** A clean name followed by a run of disallowed characters sanitizes to the clean name. */
  lemma SanitizeDropsTrailingRun(v: string, tail: string)
    requires v != [] && AllAllowed(v) && !IsEdge(v[0]) && !IsEdge(v[|v| - 1])
    requires tail != [] && forall k :: 0 <= k < |tail| ==> Disallowed(tail[k]) && !IsSpace(tail[k])
    ensures SanitizeFilename(v + tail) == v
  {
    var s := v + tail;
    StripUnchanged(s, IsSpace);
    var a, c := v[..|v| - 1], v[|v| - 1];
    assert s == a + [c] + tail;
    ReplaceRunsSplitsAtAllowed(a, c, tail);
    ReplaceRunsKeepsAllowed(a);
    ReplaceRunsOfRun(tail);
    assert ReplaceRuns(s) == v + "_";
    StripLeftConcat([], v + "_", IsEdge);
    assert StripLeft(v + "_", IsEdge) == v + "_";
    assert (v + "_")[..|v|] == v;
    assert StripRight(v + "_", IsEdge) == StripRight(v, IsEdge);
    assert Strip(v + "_", IsEdge) == v;
  }

  /** Different names can share a file: the mapping is not injective. */
  lemma SanitizeCollides()
    ensures SanitizeFilename("My List!!") == SanitizeFilename("My List??") == "My List"
  {
    var v := "My List";
    assert AllAllowed(v);
    assert "My List!!" == v + "!!" && "My List??" == v + "??";
    SanitizeDropsTrailingRun(v, "!!");
    SanitizeDropsTrailingRun(v, "??");
  }

  /** A name of allowed characters not starting with an edge character, plus ".json", is a clean path part. */
  lemma JsonNameClean(r: string)
    requires r != [] && AllAllowed(r) && !IsEdge(r[0])
    ensures var f := r + ".json";
      Kept(f) && EnsureFolderPath(f) == f && '/' !in f
  {
    var f := r + ".json";
    assert f[0] == r[0];
    assert f[|f| - 1] == 'n';
    assert !IsTrimmed(f[0]) && !IsTrimmed(f[|f| - 1]);
    StripUnchanged(f, IsSpace);
    assert AllAllowed(f);
  }

  /**
   * `_pl_path(folder, name)`: the playlist file sits directly in the trimmed
   * folder (or at the top when the folder is blank) and is named by the
   * sanitized name plus ".json", a name with no "/" in it.
   */
  function PlaylistPath(folder: string, name: string): (r: string)
    ensures r == (if Kept(folder) then EnsureFolderPath(folder) + "/" else "") + SanitizeFilename(name) + ".json"
    ensures '/' !in SanitizeFilename(name) + ".json"
  {
    var f := SanitizeFilename(name) + ".json";
    JsonNameClean(SanitizeFilename(name));
    PathJoinTwo(folder, f);
    PathJoin([folder, f])
  }
}
