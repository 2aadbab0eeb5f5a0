/**
 * Tracks of a playlist (my_blackhole_V10.py lines 434-440), the duration sums
 * shown above the playlist (lines 543-547) and the mapping between a track
 * and the object stored for it in a saved playlist (lines 569-594).
 */
module Tracks {
  import opened Wrappers
  import opened Text

  /** The `Track` dataclass; `None` durations and audio URLs are `Option`s. */
  datatype Track = Track(
    videoId: string,
    title: string,
    duration: Option<int>,
    thumbnailUrl: string,
    audioUrl: Option<string>)

  /** `int(t.duration or 0)`: a missing duration counts as 0. */
  function Seconds(t: Track): int {
    t.duration.GetOr(0)
  }

  /**
   * `_playlist_total_secs(tracks)`: never negative when no duration is, and
   * at least the duration of any one track.
   */
  function TotalSecs(tracks: seq<Track>): (r: int)
    ensures NoNegativeDuration(tracks) ==>
      r >= 0 && forall k :: 0 <= k < |tracks| ==> r >= Seconds(tracks[k])
    decreases |tracks|
  {
    if tracks == [] then 0
    else TotalSecs(tracks[..|tracks| - 1]) + Seconds(tracks[|tracks| - 1])
  }

  /** `max(0, min(idx, n))`. */
  function Clamp(idx: int, n: nat): (r: nat)
    ensures r <= n
    ensures 0 <= idx <= n ==> r == idx
  {
    if idx < 0 then 0 else if idx > n then n else idx
  }

  /** `_sum_before_index(tracks, idx)`: the durations of the tracks before position `idx`. */
  function SumBeforeIndex(tracks: seq<Track>, idx: int): (r: int)
    ensures idx <= 0 ==> r == 0
    ensures idx >= |tracks| ==> r == TotalSecs(tracks)
  {
    assert tracks[..|tracks|] == tracks;
    TotalSecs(tracks[..Clamp(idx, |tracks|)])
  }

  lemma {:induction false} TotalSecsConcat(a: seq<Track>, b: seq<Track>)
    ensures TotalSecs(a + b) == TotalSecs(a) + TotalSecs(b)
    decreases |b|
  {
    if b == [] {
      assert a + b == a;
    } else {
      var c := a + b;
      assert c[..|c| - 1] == a + b[..|b| - 1];
      assert c[|c| - 1] == b[|b| - 1];
      TotalSecsConcat(a, b[..|b| - 1]);
    }
  }

  /** Moving the index one track on adds exactly that track's duration. */
  lemma SumBeforeIndexStep(tracks: seq<Track>, i: nat)
    requires i < |tracks|
    ensures SumBeforeIndex(tracks, i + 1) == SumBeforeIndex(tracks, i) + Seconds(tracks[i])
  {
    assert tracks[..i + 1][..i] == tracks[..i];
  }

  /** The time before the current track plus the time from it on is the total. */
  lemma SumBeforeIndexSplits(tracks: seq<Track>, i: nat)
    requires i <= |tracks|
    ensures SumBeforeIndex(tracks, i) + TotalSecs(tracks[i..]) == TotalSecs(tracks)
  {
    assert tracks[..i] + tracks[i..] == tracks;
    TotalSecsConcat(tracks[..i], tracks[i..]);
  }

  predicate NoNegativeDuration(tracks: seq<Track>) {
    forall k :: 0 <= k < |tracks| ==> Seconds(tracks[k]) >= 0
  }

  /** With no negative durations, the time before the index grows with the index. */
  lemma {:induction false} SumBeforeIndexMonotone(tracks: seq<Track>, i: int, j: int)
    requires NoNegativeDuration(tracks)
    requires i <= j
    ensures SumBeforeIndex(tracks, i) <= SumBeforeIndex(tracks, j)
    decreases j - i
  {
    var ci, cj := Clamp(i, |tracks|), Clamp(j, |tracks|);
    assert SumBeforeIndex(tracks, i) == SumBeforeIndex(tracks, ci);
    assert SumBeforeIndex(tracks, j) == SumBeforeIndex(tracks, cj);
    if ci < cj {
      SumBeforeIndexStep(tracks, ci);
      SumBeforeIndexMonotone(tracks, ci + 1, cj);
    }
  }

  /** Durations 30, 45, 0 and 12, current index 2. */
  lemma SumsExample(a: Track, b: Track, c: Track, d: Track)
    requires a.duration == Some(30) && b.duration == Some(45) && c.duration == Some(0) && d.duration == Some(12)
    ensures TotalSecs([a, b, c, d]) == 87
    ensures SumBeforeIndex([a, b, c, d], 2) == 75
  {
    var ts := [a, b, c, d];
    assert [a][..0] == [] && TotalSecs([a]) == 30;
    assert [a, b][..1] == [a] && TotalSecs([a, b]) == 75;
    assert [a, b, c][..2] == [a, b] && TotalSecs([a, b, c]) == 75;
    assert ts[..3] == [a, b, c] && ts[..2] == [a, b];
  }

  // ---------------------------------------------------------------------
  // Stored form

  /** The object stored for one track: each key may be missing, `null` or set. */
  datatype TrackObject = TrackObject(
    videoId: Field<string>,
    title: Field<string>,
    duration: Field<int>,
    thumbnailUrl: Field<string>)

  /** An element of the stored `tracks` array: an object, or anything else (which `x.get` rejects). */
  datatype Element = Object(obj: TrackObject) | NotAnObject

  /**
   * The decoded JSON document of a playlist file: a bare array, an object
   * (whose `tracks` value is `None` when it is missing, `null`, empty or not
   * an array), or any other JSON value.
   */
  datatype Payload = ArrayPayload(elements: seq<Element>) | ObjectPayload(tracks: Option<seq<Element>>) | OtherPayload

  /** `f"https://i.ytimg.com/vi/{vid}/hqdefault.jpg"`. */
  function DefaultThumbnail(vid: string): (r: string)
    ensures r != []
  {
    "https://i.ytimg.com/vi/" + vid + "/hqdefault.jpg"
  }

  /**
   * A track in the form a load produces: it has a duration, a non-empty
   * thumbnail and no audio URL.
   */
  predicate SavedForm(t: Track) {
    t.duration.Some? && t.thumbnailUrl != [] && t.audioUrl.None?
  }

  /**
   * `_serialize_track(t)`: all four keys are written, and decoding the object
   * gives the track back exactly when the track is in saved form.
   */
  function SerializeTrack(t: Track): (r: TrackObject)
    ensures r.videoId.Present? && r.title.Present? && r.duration.Present? && r.thumbnailUrl.Present?
    ensures DecodeTrack(r) == t <==> SavedForm(t)
  {
    TrackObject(Present(t.videoId), Present(t.title), Present(Seconds(t)), Present(t.thumbnailUrl))
  }

  /**
   * `[_serialize_track(t) for t in tracks]`: one object per track, so a
   * later load skips none of them.
   */
  function SerializeTracks(tracks: seq<Track>): (r: seq<Element>)
    ensures |r| == |tracks| && forall k :: 0 <= k < |r| ==> r[k].Object?
  {
    seq(|tracks|, k requires 0 <= k < |tracks| => Object(SerializeTrack(tracks[k])))
  }

  /** The body of the loop in `_deserialize_tracks` for one stored object. */
  function DecodeTrack(o: TrackObject): (t: Track)
    ensures t.audioUrl == None && t.duration.Some?
    ensures t.thumbnailUrl != []
  {
    var vid := match o.videoId
      case Absent => ""
      case Null => "None"
      case Present(s) => s;
    var title := match o.title
      case Absent => "Video " + vid
      case Null => "None"
      case Present(s) => s;
    var duration := match o.duration
      case Present(n) => n
      case _ => 0;
    var thumb := match o.thumbnailUrl
      case Present(s) => if s == "" then DefaultThumbnail(vid) else s
      case _ => DefaultThumbnail(vid);
    Track(vid, title, Some(duration), thumb, None)
  }

  /** What `_deserialize_tracks` makes of a list of elements: the objects, decoded, in order. */
  function DecodeElements(elements: seq<Element>): (r: seq<Track>)
    ensures |r| <= |elements|
    decreases |elements|
  {
    if elements == [] then []
    else
      var init := DecodeElements(elements[..|elements| - 1]);
      match elements[|elements| - 1]
      case Object(o) => init + [DecodeTrack(o)]
      case NotAnObject => init
  }

  /** Decoding a list is decoding its parts. */
  lemma {:induction false} DecodeElementsConcat(a: seq<Element>, b: seq<Element>)
    ensures DecodeElements(a + b) == DecodeElements(a) + DecodeElements(b)
    decreases |b|
  {
    if b == [] {
      assert a + b == a;
    } else {
      var c, b' := a + b, b[..|b| - 1];
      assert c[..|c| - 1] == a + b';
      assert c[|c| - 1] == b[|b| - 1];
      DecodeElementsConcat(a, b');
      var x, y := DecodeElements(a), DecodeElements(b');
      match b[|b| - 1] {
        case Object(o) =>
          assert DecodeElements(b) == y + [DecodeTrack(o)];
          assert DecodeElements(c) == (x + y) + [DecodeTrack(o)];
          assert (x + y) + [DecodeTrack(o)] == x + (y + [DecodeTrack(o)]);
        case NotAnObject =>
          assert DecodeElements(b) == y;
          assert DecodeElements(c) == x + y;
      }
    }
  }

  /** One object decodes to its track; anything else is skipped. */
  lemma DecodeElementsOne(e: Element)
    ensures e.Object? ==> DecodeElements([e]) == [DecodeTrack(e.obj)]
    ensures e.NotAnObject? ==> DecodeElements([e]) == []
  {
    assert [e][..0] == [];
  }

  /** The elements `_deserialize_tracks` walks over. */
  function PayloadElements(p: Payload): seq<Element> {
    match p
    case ArrayPayload(es) => es
    case ObjectPayload(Some(es)) => es
    case _ => []
  }

  /** `_deserialize_tracks(payload)`: a loop that appends one track per stored object. */
  method DeserializeTracks(payload: Payload) returns (arr: seq<Track>)
    ensures arr == DecodeElements(PayloadElements(payload))
  {
    arr := [];
    var items := PayloadElements(payload);
    var i := 0;
    while i < |items|
      invariant 0 <= i <= |items|
      invariant arr == DecodeElements(items[..i])
    {
      assert items[..i + 1] == items[..i] + [items[i]];
      DecodeElementsConcat(items[..i], [items[i]]);
      DecodeElementsOne(items[i]);
      match items[i] {
        case Object(o) => arr := arr + [DecodeTrack(o)];
        case NotAnObject =>
      }
      i := i + 1;
    }
    assert items[..i] == items;
  }

  /**
   * Serializing and deserializing a track keeps its id, title and duration
   * (a missing duration becomes 0), keeps the thumbnail unless it is empty,
   * in which case the default thumbnail of the video is used, and drops the
   * audio URL.
   */
  lemma TrackRoundTrip(t: Track)
    ensures var r := DecodeTrack(SerializeTrack(t));
      && r.videoId == t.videoId && r.title == t.title
      && r.duration == Some(Seconds(t))
      && r.thumbnailUrl == (if t.thumbnailUrl == "" then DefaultThumbnail(t.videoId) else t.thumbnailUrl)
      && r.audioUrl == None
  {
  }

  /** A whole saved list of tracks reads back track for track, in order. */
  lemma {:induction false} TracksRoundTrip(tracks: seq<Track>)
    ensures |DecodeElements(SerializeTracks(tracks))| == |tracks|
    ensures forall k :: 0 <= k < |tracks| ==>
      DecodeElements(SerializeTracks(tracks))[k] == DecodeTrack(SerializeTrack(tracks[k]))
    decreases |tracks|
  {
    if tracks != [] {
      var init := tracks[..|tracks| - 1];
      assert SerializeTracks(tracks)[..|tracks| - 1] == SerializeTracks(init);
      TracksRoundTrip(init);
    }
  }

  /** A list of tracks reads back as itself exactly when every track is in saved form. */
  lemma SavedTracksReadBack(tracks: seq<Track>)
    ensures DecodeElements(SerializeTracks(tracks)) == tracks <==>
      forall k :: 0 <= k < |tracks| ==> SavedForm(tracks[k])
  {
    var d := DecodeElements(SerializeTracks(tracks));
    TracksRoundTrip(tracks);
    if d == tracks {
      forall k | 0 <= k < |tracks|
        ensures SavedForm(tracks[k])
      {
        assert d[k] == DecodeTrack(SerializeTrack(tracks[k]));
      }
    }
    if forall k :: 0 <= k < |tracks| ==> SavedForm(tracks[k]) {
      forall k | 0 <= k < |tracks|
        ensures d[k] == tracks[k]
      {
        assert DecodeTrack(SerializeTrack(tracks[k])) == tracks[k];
      }
    }
  }

  /** Reading back a saved playlist gives the same total duration. */
  lemma {:induction false} RoundTripKeepsTotal(tracks: seq<Track>)
    ensures TotalSecs(DecodeElements(SerializeTracks(tracks))) == TotalSecs(tracks)
    decreases |tracks|
  {
    if tracks != [] {
      var init := tracks[..|tracks| - 1];
      assert SerializeTracks(tracks)[..|tracks| - 1] == SerializeTracks(init);
      var d := DecodeElements(SerializeTracks(tracks));
      assert d == DecodeElements(SerializeTracks(init)) + [DecodeTrack(SerializeTrack(tracks[|tracks| - 1]))];
      assert d[..|d| - 1] == DecodeElements(SerializeTracks(init));
      RoundTripKeepsTotal(init);
    }
  }

  /** Tracks that went through one save and load are not changed by another. */
  lemma RoundTripStable(tracks: seq<Track>)
    ensures var once := DecodeElements(SerializeTracks(tracks));
      DecodeElements(SerializeTracks(once)) == once
  {
    var once := DecodeElements(SerializeTracks(tracks));
    TracksRoundTrip(tracks);
    TracksRoundTrip(once);
  }
}
