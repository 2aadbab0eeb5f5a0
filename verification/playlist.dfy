/**
 * The playlist held in the session (my_blackhole_V10.py lines 706-718,
 * 743-745, 818-828, 1063-1111): a list of tracks, the index of the current
 * track and whether it is playing. The row buttons move a track up or down,
 * delete it, or play it.
 *
 * The edits are first defined as functions on a track list and an index;
 * class `Playlist` applies them to its fields.
 */
module PlaylistEditing {
  import opened Tracks

  /**
   * The session invariant: the current index points at a track, or is 0
   * when there is none.
   */
  predicate ValidCursor(n: nat, current: int) {
    if n == 0 then current == 0 else 0 <= current < n
  }

  /** The "↑" button of row `i` (lines 1082-1091). */
  function MovedUp<T>(s: seq<T>, current: int, i: nat): (r: (seq<T>, int))
    requires i < |s|
    ensures |r.0| == |s| && multiset(r.0) == multiset(s)
    ensures i > 0 ==> r.0[i - 1] == s[i] && r.0[i] == s[i - 1]
    ensures forall k :: 0 <= k < |s| && k != i - 1 && k != i ==> r.0[k] == s[k]
    ensures i == 0 ==> r == (s, current)
    ensures 0 <= current < |s| ==> 0 <= r.1 < |s| && r.0[r.1] == s[current]
  {
    if i > 0 then
      var next := if current == i then current - 1 else if current == i - 1 then current + 1 else current;
      (s[i - 1 := s[i]][i := s[i - 1]], next)
    else (s, current)
  }

  /** The "↓" button of row `i` (lines 1093-1102). */
  function MovedDown<T>(s: seq<T>, current: int, i: nat): (r: (seq<T>, int))
    requires i < |s|
    ensures |r.0| == |s| && multiset(r.0) == multiset(s)
    ensures i < |s| - 1 ==> r.0[i + 1] == s[i] && r.0[i] == s[i + 1]
    ensures forall k :: 0 <= k < |s| && k != i + 1 && k != i ==> r.0[k] == s[k]
    ensures i == |s| - 1 ==> r == (s, current)
    ensures 0 <= current < |s| ==> 0 <= r.1 < |s| && r.0[r.1] == s[current]
  {
    if i < |s| - 1 then
      var next := if current == i then current + 1 else if current == i + 1 then current - 1 else current;
      (s[i + 1 := s[i]][i := s[i + 1]], next)
    else (s, current)
  }

  /**
   * The "🗑" button of row `i` (lines 1104-1111): the track goes, and an
   * index past the new end is pulled back to the last track (0 when none is
   * left). The index keeps its number otherwise, so after deleting a track
   * before the current one it points at the track that followed it.
   */
  function Removed<T>(s: seq<T>, current: int, i: nat): (r: (seq<T>, int))
    requires i < |s|
    ensures |r.0| == |s| - 1
    ensures forall k :: 0 <= k < i ==> r.0[k] == s[k]
    ensures forall k :: i <= k < |r.0| ==> r.0[k] == s[k + 1]
    ensures multiset(r.0) == multiset(s) - multiset{s[i]}
    ensures current >= 0 ==> ValidCursor(|r.0|, r.1)
    ensures current < |r.0| ==> r.1 == current
    ensures 0 <= current < i ==> r.0[r.1] == s[current]
  {
    var rest := s[..i] + s[i + 1..];
    assert s == s[..i] + [s[i]] + s[i + 1..];
    (rest, if current >= |rest| then (if |rest| - 1 > 0 then |rest| - 1 else 0) else current)
  }

  /** Adding a track from the "➕" form (lines 743-745): the first track becomes current. */
  function Appended<T>(s: seq<T>, current: int, t: T): (r: (seq<T>, int))
    ensures r.0 == s + [t]
    ensures s == [] ==> r.1 == 0
    ensures s != [] ==> r.1 == current
    ensures ValidCursor(|s|, current) ==> ValidCursor(|r.0|, r.1)
  {
    (s + [t], if |s| + 1 == 1 then 0 else current)
  }

  lemma TotalSecsPairSwap(pre: seq<Track>, x: Track, y: Track, post: seq<Track>)
    ensures TotalSecs(pre + [x, y] + post) == TotalSecs(pre + [y, x] + post)
  {
    TotalSecsConcat(pre + [x, y], post);
    TotalSecsConcat(pre, [x, y]);
    TotalSecsConcat(pre + [y, x], post);
    TotalSecsConcat(pre, [y, x]);
    assert [x, y][..1] == [x] && [y, x][..1] == [y];
    assert [x][..0] == [] && [y][..0] == [];
  }

  /** Swapping two neighbours, written as a split of the list around them. */
  lemma SwapAsConcat<T>(s: seq<T>, i: nat)
    requires 0 < i < |s|
    ensures s == s[..i - 1] + [s[i - 1], s[i]] + s[i + 1..]
    ensures s[i - 1 := s[i]][i := s[i - 1]] == s[..i - 1] + [s[i], s[i - 1]] + s[i + 1..]
  {
    var pre, post := s[..i - 1], s[i + 1..];
    var r, t := s[i - 1 := s[i]][i := s[i - 1]], pre + [s[i], s[i - 1]] + post;
    assert |r| == |t|;
    forall k | 0 <= k < |r| ensures r[k] == t[k] {
      if k < i - 1 {
        assert t[k] == pre[k];
      } else if k > i {
        assert t[k] == post[k - i - 1];
      }
    }
  }

  /** Moving a track up leaves the total duration as it was. */
  lemma MoveUpKeepsTotal(s: seq<Track>, current: int, i: nat)
    requires i < |s|
    ensures TotalSecs(MovedUp(s, current, i).0) == TotalSecs(s)
  {
    if i > 0 {
      SwapAsConcat(s, i);
      TotalSecsPairSwap(s[..i - 1], s[i - 1], s[i], s[i + 1..]);
    }
  }

  /** Moving a track down leaves the total duration as it was. */
  lemma MoveDownKeepsTotal(s: seq<Track>, current: int, i: nat)
    requires i < |s|
    ensures TotalSecs(MovedDown(s, current, i).0) == TotalSecs(s)
  {
    if i < |s| - 1 {
      MoveUpKeepsTotal(s, current, i + 1);
      assert MovedDown(s, current, i).0 == MovedUp(s, current, i + 1).0;
    }
  }

  /** Deleting a track takes exactly its duration off the total. */
  lemma RemoveTakesOffDuration(s: seq<Track>, current: int, i: nat)
    requires i < |s|
    ensures TotalSecs(Removed(s, current, i).0) == TotalSecs(s) - Seconds(s[i])
  {
    SplitAround(s, i);
    assert Removed(s, current, i).0 == s[..i] + s[i + 1..];
    TotalSecsWithout(s[..i], s[i], s[i + 1..]);
  }

  lemma SplitAround<T>(s: seq<T>, i: nat)
    requires i < |s|
    ensures s == s[..i] + [s[i]] + s[i + 1..]
  {
  }

  lemma TotalSecsWithout(pre: seq<Track>, x: Track, post: seq<Track>)
    ensures TotalSecs(pre + [x] + post) == TotalSecs(pre + post) + Seconds(x)
  {
    TotalSecsConcat(pre + [x], post);
    TotalSecsConcat(pre, [x]);
    TotalSecsConcat(pre, post);
    assert [x][..0] == [];
  }

  class Playlist {
    var tracks: seq<Track>
    var currentIndex: int
    var isPlaying: bool

    ghost predicate Valid()
      reads this
    {
      ValidCursor(|tracks|, currentIndex)
    }

    /** The session defaults (lines 707-712). */
    constructor ()
      ensures Valid()
      ensures tracks == [] && currentIndex == 0 && !isPlaying
    {
      tracks, currentIndex, isPlaying := [], 0, false;
    }

    /** Appends a resolved track (lines 743-745). */
    method Add(t: Track)
      requires Valid()
      modifies this
      ensures Valid()
      ensures (tracks, currentIndex) == Appended(old(tracks), old(currentIndex), t)
      ensures isPlaying == old(isPlaying)
    {
      tracks := tracks + [t];
      if |tracks| == 1 {
        currentIndex := 0;
      }
    }

    /** The "↑" button of row `i` (lines 1082-1091); it pauses playback when it acts. */
    method MoveUp(i: nat)
      requires Valid() && i < |tracks|
      modifies this
      ensures Valid()
      ensures (tracks, currentIndex) == MovedUp(old(tracks), old(currentIndex), i)
      ensures tracks[currentIndex] == old(tracks[currentIndex])
      ensures isPlaying == (old(isPlaying) && i == 0)
    {
      if i > 0 {
        isPlaying := false;
        tracks := tracks[i - 1 := tracks[i]][i := tracks[i - 1]];
        if currentIndex == i {
          currentIndex := currentIndex - 1;
        } else if currentIndex == i - 1 {
          currentIndex := currentIndex + 1;
        }
      }
    }

    /** The "↓" button of row `i` (lines 1093-1102); it pauses playback when it acts. */
    method MoveDown(i: nat)
      requires Valid() && i < |tracks|
      modifies this
      ensures Valid()
      ensures (tracks, currentIndex) == MovedDown(old(tracks), old(currentIndex), i)
      ensures tracks[currentIndex] == old(tracks[currentIndex])
      ensures isPlaying == (old(isPlaying) && i == |tracks| - 1)
    {
      if i < |tracks| - 1 {
        isPlaying := false;
        tracks := tracks[i + 1 := tracks[i]][i := tracks[i + 1]];
        if currentIndex == i {
          currentIndex := currentIndex + 1;
        } else if currentIndex == i + 1 {
          currentIndex := currentIndex - 1;
        }
      }
    }

    /** The "🗑" button of row `i` (lines 1104-1111); it always pauses playback. */
    method Delete(i: nat)
      requires Valid() && i < |tracks|
      modifies this
      ensures Valid()
      ensures (tracks, currentIndex) == Removed(old(tracks), old(currentIndex), i)
      ensures !isPlaying
    {
      isPlaying := false;
      tracks := tracks[..i] + tracks[i + 1..];
      if currentIndex >= |tracks| {
        currentIndex := if |tracks| - 1 > 0 then |tracks| - 1 else 0;
      }
    }

    /** The "⏵/⏸" button of row `i` (lines 1065-1080): toggles the current track or starts another. */
    method PlayRow(i: nat)
      requires Valid() && i < |tracks|
      modifies this
      ensures Valid()
      ensures tracks == old(tracks)
      ensures currentIndex == i
      ensures isPlaying == (if i == old(currentIndex) then !old(isPlaying) else true)
    {
      if i == currentIndex {
        isPlaying := !isPlaying;
      } else {
        currentIndex := i;
        isPlaying := true;
      }
    }

    /** The "🧹" button (lines 818-828): empties the list. */
    method Clear()
      modifies this
      ensures Valid()
      ensures tracks == [] && currentIndex == 0 && !isPlaying
    {
      isPlaying := false;
      currentIndex := 0;
      tracks := [];
    }
  }
}
