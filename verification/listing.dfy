/**
 * The saved-playlist list (`list_saved_playlists`, my_blackhole_V10.py lines
 * 556-564 and 621-645): the JSON files of the playlist folder and of a legacy
 * folder are collected into one table keyed by path, a later folder's entry
 * replacing an earlier one, and the rows are sorted by lower-cased name.
 * The folder listings themselves are inputs.
 */
module Listing {
  import opened Wrappers
  import opened Text
  import opened Paths

  /** An item of a folder listing: its `type`, `name`, `path`, `size` and `sha`. */
  datatype Entry = Entry(kind: string, name: string, path: string, size: int, sha: string)

  /** A row of the saved-playlist table. */
  datatype Row = Row(name: string, path: string, size: int, sha: string, folder: string)

  /** The listing of one folder; `None` when listing the folder failed. */
  datatype FolderListing = FolderListing(folder: string, entries: Option<seq<Entry>>)

  /** `_pl_folder_primary()` followed by `_pl_folder_legacy_candidates()`. */
  function PlaylistFolders(playlistFolder: string, legacySetting: string): (r: seq<string>)
    ensures 1 <= |r| <= 2 && r[0] == EnsureFolderPath(playlistFolder)
    ensures |r| == 2 ==> r[1] == EnsureFolderPath(legacySetting) && r[1] != "" && r[1] != r[0]
    ensures |r| == 1 ==> EnsureFolderPath(legacySetting) in {"", r[0]}
  {
    var primary := EnsureFolderPath(playlistFolder);
    var alt := EnsureFolderPath(legacySetting);
    if alt != "" && alt != primary then [primary, alt] else [primary]
  }

  /** A file whose lower-cased name ends with ".json". */
  predicate IsPlaylistFile(e: Entry) {
    e.kind == "file" && EndsWith(Lower(e.name), ".json")
  }

  function ToRow(e: Entry, folder: string): Row {
    Row(e.name, e.path, e.size, e.sha, folder)
  }

  /** The `seen` dictionary: its keys in insertion order and its values. */
  datatype Seen = Seen(order: seq<string>, rows: map<string, Row>)

  ghost predicate Distinct<T>(s: seq<T>) {
    forall i, j :: 0 <= i < j < |s| ==> s[i] != s[j]
  }

  /** The keys are listed once each, and each row sits under its own path. */
  ghost predicate Consistent(s: Seen) {
    && Distinct(s.order)
    && (forall p :: p in s.rows <==> p in s.order)
    && (forall p :: p in s.rows ==> s.rows[p].path == p)
  }

  /**
   * `seen[key] = {...}`: a new key goes to the end of the insertion order,
   * an existing key keeps its place and takes the new row.
   */
  function Record(s: Seen, e: Entry, folder: string): (r: Seen)
    requires Consistent(s)
    ensures Consistent(r)
    ensures r.rows.Keys == s.rows.Keys + {e.path}
    ensures r.rows[e.path] == ToRow(e, folder)
    ensures forall p :: p in s.rows && p != e.path ==> r.rows[p] == s.rows[p]
    ensures e.path in s.rows ==> r.order == s.order
    ensures e.path !in s.rows ==> r.order == s.order + [e.path]
  {
    Seen(if e.path in s.rows then s.order else s.order + [e.path], s.rows[e.path := ToRow(e, folder)])
  }

  /** `_collect(folder)` over the items of one listing. */
  function CollectFolder(s: Seen, folder: string, entries: seq<Entry>): (r: Seen)
    requires Consistent(s)
    ensures Consistent(r)
    decreases |entries|
  {
    if entries == [] then s
    else
      var t := CollectFolder(s, folder, entries[..|entries| - 1]);
      var e := entries[|entries| - 1];
      if IsPlaylistFile(e) then Record(t, e, folder) else t
  }

  /** `_collect` applied to every listing in turn, starting from an empty dictionary. */
  function CollectAll(listings: seq<FolderListing>): (r: Seen)
    ensures Consistent(r)
    decreases |listings|
  {
    if listings == [] then Seen([], map[])
    else
      var s := CollectAll(listings[..|listings| - 1]);
      var l := listings[|listings| - 1];
      if l.entries.Some? then CollectFolder(s, l.folder, l.entries.value) else s
  }

  /** `list(seen.values())`. */
  function Values(s: Seen): (r: seq<Row>)
    requires Consistent(s)
    ensures |r| == |s.order|
  {
    seq(|s.order|, k requires 0 <= k < |s.order| => s.rows[s.order[k]])
  }

  /** The paths of the playlist files of some entries. */
  function KeptPathsIn(entries: seq<Entry>): set<string> {
    set e | e in entries && IsPlaylistFile(e) :: e.path
  }

  /** The paths of the playlist files of every listing that succeeded. */
  function KeptPaths(listings: seq<FolderListing>): set<string>
    decreases |listings|
  {
    if listings == [] then {}
    else
      var l := listings[|listings| - 1];
      KeptPaths(listings[..|listings| - 1]) + (if l.entries.Some? then KeptPathsIn(l.entries.value) else {})
  }

  lemma {:induction false} CollectFolderPaths(s: Seen, folder: string, entries: seq<Entry>)
    requires Consistent(s)
    ensures CollectFolder(s, folder, entries).rows.Keys == s.rows.Keys + KeptPathsIn(entries)
    ensures forall p :: p in KeptPathsIn(entries) ==> CollectFolder(s, folder, entries).rows[p].folder == folder
    decreases |entries|
  {
    if entries != [] {
      var init := entries[..|entries| - 1];
      var e := entries[|entries| - 1];
      CollectFolderPaths(s, folder, init);
      assert entries == init + [e];
      assert KeptPathsIn(entries) == KeptPathsIn(init) + (if IsPlaylistFile(e) then {e.path} else {});
    }
  }

  /** Exactly the playlist files of the listed folders end up in the table, once per path. */
  lemma {:induction false} CollectedPaths(listings: seq<FolderListing>)
    ensures CollectAll(listings).rows.Keys == KeptPaths(listings)
    decreases |listings|
  {
    if listings != [] {
      var l := listings[|listings| - 1];
      CollectedPaths(listings[..|listings| - 1]);
      if l.entries.Some? {
        CollectFolderPaths(CollectAll(listings[..|listings| - 1]), l.folder, l.entries.value);
      }
    }
  }

  /** A file the last folder lists is shown with that folder, whatever earlier folders held. */
  lemma {:induction false} LastFolderWins(listings: seq<FolderListing>, e: Entry)
    requires listings != [] && listings[|listings| - 1].entries.Some?
    requires e in listings[|listings| - 1].entries.value && IsPlaylistFile(e)
    ensures e.path in CollectAll(listings).rows
    ensures CollectAll(listings).rows[e.path].folder == listings[|listings| - 1].folder
  {
    var l := listings[|listings| - 1];
    var s := CollectAll(listings[..|listings| - 1]);
    assert CollectAll(listings) == CollectFolder(s, l.folder, l.entries.value);
    CollectFolderPaths(s, l.folder, l.entries.value);
    assert e.path in KeptPathsIn(l.entries.value);
  }

  /** Python's `<=` on strings: lexicographic by code point. */
  predicate LexLeq(a: string, b: string)
    decreases |a|
  {
    a == [] || (b != [] && (a[0] < b[0] || (a[0] == b[0] && LexLeq(a[1..], b[1..]))))
  }

  lemma {:induction false} LexLeqTotal(a: string, b: string)
    ensures LexLeq(a, b) || LexLeq(b, a)
    decreases |a|
  {
    if a != [] && b != [] && a[0] == b[0] {
      LexLeqTotal(a[1..], b[1..]);
    }
  }

  /** The sort key `x["name"].lower()`. */
  function Key(r: Row): string {
    Lower(r.name)
  }

  predicate SortedByName(s: seq<Row>) {
    forall i :: 0 < i < |s| ==> LexLeq(Key(s[i - 1]), Key(s[i]))
  }

  /** Places `x` after every row whose key is not above its own, which keeps the sort stable. */
  function InsertByName(x: Row, s: seq<Row>): (r: seq<Row>)
    requires SortedByName(s)
    ensures SortedByName(r)
    ensures multiset(r) == multiset(s) + multiset{x}
    ensures |r| == |s| + 1
    ensures s == [] ==> r == [x]
    ensures s != [] ==> r[0] == x || r[0] == s[0]
    decreases |s|
  {
    if s == [] then [x]
    else if !LexLeq(Key(s[0]), Key(x)) then
      LexLeqTotal(Key(s[0]), Key(x));
      [x] + s
    else
      assert s == [s[0]] + s[1..];
      [s[0]] + InsertByName(x, s[1..])
  }

  /** `rows.sort(key=lambda x: x["name"].lower())`. */
  function SortByName(s: seq<Row>): (r: seq<Row>)
    ensures SortedByName(r)
    ensures multiset(r) == multiset(s)
    decreases |s|
  {
    if s == [] then []
    else
      assert s == s[..|s| - 1] + [s[|s| - 1]];
      InsertByName(s[|s| - 1], SortByName(s[..|s| - 1]))
  }

  /** The paths of some rows. */
  function PathsOf(rows: seq<Row>): set<string> {
    set r | r in rows :: r.path
  }

  predicate DistinctPaths(rows: seq<Row>) {
    forall i, j :: 0 <= i < j < |rows| ==> rows[i].path != rows[j].path
  }

  lemma ValuesDistinctPaths(s: Seen)
    requires Consistent(s)
    ensures DistinctPaths(Values(s))
    ensures PathsOf(Values(s)) == s.rows.Keys
  {
    var v := Values(s);
    forall p | p in s.rows ensures p in PathsOf(v) {
      var k :| 0 <= k < |s.order| && s.order[k] == p;
      assert v[k].path == p;
    }
  }

  lemma {:induction false} DistinctCount<T>(s: seq<T>, x: T)
    requires Distinct(s)
    ensures multiset(s)[x] <= 1
    decreases |s|
  {
    if s != [] {
      DistinctCount(s[1..], x);
      assert s == [s[0]] + s[1..];
      if s[0] == x {
        assert x !in s[1..];
      }
    }
  }

  lemma RepeatedCount<T>(s: seq<T>, i: nat, j: nat)
    requires i < j < |s| && s[i] == s[j]
    ensures multiset(s)[s[i]] >= 2
  {
    assert s == s[..j] + [s[j]] + s[j + 1..];
    assert s[i] in s[..j];
  }

  /** Rows with distinct paths stay so under any reordering of them. */
  lemma PermutationKeepsDistinctPaths(a: seq<Row>, b: seq<Row>)
    requires DistinctPaths(a) && multiset(a) == multiset(b)
    ensures DistinctPaths(b)
    ensures PathsOf(a) == PathsOf(b)
  {
    assert Distinct(a) by {
      forall i, j | 0 <= i < j < |a| ensures a[i] != a[j] {
        assert a[i].path != a[j].path;
      }
    }
    forall i, j | 0 <= i < j < |b| ensures b[i].path != b[j].path {
      if b[i].path == b[j].path {
        assert b[i] in multiset(a) && b[j] in multiset(a);
        if b[i] == b[j] {
          RepeatedCount(b, i, j);
          DistinctCount(a, b[i]);
        }
      }
    }
    forall r ensures r in a <==> r in b {
      assert r in a <==> r in multiset(a);
      assert r in b <==> r in multiset(b);
    }
  }

  /** The loops of `list_saved_playlists`, then the sort. */
  method ListSavedPlaylists(listings: seq<FolderListing>) returns (rows: seq<Row>)
    ensures rows == SortByName(Values(CollectAll(listings)))
  {
    var order: seq<string> := [];
    var seen: map<string, Row> := map[];
    for i := 0 to |listings|
      invariant Seen(order, seen) == CollectAll(listings[..i])
    {
      assert listings[..i + 1][..i] == listings[..i];
      var l := listings[i];
      if l.entries.Some? {
        var items := l.entries.value;
        ghost var start := Seen(order, seen);
        for j := 0 to |items|
          invariant Seen(order, seen) == CollectFolder(start, l.folder, items[..j])
        {
          assert items[..j + 1][..j] == items[..j];
          var it := items[j];
          if IsPlaylistFile(it) {
            if it.path !in seen {
              order := order + [it.path];
            }
            seen := seen[it.path := ToRow(it, l.folder)];
          }
        }
        assert items[..|items|] == items;
      }
    }
    assert listings[..|listings|] == listings;
    rows := Values(Seen(order, seen));
    rows := SortByName(rows);
  }

  /**
   * The table lists every playlist file of the listed folders once, by
   * path, sorted by lower-cased name.
   */
  lemma ListingShape(listings: seq<FolderListing>)
    ensures var rows := SortByName(Values(CollectAll(listings)));
      SortedByName(rows) && DistinctPaths(rows) && PathsOf(rows) == KeptPaths(listings)
  {
    var s := CollectAll(listings);
    ValuesDistinctPaths(s);
    PermutationKeepsDistinctPaths(Values(s), SortByName(Values(s)));
    CollectedPaths(listings);
  }
}
