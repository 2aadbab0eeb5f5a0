/**
 * Text snippets (my_blackhole_V10.py lines 168-196, 353-400 and 1653-1683).
 * The snippet list lives in one JSON file, `snippets.json`, in the snippet
 * folder. Each action reads the file, changes the list once and writes the
 * whole list back.
 */
module Snippets {
  import opened Wrappers
  import opened Text
  import opened Paths
  import opened Store

  /** An element of the stored array: a bare string (the old format) or an object with `t` and `hint`. */
  datatype RawItem = Plain(s: string) | Object(t: Field<string>, hint: Field<string>)

  /** A normalized snippet: its text and, when there is one, a non-empty hint. */
  datatype Snippet = Snippet(t: string, hint: Option<string>)

  predicate WellFormed(x: Snippet) {
    x.hint != Some("")
  }

  /** `_normalize_snippet_item(x)`. */
  function Normalize(x: RawItem): (r: Snippet)
    ensures WellFormed(r)
    ensures x.Plain? ==> r == Snippet(x.s, None)
    ensures x.Object? && x.t.Present? ==> r.t == x.t.value
  {
    match x
    case Plain(s) => Snippet(s, None)
    case Object(t, hint) =>
      var text := match t
        case Absent => ""
        case Null => "None"
        case Present(s) => s;
      var h := match hint
        case Present(s) => if s == "" then None else Some(s)
        case _ => None;
      Snippet(text, h)
  }

  /** The object written for a snippet: `{"t": ...}`, with `"hint"` only when there is a hint. */
  function ToObject(x: Snippet): (r: RawItem)
    ensures WellFormed(x) <==> Normalize(r) == x
    ensures r.Object? && r.t.Present?
  {
    Object(Present(x.t), if x.hint.Some? then Present(x.hint.value) else Absent)
  }

  /** Normalizing an item already in normalized form changes nothing. */
  lemma NormalizeIdempotent(x: RawItem)
    ensures Normalize(ToObject(Normalize(x))) == Normalize(x)
  {
  }

  /** The decoded content of `snippets.json`: a JSON array, or anything else (including an empty file). */
  datatype SnippetFile = SnippetArray(items: seq<RawItem>) | NotAnArray

  /** `load_snippets`: the normalized array, or an empty list when the file is missing or not an array. */
  function LoadSnippets(b: Option<Blob<SnippetFile>>): (r: seq<Snippet>)
    ensures forall k :: 0 <= k < |r| ==> WellFormed(r[k])
    ensures b.Some? && b.value.content.SnippetArray? ==>
      |r| == |b.value.content.items| &&
      forall k :: 0 <= k < |r| ==> r[k] == Normalize(b.value.content.items[k])
    ensures !(b.Some? && b.value.content.SnippetArray?) ==> r == []
  {
    if b.Some? && b.value.content.SnippetArray? then
      var items := b.value.content.items;
      seq(|items|, k requires 0 <= k < |items| => Normalize(items[k]))
    else []
  }

  /** The body `save_snippets` writes: every snippet normalized once more, in order. */
  function SaveBody(snippets: seq<Snippet>): (r: SnippetFile)
    ensures r.SnippetArray? && |r.items| == |snippets|
  {
    SnippetArray(seq(|snippets|, k requires 0 <= k < |snippets| => ToObject(Normalize(ToObject(snippets[k])))))
  }

  /** What was saved is what is loaded next, snippet for snippet and in order. */
  lemma SaveThenLoad(snippets: seq<Snippet>, sha: nat)
    requires forall k :: 0 <= k < |snippets| ==> WellFormed(snippets[k])
    ensures LoadSnippets(Some(Blob(SaveBody(snippets), sha))) == snippets
  {
    var r := LoadSnippets(Some(Blob(SaveBody(snippets), sha)));
    forall k | 0 <= k < |snippets| ensures r[k] == snippets[k] {
      assert Normalize(ToObject(snippets[k])) == snippets[k];
    }
  }

  /**
   * The "등록" button (lines 1657-1670): the input loses trailing
   * whitespace; an empty input is refused; a `hint:text` input is split at
   * its first colon, both halves stripped, and an empty hint dropped.
   */
  function ParseEntry(rawIn: string): (r: Option<Snippet>)
    ensures r.Some? ==> WellFormed(r.value)
  {
    var raw := StripRight(rawIn, IsSpace);
    if raw == [] then None
    else if ':' in raw then
      var (left, right) := SplitFirst(raw, ':');
      var hint := Strip(left, IsSpace);
      Some(Snippet(Strip(right, IsSpace), if hint == [] then None else Some(hint)))
    else Some(Snippet(raw, None))
  }

  /** How a snippet is typed into the input box: `hint:text`, or the text alone. */
  function EntryText(x: Snippet): string {
    match x.hint
    case Some(h) => h + ":" + x.t
    case None => x.t
  }

  /**
   * The snippets that survive typing: a hint without colons or surrounding
   * whitespace and a text without surrounding whitespace, or a non-empty text
   * without colons or trailing whitespace (leading whitespace is kept there).
   */
  predicate Typable(x: Snippet) {
    match x.hint
    case Some(h) =>
      h != [] && ':' !in h && Strip(h, IsSpace) == h && Strip(x.t, IsSpace) == x.t
    case None =>
      x.t != [] && ':' !in x.t && !IsSpace(x.t[|x.t| - 1])
  }

  lemma StripRightUnchanged(s: string)
    requires s != [] && !IsSpace(s[|s| - 1])
    ensures StripRight(s, IsSpace) == s
  {
  }

  /** Typing a snippet into the input box registers exactly that snippet. */
  lemma ParseEntryText(x: Snippet)
    requires Typable(x)
    ensures ParseEntry(EntryText(x)) == Some(x)
  {
    var e := EntryText(x);
    match x.hint
    case Some(h) =>
      assert e == h + [':'] + x.t;
      if x.t == [] {
        StripRightUnchanged(e);
      } else {
        assert e[|e| - 1] == x.t[|x.t| - 1];
        assert !IsSpace(x.t[|x.t| - 1]);
        StripRightUnchanged(e);
      }
      SplitFirstOf(h, ':', x.t);
    case None =>
      StripRightUnchanged(e);
  }

  /** An input registers nothing exactly when it is whitespace only. */
  lemma ParseEntryBlank(rawIn: string)
    ensures ParseEntry(rawIn).None? <==> forall k :: 0 <= k < |rawIn| ==> IsSpace(rawIn[k])
  {
    StripRightEmpty(rawIn, IsSpace);
  }

  /** `path_join(ensure_folder_path(folder), "snippets.json")`. */
  function SnippetPath(folder: string): string {
    PathJoin([EnsureFolderPath(folder), "snippets.json"])
  }

  /** The snippet list currently stored at `path`. */
  function Stored(objects: map<string, Blob<SnippetFile>>, path: string): seq<Snippet> {
    LoadSnippets(if path in objects then Some(objects[path]) else None)
  }

  /** Loads, appends one item and saves: the "등록" button (lines 1656-1683). */
  method Register(store: Store<SnippetFile>, folder: string, rawIn: string) returns (ok: bool, snippets: seq<Snippet>)
    requires store.Valid()
    modifies store
    ensures store.Valid()
    ensures ok == ParseEntry(rawIn).Some?
    ensures !ok ==> store.objects == old(store.objects) && snippets == []
    ensures ok ==> snippets == old(Stored(store.objects, SnippetPath(folder))) + [ParseEntry(rawIn).value]
    ensures ok ==> store.objects.Keys == old(store.objects.Keys) + {SnippetPath(folder)}
    ensures ok ==> Stored(store.objects, SnippetPath(folder)) == snippets
    ensures forall p :: p in old(store.objects) && p != SnippetPath(folder) ==> p in store.objects && store.objects[p] == old(store.objects[p])
  {
    var entry := ParseEntry(rawIn);
    if entry.None? {
      return false, [];
    }
    var path := SnippetPath(folder);
    var blob := store.Get(path);
    var current := LoadSnippets(blob);
    current := current + [entry.value];
    var _ := store.Put(path, SaveBody(current));
    SaveThenLoad(current, store.objects[path].sha);
    return true, current;
  }

  /**
   * The `snip_del` query handler (lines 353-366): removes the item at `idx`
   * only when `idx` is a position of the list as it is now stored; any other
   * index leaves the file alone.
   */
  method DeleteAt(store: Store<SnippetFile>, folder: string, idx: int) returns (deleted: bool)
    requires store.Valid()
    modifies store
    ensures store.Valid()
    ensures var before := old(Stored(store.objects, SnippetPath(folder)));
      && deleted == (0 <= idx < |before|)
      && (deleted ==> Stored(store.objects, SnippetPath(folder)) == before[..idx] + before[idx + 1..])
    ensures !deleted ==> store.objects == old(store.objects)
    ensures store.objects.Keys == old(store.objects.Keys)
    ensures forall p :: p in old(store.objects) && p != SnippetPath(folder) ==> p in store.objects && store.objects[p] == old(store.objects[p])
  {
    var path := SnippetPath(folder);
    var blob := store.Get(path);
    var current := LoadSnippets(blob);
    deleted := 0 <= idx < |current|;
    if deleted {
      current := current[..idx] + current[idx + 1..];
      var _ := store.Put(path, SaveBody(current));
      SaveThenLoad(current, store.objects[path].sha);
    }
  }

  /**
   * The `snip_reorder` query handler (lines 377-391): the list sent by the
   * page, normalized, replaces the stored one. The stored list is loaded
   * first, but only for its sha, which this store does not ask for.
   */
  method Reorder(store: Store<SnippetFile>, folder: string, arr: seq<RawItem>) returns (snippets: seq<Snippet>)
    requires store.Valid()
    modifies store
    ensures store.Valid()
    ensures |snippets| == |arr| && forall k :: 0 <= k < |arr| ==> snippets[k] == Normalize(arr[k])
    ensures Stored(store.objects, SnippetPath(folder)) == snippets
    ensures store.objects.Keys == old(store.objects.Keys) + {SnippetPath(folder)}
    ensures forall p :: p in old(store.objects) && p != SnippetPath(folder) ==> p in store.objects && store.objects[p] == old(store.objects[p])
  {
    snippets := seq(|arr|, k requires 0 <= k < |arr| => Normalize(arr[k]));
    var path := SnippetPath(folder);
    var _ := store.Get(path);
    var _ := store.Put(path, SaveBody(snippets));
    SaveThenLoad(snippets, store.objects[path].sha);
  }
}
