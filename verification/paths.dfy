/**
 * Repository paths: `ensure_folder_path` and `path_join` (my_blackhole_V10.py
 * lines 63-68). Both trim surrounding whitespace first and surrounding
 * slashes second; `path_join` drops the parts that are blank and joins the
 * rest with "/".
 */
module Paths {
  import opened Text

  /** The characters `ensure_folder_path` can remove from either end. */
  predicate IsTrimmed(c: char) { IsSpace(c) || IsSlash(c) }

  /** `path.strip().strip("/")`. */
  function EnsureFolderPath(p: string): (r: string)
    ensures r == [] || (r[0] != '/' && r[|r| - 1] != '/')
    ensures |r| <= |p|
    ensures p != [] && !IsTrimmed(p[0]) && !IsTrimmed(p[|p| - 1]) ==> r == p
  {
    var t := Strip(p, IsSpace);
    assert p != [] && !IsTrimmed(p[0]) && !IsTrimmed(p[|p| - 1]) ==> Strip(t, IsSlash) == p by {
      if p != [] && !IsTrimmed(p[0]) && !IsTrimmed(p[|p| - 1]) {
        StripUnchanged(p, IsSpace);
        StripUnchanged(p, IsSlash);
      }
    }
    Strip(t, IsSlash)
  }

  /** A part that `path_join` keeps: it is not blank. */
  predicate Kept(p: string) {
    Strip(p, IsSpace) != []
  }

  /** The list comprehension of `path_join`: trim every kept part, drop the blank ones. */
  function CleanParts(parts: seq<string>): (r: seq<string>)
    ensures |r| <= |parts|
    decreases |parts|
  {
    if parts == [] then []
    else if Kept(parts[0]) then [EnsureFolderPath(parts[0])] + CleanParts(parts[1..])
    else CleanParts(parts[1..])
  }

  /** `"/".join(xs)`. */
  function JoinSlash(xs: seq<string>): string
    decreases |xs|
  {
    if |xs| == 0 then ""
    else if |xs| == 1 then xs[0]
    else xs[0] + "/" + JoinSlash(xs[1..])
  }

  /** `path_join(*parts)`. */
  function PathJoin(parts: seq<string>): string {
    JoinSlash(CleanParts(parts))
  }

  /** `s.split(c)`. */
  function Split(s: string, c: char): (r: seq<string>)
    ensures |r| >= 1
    decreases |s|
  {
    if c !in s then [s]
    else
      var (x, y) := SplitFirst(s, c);
      [x] + Split(y, c)
  }

  lemma {:induction false} CleanPartsConcat(a: seq<string>, b: seq<string>)
    ensures CleanParts(a + b) == CleanParts(a) + CleanParts(b)
    decreases |a|
  {
    if a != [] {
      assert (a + b)[0] == a[0] && (a + b)[1..] == a[1..] + b;
      CleanPartsConcat(a[1..], b);
    } else {
      assert a + b == b;
    }
  }

  /** A blank part anywhere in the argument list has no effect on the joined path. */
  lemma BlankPartIgnored(a: seq<string>, x: string, b: seq<string>)
    requires !Kept(x)
    ensures PathJoin(a + [x] + b) == PathJoin(a + b)
  {
    CleanPartsConcat(a + [x], b);
    CleanPartsConcat(a, [x]);
    CleanPartsConcat(a, b);
    assert [x][1..] == [];
    assert CleanParts([x]) == [];
    assert CleanParts(a + [x] + b) == CleanParts(a + b);
  }

  /** With a single part, `path_join` is `ensure_folder_path` (both give "" for a blank part). */
  lemma PathJoinSingle(p: string)
    ensures PathJoin([p]) == EnsureFolderPath(p)
  {
    if !Kept(p) {
      assert Strip(Strip(p, IsSpace), IsSlash) == [];
    }
  }

  /** Two parts, the second of them not blank: the shape used for every file path of the application. */
  lemma PathJoinTwo(folder: string, name: string)
    requires Kept(name)
    ensures PathJoin([folder, name]) ==
      if Kept(folder) then EnsureFolderPath(folder) + "/" + EnsureFolderPath(name)
      else EnsureFolderPath(name)
  {
    assert [folder, name][1..] == [name];
    assert [name][1..] == [];
    assert CleanParts([name]) == [EnsureFolderPath(name)];
    if Kept(folder) {
      var xs := [EnsureFolderPath(folder), EnsureFolderPath(name)];
      assert CleanParts([folder, name]) == xs;
      assert xs[1..] == [EnsureFolderPath(name)];
      assert JoinSlash(xs[1..]) == EnsureFolderPath(name);
      assert JoinSlash(xs) == xs[0] + "/" + JoinSlash(xs[1..]);
    }
  }

  lemma {:induction false} SplitJoin(xs: seq<string>)
    requires |xs| >= 1
    requires forall i :: 0 <= i < |xs| ==> '/' !in xs[i]
    ensures Split(JoinSlash(xs), '/') == xs
    decreases |xs|
  {
    if |xs| > 1 {
      var rest := JoinSlash(xs[1..]);
      assert JoinSlash(xs) == xs[0] + ['/'] + rest;
      SplitFirstOf(xs[0], '/', rest);
      SplitJoin(xs[1..]);
    }
  }

  /**
   * Splitting a joined path at "/" gives back the trimmed, non-blank parts,
   * provided no part holds an inner "/". A part made of slashes alone
   * survives as an empty segment.
   */
  lemma PathJoinSplit(parts: seq<string>)
    requires CleanParts(parts) != []
    requires forall i :: 0 <= i < |CleanParts(parts)| ==> '/' !in CleanParts(parts)[i]
    ensures Split(PathJoin(parts), '/') == CleanParts(parts)
  {
    SplitJoin(CleanParts(parts));
  }

  /** A part consisting only of "/" is kept by `path_join`, as an empty segment. */
  lemma SlashOnlyPartLeavesEmptySegment()
    ensures PathJoin(["a", "/", "b"]) == "a//b"
  {
    assert Strip("a", IsSpace) == "a";
    assert Strip("b", IsSpace) == "b";
    assert Strip("/", IsSpace) == "/";
    assert Strip("/", IsSlash) == [];
    assert EnsureFolderPath("a") == "a";
    assert EnsureFolderPath("b") == "b";
    assert ["a", "/", "b"][1..] == ["/", "b"];
    assert ["/", "b"][1..] == ["b"];
    assert CleanParts(["a", "/", "b"]) == ["a", "", "b"];
  }
}
