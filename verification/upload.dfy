/**
 * Web-hard upload (my_blackhole_V10.py lines 1166-1179): a file called
 * `name` goes to `folder/name`, or, when that path is taken, to the first
 * free `folder/base (1)ext`, `folder/base (2)ext`, ...; content above
 * 95 MiB is refused.
 */
module Upload {
  import opened Wrappers
  import opened Text
  import opened Paths
  import opened Store

  /** The last position of `c` in `s`, or -1 (`str.rfind`). */
  function LastIndexOf(s: string, c: char): (r: int)
    ensures -1 <= r < |s|
    ensures 0 <= r ==> s[r] == c
    ensures forall k :: r < k < |s| ==> s[k] != c
    decreases |s|
  {
    if s == [] then -1
    else if s[|s| - 1] == c then |s| - 1
    else LastIndexOf(s[..|s| - 1], c)
  }

  /** `LastIndexOf` is the one position holding `c` with no `c` after it. */
  lemma LastIndexOfIs(s: string, c: char, r: int)
    requires -1 <= r < |s|
    requires 0 <= r ==> s[r] == c
    requires forall k :: r < k < |s| ==> s[k] != c
    ensures LastIndexOf(s, c) == r
  {
  }

  lemma NotInSuffix(s: string, i: nat, c: char)
    requires i <= |s|
    requires forall k :: i <= k < |s| ==> s[k] != c
    ensures c !in s[i..]
  {
  }

  /**
   * `os.path.splitext` on POSIX: the extension starts at the last dot of the
   * last path segment, unless only dots precede that dot in the segment.
   */
  function Splitext(p: string): (r: (string, string))
    ensures r.0 + r.1 == p
    ensures r.1 == [] || (r.1[0] == '.' && '.' !in r.1[1..] && '/' !in r.1)
  {
    var sep := LastIndexOf(p, '/');
    var dot := LastIndexOf(p, '.');
    if sep < dot && exists k :: sep < k < dot && p[k] != '.' then
      assert p[..dot] + p[dot..] == p;
      NotInSuffix(p, dot + 1, '.');
      NotInSuffix(p, dot, '/');
      assert p[dot..][1..] == p[dot + 1..];
      (p[..dot], p[dot..])
    else (p, "")
  }

  /**
   * A path has an extension exactly when its last segment holds a dot with a
   * character other than a dot before it; the extension then starts at the
   * last dot of the path.
   */
  lemma SplitextExtension(p: string)
    ensures Splitext(p).1 != [] <==>
      exists i, k :: LastIndexOf(p, '/') < k < i < |p| && p[i] == '.' && p[k] != '.'
    ensures Splitext(p).1 != [] ==> |Splitext(p).0| == LastIndexOf(p, '.')
  {
  }

  /** The `k`-th path tried for an upload of `name` into `folder`. */
  function Candidate(folder: string, name: string, k: nat): string {
    if k == 0 then PathJoin([folder, name])
    else
      var (base, ext) := Splitext(name);
      PathJoin([folder, base + " (" + NatToString(k) + ")" + ext])
  }

  /** What `path_join` leaves of `folder` in front of a file name. */
  function FolderPrefix(folder: string): string {
    if Kept(folder) then EnsureFolderPath(folder) + "/" else ""
  }

  /** `path_join(folder, f"{base} ({d}){ext}")`: the folder prefix, the trimmed base, `(d)` and the trimmed extension. */
  lemma SuffixedShape(folder: string, base: string, d: string, ext: string)
    ensures PathJoin([folder, base + " (" + d + ")" + ext]) ==
      FolderPrefix(folder)
      + (StripLeft(StripLeft(base + " ", IsSpace), IsSlash)
         + ("(" + d + ")")
         + StripRight(StripRight(ext, IsSpace), IsSlash))
  {
    var m := "(" + d + ")";
    var x := base + " (" + d + ")" + ext;
    assert x == (base + " ") + m + ext;
    StripAround(base + " ", m, ext, IsSpace);
    var l1, r1 := StripLeft(base + " ", IsSpace), StripRight(ext, IsSpace);
    StripAround(l1, m, r1, IsSlash);
    var y := StripLeft(l1, IsSlash) + m + StripRight(r1, IsSlash);
    assert EnsureFolderPath(x) == y;
    PathJoinTwo(folder, x);

  }

  /**
   * The paths tried: first the folder prefix and the trimmed name, then the
   * name with `(k)` put between its base (with the space before the
   * parenthesis) and its extension.
   */
  lemma CandidateShape(folder: string, name: string, k: nat)
    ensures k == 0 && Kept(name) ==> Candidate(folder, name, k) == FolderPrefix(folder) + EnsureFolderPath(name)
    ensures k >= 1 ==>
      (Candidate(folder, name, k) ==
       FolderPrefix(folder)
       + (StripLeft(StripLeft(Splitext(name).0 + " ", IsSpace), IsSlash)
          + ("(" + NatToString(k) + ")")
          + StripRight(StripRight(Splitext(name).1, IsSpace), IsSlash)))
  {
    if k == 0 {
      if Kept(name) {
        PathJoinTwo(folder, name);
      }
    } else {
      SuffixedShape(folder, Splitext(name).0, NatToString(k), Splitext(name).1);
    }
  }

  lemma Regroup(p: string, a: string, d: string, b: string)
    ensures p + (a + ("(" + d + ")") + b) == (p + a + "(") + d + (")" + b)
  {
  }

  lemma MiddleEqual(pre: string, x: string, y: string, post: string)
    requires pre + x + post == pre + y + post
    ensures x == y
  {
    var s := pre + x + post;
    assert |x| == |y|;
    assert x == s[|pre|..|pre| + |x|];
    assert y == (pre + y + post)[|pre|..|pre| + |y|];
  }

  /** Different suffix numbers give different paths. */
  lemma CandidateInjective(folder: string, name: string, j: nat, k: nat)
    requires j >= 1 && k >= 1
    requires Candidate(folder, name, j) == Candidate(folder, name, k)
    ensures j == k
  {
    var (base, ext) := Splitext(name);
    var pre := FolderPrefix(folder) + StripLeft(StripLeft(base + " ", IsSpace), IsSlash) + "(";
    var post := ")" + StripRight(StripRight(ext, IsSpace), IsSlash);
    var a := StripLeft(StripLeft(base + " ", IsSpace), IsSlash);
    var b := StripRight(StripRight(ext, IsSpace), IsSlash);
    SuffixedShape(folder, base, NatToString(j), ext);
    SuffixedShape(folder, base, NatToString(k), ext);
    Regroup(FolderPrefix(folder), a, NatToString(j), b);
    Regroup(FolderPrefix(folder), a, NatToString(k), b);
    MiddleEqual(pre, NatToString(j), NatToString(k), post);
    NatToStringInjective(j, k);
  }

  /** The suffixed candidates 1..n. */
  function Suffixed(folder: string, name: string, n: nat): set<string> {
    if n == 0 then {} else Suffixed(folder, name, n - 1) + {Candidate(folder, name, n)}
  }

  lemma {:induction false} NotYetSuffixed(folder: string, name: string, n: nat, j: nat)
    requires j > n
    ensures Candidate(folder, name, j) !in Suffixed(folder, name, n)
  {
    if n > 0 {
      NotYetSuffixed(folder, name, n - 1, j);
      if Candidate(folder, name, j) == Candidate(folder, name, n) {
        CandidateInjective(folder, name, j, n);
      }
    }
  }

  /** n suffixed candidates are n distinct paths. */
  lemma {:induction false} SuffixedCount(folder: string, name: string, n: nat)
    ensures |Suffixed(folder, name, n)| == n
  {
    if n > 0 {
      SuffixedCount(folder, name, n - 1);
      NotYetSuffixed(folder, name, n - 1, n);
    }
  }

  lemma {:induction false} SuffixedWithin(existing: set<string>, folder: string, name: string, n: nat)
    requires forall k :: 1 <= k <= n ==> Candidate(folder, name, k) in existing
    ensures Suffixed(folder, name, n) <= existing
  {
    if n > 0 {
      SuffixedWithin(existing, folder, name, n - 1);
    }
  }

  lemma SubsetCount<T>(a: set<T>, b: set<T>)
    requires a <= b
    ensures |a| <= |b|
    decreases a
  {
    if a != {} {
      var x :| x in a;
      SubsetCount(a - {x}, b - {x});
    }
  }

  /** Only as many candidates can be taken as there are existing paths. */
  lemma TakenBound(existing: set<string>, folder: string, name: string, n: nat)
    requires forall k :: 1 <= k <= n ==> Candidate(folder, name, k) in existing
    ensures n <= |existing|
  {
    SuffixedWithin(existing, folder, name, n);
    SuffixedCount(folder, name, n);
    SubsetCount(Suffixed(folder, name, n), existing);
  }

  /**
   * The `while get_file_sha_if_exists(...)` loop: the first candidate that is
   * not an existing path, and its number.
   */
  method ChooseUploadPath(existing: set<string>, folder: string, name: string) returns (path: string, n: nat)
    ensures path == Candidate(folder, name, n)
    ensures path !in existing
    ensures forall k :: 0 <= k < n ==> Candidate(folder, name, k) in existing
  {
    var (base, ext) := Splitext(name);
    path := PathJoin([folder, name]);
    n := 0;
    while path in existing
      invariant path == Candidate(folder, name, n)
      invariant forall k :: 0 <= k < n ==> Candidate(folder, name, k) in existing
      invariant n <= |existing| + 1
      decreases |existing| + 1 - n
    {
      TakenBound(existing, folder, name, n);
      n := n + 1;
      path := PathJoin([folder, base + " (" + NatToString(n) + ")" + ext]);
    }
  }

  /** The size limit of one upload, 95 MiB. */
  const MaxUploadBytes: nat := 95 * 1024 * 1024

  const TooLarge: string := "파일이 너무 큽니다 (API 한계 ~100MB)"

  /**
   * One file of the upload loop: choose the path, refuse content over the
   * limit, otherwise store the content at the chosen path.
   */
  method UploadFile(store: Store<seq<bv8>>, folder: string, name: string, content: seq<bv8>)
    returns (r: Result<string, string>, n: nat)
    requires store.Valid()
    modifies store
    ensures store.Valid()
    ensures r.Err? <==> |content| > MaxUploadBytes
    ensures r.Err? ==> r.error == TooLarge && store.objects == old(store.objects)
    ensures r.Ok? ==> r.value == Candidate(folder, name, n) && r.value !in old(store.objects)
    ensures r.Ok? ==> store.objects.Keys == old(store.objects.Keys) + {r.value}
    ensures r.Ok? ==> store.objects[r.value].content == content
    ensures r.Ok? ==> forall p :: p in old(store.objects) ==> store.objects[p] == old(store.objects[p])
    ensures forall k :: 0 <= k < n ==> Candidate(folder, name, k) in old(store.objects)
  {
    var path;
    path, n := ChooseUploadPath(store.objects.Keys, folder, name);
    if |content| > MaxUploadBytes {
      return Err(TooLarge), n;
    }
    var _ := store.Put(path, content);
    r := Ok(path);
  }

  lemma ReportSplit()
    ensures Splitext("report.pdf") == ("report", ".pdf")
  {
    LastIndexOfIs("report.pdf", '/', -1);
    LastIndexOfIs("report.pdf", '.', 6);
    assert "report.pdf"[0] != '.';
    assert "report.pdf"[..6] == "report" && "report.pdf"[6..] == ".pdf";
  }

  lemma NatToStringOne()
    ensures NatToString(1) == "1"
  {
  }

  lemma ArchiveSplit()
    ensures Splitext("archive.tar.gz") == ("archive.tar", ".gz")
  {
    LastIndexOfIs("archive.tar.gz", '/', -1);
    LastIndexOfIs("archive.tar.gz", '.', 11);
    assert "archive.tar.gz"[0] != '.';
    assert "archive.tar.gz"[..11] == "archive.tar" && "archive.tar.gz"[11..] == ".gz";
  }

  lemma DotfileSplit()
    ensures Splitext(".bashrc") == (".bashrc", "")
  {
    LastIndexOfIs(".bashrc", '/', -1);
    LastIndexOfIs(".bashrc", '.', 0);
  }

  lemma PlainSplit()
    ensures Splitext("notes") == ("notes", "")
  {
    LastIndexOfIs("notes", '.', -1);
  }

  /** Splitting as POSIX `splitext` does: the last dot, but not a leading one. */
  lemma SplitextExamples()
    ensures Splitext("report.pdf") == ("report", ".pdf")
    ensures Splitext("archive.tar.gz") == ("archive.tar", ".gz")
    ensures Splitext(".bashrc") == (".bashrc", "")
    ensures Splitext("notes") == ("notes", "")
  {
    ReportSplit();
    ArchiveSplit();
    DotfileSplit();
    PlainSplit();
  }

  /** A name that no stripping of spaces or slashes changes. */
  predicate CleanName(s: string) {
    s != [] && !IsSpace(s[0]) && !IsSpace(s[|s| - 1]) && !IsSlash(s[0]) && !IsSlash(s[|s| - 1])
  }

  lemma JoinClean(a: string, b: string)
    requires CleanName(a) && CleanName(b)
    ensures PathJoin([a, b]) == a + "/" + b
  {
    StripUnchanged(a, IsSpace);
    StripUnchanged(b, IsSpace);
    StripUnchanged(a, IsSlash);
    StripUnchanged(b, IsSlash);
    PathJoinTwo(a, b);
  }

  lemma SuffixedClean(folder: string, name: string, k: nat, base: string, ext: string, joined: string)
    requires k >= 1 && Splitext(name) == (base, ext)
    requires joined == base + " (" + NatToString(k) + ")" + ext
    requires CleanName(folder) && CleanName(joined)
    ensures Candidate(folder, name, k) == folder + "/" + joined
  {
    JoinClean(folder, joined);
  }

  /** An upload of "report.pdf" into "docs" first tries "docs/report.pdf"... */
  lemma FirstCandidateExample()
    ensures Candidate("docs", "report.pdf", 0) == "docs/report.pdf"
  {
    JoinClean("docs", "report.pdf");
  }

  /** ...and then "docs/report (1).pdf". */
  lemma SecondCandidateExample()
    ensures Candidate("docs", "report.pdf", 1) == "docs/report (1).pdf"
  {
    ReportSplit();
    NatToStringOne();
    SuffixedClean("docs", "report.pdf", 1, "report", ".pdf", "report (1).pdf");
  }
}
