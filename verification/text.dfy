/**
 * String helpers that mirror the Python built-ins the application relies on:
 * `str.strip` (with and without an explicit character set), decimal
 * formatting of non-negative integers, and `str.lower` on ASCII letters.
 */
module Text {

  /** The characters for which Python's `str.isspace()` holds. */
  predicate IsSpace(c: char) {
    || c == ' '
    || '\t' <= c <= '\r'
    || '\U{001C}' <= c <= '\U{001F}'
    || c == '\U{0085}' || c == '\U{00A0}' || c == '\U{1680}'
    || '\U{2000}' <= c <= '\U{200A}'
    || c == '\U{2028}' || c == '\U{2029}' || c == '\U{202F}' || c == '\U{205F}' || c == '\U{3000}'
  }

  predicate IsSlash(c: char) { c == '/' }

  /** `s.lstrip(cs)`: drops the longest prefix of characters satisfying `cs`. */
  function StripLeft(s: string, cs: char -> bool): (r: string)
    ensures |r| <= |s|
    ensures r == [] || !cs(r[0])
    decreases |s|
  {
    if |s| > 0 && cs(s[0]) then StripLeft(s[1..], cs) else s
  }

  /** `s.rstrip(cs)`: drops the longest suffix of characters satisfying `cs`. */
  function StripRight(s: string, cs: char -> bool): (r: string)
    ensures |r| <= |s|
    ensures r != [] ==> r[0] == s[0]
    ensures r == [] || !cs(r[|r| - 1])
    decreases |s|
  {
    if |s| > 0 && cs(s[|s| - 1]) then StripRight(s[..|s| - 1], cs) else s
  }

  /** `s.strip(cs)`; `Strip(s, IsSpace)` is `s.strip()`. */
  function Strip(s: string, cs: char -> bool): (r: string)
    ensures |r| <= |s|
    ensures r == [] || (!cs(r[0]) && !cs(r[|r| - 1]))
  {
    StripRight(StripLeft(s, cs), cs)
  }

  lemma {:induction false} StripLeftConcat(a: string, m: string, cs: char -> bool)
    requires m != [] && !cs(m[0])
    ensures StripLeft(a + m, cs) == StripLeft(a, cs) + m
    decreases |a|
  {
    if |a| == 0 {
      assert a + m == m;
    } else if cs(a[0]) {
      assert (a + m)[1..] == a[1..] + m;
      StripLeftConcat(a[1..], m, cs);
    } else {
      assert StripLeft(a, cs) == a;
    }
  }

  lemma {:induction false} StripRightConcat(m: string, b: string, cs: char -> bool)
    requires m != [] && !cs(m[|m| - 1])
    ensures StripRight(m + b, cs) == m + StripRight(b, cs)
    decreases |b|
  {
    if |b| == 0 {
      assert m + b == m;
    } else if cs(b[|b| - 1]) {
      assert (m + b)[..|m + b| - 1] == m + b[..|b| - 1];
      StripRightConcat(m, b[..|b| - 1], cs);
    } else {
      assert StripRight(b, cs) == b;
    }
  }

  /**
   * Stripping cannot reach past a middle part `m` whose first and last
   * characters are kept: the result is the stripped left end, `m`, and the
   * stripped right end.
   */
  lemma StripAround(a: string, m: string, b: string, cs: char -> bool)
    requires m != [] && !cs(m[0]) && !cs(m[|m| - 1])
    ensures Strip(a + m + b, cs) == StripLeft(a, cs) + m + StripRight(b, cs)
  {
    var mb := m + b;
    assert a + m + b == a + mb;
    StripLeftConcat(a, mb, cs);
    var la := StripLeft(a, cs);
    var l := la + m;
    assert l[|l| - 1] == m[|m| - 1];
    assert la + mb == l + b;
    StripRightConcat(l, b, cs);
    assert StripLeft(a + m + b, cs) == l + b;
  }

  lemma {:induction false} StripLeftSuffix(s: string, cs: char -> bool)
    ensures StripLeft(s, cs) == s[|s| - |StripLeft(s, cs)|..]
    decreases |s|
  {
    if |s| > 0 && cs(s[0]) {
      StripLeftSuffix(s[1..], cs);
      assert s[1..][|s| - 1 - |StripLeft(s, cs)|..] == s[|s| - |StripLeft(s, cs)|..];
    }
  }

  lemma {:induction false} StripRightPrefix(s: string, cs: char -> bool)
    ensures StripRight(s, cs) == s[..|StripRight(s, cs)|]
    decreases |s|
  {
    if |s| > 0 && cs(s[|s| - 1]) {
      StripRightPrefix(s[..|s| - 1], cs);
    }
  }

  /** Stripping only removes characters: a property of every character of `s` holds of the result. */
  lemma {:induction false} StripKeepsProperty(s: string, cs: char -> bool, p: char -> bool)
    requires forall k :: 0 <= k < |s| ==> p(s[k])
    ensures forall k :: 0 <= k < |Strip(s, cs)| ==> p(Strip(s, cs)[k])
  {
    var l := StripLeft(s, cs);
    StripLeftSuffix(s, cs);
    var r := StripRight(l, cs);
    StripRightPrefix(l, cs);
    forall k | 0 <= k < |r|
      ensures p(r[k])
    {
      assert r[k] == l[k] == s[|s| - |l| + k];
    }
  }

  /** A string made only of characters satisfying `cs` strips to nothing. */
  lemma {:induction false} StripLeftAll(s: string, cs: char -> bool)
    requires forall k :: 0 <= k < |s| ==> cs(s[k])
    ensures StripLeft(s, cs) == []
    decreases |s|
  {
    if |s| > 0 {
      StripLeftAll(s[1..], cs);
    }
  }

  /** `s.rstrip(cs)` is empty exactly when every character of `s` satisfies `cs`. */
  lemma {:induction false} StripRightEmpty(s: string, cs: char -> bool)
    ensures StripRight(s, cs) == [] <==> forall k :: 0 <= k < |s| ==> cs(s[k])
    decreases |s|
  {
    if |s| > 0 && cs(s[|s| - 1]) {
      var init := s[..|s| - 1];
      StripRightEmpty(init, cs);
      assert forall k :: 0 <= k < |init| ==> init[k] == s[k];
    }
  }

  /** A string that no strip with `cs` changes. */
  lemma StripUnchanged(s: string, cs: char -> bool)
    requires s == [] || (!cs(s[0]) && !cs(s[|s| - 1]))
    ensures Strip(s, cs) == s
  {
  }

  // ---------------------------------------------------------------------
  // Decimal digits

  predicate IsDigit(c: char) { '0' <= c <= '9' }

  predicate AllDigits(s: string) { forall k :: 0 <= k < |s| ==> IsDigit(s[k]) }

  function DigitChar(d: nat): (c: char)
    requires d < 10
    ensures IsDigit(c)
  {
    ['0', '1', '2', '3', '4', '5', '6', '7', '8', '9'][d]
  }

  function DigitValue(c: char): (d: nat)
    requires IsDigit(c)
    ensures d < 10 && DigitChar(d) == c
  {
    (c as int - '0' as int) as nat
  }

  /** Python's `f"{n:d}"` for `n >= 0`: decimal, no leading zeros. */
  function NatToString(n: nat): (r: string)
    ensures |r| >= 1 && AllDigits(r)
    ensures |r| > 1 ==> r[0] != '0'
    decreases n
  {
    if n < 10 then [DigitChar(n)] else NatToString(n / 10) + [DigitChar(n % 10)]
  }

  lemma DigitsExclude(s: string, c: char)
    requires AllDigits(s) && !IsDigit(c)
    ensures c !in s
  {
  }

  /** Reads a string of decimal digits as a number (most significant digit first). */
  function DigitsValue(s: string): nat
    requires AllDigits(s)
    decreases |s|
  {
    if s == [] then 0 else DigitsValue(s[..|s| - 1]) * 10 + DigitValue(s[|s| - 1])
  }

  lemma {:induction false} NatToStringRoundTrip(n: nat)
    ensures DigitsValue(NatToString(n)) == n
    decreases n
  {
    if n >= 10 {
      var r := NatToString(n);
      assert r[..|r| - 1] == NatToString(n / 10);
      NatToStringRoundTrip(n / 10);
    }
  }

  lemma NatToStringInjective(a: nat, b: nat)
    requires NatToString(a) == NatToString(b)
    ensures a == b
  {
    NatToStringRoundTrip(a);
    NatToStringRoundTrip(b);
  }

  /** Python's `f"{n:02d}"` for `0 <= n < 100`. */
  function Pad2(n: nat): (r: string)
    requires n < 100
    ensures |r| == 2 && AllDigits(r) && DigitsValue(r) == n
  {
    if n < 10 then
      assert NatToString(n) == [DigitChar(n)];
      assert DigitsValue("0" + NatToString(n)) == n by {
        var r := "0" + NatToString(n);
        assert r[..1] == "0";
        assert DigitsValue("0") == 0 by { assert "0"[..0] == []; }
      }
      "0" + NatToString(n)
    else
      assert NatToString(n) == [DigitChar(n / 10)] + [DigitChar(n % 10)];
      assert DigitsValue(NatToString(n)) == n by { NatToStringRoundTrip(n); }
      NatToString(n)
  }

  // ---------------------------------------------------------------------
  // Searching and case

  /** The position of the first `c` in `s` (`s.index(c)`). */
  function IndexOf(s: string, c: char): (i: nat)
    requires c in s
    ensures i < |s| && s[i] == c && c !in s[..i]
  {
    if s[0] == c then 0 else
      assert c in s[1..];
      var j := IndexOf(s[1..], c);
      assert s[..j + 1] == [s[0]] + s[1..][..j];
      j + 1
  }

  /** `s.split(c, 1)` when `c` occurs in `s`. */
  function SplitFirst(s: string, c: char): (r: (string, string))
    requires c in s
    ensures s == r.0 + [c] + r.1 && c !in r.0
  {
    var i := IndexOf(s, c);
    assert s == s[..i] + [c] + s[i + 1..];
    (s[..i], s[i + 1..])
  }

  lemma {:induction false} IndexOfAfter(a: string, c: char, b: string)
    requires c !in a
    ensures c in a + [c] + b && IndexOf(a + [c] + b, c) == |a|
    decreases |a|
  {
    var s := a + [c] + b;
    assert s[|a|] == c;
    if |a| > 0 {
      assert s[0] == a[0];
      assert s[1..] == a[1..] + [c] + b;
      IndexOfAfter(a[1..], c, b);
    }
  }

  lemma SplitFirstOf(a: string, c: char, b: string)
    requires c !in a
    ensures c in a + [c] + b && SplitFirst(a + [c] + b, c) == (a, b)
  {
    var s := a + [c] + b;
    IndexOfAfter(a, c, b);
    assert s[..|a|] == a && s[|a| + 1..] == b;
  }

  /** `s.endswith(suffix)`. */
  predicate EndsWith(s: string, suffix: string) {
    |suffix| <= |s| && s[|s| - |suffix|..] == suffix
  }

  /** `c.lower()` for ASCII letters; every other character is kept. */
  function LowerChar(c: char): char {
    if 'A' <= c <= 'Z' then (c as int + 32) as char else c
  }

  function Lower(s: string): (r: string)
    ensures |r| == |s| && forall k :: 0 <= k < |s| ==> r[k] == LowerChar(s[k])
  {
    seq(|s|, k requires 0 <= k < |s| => LowerChar(s[k]))
  }
}
