/**
 * `format_duration` (my_blackhole_V10.py lines 423-432): a number of seconds
 * shown as `m:ss`, or as `h:mm:ss` once there is at least one hour.
 * `ParseClock` reads such a text back; the lemmas below show that the text
 * always reads back to the number it was made from.
 */
module Duration {
  import opened Wrappers
  import opened Text

  /** `format_duration(seconds)`; `None` stands for Python's `None`. */
  function FormatDuration(seconds: Option<int>): (r: string)
    ensures seconds.None? || seconds.value < 0 ==> r == "0:00"
    ensures |r| >= 4 && r[|r| - 3] == ':'
  {
    if seconds.None? || seconds.value < 0 then "0:00"
    else
      var n := seconds.value;
      var h, m, s := n / 3600, (n % 3600) / 60, n % 60;
      if h != 0 then NatToString(h) + ":" + Pad2(m) + ":" + Pad2(s)
      else NatToString(m) + ":" + Pad2(s)
  }

  /** The fields of a clock text; `long` when it has an hours field. */
  datatype Clock = Clock(h: nat, m: nat, s: nat, long: bool)

  function ClockSeconds(c: Clock): nat {
    c.h * 3600 + c.m * 60 + c.s
  }

  /**
   * Reads `m:ss` or `h:mm:ss`: every field is a non-empty run of digits, and
   * every field after the first has exactly two.
   */
  function ParseClock(r: string): Option<Clock> {
    if ':' !in r then None
    else
      var (a, rest) := SplitFirst(r, ':');
      if a == [] || !AllDigits(a) then None
      else if ':' in rest then
        var (b, c) := SplitFirst(rest, ':');
        if ':' !in c && |b| == 2 && AllDigits(b) && |c| == 2 && AllDigits(c)
        then Some(Clock(DigitsValue(a), DigitsValue(b), DigitsValue(c), true))
        else None
      else if |rest| == 2 && AllDigits(rest) then Some(Clock(0, DigitsValue(a), DigitsValue(rest), false))
      else None
  }

  /**
   * The text shown for a non-negative number of seconds reads back as a clock
   * whose minutes and seconds are below 60, whose fields add up to the
   * number, and which has an hours field exactly when the number reaches one
   * hour.
   */
  lemma FormatDurationReadsBack(n: nat)
    ensures ParseClock(FormatDuration(Some(n))).Some?
    ensures var c := ParseClock(FormatDuration(Some(n))).value;
      && c.m < 60 && c.s < 60
      && ClockSeconds(c) == n
      && (c.long <==> n >= 3600)
  {
    var h, m, s := n / 3600, (n % 3600) / 60, n % 60;
    assert n == 3600 * h + 60 * m + s;
    if h != 0 {
      assert FormatDuration(Some(n)) == NatToString(h) + ":" + Pad2(m) + ":" + Pad2(s);
      LongClockReads(h, m, s);
    } else {
      assert FormatDuration(Some(n)) == NatToString(m) + ":" + Pad2(s);
      ShortClockReads(m, s);
    }
  }

  lemma LongClockReads(h: nat, m: nat, s: nat)
    requires m < 60 && s < 60
    ensures ParseClock(NatToString(h) + ":" + Pad2(m) + ":" + Pad2(s)) == Some(Clock(h, m, s, true))
  {
    NatToStringRoundTrip(h);
    LongFieldsRead(NatToString(h), Pad2(m), Pad2(s));
  }

  lemma ShortClockReads(m: nat, s: nat)
    requires s < 60
    ensures ParseClock(NatToString(m) + ":" + Pad2(s)) == Some(Clock(0, m, s, false))
  {
    NatToStringRoundTrip(m);
    ShortFieldsRead(NatToString(m), Pad2(s));
  }

  lemma LongFieldsRead(a: string, b: string, c: string)
    requires a != [] && AllDigits(a)
    requires |b| == 2 && AllDigits(b) && |c| == 2 && AllDigits(c)
    ensures ParseClock(a + ":" + b + ":" + c) == Some(Clock(DigitsValue(a), DigitsValue(b), DigitsValue(c), true))
  {
    DigitsExclude(a, ':');
    DigitsExclude(b, ':');
    DigitsExclude(c, ':');
    var rest := b + [':'] + c;
    assert a + ":" + b + ":" + c == a + [':'] + rest;
    SplitFirstOf(a, ':', rest);
    SplitFirstOf(b, ':', c);
  }

  lemma ShortFieldsRead(a: string, c: string)
    requires a != [] && AllDigits(a)
    requires |c| == 2 && AllDigits(c)
    ensures ParseClock(a + ":" + c) == Some(Clock(0, DigitsValue(a), DigitsValue(c), false))
  {
    DigitsExclude(a, ':');
    DigitsExclude(c, ':');
    assert a + ":" + c == a + [':'] + c;
    SplitFirstOf(a, ':', c);
  }

  /** Distinct non-negative durations are never shown as the same text. */
  lemma FormatDurationInjective(a: nat, b: nat)
    requires FormatDuration(Some(a)) == FormatDuration(Some(b))
    ensures a == b
  {
    FormatDurationReadsBack(a);
    FormatDurationReadsBack(b);
  }

  /** Zero, a missing value and a negative value are all shown as "0:00". */
  lemma ZeroShownAsEmptyClock(x: int)
    requires x <= 0
    ensures FormatDuration(Some(x)) == "0:00" && FormatDuration(None) == "0:00"
  {
    if x == 0 {
      assert NatToString(0) == "0";
      assert Pad2(0) == "00";
    }
  }
}
