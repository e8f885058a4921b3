/**
 * `formatTime` of `apps/web/src/lib/index.ts`: milliseconds rendered as
 * `SS.cc` below a minute, `MM:SS.cc` below an hour and `HH:MM:SS.cc` beyond,
 * with centiseconds truncated. `ParseTime` reads such a display back into its
 * fields; the lemmas show the two are inverse up to the dropped milliseconds.
 */
module TimeFormat {
  import opened Wrappers
  import opened Basics


  predicate IsDigit(c: char) { '0' <= c <= '9' }

  /** Every character of `s` is a decimal digit. */
  predicate AllDigits(s: string) {
    s == [] || (AllDigits(s[..|s| - 1]) && IsDigit(s[|s| - 1]))
  }

  function DigitChar(d: nat): (c: char)
    requires d < 10
    ensures IsDigit(c) && c as int - '0' as int == d
  {
    (d + '0' as int) as char
  }

  /** The number a string of decimal digits denotes (leading zeros allowed). */
  function DigitsValue(s: string): nat
    requires AllDigits(s)
  {
    if s == [] then 0
    else DigitsValue(s[..|s| - 1]) * 10 + (s[|s| - 1] as int - '0' as int)
  }

  /** `String(n)` for a natural number: its decimal digits without leading zeros. */
  function NatToString(n: nat): string {
    if n < 10 then [DigitChar(n)] else NatToString(n / 10) + [DigitChar(n % 10)]
  }

  /** `s.padStart(2, "0")` */
  function PadStart2(s: string): string {
    if |s| == 0 then "00" else if |s| == 1 then "0" + s else s
  }

  /** `Math.round`: the nearest integer, halves rounded up. */
  function MathRound(x: real): int {
    (x + 0.5).Floor
  }

  /** `formatTime(totalMs)` for a whole number of milliseconds. */
  function FormatTime(totalMs: nat): string {
    var ms := totalMs % 1000;
    var totalSeconds := totalMs / 1000;
    var centiseconds := Min(99, ms / 10);
    var cs := PadStart2(NatToString(centiseconds));
    if totalSeconds < 60 then
      PadStart2(NatToString(totalSeconds)) + "." + cs
    else if totalSeconds < 3600 then
      PadStart2(NatToString(totalSeconds / 60)) + ":" + PadStart2(NatToString(totalSeconds % 60)) + "." + cs
    else
      var hours := totalSeconds / 3600;
      var hh := if hours >= 100 then NatToString(hours) else PadStart2(NatToString(hours));
      hh + ":" + (PadStart2(NatToString((totalSeconds % 3600) / 60)) + ":"
                  + PadStart2(NatToString(totalSeconds % 60)) + "." + cs)
  }

  /** `Math.round` of a non-negative time: the whole number nearest to it, halves rounded up. */
  function RoundMs(x: real): (r: nat)
    requires x >= 0.0
    ensures r as real - 0.5 <= x < r as real + 0.5
  {
    MathRound(x)
  }

  /** `formatTime` on a non-negative number of milliseconds: round first, then lay out the fields. */
  function FormatTimeOf(totalMs: real): string
    requires totalMs >= 0.0
  {
    FormatTime(RoundMs(totalMs))
  }

  // ---------------------------------------------------------------------------
  // Reading a display back
  // ---------------------------------------------------------------------------

  /** The fields of a displayed time. */
  datatype Clock = Clock(hours: nat, minutes: nat, seconds: nat, centis: nat)

  /** The milliseconds a display stands for. */
  function ClockMs(c: Clock): nat {
    c.hours * 3600000 + c.minutes * 60000 + c.seconds * 1000 + c.centis * 10
  }

  /**
   * Reads `SS.cc`, `MM:SS.cc` or `H…H:MM:SS.cc` (two-digit fields except the
   * hours, which take at least two digits); anything else is `None`.
   */
  function ParseTime(s: string): Option<Clock> {
    var n := |s|;
    if n < 5 || s[n - 3] != '.' || !AllDigits(s[n - 2..]) || !AllDigits(s[n - 5..n - 3]) then None
    else
      var centis := DigitsValue(s[n - 2..]);
      var seconds := DigitsValue(s[n - 5..n - 3]);
      if n == 5 then Some(Clock(0, 0, seconds, centis))
      else if n < 8 || s[n - 6] != ':' || !AllDigits(s[n - 8..n - 6]) then None
      else
        var minutes := DigitsValue(s[n - 8..n - 6]);
        if n == 8 then Some(Clock(0, minutes, seconds, centis))
        else if n < 11 || s[n - 9] != ':' || !AllDigits(s[..n - 9]) then None
        else Some(Clock(DigitsValue(s[..n - 9]), minutes, seconds, centis))
  }

  // ---------------------------------------------------------------------------
  // Lemmas
  // ---------------------------------------------------------------------------

  /** `String(n)` is a digit string of value `n`, one character long below 10 and two below 100. */
  lemma {:induction false} NatToStringDigits(n: nat)
    ensures AllDigits(NatToString(n))
    ensures DigitsValue(NatToString(n)) == n
    ensures |NatToString(n)| >= 1
    ensures n < 10 <==> |NatToString(n)| == 1
    ensures 10 <= n < 100 ==> |NatToString(n)| == 2
    ensures n >= 10 ==> |NatToString(n)| >= 2
  {
    if n >= 10 {
      NatToStringDigits(n / 10);
      var s := NatToString(n);
      assert s[..|s| - 1] == NatToString(n / 10);
    }
  }

  /** A leading zero does not change the value of a digit string. */
  lemma {:induction false} LeadingZero(s: string)
    requires AllDigits(s)
    ensures AllDigits("0" + s)
    ensures DigitsValue("0" + s) == DigitsValue(s)
    decreases |s|
  {
    var z := "0" + s;
    if s != [] {
      assert z[..|z| - 1] == "0" + s[..|s| - 1];
      LeadingZero(s[..|s| - 1]);
    } else {
      assert z[..|z| - 1] == [];
    }
  }

  /** A number below 100, printed and padded, is exactly two digits of that value. */
  lemma TwoDigitField(n: nat)
    requires n < 100
    ensures |PadStart2(NatToString(n))| == 2
    ensures AllDigits(PadStart2(NatToString(n)))
    ensures DigitsValue(PadStart2(NatToString(n))) == n
  {
    NatToStringDigits(n);
    if n < 10 {
      LeadingZero(NatToString(n));
    }
  }

  /** The hours field: at least two digits, of value `hours`, however large. */
  lemma HoursField(hours: nat)
    ensures var hh := if hours >= 100 then NatToString(hours) else PadStart2(NatToString(hours));
            |hh| >= 2 && AllDigits(hh) && DigitsValue(hh) == hours
  {
    NatToStringDigits(hours);
    if hours < 100 {
      TwoDigitField(hours);
    }
  }

  /** A slice that lies inside the left operand of a concatenation. */
  lemma SliceLeft(x: string, y: string, a: nat, b: nat)
    requires a <= b <= |x|
    ensures (x + y)[a..b] == x[a..b]
  {
  }

  lemma ParseShort(s: string, ss: string, cs: string)
    requires |ss| == 2 && |cs| == 2 && AllDigits(ss) && AllDigits(cs)
    requires s == ss + "." + cs
    ensures ParseTime(s) == Some(Clock(0, 0, DigitsValue(ss), DigitsValue(cs)))
    ensures |s| == 5 && s[2] == '.'
  {
    assert s[|s| - 2..] == cs;
    SliceLeft(ss + ".", cs, 0, 2);
    assert s[|s| - 5..|s| - 3] == ss;
  }

  /** The last eight characters `MM:SS.cc` of a display. */
  lemma ParseTail8(s: string, mm: string, ss: string, cs: string)
    requires |mm| == 2 && |ss| == 2 && |cs| == 2
    requires |s| >= 8 && s[|s| - 8..] == mm + ":" + ss + "." + cs
    ensures s[|s| - 2..] == cs && s[|s| - 5..|s| - 3] == ss && s[|s| - 8..|s| - 6] == mm
    ensures s[|s| - 3] == '.' && s[|s| - 6] == ':'
  {
    var t := mm + ":" + ss + "." + cs;
    var n := |s|;
    assert t[6..] == cs && t[3..5] == ss && t[0..2] == mm;
    assert s[n - 2..] == t[6..];
    assert s[n - 5..n - 3] == t[3..5];
    assert s[n - 8..n - 6] == t[0..2];
    assert s[n - 3] == t[5] && s[n - 6] == t[2];
  }

  lemma ParseMedium(s: string, mm: string, ss: string, cs: string)
    requires |mm| == 2 && |ss| == 2 && |cs| == 2
    requires AllDigits(mm) && AllDigits(ss) && AllDigits(cs)
    requires s == mm + ":" + ss + "." + cs
    ensures ParseTime(s) == Some(Clock(0, DigitsValue(mm), DigitsValue(ss), DigitsValue(cs)))
    ensures |s| == 8 && s[2] == ':' && s[5] == '.'
  {
    ParseTail8(s, mm, ss, cs);
  }

  /** The hours field and the `MM:SS.cc` tail of a long display. */
  lemma SplitLong(s: string, hh: string, t: string)
    requires |t| == 8 && s == hh + ":" + t
    ensures s[|s| - 8..] == t && s[..|s| - 9] == hh && s[|s| - 9] == ':'
  {
    assert s == (hh + ":") + t;
    SliceLeft(hh + ":", t, 0, |hh|);
  }

  lemma ParseFields(s: string)
    requires |s| >= 11
    requires AllDigits(s[..|s| - 9]) && AllDigits(s[|s| - 8..|s| - 6]) && AllDigits(s[|s| - 5..|s| - 3]) && AllDigits(s[|s| - 2..])
    requires s[|s| - 3] == '.' && s[|s| - 6] == ':' && s[|s| - 9] == ':'
    ensures ParseTime(s) == Some(Clock(DigitsValue(s[..|s| - 9]), DigitsValue(s[|s| - 8..|s| - 6]), DigitsValue(s[|s| - 5..|s| - 3]), DigitsValue(s[|s| - 2..])))
  {
  }

  lemma ParseLong(s: string, hh: string, mm: string, ss: string, cs: string)
    requires |hh| >= 2 && |mm| == 2 && |ss| == 2 && |cs| == 2
    requires AllDigits(hh) && AllDigits(mm) && AllDigits(ss) && AllDigits(cs)
    requires s == hh + ":" + (mm + ":" + ss + "." + cs)
    ensures ParseTime(s) == Some(Clock(DigitsValue(hh), DigitsValue(mm), DigitsValue(ss), DigitsValue(cs)))
    ensures |s| >= 11 && s[|s| - 9] == ':' && s[|s| - 6] == ':' && s[|s| - 3] == '.'
  {
    SplitLong(s, hh, mm + ":" + ss + "." + cs);
    ParseTail8(s, mm, ss, cs);
    ParseFields(s);
  }

  /** Splitting milliseconds into hours, minutes, seconds and centiseconds loses only `ms % 10`. */
  lemma Recombine(totalMs: nat)
    ensures var ts := totalMs / 1000;
            ClockMs(Clock(ts / 3600, (ts % 3600) / 60, ts % 60, (totalMs % 1000) / 10)) == totalMs - totalMs % 10
  {
    var ts := totalMs / 1000;
    var rem := totalMs % 1000;
    var r1 := ts % 3600;
    SecondsOfMinute(ts, ts / 3600, r1 / 60, r1 % 60);
    RecombineLinear(totalMs, ts, rem, ts / 3600, r1, r1 / 60, ts % 60, rem / 10, rem % 10);
  }

  /** The seconds field is the same taken from the whole seconds or from the seconds within the hour. */
  lemma SecondsOfMinute(ts: nat, h: nat, m: nat, s: nat)
    requires ts == 3600 * h + 60 * m + s && s < 60
    ensures ts % 60 == s
  {
    assert ts == 60 * (60 * h + m) + s;
  }

  /** The recombination with every quotient and remainder named, so that only linear arithmetic is left. */
  lemma RecombineLinear(totalMs: nat, ts: nat, rem: nat, h: nat, r1: nat, m: nat, s: nat, c: nat, d: nat)
    requires totalMs == 1000 * ts + rem
    requires ts == 3600 * h + r1
    requires r1 == 60 * m + s
    requires rem == 10 * c + d && d < 10
    ensures ClockMs(Clock(h, m, s, c)) == totalMs - totalMs % 10
  {
    assert totalMs == 10 * (100 * ts + c) + d;
  }

  /** The fields a display of `totalMs` should show. */
  function ExpectedClock(totalMs: nat): Clock {
    var ts := totalMs / 1000;
    Clock(ts / 3600, (ts % 3600) / 60, ts % 60, (totalMs % 1000) / 10)
  }

  lemma FormatParsesShort(totalMs: nat)
    requires totalMs < 60000
    ensures ParseTime(FormatTime(totalMs)) == Some(ExpectedClock(totalMs))
    ensures |FormatTime(totalMs)| == 5 && FormatTime(totalMs)[2] == '.'
  {
    var ts := totalMs / 1000;
    var cc := (totalMs % 1000) / 10;
    TwoDigitField(cc);
    TwoDigitField(ts);
    ParseShort(FormatTime(totalMs), PadStart2(NatToString(ts)), PadStart2(NatToString(cc)));
  }

  lemma FormatParsesMedium(totalMs: nat)
    requires 60000 <= totalMs < 3600000
    ensures ParseTime(FormatTime(totalMs)) == Some(ExpectedClock(totalMs))
    ensures |FormatTime(totalMs)| == 8 && FormatTime(totalMs)[2] == ':' && FormatTime(totalMs)[5] == '.'
  {
    var ts := totalMs / 1000;
    var cc := (totalMs % 1000) / 10;
    TwoDigitField(cc);
    TwoDigitField(ts / 60);
    TwoDigitField(ts % 60);
    ParseMedium(FormatTime(totalMs), PadStart2(NatToString(ts / 60)), PadStart2(NatToString(ts % 60)),
                PadStart2(NatToString(cc)));
  }

  lemma FormatParsesLong(totalMs: nat)
    requires totalMs >= 3600000
    ensures ParseTime(FormatTime(totalMs)) == Some(ExpectedClock(totalMs))
    ensures var r := FormatTime(totalMs);
            |r| >= 11 && r[|r| - 9] == ':' && r[|r| - 6] == ':' && r[|r| - 3] == '.'
  {
    var ts := totalMs / 1000;
    var cc := (totalMs % 1000) / 10;
    var hours := ts / 3600;
    var hh := if hours >= 100 then NatToString(hours) else PadStart2(NatToString(hours));
    HoursField(hours);
    TwoDigitField(cc);
    TwoDigitField((ts % 3600) / 60);
    TwoDigitField(ts % 60);
    ParseLong(FormatTime(totalMs), hh, PadStart2(NatToString((ts % 3600) / 60)), PadStart2(NatToString(ts % 60)),
              PadStart2(NatToString(cc)));
  }

  /** The expected fields are in range and recombine to `totalMs - totalMs % 10`. */
  lemma ExpectedClockFields(totalMs: nat)
    ensures var c := ExpectedClock(totalMs);
            && c.minutes < 60 && c.seconds < 60 && c.centis < 100
            && c.hours == totalMs / 3600000
            && ClockMs(c) == totalMs - totalMs % 10
  {
    Recombine(totalMs);
  }

  lemma FormatParsesCases(totalMs: nat)
    ensures ParseTime(FormatTime(totalMs)) == Some(ExpectedClock(totalMs))
  {
    if totalMs < 60000 {
      FormatParsesShort(totalMs);
    } else if totalMs < 3600000 {
      FormatParsesMedium(totalMs);
    } else {
      FormatParsesLong(totalMs);
    }
  }

  /**
   * Every display reads back: its minutes and seconds are below 60, its
   * centiseconds are the truncated `(ms mod 1000) / 10`, its hours are
   * `ms / 3600000` in full, and together the fields give `ms - ms mod 10`.
   */
  lemma FormatParses(totalMs: nat)
    ensures ParseTime(FormatTime(totalMs)).Some?
    ensures var c := ParseTime(FormatTime(totalMs)).value;
            && c.minutes < 60 && c.seconds < 60 && c.centis < 100
            && c.centis == (totalMs % 1000) / 10
            && c.hours == totalMs / 3600000
            && ClockMs(c) == totalMs - totalMs % 10
  {
    FormatParsesCases(totalMs);
    ExpectedClockFields(totalMs);
  }

  /**
   * The three layouts: `SS.cc` (5 characters) below 60 s, `MM:SS.cc`
   * (8 characters) below an hour, `HH:MM:SS.cc` (11 or more) from an hour on.
   */
  lemma FormatLayout(totalMs: nat)
    ensures var r := FormatTime(totalMs);
            && (totalMs < 60000 ==> |r| == 5 && r[2] == '.')
            && (60000 <= totalMs < 3600000 ==> |r| == 8 && r[2] == ':' && r[5] == '.')
            && (totalMs >= 3600000 ==>
                  |r| >= 11 && r[|r| - 9] == ':' && r[|r| - 6] == ':' && r[|r| - 3] == '.')
  {
    if totalMs < 60000 {
      FormatParsesShort(totalMs);
    } else if totalMs < 3600000 {
      FormatParsesMedium(totalMs);
    } else {
      FormatParsesLong(totalMs);
    }
  }

  /** `Math.round` leaves whole numbers alone. */
  lemma MathRoundWhole(k: int)
    ensures MathRound(k as real) == k
  {
    assert k as real <= k as real + 0.5 < (k + 1) as real;
  }

  lemma TwoDigitText(n: nat)
    requires n < 100
    ensures PadStart2(NatToString(n)) == [DigitChar(n / 10), DigitChar(n % 10)]
  {
  }

  /** `formatTime(7265432)` is `"02:01:05.43"`. */
  lemma FormatExampleHours()
    ensures FormatTime(7265432) == "02:01:05.43"
  {
    var ts := 7265432 / 1000;
    assert ts == 7265 && ts / 3600 == 2 && (ts % 3600) / 60 == 1 && ts % 60 == 5;
    assert Min(99, (7265432 % 1000) / 10) == 43;
    TwoDigitText(2);
    TwoDigitText(1);
    TwoDigitText(5);
    TwoDigitText(43);
    assert FormatTime(7265432) == "02" + ":" + ("01" + ":" + "05" + "." + "43");
  }

  /** `formatTime(0)` is `"00.00"`. */
  lemma FormatExampleZero()
    ensures FormatTime(0) == "00.00"
  {
    TwoDigitText(0);
  }

  /** A time that is already whole is printed as it is: the rounding step changes nothing. */
  lemma FormatTimeOfWhole(k: nat)
    ensures FormatTimeOf(k as real) == FormatTime(k)
  {
    MathRoundWhole(k);
  }

  /**
   * Every rounded display reads back, and its fields give the rounded time
   * less its last digit.
   */
  lemma FormatTimeOfParses(totalMs: real)
    requires totalMs >= 0.0
    ensures ParseTime(FormatTimeOf(totalMs)).Some?
    ensures var k := RoundMs(totalMs);
            ClockMs(ParseTime(FormatTimeOf(totalMs)).value) == k - k % 10
    ensures |FormatTimeOf(totalMs)| >= 5
  {
    FormatParses(RoundMs(totalMs));
    FormatLayout(RoundMs(totalMs));
  }
}
