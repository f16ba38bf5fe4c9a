/** The `MM:SS` rendering of a number of seconds, `{t / 60:D2}:{t % 60:D2}` in the
    C# source: each part is written in decimal and left-padded with zeros to at least
    two digits. `ParseTime` reads such a string back and is the formatter's partner. */
module ClockFormat {
  import opened Wrappers

  predicate IsDigit(c: char) {
    '0' <= c <= '9'
  }

  predicate AllDigits(s: string) {
    s == [] || (AllDigits(s[..|s| - 1]) && IsDigit(s[|s| - 1]))
  }

  function DigitChar(d: nat): (c: char)
    requires d < 10
    ensures IsDigit(c)
    ensures c == '0' <==> d == 0
  {
    "0123456789"[d]
  }

  function DigitValue(c: char): (d: nat)
    requires IsDigit(c)
    ensures d < 10
  {
    c as int - '0' as int
  }

  /** The decimal digits of `n`, most significant first, without leading zeros. */
  function Decimal(n: nat): (s: string)
    ensures AllDigits(s) && 1 <= |s|
    ensures n < 10 <==> |s| == 1
    ensures n < 100 ==> |s| <= 2
    ensures n > 0 ==> s[0] != '0'
    decreases n
  {
    if n < 10 then
      var s := [DigitChar(n)];
      assert s[..0] == [];
      s
    else
      var s := Decimal(n / 10) + [DigitChar(n % 10)];
      assert s[..|s| - 1] == Decimal(n / 10);
      assert s[0] == Decimal(n / 10)[0];
      s
  }

  /** The number a string of decimal digits denotes (leading zeros allowed). */
  function Value(s: string): (v: nat)
    requires AllDigits(s)
  {
    if s == [] then 0 else 10 * Value(s[..|s| - 1]) + DigitValue(s[|s| - 1])
  }

  lemma {:induction false} ValueOfDecimal(n: nat)
    ensures Value(Decimal(n)) == n
  {
    if n >= 10 {
      var s := Decimal(n);
      assert s[..|s| - 1] == Decimal(n / 10);
      ValueOfDecimal(n / 10);
    }
  }

  lemma {:induction false} LeadingZero(s: string)
    requires AllDigits(s)
    ensures AllDigits("0" + s) && Value("0" + s) == Value(s)
  {
    if s != [] {
      var z := "0" + s;
      assert z[..|z| - 1] == "0" + s[..|s| - 1];
      LeadingZero(s[..|s| - 1]);
    }
  }

  /** .NET's `D2` format of a non-negative integer: at least two digits, and no zero
      added in front of a number that already has two or more. */
  function Pad2(n: nat): (s: string)
    ensures AllDigits(s) && 2 <= |s|
    ensures n < 100 ==> |s| == 2
    ensures Value(s) == n
    ensures |s| > 2 ==> s[0] != '0'
  {
    ValueOfDecimal(n);
    if n < 10 then
      LeadingZero(Decimal(n));
      "0" + Decimal(n)
    else
      Decimal(n)
  }

  /** The two fields of a `minutes:seconds` text with two second digits. */
  lemma SplitClock(m: string, sec: string)
    requires |sec| == 2
    ensures var s := m + ":" + sec;
      s[|s| - 3] == ':' && s[..|s| - 3] == m && s[|s| - 2..] == sec
  {
  }

  /** The time shown to the user for `t` remaining seconds (minutes, a colon, seconds). */
  function FormatTime(t: nat): (s: string)
    ensures 5 <= |s| && s[|s| - 3] == ':'
    ensures AllDigits(s[..|s| - 3]) && Value(s[..|s| - 3]) == t / 60
    ensures AllDigits(s[|s| - 2..]) && Value(s[|s| - 2..]) == t % 60
    ensures t < 6000 ==> |s| == 5
    ensures |s| > 5 ==> s[0] != '0'
  {
    SplitClock(Pad2(t / 60), Pad2(t % 60));
    Pad2(t / 60) + ":" + Pad2(t % 60)
  }

  /** Reads a time in the shape `FormatTime` writes: at least two minute digits, a colon,
      and two second digits below 60. */
  function ParseTime(s: string): (r: Option<nat>)
    ensures r.Some? ==> 5 <= |s| && s[|s| - 3] == ':'
  {
    if |s| < 5 || s[|s| - 3] != ':' then None
    else
      var m, sec := s[..|s| - 3], s[|s| - 2..];
      if AllDigits(m) && AllDigits(sec) && Value(sec) < 60 then Some(60 * Value(m) + Value(sec))
      else None
  }

  /** Minutes and seconds below 60, written as `FormatTime` writes them, read back. */
  lemma ParseClock(m: nat, sec: nat)
    requires sec < 60
    ensures ParseTime(Pad2(m) + ":" + Pad2(sec)) == Some(60 * m + sec)
  {
    SplitClock(Pad2(m), Pad2(sec));
  }

  /** Every formatted time reads back as the number of seconds it was made from. */
  lemma FormatTimeRoundTrip(t: nat)
    ensures ParseTime(FormatTime(t)) == Some(t)
  {
    ParseClock(t / 60, t % 60);
    assert 60 * (t / 60) + t % 60 == t;
  }

  /** Two different times are never displayed alike. */
  lemma FormatTimeInjective(a: nat, b: nat)
    requires FormatTime(a) == FormatTime(b)
    ensures a == b
  {
    FormatTimeRoundTrip(a);
    FormatTimeRoundTrip(b);
  }

  lemma FormatTimeExamples()
    ensures FormatTime(125) == "02:05"
    ensures FormatTime(599) == "09:59"
    ensures FormatTime(0) == "00:00"
  {
    TwoMinutesFive();
    NineMinutesFiftyNine();
    ZeroSeconds();
  }

  lemma TwoMinutesFive()
    ensures FormatTime(125) == "02:05"
  {
    assert Pad2(2) == "02" && Pad2(5) == "05";
  }

  lemma NineMinutesFiftyNine()
    ensures FormatTime(599) == "09:59"
  {
    assert Pad2(9) == "09";
    assert Pad2(59) == "59" by {
      assert Decimal(5) == "5";
    }
  }

  lemma ZeroSeconds()
    ensures FormatTime(0) == "00:00"
  {
    assert Pad2(0) == "00";
  }
}
