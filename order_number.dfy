/**
 * The text pieces of an order number: the `yyyyMMdd` date prefix, `Int32.TryParse`
 * with its default number style, and the `D4` format of the sequence.
 */
module OrderNumbers {
  import opened Wrappers
  import opened Primitives
  import opened Text

  // ---------------------------------------------------------------------------
  // The date prefix

  /** The proleptic Gregorian date of a day count since 0001-01-01. */
  datatype CivilDate = CivilDate(year: int, month: int, day: int)

  /** Days before each month, in a common year and in a leap year. */
  const DaysToMonth365: seq<int> := [0, 31, 59, 90, 120, 151, 181, 212, 243, 273, 304, 334, 365]
  const DaysToMonth366: seq<int> := [0, 31, 60, 91, 121, 152, 182, 213, 244, 274, 305, 335, 366]

  /** A cumulative month table: 13 entries from 0, each month 28 to 31 days long. */
  predicate MonthTable(t: seq<int>)
  {
    |t| == 13 && t[0] == 0 && forall m :: 0 <= m < 12 ==> 28 <= t[m + 1] - t[m] <= 31
  }

  lemma MonthTables()
    ensures MonthTable(DaysToMonth365) && MonthTable(DaysToMonth366)
    ensures DaysToMonth365[12] == 365 && DaysToMonth366[12] == 366
  {
    CommonMonths();
    LeapMonths();
  }

  lemma CommonMonths()
    ensures MonthTable(DaysToMonth365)
  {
    var t := DaysToMonth365;
    forall m | 0 <= m < 12
      ensures 28 <= t[m + 1] - t[m] <= 31
    {
    }
  }

  lemma LeapMonths()
    ensures MonthTable(DaysToMonth366)
  {
    var t := DaysToMonth366;
    forall m | 0 <= m < 12
      ensures 28 <= t[m + 1] - t[m] <= 31
    {
    }
  }


  /** No month starts later than 31 days per earlier month. */
  lemma {:induction false} MonthStartBound(t: seq<int>, m: nat)
    requires MonthTable(t) && m <= 12
    ensures t[m] <= 31 * m
    decreases m
  {
    if m > 0 {
      MonthStartBound(t, m - 1);
    }
  }

  /** The month of day `n` of the year: the first `m` from the start with `n < t[m]`. */
  function FindMonth(t: seq<int>, n: int, m: nat): (r: nat)
    requires MonthTable(t) && 1 <= m <= 12 && t[m - 1] <= n < t[12]
    ensures m <= r <= 12 && t[r - 1] <= n < t[r]
    decreases 12 - m
  {
    if n < t[m] then m else FindMonth(t, n, m + 1)
  }

  /** The century of a day of a 400-year cycle; its last day belongs to the fourth century. */
  lemma CenturyBlock(n1: int)
    requires 0 <= n1 < 146097
    ensures var y100 := if n1 / 36524 == 4 then 3 else n1 / 36524;
            var n2 := n1 - y100 * 36524;
            0 <= y100 <= 3 && 0 <= n2 <= 36524 && (n2 == 36524 ==> y100 == 3)
  {
  }

  /** The four-year block of a day of a century. */
  lemma FourYearBlock(n2: int)
    requires 0 <= n2 <= 36524
    ensures var y4 := n2 / 1461;
            var n3 := n2 - y4 * 1461;
            0 <= y4 <= 24 && 0 <= n3 <= 1460 && (y4 == 24 && n3 == 1460 ==> n2 == 36524)
  {
  }

  /** The year of a day of a four-year block; its last day belongs to the fourth year. */
  lemma YearBlock(n3: int)
    requires 0 <= n3 <= 1460
    ensures var y1 := if n3 / 365 == 4 then 3 else n3 / 365;
            var n := n3 - y1 * 365;
            0 <= y1 <= 3 && 0 <= n <= 365 && (n == 365 ==> y1 == 3 && n3 == 1460)
  {
  }

  /**
   * Civil date of day number `days` (0 is 0001-01-01), split into 400-, 100-,
   * 4- and 1-year blocks the way `DateTime` computes its date part; the month
   * search starts at `n >> 5`.
   */
  function CivilFromDays(days: nat): (r: CivilDate)
    ensures 1 <= r.month <= 12 && 1 <= r.day <= 31 && r.year >= 1
  {
    var y400 := days / 146097;
    var n1 := days - y400 * 146097;
    CenturyBlock(n1);
    var y100 := if n1 / 36524 == 4 then 3 else n1 / 36524;
    var n2 := n1 - y100 * 36524;
    FourYearBlock(n2);
    var y4 := n2 / 1461;
    var n3 := n2 - y4 * 1461;
    YearBlock(n3);
    var y1 := if n3 / 365 == 4 then 3 else n3 / 365;
    var n := n3 - y1 * 365;
    var leap := y1 == 3 && (y4 != 24 || y100 == 3);
    assert n < 365 || leap;
    MonthTables();
    var md := MonthDay(if leap then DaysToMonth366 else DaysToMonth365, n);
    CivilDate(y400 * 400 + y100 * 100 + y4 * 4 + y1 + 1, md.0, md.1)
  }

  /** Month and day of day `n` of a year with month table `t`. */
  function MonthDay(t: seq<int>, n: int): (r: (int, int))
    requires MonthTable(t) && 0 <= n < t[12]
    ensures 1 <= r.0 <= 12 && 1 <= r.1 <= 31
  {
    var s := n / 32;
    MonthStartBound(t, 12);
    assert s <= 11 && 31 * s <= n;
    MonthStartBound(t, s);
    var m := FindMonth(t, n, s + 1);
    (m, n - t[m - 1] + 1)
  }

  /** `n` in decimal, zero-padded to at least `width` digits. */
  function Digits(n: nat, width: nat): (r: string)
    ensures |r| >= width && forall i :: 0 <= i < |r| ==> IsDigit(r[i])
  {
    var s := NatToString(n);
    var r := PadLeftZeros(s, width);
    assert forall i :: |r| - |s| <= i < |r| ==> r[i] == s[i - (|r| - |s|)];
    r
  }

  /** `now.ToString("yyyyMMdd")`. */
  function DatePrefix(now: DateTime): (r: string)
    requires IsDateTime(now)
    ensures |r| >= 8 && forall i :: 0 <= i < |r| ==> IsDigit(r[i])
  {
    var c := CivilFromDays(now / SecondsPerDay);
    Digits(c.year, 4) + Digits(c.month, 2) + Digits(c.day, 2)
  }

  lemma CivilDateExample()
    ensures CivilFromDays(739_902) == CivilDate(2026, 10, 14)
  {
    assert 739_902 / 146_097 == 5;
    assert 9_417 / 36_524 == 0 && 9_417 / 1461 == 6;
    assert 651 / 365 == 1 && 286 / 32 == 8;
    assert FindMonth(DaysToMonth365, 286, 9) == 10;
  }


  /** Every instant of 14 October 2026 formats as `20261014`. */
  lemma DatePrefixExample(now: DateTime)
    requires 739_902 * SecondsPerDay <= now < 739_903 * SecondsPerDay
    ensures IsDateTime(now) && DatePrefix(now) == "20261014"
  {
    assert now / SecondsPerDay == 739_902;
    CivilDateExample();
    DatePrefixOfDate(now, CivilDate(2026, 10, 14));
    ExampleDigits();
    assert "2026" + "10" + "14" == "20261014";
  }

  lemma DatePrefixOfDate(now: DateTime, c: CivilDate)
    requires IsDateTime(now) && CivilFromDays(now / SecondsPerDay) == c
    requires c.year >= 0 && c.month >= 0 && c.day >= 0
    ensures DatePrefix(now) == Digits(c.year, 4) + Digits(c.month, 2) + Digits(c.day, 2)
  {
  }

  lemma ExampleDigits()
    ensures Digits(2026, 4) == "2026" && Digits(10, 2) == "10" && Digits(14, 2) == "14"
  {
    assert NatToString(2026) == "2026" by {
      assert NatToString(2) == "2";
      assert NatToString(20) == "20";
      assert NatToString(202) == "202";
    }
    assert NatToString(10) == "10" && NatToString(14) == "14" by { assert NatToString(1) == "1"; }
  }


  // ---------------------------------------------------------------------------
  // Int32.TryParse with NumberStyles.Integer

  /** The white space `NumberStyles.AllowLeadingWhite` / `AllowTrailingWhite` skip. */
  predicate IsWhite(c: char)
  {
    c == ' ' || '\t' <= c <= '\r'
  }

  function TrimStartWhite(s: string): (r: string)
    ensures |r| <= |s| && r == s[|s| - |r|..]
    ensures r == [] || !IsWhite(r[0])
    ensures forall i :: 0 <= i < |s| - |r| ==> IsWhite(s[i])
  {
    if s != [] && IsWhite(s[0]) then TrimStartWhite(s[1..]) else s
  }

  function TrimEndWhite(s: string): (r: string)
    ensures |r| <= |s| && r == s[..|r|]
    ensures r == [] || !IsWhite(r[|r| - 1])
    ensures forall i :: |r| <= i < |s| ==> IsWhite(s[i])
  {
    if s != [] && IsWhite(s[|s| - 1]) then TrimEndWhite(s[..|s| - 1]) else s
  }

  predicate AllDigits(s: string)
  {
    forall i :: 0 <= i < |s| ==> IsDigit(s[i])
  }

  /** The value of a string of decimal digits, most significant first. */
  function DigitsValue(s: string): (r: nat)
    requires AllDigits(s)
  {
    if s == [] then 0 else DigitsValue(s[..|s| - 1]) * 10 + (s[|s| - 1] as int - '0' as int)
  }

  /**
   * `int.TryParse(s, out n)`: optional white space around an optionally signed,
   * non-empty run of ASCII digits whose value fits in 32 bits.
   */
  function TryParseInt32(s: string): (r: Option<int>)
    ensures r.Some? ==> IsInt32(r.value)
  {
    var t := TrimEndWhite(TrimStartWhite(s));
    var signed := t != [] && (t[0] == '-' || t[0] == '+');
    var body := if signed then t[1..] else t;
    if body == [] || !AllDigits(body) then None
    else
      var v: int := if signed && t[0] == '-' then 0 - DigitsValue(body) as int else DigitsValue(body);
      if IsInt32(v) then Some(v) else None
  }

  // ---------------------------------------------------------------------------
  // The D4 format

  /** `n.ToString("D4")`: at least four digits, with a leading '-' when negative. */
  function FormatD4(n: int): (r: string)
    ensures n >= 0 ==> |r| >= 4 && AllDigits(r)
    ensures n < 0 ==> |r| >= 5 && r[0] == '-' && AllDigits(r[1..])
  {
    if n < 0 then "-" + Digits(-n, 4) else Digits(n, 4)
  }

  lemma {:induction false} NatToStringValue(n: nat)
    ensures DigitsValue(NatToString(n)) == n
  {
    if n >= 10 {
      NatToStringValue(n / 10);
      var s := NatToString(n);
      assert s[..|s| - 1] == NatToString(n / 10);
    }
  }

  lemma {:induction false} LeadingZeroValue(s: string)
    requires AllDigits(s)
    ensures AllDigits("0" + s) && DigitsValue("0" + s) == DigitsValue(s)
    decreases |s|
  {
    if s != [] {
      LeadingZeroValue(s[..|s| - 1]);
      assert ("0" + s)[..|s|] == "0" + s[..|s| - 1];
    }
  }

  lemma {:induction false} PaddedValue(s: string, width: nat)
    requires AllDigits(s)
    ensures AllDigits(PadLeftZeros(s, width)) && DigitsValue(PadLeftZeros(s, width)) == DigitsValue(s)
    decreases width - |s|
  {
    if |s| < width {
      LeadingZeroValue(s);
      PaddedValue("0" + s, width);
      PadLeftZerosStep(s, width);
    }
  }

  /** Text that starts and ends with a non-blank is not trimmed. */
  lemma NothingToTrim(s: string)
    requires s != [] && !IsWhite(s[0]) && !IsWhite(s[|s| - 1])
    ensures TrimEndWhite(TrimStartWhite(s)) == s
  {
  }

  lemma ParseNegative(d: string)
    requires d != [] && AllDigits(d) && IsInt32(0 - DigitsValue(d))
    ensures TryParseInt32("-" + d) == Some(0 - DigitsValue(d))
  {
    var f := "-" + d;
    assert !IsWhite(d[|d| - 1]);
    NothingToTrim(f);
    assert f[1..] == d;
  }

  lemma ParseFormatNegative(n: int)
    requires IsInt32(n) && n < 0
    ensures TryParseInt32(FormatD4(n)) == Some(n)
  {
    var d := Digits(-n, 4);
    NatToStringValue(-n);
    PaddedValue(NatToString(-n), 4);
    assert d == PadLeftZeros(NatToString(-n), 4);
    assert DigitsValue(d) == -n;
    assert FormatD4(n) == "-" + d;
    ParseNegative(d);
  }

  lemma ParseUnsigned(d: string)
    requires d != [] && AllDigits(d) && IsInt32(DigitsValue(d))
    ensures TryParseInt32(d) == Some(DigitsValue(d))
  {
    assert !IsWhite(d[0]) && !IsWhite(d[|d| - 1]);
    NothingToTrim(d);
  }

  lemma ParseFormatNonNegative(n: int)
    requires IsInt32(n) && n >= 0
    ensures TryParseInt32(FormatD4(n)) == Some(n)
  {
    var d := Digits(n, 4);
    NatToStringValue(n);
    PaddedValue(NatToString(n), 4);
    assert d == PadLeftZeros(NatToString(n), 4);
    assert FormatD4(n) == d;
    ParseUnsigned(d);
  }

  /** What `D4` writes, `TryParse` reads back: the sequence survives the round trip. */
  lemma ParseFormatRoundTrip(n: int)
    requires IsInt32(n)
    ensures TryParseInt32(FormatD4(n)) == Some(n)
  {
    if n < 0 { ParseFormatNegative(n); } else { ParseFormatNonNegative(n); }
  }
}
