/**
 * The JavaScript string and number primitives the client code relies on:
 * `trim`, `parseInt` without a radix, and `String(n)` for integral numbers.
 */
module ClientText {
  import opened Wrappers
  import opened Text

  /** ECMAScript white space and line terminators (what `trim` and `parseInt` skip). */
  predicate IsJsWhite(c: char)
  {
    c == '\t' || c == '\n' || c == '\U{000B}' || c == '\U{000C}' || c == '\r' || c == ' ' ||
    c == '\U{00A0}' || c == '\U{1680}' || ('\U{2000}' <= c <= '\U{200A}') || c == '\U{2028}' ||
    c == '\U{2029}' || c == '\U{202F}' || c == '\U{205F}' || c == '\U{3000}' || c == '\U{FEFF}'
  }

  function TrimStart(s: string): (r: string)
    ensures |r| <= |s| && r == s[|s| - |r|..]
    ensures r == [] || !IsJsWhite(r[0])
    ensures forall i :: 0 <= i < |s| - |r| ==> IsJsWhite(s[i])
  {
    if s != [] && IsJsWhite(s[0]) then TrimStart(s[1..]) else s
  }

  function TrimEnd(s: string): (r: string)
    ensures |r| <= |s| && r == s[..|r|]
    ensures r == [] || !IsJsWhite(r[|r| - 1])
    ensures forall i :: |r| <= i < |s| ==> IsJsWhite(s[i])
  {
    if s != [] && IsJsWhite(s[|s| - 1]) then TrimEnd(s[..|s| - 1]) else s
  }

  /** `s.trim()`. */
  function Trim(s: string): (r: string)
  {
    TrimEnd(TrimStart(s))
  }

  /**
   * The trimmed text is a slice of the input with only white space cut away,
   * and it neither starts nor ends with white space; trimming twice changes nothing.
   */
  lemma TrimFacts(s: string)
    ensures var r := Trim(s);
            && r == s[|s| - |TrimStart(s)|..][..|r|]
            && (r == [] || (!IsJsWhite(r[0]) && !IsJsWhite(r[|r| - 1])))
            && Trim(r) == r
  {
    var t := TrimStart(s);
    var r := TrimEnd(t);
    assert Trim(s) == r;
    assert t == s[|s| - |t|..] && r == t[..|r|];
    assert r == [] || (r[0] == t[0] && !IsJsWhite(r[0]) && !IsJsWhite(r[|r| - 1]));
    TrimmedIsFixed(r);
  }

  lemma TrimmedIsFixed(r: string)
    requires r == [] || (!IsJsWhite(r[0]) && !IsJsWhite(r[|r| - 1]))
    ensures Trim(r) == r
  {
    assert TrimStart(r) == r;
  }

  /** A text of white space alone trims to the empty string. */
  lemma TrimBlank(s: string)
    requires forall i :: 0 <= i < |s| ==> IsJsWhite(s[i])
    ensures Trim(s) == ""
  {
  }

  predicate IsHexDigit(c: char)
  {
    IsDigit(c) || ('a' <= c <= 'f') || ('A' <= c <= 'F')
  }

  predicate IsRadixDigit(c: char, hex: bool)
  {
    IsDigit(c) || (hex && IsHexDigit(c))
  }

  function DigitValue(c: char): (r: nat)
    requires IsHexDigit(c)
    ensures r < 16 && (IsDigit(c) ==> r < 10)
  {
    if IsDigit(c) then c as int - '0' as int
    else if 'a' <= c <= 'f' then c as int - 'a' as int + 10
    else c as int - 'A' as int + 10
  }

  /** The longest prefix of `s` made of digits of the radix. */
  function DigitRun(s: string, hex: bool): (r: string)
    ensures |r| <= |s| && r == s[..|r|]
    ensures forall i :: 0 <= i < |r| ==> IsRadixDigit(r[i], hex)
    ensures |r| < |s| ==> !IsRadixDigit(s[|r|], hex)
  {
    if s == [] || !IsRadixDigit(s[0], hex) then [] else [s[0]] + DigitRun(s[1..], hex)
  }

  /** The value of a digit string in radix 16 or 10. */
  function RadixValue(s: string, hex: bool): nat
    requires forall i :: 0 <= i < |s| ==> IsRadixDigit(s[i], hex)
  {
    if s == [] then 0
    else
      assert IsRadixDigit(s[|s| - 1], hex);
      RadixValue(s[..|s| - 1], hex) * (if hex then 16 else 10) + DigitValue(s[|s| - 1])
  }

  /**
   * `parseInt(s)` with no radix: leading white space is skipped, then an optional
   * sign, then "0x" or "0X" selects radix 16; the longest run of digits is read and
   * anything after it ignored. No digits at all is `NaN`, here `None`.
   */
  function ParseInt(s: string): Option<int>
  {
    ParseSigned(TrimStart(s))
  }

  function ParseSigned(t: string): Option<int>
  {
    if t != [] && t[0] == '-' then
      match ParseUnsigned(t[1..])
      case None => None
      case Some(v) => Some(0 - v)
    else if t != [] && t[0] == '+' then ParseUnsigned(t[1..])
    else ParseUnsigned(t)
  }

  function ParseUnsigned(u: string): Option<int>
  {
    if |u| >= 2 && u[0] == '0' && (u[1] == 'x' || u[1] == 'X') then ReadDigits(u[2..], true)
    else ReadDigits(u, false)
  }

  function ReadDigits(body: string, hex: bool): Option<int>
  {
    var digits := DigitRun(body, hex);
    if digits == [] then None else Some(RadixValue(digits, hex))
  }

  /** `String(n)` for an integral number. */
  function NumberToString(n: int): string
  {
    IntToString(n)
  }

  /** A JavaScript number as the client sees it: an integer, or `NaN` from a failed parse. */
  datatype Number = Int(value: int) | NaN
  {
    /** Zero and `NaN` are falsy. */
    predicate Truthy() { Int? && value != 0 }

    function ToText(): string
    {
      if Int? then NumberToString(value) else "NaN"
    }
  }

  /** `parseInt` as a number. */
  function ParseNumber(s: string): (r: Number)
    ensures r.Int? <==> ParseInt(s).Some?
    ensures r.Int? ==> r.value == ParseInt(s).value
  {
    match ParseInt(s)
    case Some(v) => Int(v)
    case None => NaN
  }

  lemma {:induction false} DecimalValue(n: nat)
    ensures RadixValue(NatToString(n), false) == n
    decreases n
  {
    if n >= 10 {
      DecimalValue(n / 10);
      var s := NatToString(n);
      assert s[..|s| - 1] == NatToString(n / 10);
    }
  }

  lemma DigitRunOfDigits(s: string, hex: bool)
    requires forall i :: 0 <= i < |s| ==> IsRadixDigit(s[i], hex)
    ensures DigitRun(s, hex) == s
  {
    if |DigitRun(s, hex)| < |s| {
      assert !IsRadixDigit(s[|DigitRun(s, hex)|], hex);
    }
  }

  lemma UnsignedDecimal(d: string)
    requires d != [] && forall i :: 0 <= i < |d| ==> IsDigit(d[i])
    ensures ParseUnsigned(d) == Some(RadixValue(d, false))
  {
    DigitRunOfDigits(d, false);
    if |d| >= 2 {
      assert IsDigit(d[1]);
    }
  }

  /** A digit string reads as its decimal value. */
  lemma ParseDecimal(d: string)
    requires d != [] && forall i :: 0 <= i < |d| ==> IsDigit(d[i])
    ensures ParseInt(d) == Some(RadixValue(d, false))
  {
    DigitNotWhite(d[0]);
    NothingToTrim(d);
    assert ParseInt(d) == ParseSigned(d);
    assert d[0] != '-' && d[0] != '+';
    assert ParseSigned(d) == ParseUnsigned(d);
    UnsignedDecimal(d);
  }

  /** A digit string after a '-' reads as the negated value. */
  lemma ParseNegativeDecimal(d: string, m: string)
    requires d != [] && forall i :: 0 <= i < |d| ==> IsDigit(d[i])
    requires m == "-" + d
    ensures ParseInt(m) == Some(0 - RadixValue(d, false))
  {
    assert m[0] == '-' && m[1..] == d;
    NothingToTrim(m);
    assert ParseInt(m) == ParseSigned(m);
    UnsignedDecimal(d);
  }

  lemma NothingToTrim(s: string)
    requires s != [] && !IsJsWhite(s[0])
    ensures TrimStart(s) == s
  {
  }

  /** Reading back the text of an integer gives that integer. */
  lemma ParseIntRoundTrip(n: int)
    ensures ParseInt(NumberToString(n)) == Some(n)
  {
    var a: nat := if n < 0 then -n else n;
    var d := NatToString(a);
    DecimalValue(a);
    if n < 0 {
      ParseNegativeDecimal(d, "-" + d);
    } else {
      ParseDecimal(d);
    }
    assert NumberToString(n) == if n < 0 then "-" + d else d;
  }

  lemma {:induction false} DigitRunStops(d: string, rest: string, hex: bool)
    requires forall i :: 0 <= i < |d| ==> IsRadixDigit(d[i], hex)
    requires rest == [] || !IsRadixDigit(rest[0], hex)
    ensures DigitRun(d + rest, hex) == d
    decreases |d|
  {
    if d != [] {
      DigitRunStops(d[1..], rest, hex);
      assert (d + rest)[1..] == d[1..] + rest;
    }
  }

  /** Leading white space is skipped up to the first non-blank. */
  lemma TrimWhitePrefix(w: string, s: string)
    requires forall i :: 0 <= i < |w| ==> IsJsWhite(w[i])
    requires s == [] || !IsJsWhite(s[0])
    ensures TrimStart(w + s) == s
  {
    var t := w + s;
    var r := TrimStart(t);
    var k := |t| - |r|;
    assert k == |w|;
    assert r == t[|w|..];
    assert t[|w|..] == s;
  }


  /** The digits are not read as a "0x" prefix. */
  predicate NotHexPrefix(d: string, rest: string)
    requires d != []
  {
    d[0] != '0' || |d| >= 2 || rest == [] || (rest[0] != 'x' && rest[0] != 'X')
  }

  lemma ParseDigitRun(d: string, rest: string)
    requires d != [] && forall i :: 0 <= i < |d| ==> IsDigit(d[i])
    requires NotHexPrefix(d, rest)
    requires rest == [] || !IsDigit(rest[0])
    ensures ParseSigned(d + rest) == Some(RadixValue(d, false))
  {
    var s := d + rest;
    assert s[0] == d[0];
    assert ParseSigned(s) == ParseUnsigned(s);
    if |d| >= 2 {
      assert s[1] == d[1];
    }
    assert ParseUnsigned(s) == ReadDigits(s, false);
    DigitRunStops(d, rest, false);
  }

  /**
   * Leading white space is skipped and the text after the digits is ignored:
   * `parseInt(w + d + rest)` is the value of the digits `d` ("  12px" reads 12).
   */
  lemma ParseIntStopsAtNonDigit(w: string, d: string, rest: string)
    requires forall i :: 0 <= i < |w| ==> IsJsWhite(w[i])
    requires d != [] && forall i :: 0 <= i < |d| ==> IsDigit(d[i])
    requires NotHexPrefix(d, rest)
    requires rest == [] || !IsDigit(rest[0])
    ensures ParseInt(w + d + rest) == Some(RadixValue(d, false))
  {
    var s := d + rest;
    assert w + d + rest == w + s;
    assert s[0] == d[0];
    DigitNotWhite(d[0]);
    TrimWhitePrefix(w, s);
    ParseDigitRun(d, rest);
    assert ParseInt(w + s) == ParseSigned(s);
  }

  lemma DigitNotWhite(c: char)
    requires IsDigit(c)
    ensures !IsJsWhite(c)
  {
  }

  /** A "0x" prefix switches to radix 16. */
  lemma ParseIntHex()
    ensures ParseInt("0x1F") == Some(31)
  {
    assert TrimStart("0x1F") == "0x1F";
    assert "0x1F"[2..] == "1F";
    assert DigitRun("1F", true) == "1F" by {
      assert "1F"[1..] == "F" && "F"[1..] == [];
    }
    assert RadixValue("1F", true) == 31 by { assert "1F"[..1] == "1"; }
  }

  /** A text without digits is `NaN`. */
  lemma ParseIntNaN()
    ensures ParseInt("abc") == None && ParseInt("") == None
  {
    NothingToTrim("abc");
    assert ParseInt("abc") == ReadDigits("abc", false);
    assert DigitRun("abc", false) == [];
    assert ParseInt("") == ReadDigits("", false);
  }
}
