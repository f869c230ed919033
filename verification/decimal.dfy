/** Decimal text of integers: Int64.ToString() and long.Parse with the default NumberStyles.Integer. */
module Decimal {
  import opened Wrappers

  const Int64Max: int := 0x7FFF_FFFF_FFFF_FFFF
  const Int64Min: int := -0x8000_0000_0000_0000

  predicate IsDigit(c: char) {
    '0' <= c <= '9'
  }

  predicate AllDigits(s: string) {
    forall i :: 0 <= i < |s| ==> IsDigit(s[i])
  }

  function DigitChar(d: nat): (c: char)
    requires d < 10
    ensures IsDigit(c) && DigitValue(c) == d
  {
    ('0' as int + d) as char
  }

  function DigitValue(c: char): nat
    requires IsDigit(c)
  {
    c as int - '0' as int
  }

  /** The shortest decimal text of a non-negative number. */
  function NatToString(n: nat): (s: string)
    ensures |s| >= 1 && AllDigits(s)
  {
    if n < 10 then [DigitChar(n)] else NatToString(n / 10) + [DigitChar(n % 10)]
  }

  /** Int64.ToString() with the invariant culture: a minus sign before the digits of a negative number. */
  function IntToString(i: int): (s: string)
    ensures |s| >= 1
    ensures i < 0 <==> s[0] == '-'
  {
    if i < 0 then "-" + NatToString(-i) else NatToString(i)
  }

  /** The number a string of digits denotes. */
  function DigitsValue(s: string): nat
    requires AllDigits(s)
  {
    if s == [] then 0 else DigitsValue(s[..|s| - 1]) * 10 + DigitValue(s[|s| - 1])
  }

  lemma {:induction false} NatToStringValue(n: nat)
    ensures DigitsValue(NatToString(n)) == n
  {
    var s := NatToString(n);
    if n >= 10 {
      NatToStringValue(n / 10);
      assert s[..|s| - 1] == NatToString(n / 10);
    }
  }

  /** Distinct numbers have distinct decimal texts. */
  lemma IntToStringInjective(i: int, j: int)
    requires IntToString(i) == IntToString(j)
    ensures i == j
  {
    if i < 0 {
      assert j < 0;
      MinusInjective(NatToString(-i), NatToString(-j));
      NatToStringInjective(-i, -j);
    } else {
      assert j >= 0;
      NatToStringInjective(i, j);
    }
  }

  lemma MinusInjective(a: string, b: string)
    requires "-" + a == "-" + b
    ensures a == b
  {
    assert a == ("-" + a)[1..];
  }

  lemma NatToStringInjective(a: nat, b: nat)
    requires NatToString(a) == NatToString(b)
    ensures a == b
  {
    NatToStringValue(a);
    NatToStringValue(b);
  }

  /** The white space NumberStyles.AllowLeadingWhite/AllowTrailingWhite skip: U+0009..U+000D and U+0020. */
  predicate IsNumberWhite(c: char) {
    ('\U{9}' <= c <= '\U{D}') || c == ' '
  }

  function TrimStart(s: string): (t: string)
    ensures |t| <= |s| && t == s[|s| - |t|..]
    ensures |t| > 0 ==> !IsNumberWhite(t[0])
  {
    if |s| > 0 && IsNumberWhite(s[0]) then TrimStart(s[1..]) else s
  }

  function TrimEnd(s: string): (t: string)
    ensures |t| <= |s| && t == s[..|t|]
    ensures |t| > 0 ==> !IsNumberWhite(t[|t| - 1])
  {
    if |s| > 0 && IsNumberWhite(s[|s| - 1]) then TrimEnd(s[..|s| - 1]) else s
  }

  datatype ParseFault = FormatFault | OverflowFault

  /**
   * long.Parse(s): optional white space around an optional sign and at least one digit;
   * any other text throws a FormatException, a value outside Int64 an OverflowException.
   */
  function ParseLong(s: string): (r: Result<int, ParseFault>)
    ensures r.Ok? ==> Int64Min <= r.value <= Int64Max
    ensures r.Ok? ==> exists i :: 0 <= i < |s| && IsDigit(s[i])
  {
    var t := TrimEnd(TrimStart(s));
    var r := ParseTrimmed(t);
    assert r.Ok? ==> t[|t| - 1] in s by {
      if r.Ok? {
        assert t[|t| - 1] in t;
        assert t == TrimStart(s)[..|t|];
      }
    }
    r
  }

  /** The number a sign and digits denote, once the white space around them is gone. */
  function ParseTrimmed(t: string): (r: Result<int, ParseFault>)
    ensures r.Ok? ==> Int64Min <= r.value <= Int64Max
    ensures r.Ok? ==> |t| > 0 && IsDigit(t[|t| - 1])
  {
    var negative := |t| > 0 && t[0] == '-';
    var digits := if |t| > 0 && (t[0] == '-' || t[0] == '+') then t[1..] else t;
    if |digits| == 0 || !AllDigits(digits) then Err(FormatFault)
    else
      assert digits[|digits| - 1] == t[|t| - 1];
      var magnitude: int := DigitsValue(digits);
      InRange(if negative then -magnitude else magnitude)
  }

  function InRange(v: int): (r: Result<int, ParseFault>)
    ensures r.Ok? <==> Int64Min <= v <= Int64Max
    ensures r.Ok? ==> r.value == v
    ensures r.Err? ==> r.error == OverflowFault
  {
    if v < Int64Min || Int64Max < v then Err(OverflowFault) else Ok(v)
  }

  /** The value a sign gives a magnitude: negative after '-', positive otherwise. */
  function Signed(sign: string, n: nat): int {
    if sign == "-" then -(n as int) else n
  }

  predicate AllNumberWhite(s: string) {
    forall i :: 0 <= i < |s| ==> IsNumberWhite(s[i])
  }

  /**
   * The texts long.Parse accepts: white space, an optional '+' or '-', one or more digits and white
   * space again. Such a text parses to the signed value of its digits when that fits in an Int64,
   * and overflows otherwise.
   */
  lemma ParseLongAccepts(s: string, lead: string, sign: string, d: string, trail: string)
    requires AllNumberWhite(lead) && AllNumberWhite(trail)
    requires sign == "" || sign == "+" || sign == "-"
    requires |d| >= 1 && AllDigits(d)
    requires s == lead + sign + d + trail
    ensures ParseLong(s) == InRange(Signed(sign, DigitsValue(d)))
  {
    var t := sign + d;
    Regroup(lead, sign, d, trail);
    TrimAround(lead, t, trail);
    ParseLongTrims(s, t);
    ParseSigned(sign, d, DigitsValue(d));
  }

  /**
   * The converse: every text long.Parse does not refuse as malformed has that shape, and its result
   * is the signed value of its digits, or an overflow.
   */
  lemma ParseLongShape(s: string) returns (lead: string, sign: string, d: string, trail: string)
    requires ParseLong(s) != Err(FormatFault)
    ensures AllNumberWhite(lead) && AllNumberWhite(trail)
    ensures sign == "" || sign == "+" || sign == "-"
    ensures |d| >= 1 && AllDigits(d)
    ensures s == lead + sign + d + trail
    ensures ParseLong(s) == InRange(Signed(sign, DigitsValue(d)))
  {
    var t := TrimEnd(TrimStart(s));
    ParseLongTrims(s, t);
    lead, trail := TrimSplit(s);
    sign, d := SignSplit(t);
    Regroup(lead, sign, d, trail);
  }

  /** long.Parse reads the text its white space surrounds. */
  lemma ParseLongTrims(s: string, t: string)
    requires TrimEnd(TrimStart(s)) == t
    ensures ParseLong(s) == ParseTrimmed(t)
  {
  }

  lemma Regroup(a: string, b: string, c: string, d: string)
    ensures a + b + c + d == a + (b + c) + d
  {
  }

  /** A text that starts and ends with something other than white space, padded with white space, trims to itself. */
  lemma TrimAround(lead: string, core: string, trail: string)
    requires AllNumberWhite(lead) && AllNumberWhite(trail)
    requires |core| >= 1 && !IsNumberWhite(core[0]) && !IsNumberWhite(core[|core| - 1])
    ensures TrimEnd(TrimStart(lead + core + trail)) == core
  {
    assert lead + core + trail == lead + (core + trail);
    TrimStartPast(lead, core + trail);
    assert (core + trail)[0] == core[0];
    TrimStartNone(core + trail);
    TrimEndPast(core, trail);
    TrimEndNone(core);
  }

  /** An optional sign and digits denote the signed value of the digits. */
  lemma ParseSigned(sign: string, d: string, n: nat)
    requires sign == "" || sign == "+" || sign == "-"
    requires |d| >= 1 && AllDigits(d) && DigitsValue(d) == n
    ensures ParseTrimmed(sign + d) == InRange(Signed(sign, n))
  {
    if sign == "" {
      assert sign + d == d;
      ParseUnsigned(d, n);
    } else {
      assert sign == [sign[0]];
      ParseWithSign(sign[0], d, n);
    }
  }

  lemma ParseUnsigned(d: string, n: nat)
    requires |d| >= 1 && AllDigits(d) && DigitsValue(d) == n
    ensures ParseTrimmed(d) == InRange(n)
  {
    assert IsDigit(d[0]);
  }

  lemma ParseWithSign(c: char, d: string, n: nat)
    requires c == '+' || c == '-'
    requires |d| >= 1 && AllDigits(d) && DigitsValue(d) == n
    ensures ParseTrimmed([c] + d) == InRange(if c == '-' then -(n as int) else n)
  {
    var t := [c] + d;
    assert t[0] == c && t[1..] == d;
  }

  /** Trimming only removes white space from either end. */
  lemma TrimSplit(s: string) returns (lead: string, trail: string)
    ensures AllNumberWhite(lead) && AllNumberWhite(trail)
    ensures s == lead + TrimEnd(TrimStart(s)) + trail
  {
    var u := TrimStart(s);
    var t := TrimEnd(u);
    lead := TrimStartSplit(s);
    trail := TrimEndSplit(u);
    Assoc(lead, t, trail);
  }

  lemma Assoc(a: string, b: string, c: string)
    ensures a + (b + c) == a + b + c
  {
  }

  lemma TrimStartSplit(s: string) returns (lead: string)
    ensures AllNumberWhite(lead) && s == lead + TrimStart(s)
  {
    var k := |s| - |TrimStart(s)|;
    TrimStartWhite(s);
    lead := s[..k];
    assert s == s[..k] + s[k..];
  }

  lemma TrimEndSplit(u: string) returns (trail: string)
    ensures AllNumberWhite(trail) && u == TrimEnd(u) + trail
  {
    var k := |TrimEnd(u)|;
    TrimEndWhite(u);
    trail := u[k..];
    assert u == u[..k] + u[k..];
  }

  /** A trimmed text long.Parse does not refuse as malformed is an optional sign and digits. */
  lemma SignSplit(t: string) returns (sign: string, d: string)
    requires ParseTrimmed(t) != Err(FormatFault)
    ensures sign == "" || sign == "+" || sign == "-"
    ensures |d| >= 1 && AllDigits(d)
    ensures t == sign + d
    ensures ParseTrimmed(t) == InRange(Signed(sign, DigitsValue(d)))
  {
    if t[0] == '-' || t[0] == '+' {
      sign, d := t[..1], t[1..];
    } else {
      sign, d := "", t;
    }
  }

  /** White space in front of a text is what TrimStart skips. */
  lemma {:induction false} TrimStartPast(lead: string, x: string)
    requires AllNumberWhite(lead)
    ensures TrimStart(lead + x) == TrimStart(x)
    decreases |lead|
  {
    if lead == [] {
      assert lead + x == x;
    } else {
      assert (lead + x)[1..] == lead[1..] + x;
      TrimStartPast(lead[1..], x);
    }
  }

  /** White space after a text is what TrimEnd skips. */
  lemma {:induction false} TrimEndPast(x: string, trail: string)
    requires AllNumberWhite(trail)
    ensures TrimEnd(x + trail) == TrimEnd(x)
    decreases |trail|
  {
    if trail == [] {
      assert x + trail == x;
    } else {
      var rest := trail[..|trail| - 1];
      assert (x + trail)[..|x + trail| - 1] == x + rest;
      TrimEndPast(x, rest);
    }
  }

  /** What TrimStart removes is white space. */
  lemma {:induction false} TrimStartWhite(s: string)
    ensures AllNumberWhite(s[..|s| - |TrimStart(s)|])
    decreases |s|
  {
    if |s| > 0 && IsNumberWhite(s[0]) {
      var n := |s| - |TrimStart(s)|;
      TrimStartWhite(s[1..]);
      forall i | 0 <= i < n ensures IsNumberWhite(s[..n][i]) {
        if i > 0 {
          assert s[..n][i] == s[1..][..n - 1][i - 1];
        }
      }
    }
  }

  /** What TrimEnd removes is white space. */
  lemma {:induction false} TrimEndWhite(s: string)
    ensures AllNumberWhite(s[|TrimEnd(s)|..])
    decreases |s|
  {
    if |s| > 0 && IsNumberWhite(s[|s| - 1]) {
      var m := |TrimEnd(s)|;
      var init := s[..|s| - 1];
      TrimEndWhite(init);
      forall i | 0 <= i < |s| - m ensures IsNumberWhite(s[m..][i]) {
        if i < |s| - 1 - m {
          assert s[m..][i] == init[m..][i];
        }
      }
    }
  }

  /** long.Parse reads back what Int64.ToString() wrote, for every non-negative Int64. */
  lemma ParseNatToString(n: nat)
    requires n <= Int64Max
    ensures ParseLong(NatToString(n)) == Ok(n)
  {
    NatToStringValue(n);
    ParsePlainDigits(NatToString(n), n);
  }

  lemma ParsePlainDigits(d: string, n: nat)
    requires |d| >= 1 && AllDigits(d) && DigitsValue(d) == n && n <= Int64Max
    ensures ParseLong(d) == Ok(n)
  {
    TrimDigits(d);
    TrimmedDigits(d, n);
  }

  lemma TrimmedDigits(d: string, n: nat)
    requires |d| >= 1 && AllDigits(d) && DigitsValue(d) == n && n <= Int64Max
    ensures ParseTrimmed(d) == Ok(n)
  {
    assert IsDigit(d[0]);
  }

  /** Digits alone have no white space to trim. */
  lemma TrimDigits(d: string)
    requires |d| >= 1 && AllDigits(d)
    ensures TrimEnd(TrimStart(d)) == d
  {
    TrimStartNone(d);
    TrimEndNone(d);
  }

  lemma TrimStartNone(s: string)
    requires |s| >= 1 && !IsNumberWhite(s[0])
    ensures TrimStart(s) == s
  {
  }

  lemma TrimEndNone(s: string)
    requires |s| >= 1 && !IsNumberWhite(s[|s| - 1])
    ensures TrimEnd(s) == s
  {
  }

  /** long.Parse reads back what Int64.ToString() wrote, for every Int64. */
  lemma ParseIntToString(i: int)
    requires Int64Min <= i <= Int64Max
    ensures ParseLong(IntToString(i)) == Ok(i)
  {
    if i < 0 {
      ParseNegative(-i);
    } else {
      ParseNatToString(i);
    }
  }

  lemma ParseNegative(n: nat)
    requires 0 < n <= -Int64Min
    ensures ParseLong("-" + NatToString(n)) == Ok(-(n as int))
  {
    NatToStringValue(n);
    ParseMinusDigits(NatToString(n), n);
  }

  lemma ParseMinusDigits(d: string, n: nat)
    requires |d| >= 1 && AllDigits(d) && DigitsValue(d) == n && n <= -Int64Min
    ensures ParseLong("-" + d) == Ok(-(n as int))
  {
    TrimSigned("-" + d, d);
    TrimmedMinusDigits(d, n);
  }

  lemma TrimmedMinusDigits(d: string, n: nat)
    requires |d| >= 1 && AllDigits(d) && DigitsValue(d) == n && n <= -Int64Min
    ensures ParseTrimmed("-" + d) == Ok(-(n as int))
  {
    assert ("-" + d)[1..] == d;
  }

  /** A sign followed by digits has no white space to trim. */
  lemma TrimSigned(s: string, d: string)
    requires |d| >= 1 && AllDigits(d) && s == "-" + d
    ensures TrimEnd(TrimStart(s)) == s
  {
    TrimStartNone(s);
    assert s[|s| - 1] == d[|d| - 1];
    TrimEndNone(s);
  }
}
