/**
 * The two standard-library conversions the resolution string goes through:
 * `std::to_string` on the station, `std::stoi` on the field unit.
 */
module Decimal {
  import opened Wrappers

  const IntMin: int := -0x8000_0000
  const IntMax: int := 0x7fff_ffff

  predicate IsDigit(c: char) { '0' <= c <= '9' }

  predicate AllDigits(s: string)
  {
    forall k :: 0 <= k < |s| ==> IsDigit(s[k])
  }

  function DigitChar(d: nat): char
    requires d < 10
  {
    ('0' as int + d) as char
  }

  function DigitValue(c: char): nat
    requires IsDigit(c)
  {
    c as int - '0' as int
  }

  /** `std::to_string` of a non-negative value: its decimal digits, no sign, no leading zeros. */
  function ToString(n: nat): string
    decreases n
  {
    if n < 10 then [DigitChar(n)] else ToString(n / 10) + [DigitChar(n % 10)]
  }

  /** The value of a string of decimal digits. */
  function DigitsValue(s: string): nat
    requires AllDigits(s)
    decreases |s|
  {
    if s == [] then 0 else DigitsValue(s[..|s| - 1]) * 10 + DigitValue(s[|s| - 1])
  }

  /** to_string yields a non-empty string of digits whose value is the number. */
  lemma {:induction false} ToStringDigits(n: nat)
    ensures |ToString(n)| > 0 && AllDigits(ToString(n))
    ensures DigitsValue(ToString(n)) == n
    decreases n
  {
    if n >= 10 {
      ToStringDigits(n / 10);
      var s := ToString(n);
      assert s[..|s| - 1] == ToString(n / 10);
    }
  }

  /** The characters `isspace` accepts in the C locale. */
  predicate IsSpace(c: char)
  {
    c == ' ' || c == '\t' || c == '\n' || c == '\r' || c == '\U{B}' || c == '\U{C}'
  }

  function SkipSpace(s: string): (t: string)
    ensures |t| <= |s| && t == s[|s| - |t|..]
    ensures t != [] ==> !IsSpace(t[0])
  {
    if s != [] && IsSpace(s[0]) then SkipSpace(s[1..]) else s
  }

  /** The longest prefix made of digits. */
  function LeadingDigits(s: string): (d: string)
    ensures AllDigits(d) && d <= s
    ensures |d| < |s| ==> !IsDigit(s[|d|])
  {
    if s != [] && IsDigit(s[0]) then [s[0]] + LeadingDigits(s[1..]) else []
  }

  /** Why `std::stoi` throws: no digits at all, or a value outside `int`. */
  datatype StoiError = InvalidArgument | OutOfRange

  /** What stoi makes of the digits after an optional sign. */
  function Convert(negative: bool, digits: string): (r: Result<int, StoiError>)
    requires AllDigits(digits)
    ensures r.Success? ==> IntMin <= r.value <= IntMax
    ensures r == Failure(InvalidArgument) <==> digits == []
  {
    if digits == [] then Failure(InvalidArgument)
    else
      var v: int := if negative then 0 - DigitsValue(digits) as int else DigitsValue(digits);
      if v < IntMin || v > IntMax then Failure(OutOfRange) else Success(v)
  }

  /** The sign, if any, and the digits that follow it. */
  function AfterSign(t: string): string
  {
    if t != [] && (t[0] == '+' || t[0] == '-') then t[1..] else t
  }

  /**
   * `std::stoi(s)`: skips leading white space, takes an optional sign and the
   * longest run of decimal digits after it, and ignores whatever follows.
   */
  function Stoi(s: string): (r: Result<int, StoiError>)
    ensures r.Success? ==> IntMin <= r.value <= IntMax
    ensures r == Failure(InvalidArgument) <==> LeadingDigits(AfterSign(SkipSpace(s))) == []
  {
    var t := SkipSpace(s);
    Convert(t != [] && t[0] == '-', LeadingDigits(AfterSign(t)))
  }

  /** A string that starts with a digit has no white space and no sign to skip. */
  lemma NumberStart(s: string)
    requires s != [] && IsDigit(s[0])
    ensures SkipSpace(s) == s && AfterSign(s) == s && s[0] != '-'
  {
    assert !IsSpace(s[0]) && s[0] != '+' && s[0] != '-';
  }

  lemma {:induction false} LeadingDigitsThen(d: string, rest: string)
    requires AllDigits(d)
    requires rest == [] || !IsDigit(rest[0])
    ensures LeadingDigits(d + rest) == d
    decreases |d|
  {
    if d == [] {
      assert d + rest == rest;
    } else {
      assert (d + rest)[1..] == d[1..] + rest;
      LeadingDigitsThen(d[1..], rest);
    }
  }

  /** stoi stops at the first character that is not a digit. */
  lemma StoiOfDigitsThen(d: string, rest: string)
    requires |d| > 0 && AllDigits(d) && DigitsValue(d) <= IntMax
    requires rest == [] || !IsDigit(rest[0])
    ensures Stoi(d + rest) == Success(DigitsValue(d))
  {
    var s := d + rest;
    assert Stoi(s) == Convert(false, d) by {
      assert s[0] == d[0];
      NumberStart(s);
      LeadingDigitsThen(d, rest);
    }
  }

  /** stoi reads back what to_string wrote, for every value that fits in an `int`. */
  lemma StoiOfToString(n: nat)
    requires n <= IntMax
    ensures Stoi(ToString(n)) == Success(n)
  {
    var s := ToString(n);
    ToStringDigits(n);
    StoiOfDigitsThen(s, "");
    assert s + "" == s;
  }
}
