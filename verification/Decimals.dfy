/** Writing 64-bit integers in decimal and reading them back as `std::to_string` and `std::stoll` do. */
module Decimals {
  import opened Characters

  const INT64_BOUND: int := 0x8000_0000_0000_0000

  predicate IsInt64(n: int) {
    -INT64_BOUND <= n < INT64_BOUND
  }

  function DigitChar(d: nat): (c: char)
    requires d < 10
    ensures IsDigit(c)
  {
    (d + '0' as int) as char
  }

  function DigitValue(c: char): (d: nat)
    requires IsDigit(c)
    ensures d < 10
  {
    c as int - '0' as int
  }

  predicate AllDigits(s: string) {
    forall i | 0 <= i < |s| :: IsDigit(s[i])
  }

  function Digits(n: nat): (s: string)
    ensures s != "" && AllDigits(s)
  {
    if n < 10 then [DigitChar(n)] else Digits(n / 10) + [DigitChar(n % 10)]
  }

  /** `std::to_string`. */
  function ToDecimal(n: int): string {
    if n < 0 then "-" + Digits(-n) else Digits(n)
  }

  function ValueOf(s: string): nat
    requires AllDigits(s)
  {
    if s == "" then 0 else 10 * ValueOf(s[..|s| - 1]) + DigitValue(s[|s| - 1])
  }

  /** The longest prefix of digits. */
  function LeadingDigits(s: string): (d: string)
    ensures AllDigits(d) && |d| <= |s|
    ensures AllDigits(s) ==> d == s
  {
    if s == "" || !IsDigit(s[0]) then "" else [s[0]] + LeadingDigits(s[1..])
  }

  function SkipSpace(s: string): string {
    if s != "" && IsSpace(s[0]) then SkipSpace(s[1..]) else s
  }

  datatype Parsed = Number(value: int) | NoNumber

  /**
   * `std::stoll`, base ten: skips white space, takes a sign and the digits after it, and ignores the
   * rest. No digits, or a value outside 64 bits, is an exception.
   */
  function ParseInteger(s: string): Parsed {
    var t := SkipSpace(s);
    var negative := t != "" && t[0] == '-';
    var d := LeadingDigits(if t != "" && (t[0] == '-' || t[0] == '+') then t[1..] else t);
    var magnitude: int := ValueOf(d);
    var n := if negative then -magnitude else magnitude;
    if d == "" || !IsInt64(n) then NoNumber else Number(n)
  }

  lemma {:induction false} DigitsValue(n: nat)
    ensures ValueOf(Digits(n)) == n
  {
    if n >= 10 {
      DigitsValue(n / 10);
      assert Digits(n)[..|Digits(n)| - 1] == Digits(n / 10);
    }
  }

  lemma ParsePlain(d: string)
    requires d != "" && AllDigits(d) && IsInt64(ValueOf(d))
    ensures ParseInteger(d) == Number(ValueOf(d))
  {
    assert IsDigit(d[0]);
    assert LeadingDigits(d) == d && SkipSpace(d) == d;
    hide LeadingDigits, SkipSpace, ValueOf, AllDigits;
  }

  lemma ParseNegative(d: string)
    requires d != "" && AllDigits(d)
    requires var magnitude: int := ValueOf(d); IsInt64(-magnitude)
    ensures var magnitude: int := ValueOf(d); ParseInteger("-" + d) == Number(-magnitude)
  {
    var s := "-" + d;
    assert s[1..] == d && LeadingDigits(d) == d && SkipSpace(s) == s;
    hide LeadingDigits, SkipSpace, ValueOf, AllDigits;
  }

  /** Reading back what was written gives the number, for every 64-bit integer. */
  lemma DecimalRoundTrip(n: int)
    requires IsInt64(n)
    ensures ParseInteger(ToDecimal(n)) == Number(n)
  {
    hide Digits, ValueOf, ParseInteger, AllDigits;
    if n < 0 {
      DigitsValue(-n);
      ParseNegative(Digits(-n));
    } else {
      DigitsValue(n);
      ParsePlain(Digits(n));
    }
  }

  /** Decimals are not blank, quoted or fractional. */
  lemma DecimalCharacters(n: int)
    ensures ToDecimal(n) != ""
    ensures forall i | 0 <= i < |ToDecimal(n)| :: IsDigit(ToDecimal(n)[i]) || ToDecimal(n)[i] == '-'
  {}
}
