/**
 * Base-10 text of machine integers: the rendering `format!("{}", n)` uses for
 * `i32`/`i64`, and the parser `from_str_radix(t, 10)`, with the range check it
 * performs for the target width.
 */
module Decimal {
  import opened Results

  const I32_MIN: int := -0x8000_0000
  const I32_MAX: int := 0x7FFF_FFFF
  const I64_MIN: int := -0x8000_0000_0000_0000
  const I64_MAX: int := 0x7FFF_FFFF_FFFF_FFFF

  /** Rust's `i32` and `i64` as ranges of the mathematical integers. */
  type i32 = n: int | I32_MIN <= n <= I32_MAX
  type i64 = n: int | I64_MIN <= n <= I64_MAX

  predicate IsDigit(c: char) {
    '0' <= c <= '9'
  }

  predicate AllDigits(t: string) {
    forall i :: 0 <= i < |t| ==> IsDigit(t[i])
  }

  function DigitValue(c: char): (d: nat)
    requires IsDigit(c)
    ensures d < 10
  {
    c as int - '0' as int
  }

  function DigitChar(d: nat): (c: char)
    requires d < 10
    ensures IsDigit(c) && DigitValue(c) == d
  {
    ('0' as int + d) as char
  }

  /** The value of a string of digits, most significant digit first. */
  function DigitsValue(t: string): nat
    requires AllDigits(t)
    decreases |t|
  {
    if |t| == 0 then 0 else DigitsValue(t[..|t| - 1]) * 10 + DigitValue(t[|t| - 1])
  }

  /** A non-empty digit string without a redundant leading zero. */
  predicate CanonicalDigits(t: string) {
    |t| > 0 && AllDigits(t) && (t[0] == '0' ==> |t| == 1)
  }

  /** The strings `Show` produces: canonical digits, optionally after a `-` that is not followed by `0`. */
  predicate IsCanonical(s: string) {
    CanonicalDigits(s) || (|s| > 1 && s[0] == '-' && s[1] != '0' && CanonicalDigits(s[1..]))
  }

  /** The digits of a natural number, without leading zeros. */
  function ShowNat(n: nat): (r: string)
    ensures CanonicalDigits(r)
    ensures r[0] == '0' <==> n == 0
  {
    if n < 10 then [DigitChar(n)] else ShowNat(n / 10) + [DigitChar(n % 10)]
  }

  /** Display of a signed integer: a `-` for negative values, then the digits of the magnitude. */
  function Show(n: int): (r: string)
    ensures IsCanonical(r)
    ensures forall i :: 0 <= i < |r| ==> IsDigit(r[i]) || (i == 0 && r[i] == '-')
    ensures r[0] == '-' <==> n < 0
  {
    if n < 0 then "-" + ShowNat(-n) else ShowNat(n)
  }

  /** The syntax `from_str_radix` accepts in base 10: an optional sign, then at least one digit. */
  predicate IsDecimal(s: string) {
    if |s| > 0 && (s[0] == '-' || s[0] == '+') then |s| > 1 && AllDigits(s[1..])
    else |s| > 0 && AllDigits(s)
  }

  /** `from_str_radix(s, 10)` before the range check: the value of `s`, or None for malformed text. */
  function ParseDecimal(s: string): (r: Option<int>)
    ensures r.Some? <==> IsDecimal(s)
  {
    if |s| == 0 then None
    else if s[0] == '-' || s[0] == '+' then
      if |s| > 1 && AllDigits(s[1..]) then
        var m: int := DigitsValue(s[1..]);
        Some(if s[0] == '-' then -m else m)
      else None
    else if AllDigits(s) then Some(DigitsValue(s))
    else None
  }

  /** `from_str_radix(s, 10)` for a type whose values are `lo..=hi`: out-of-range values are rejected. */
  function ParseInRange(s: string, lo: int, hi: int): (r: Option<int>)
    ensures r.Some? ==> lo <= r.value <= hi && ParseDecimal(s) == Some(r.value)
    ensures r.None? <==> ParseDecimal(s).None? || !(lo <= ParseDecimal(s).value <= hi)
  {
    match ParseDecimal(s)
    case Some(n) => if lo <= n <= hi then Some(n) else None
    case None => None
  }

  lemma {:induction false} DigitsOfShowNat(n: nat)
    ensures DigitsValue(ShowNat(n)) == n
  {
    var r := ShowNat(n);
    if n >= 10 {
      DigitsOfShowNat(n / 10);
      assert r[..|r| - 1] == ShowNat(n / 10);
    }
  }

  /** Parsing the rendering of any integer gives the integer back. */
  lemma ParseShow(n: int)
    ensures ParseDecimal(Show(n)) == Some(n)
  {
    var r := Show(n);
    if n < 0 {
      DigitsOfShowNat(-n);
      assert r[1..] == ShowNat(-n);
    } else {
      DigitsOfShowNat(n);
    }
  }

  /** For a width whose range holds `n`, the rendering of `n` is accepted and read as `n`. */
  lemma ParseInRangeShow(n: int, lo: int, hi: int)
    requires lo <= n <= hi
    ensures ParseInRange(Show(n), lo, hi) == Some(n)
  {
    ParseShow(n);
  }

  lemma {:induction false} LeadingDigitBound(t: string)
    requires |t| > 0 && AllDigits(t)
    ensures DigitsValue(t) >= DigitValue(t[0])
  {
    if |t| > 1 {
      LeadingDigitBound(t[..|t| - 1]);
    }
  }

  lemma {:induction false} ShowNatOfDigits(t: string)
    requires CanonicalDigits(t)
    ensures ShowNat(DigitsValue(t)) == t
  {
    if |t| > 1 {
      var p := t[..|t| - 1];
      assert CanonicalDigits(p);
      LeadingDigitBound(p);
      ShowNatOfDigits(p);
      var v := DigitsValue(t);
      assert v / 10 == DigitsValue(p) && v % 10 == DigitValue(t[|t| - 1]);
      assert t == p + [t[|t| - 1]];
    }
  }

  /** Rendering the value of a canonical string gives the string back. */
  lemma ShowParse(s: string)
    requires IsCanonical(s)
    ensures ParseDecimal(s).Some? && Show(ParseDecimal(s).value) == s
  {
    if CanonicalDigits(s) {
      ShowNatOfDigits(s);
    } else {
      ShowNatOfDigits(s[1..]);
      LeadingDigitBound(s[1..]);
      assert s == "-" + s[1..];
    }
  }
}
