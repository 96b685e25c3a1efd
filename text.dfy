/**
 * String helpers shared by the extraction model: decimal rendering of
 * unsigned integers (Rust's `{}` of a `u64`), parsing of decimal integers
 * (Rust's `str::parse` for `u64` and `i64`), and substring search
 * (`str::contains`).
 */
module Text {
  import opened Wrappers

  const U64_LIMIT: nat := 0x1_0000_0000_0000_0000
  const I64_LIMIT: nat := 0x8000_0000_0000_0000

  predicate IsDigit(c: char) { '0' <= c <= '9' }

  function DigitValue(c: char): nat
    requires IsDigit(c)
  {
    c as int - '0' as int
  }

  function DigitChar(d: nat): (c: char)
    requires d < 10
    ensures IsDigit(c) && DigitValue(c) == d
  {
    ('0' as int + d) as char
  }

  predicate AllDigits(s: string) { forall i :: 0 <= i < |s| ==> IsDigit(s[i]) }

  /** The value of a string of decimal digits. */
  function DigitsValue(s: string): nat
    requires AllDigits(s)
  {
    if s == [] then 0 else DigitsValue(s[..|s| - 1]) * 10 + DigitValue(s[|s| - 1])
  }

  /** The decimal rendering of `n`, without leading zeros. */
  function NatToDecimal(n: nat): (s: string)
    ensures |s| >= 1 && AllDigits(s)
    ensures |s| > 1 ==> s[0] != '0'
  {
    if n < 10 then [DigitChar(n)] else NatToDecimal(n / 10) + [DigitChar(n % 10)]
  }

  lemma {:induction false} NatToDecimalValue(n: nat)
    ensures DigitsValue(NatToDecimal(n)) == n
  {
    if n >= 10 {
      NatToDecimalValue(n / 10);
      var s := NatToDecimal(n);
      assert s[..|s| - 1] == NatToDecimal(n / 10);
    }
  }

  /** A sign followed by at least one digit, the form Rust's integer parsing accepts. */
  function SplitSign(s: string): (bool, string) {
    if |s| > 0 && s[0] == '-' then (true, s[1..])
    else if |s| > 0 && s[0] == '+' then (false, s[1..])
    else (false, s)
  }

  /** `s.parse::<u64>()`: an optional `+`, at least one digit, nothing else,
      and a value below 2^64. */
  function ParseU64(s: string): (r: Option<nat>)
    ensures r.Some? ==> r.value < U64_LIMIT
  {
    var body := if |s| > 0 && s[0] == '+' then s[1..] else s;
    if |body| == 0 || !AllDigits(body) then None
    else if DigitsValue(body) >= U64_LIMIT then None
    else Some(DigitsValue(body))
  }

  /** `s.parse::<i64>()`: an optional sign, at least one digit, nothing else,
      and a value in the range of a 64-bit two's complement integer. */
  function ParseI64(s: string): (r: Option<int>)
    ensures r.Some? ==> -(I64_LIMIT as int) <= r.value < I64_LIMIT
  {
    var (negative, body) := SplitSign(s);
    if |body| == 0 || !AllDigits(body) then None
    else if negative then
      (if DigitsValue(body) > I64_LIMIT then None else Some(-(DigitsValue(body) as int)))
    else
      (if DigitsValue(body) >= I64_LIMIT then None else Some(DigitsValue(body)))
  }

  /** Rendering a `u64` and parsing it back gives the value again. */
  lemma ParseU64OfDecimal(n: nat)
    requires n < U64_LIMIT
    ensures ParseU64(NatToDecimal(n)) == Some(n)
  {
    NatToDecimalValue(n);
  }

  /** Rendering a nonnegative `i64` and parsing it back gives the value again. */
  lemma ParseI64OfDecimal(n: nat)
    requires n < I64_LIMIT
    ensures ParseI64(NatToDecimal(n)) == Some(n)
  {
    NatToDecimalValue(n);
    ghost var s := NatToDecimal(n);
    assert SplitSign(s) == (false, s);
  }

  /** `sub` occurs in `s` starting at index `i`. */
  predicate OccursAt(s: string, sub: string, i: int) {
    0 <= i <= |s| - |sub| && s[i..i + |sub|] == sub
  }

  /** `s.contains(sub)`. */
  predicate Contains(s: string, sub: string) {
    exists i :: 0 <= i <= |s| && OccursAt(s, sub, i)
  }
}
