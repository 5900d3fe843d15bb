/** Decimal text of unsigned integers, as Rust's `to_string` writes it and `str::parse::<u32>`
    reads it back: the duration and marks fields of the Redis hashes, and the status code in an
    LLM error message, go through these. */
module Decimal {
  import opened Wrappers

  /** `u32::MAX`. */
  const U32Max: nat := 0xFFFF_FFFF

  predicate IsDigit(c: char) {
    '0' <= c <= '9'
  }

  function DigitValue(c: char): nat
    requires IsDigit(c)
  {
    (c as int - '0' as int) as nat
  }

  function DigitChar(d: nat): (c: char)
    requires d < 10
    ensures IsDigit(c) && DigitValue(c) == d
  {
    ('0' as int + d) as char
  }

  /** `n.to_string()`: the shortest decimal text of `n`, most significant digit first. */
  function NatToString(n: nat): string
    decreases n
  {
    if n < 10 then [DigitChar(n)] else NatToString(n / 10) + [DigitChar(n % 10)]
  }

  predicate AllDigits(s: string) {
    forall i :: 0 <= i < |s| ==> IsDigit(s[i])
  }

  /** The value of a string of decimal digits, read left to right. */
  function DigitsValue(s: string): nat
    requires AllDigits(s)
  {
    if s == [] then 0 else DigitsValue(s[..|s| - 1]) * 10 + DigitValue(s[|s| - 1])
  }

  /** `s.parse::<u32>()`: an optional `+`, then at least one digit and nothing else, with a value
      that fits in 32 bits. A lone sign, a `-`, an empty string, any other character or an
      overflow is an error. */
  function ParseU32(s: string): Option<nat> {
    var digits := if |s| > 0 && s[0] == '+' then s[1..] else s;
    if digits == [] || !AllDigits(digits) then None
    else if DigitsValue(digits) > U32Max then None
    else Some(DigitsValue(digits))
  }

  /** The text of a number is all digits, never empty, starts with a non-zero digit unless the
      number is zero, and reads back as the number. */
  lemma {:induction false} NatToStringSpec(n: nat)
    ensures |NatToString(n)| > 0 && AllDigits(NatToString(n))
    ensures DigitsValue(NatToString(n)) == n
    ensures NatToString(n)[0] != '0' || n == 0
    decreases n
  {
    if n >= 10 {
      NatToStringSpec(n / 10);
      var s := NatToString(n / 10) + [DigitChar(n % 10)];
      assert s[..|s| - 1] == NatToString(n / 10);
      assert s[0] == NatToString(n / 10)[0];
    }
  }

  /** What `to_string` writes for a `u32`, `parse::<u32>` reads back unchanged. */
  lemma ParseNatToString(n: nat)
    requires n <= U32Max
    ensures ParseU32(NatToString(n)) == Some(n)
  {
    NatToStringSpec(n);
  }

  /** A parsed value always fits in a `u32`, and the text it came from was digits after an
      optional `+`. */
  lemma ParseU32Spec(s: string)
    ensures ParseU32(s).Some? ==> ParseU32(s).value <= U32Max
    ensures ParseU32(s).Some? ==> |s| > 0 && (IsDigit(s[0]) || (s[0] == '+' && |s| > 1))
    ensures s == [] || s == "+" || s == "-" ==> ParseU32(s).None?
  {
    if ParseU32(s).Some? && s[0] != '+' {
      assert IsDigit(s[0]);
    }
  }

  /** The decimal text of different numbers differs. */
  lemma NatToStringInjective(m: nat, n: nat)
    requires NatToString(m) == NatToString(n)
    ensures m == n
  {
    NatToStringSpec(m);
    NatToStringSpec(n);
  }
}
