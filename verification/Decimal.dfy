/** Unsigned decimal numbers as text: what to_string prints and from_chars reads. */
module Decimal {
  import opened Optional

  const UINT64_MAX: nat := 0xFFFF_FFFF_FFFF_FFFF
  const INT32_MAX: nat := 0x7FFF_FFFF

  predicate IsDigit(c: char) { '0' <= c <= '9' }

  function DigitValue(c: char): nat
    requires IsDigit(c)
  {
    c as int - '0' as int
  }

  function DigitChar(d: nat): (c: char)
    requires d < 10
    ensures IsDigit(c) && DigitValue(c) == d
  {
    ('0' as int + d) as char
  }

  predicate AllDigits(s: string) { forall i :: 0 <= i < |s| ==> IsDigit(s[i]) }

  /** The decimal digits of `n`, without leading zeros. */
  function Digits(n: nat): (s: string)
    ensures |s| >= 1 && AllDigits(s)
  {
    if n < 10 then [DigitChar(n)] else Digits(n / 10) + [DigitChar(n % 10)]
  }

  function Value(s: string): nat
    requires AllDigits(s)
  {
    if s == "" then 0 else Value(s[..|s| - 1]) * 10 + DigitValue(s[|s| - 1])
  }

  /** from_chars on the whole text: fails on an empty text, on anything that is
      not a digit, and on a value above `limit`. */
  function Parse(s: string, limit: nat): Option<nat> {
    if s == "" || !AllDigits(s) || Value(s) > limit then None else Some(Value(s))
  }

  lemma {:induction false} DigitsValue(n: nat)
    ensures Value(Digits(n)) == n
  {
    if n >= 10 {
      DigitsValue(n / 10);
      assert Digits(n)[..|Digits(n)| - 1] == Digits(n / 10);
    } else {
      assert Digits(n)[..0] == "";
    }
  }

  lemma ParseDigits(n: nat, limit: nat)
    requires n <= limit
    ensures Parse(Digits(n), limit) == Some(n)
  {
    DigitsValue(n);
  }

  /** How many characters at the front of `s` are digits. */
  function DigitSpan(s: string): (n: nat)
    ensures n <= |s| && AllDigits(s[..n]) && (n < |s| ==> !IsDigit(s[n]))
  {
    if s == "" || !IsDigit(s[0]) then 0 else
      var n := DigitSpan(s[1..]);
      assert s[..n + 1] == [s[0]] + s[1..][..n];
      n + 1
  }

  lemma {:induction false} DigitSpanOf(digits: string, rest: string)
    requires AllDigits(digits) && (rest != "" ==> !IsDigit(rest[0]))
    ensures DigitSpan(digits + rest) == |digits|
  {
    if digits != "" {
      assert (digits + rest)[1..] == digits[1..] + rest;
      DigitSpanOf(digits[1..], rest);
    } else {
      assert digits + rest == rest;
    }
  }
}
