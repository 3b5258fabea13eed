/** Python's `str()` on integers: canonical decimal numerals, and the
    reading that takes a numeral back to the number it denotes. */
module Decimal {

  predicate IsDigit(c: char) {
    '0' <= c <= '9'
  }

  predicate AllDigits(s: string) {
    forall k | 0 <= k < |s| :: IsDigit(s[k])
  }

  /** A numeral as `str(n)` writes it: at least one digit, and no leading zero
      unless the numeral is `0` itself. */
  predicate IsCanonical(s: string) {
    |s| > 0 && AllDigits(s) && (s[0] == '0' ==> |s| == 1)
  }

  function DigitChar(d: nat): (c: char)
    requires d < 10
    ensures IsDigit(c) && c as int - '0' as int == d
  {
    ('0' as int + d) as char
  }

  function DigitValue(c: char): (d: nat)
    requires IsDigit(c)
    ensures d < 10
  {
    c as int - '0' as int
  }

  /** The number a string of decimal digits denotes, most significant digit first. */
  function ParseNat(s: string): nat
    requires AllDigits(s)
  {
    if s == [] then 0 else ParseNat(s[..|s| - 1]) * 10 + DigitValue(s[|s| - 1])
  }

  /** `str(n)` for `n >= 0`: the canonical numeral that denotes `n`. */
  function NatToString(n: nat): (s: string)
    ensures IsCanonical(s) && ParseNat(s) == n
  {
    if n < 10 then [DigitChar(n)]
    else
      var s := NatToString(n / 10) + [DigitChar(n % 10)];
      assert s[..|s| - 1] == NatToString(n / 10);
      s
  }

  /** A canonical numeral with more than one digit denotes at least 10. */
  lemma {:induction false} LongNumeralAtLeastTen(s: string)
    requires IsCanonical(s) && |s| > 1
    ensures ParseNat(s) >= 10
  {
    var p := s[..|s| - 1];
    assert p[0] == s[0];
    if |p| > 1 {
      LongNumeralAtLeastTen(p);
    }
  }

  /** Reading a canonical numeral and writing the number back gives the same
      numeral: together with the contract of NatToString, the canonical
      numerals and the naturals are in one-to-one correspondence. */
  lemma {:induction false} NatToStringParseNat(s: string)
    requires IsCanonical(s)
    ensures NatToString(ParseNat(s)) == s
  {
    if |s| > 1 {
      var p := s[..|s| - 1];
      assert p[0] == s[0];
      LongNumeralAtLeastTen(s);
      NatToStringParseNat(p);
      assert p + [s[|s| - 1]] == s;
    }
  }

  /** `str(i)` for any integer: a minus sign before the numeral of `-i` when `i` is negative. */
  function IntToString(i: int): (s: string)
    ensures i >= 0 ==> IsCanonical(s) && ParseNat(s) == i
    ensures i < 0 ==> |s| > 1 && s[0] == '-' && IsCanonical(s[1..]) && ParseNat(s[1..]) == -i
  {
    if i < 0 then "-" + NatToString(-i) else NatToString(i)
  }
}
