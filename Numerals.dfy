/**
 * Digits and numerals: the digit classes of the number and string literal
 * parsers, the value of a digit string in a base (what Convert.ToInt64(x, b)
 * and long.Parse compute, without their 64-bit range), and the decimal
 * rendering of naturals (what C#'s int.ToString produces for the code the
 * Jack compiler emits), with the round trip between them.
 */
module Numerals {
  // Character classes.

  predicate IsDigit(ch: char) { '0' <= ch <= '9' }
  predicate IsOctalDigit(ch: char) { '0' <= ch <= '7' }
  predicate IsBinaryDigit(ch: char) { ch == '0' || ch == '1' }
  predicate IsHexDigit(ch: char) { '0' <= ch <= '9' || 'a' <= ch <= 'f' || 'A' <= ch <= 'F' }

  /** The value of a digit in bases up to 16. */
  function DigitValue(ch: char): (v: nat)
    ensures IsDigit(ch) ==> v == ch as int - '0' as int
    ensures IsHexDigit(ch) ==> v < 16
    ensures IsOctalDigit(ch) ==> v < 8
    ensures IsBinaryDigit(ch) ==> v < 2
  {
    if '0' <= ch <= '9' then ch as int - '0' as int
    else if 'a' <= ch <= 'f' then ch as int - 'a' as int + 10
    else if 'A' <= ch <= 'F' then ch as int - 'A' as int + 10
    else 0
  }

  /** The value of a digit string in the given base, most significant digit first. */
  function BaseValue(digits: string, base: nat): nat
  {
    if digits == [] then 0 else BaseValue(digits[..|digits| - 1], base) * base + DigitValue(digits[|digits| - 1])
  }

  /** A one-digit string has the digit's value. */
  lemma {:induction false} BaseValueSingle(ch: char, base: nat)
    ensures BaseValue([ch], base) == DigitValue(ch)
  {
    assert [ch][..0] == [];
  }

  /** The decimal digit for a value below ten. */
  function DigitChar(d: nat): (ch: char)
    requires d < 10
    ensures IsDigit(ch) && DigitValue(ch) == d
  {
    ('0' as int + d) as char
  }

  /** Decimal rendering without leading zeros (zero is "0"). */
  function NatToString(n: nat): (s: string)
    ensures |s| > 0
    ensures forall i :: 0 <= i < |s| ==> IsDigit(s[i])
    ensures |s| > 1 ==> s[0] != '0'
  {
    if n < 10 then [DigitChar(n)] else NatToString(n / 10) + [DigitChar(n % 10)]
  }

  /** Reading back a rendered natural gives the natural. */
  lemma {:induction false} NatToStringRoundTrip(n: nat)
    ensures BaseValue(NatToString(n), 10) == n
  {
    if n >= 10 {
      NatToStringRoundTrip(n / 10);
      var s := NatToString(n);
      assert s[..|s| - 1] == NatToString(n / 10);
    }
  }

  /** Rendering is injective, so distinct numbers give distinct names. */
  lemma {:induction false} NatToStringInjective(m: nat, n: nat)
    requires NatToString(m) == NatToString(n)
    ensures m == n
  {
    NatToStringRoundTrip(m);
    NatToStringRoundTrip(n);
  }
}
