/**
 * Decimal rendering of integers as C's `%d` conversion writes them: an
 * optional minus sign followed by the digits of the magnitude, most
 * significant first, without leading zeros. Used for the radio payload.
 */
module DecimalText {

  predicate IsDigitChar(c: char) {
    '0' <= c <= '9'
  }

  function DigitChar(d: nat): (c: char)
    requires d < 10
    ensures IsDigitChar(c) && c as int - '0' as int == d
  {
    "0123456789"[d]
  }

  /** `%d` of a non-negative value. */
  function NatText(n: nat): (s: string)
    decreases n
    ensures 1 <= |s|
    ensures forall i :: 0 <= i < |s| ==> IsDigitChar(s[i])
    ensures s[0] == '0' ==> n == 0
  {
    if n < 10 then [DigitChar(n)] else NatText(n / 10) + [DigitChar(n % 10)]
  }

  /** `%d` of any value: a minus sign before the magnitude of a negative one. */
  function IntText(n: int): (s: string)
    ensures 1 <= |s|
    ensures forall i :: 0 <= i < |s| ==> IsDigitChar(s[i]) || (i == 0 && s[i] == '-')
    ensures s[0] == '-' <==> n < 0
  {
    if n < 0 then "-" + NatText(-n) else NatText(n)
  }

  /** The value of a string of decimal digits, most significant first. */
  function DigitsValue(s: string): nat
    requires forall i :: 0 <= i < |s| ==> IsDigitChar(s[i])
  {
    if s == [] then 0 else DigitsValue(s[..|s| - 1]) * 10 + DigitValue(s[|s| - 1])
  }

  function DigitValue(c: char): (d: nat)
    requires IsDigitChar(c)
    ensures d < 10
  {
    c as int - '0' as int
  }

  /** Reading the digits back gives the number that was rendered. */
  lemma {:induction false} NatTextRoundTrip(n: nat)
    ensures DigitsValue(NatText(n)) == n
  {
    if n >= 10 {
      var s := NatText(n);
      NatTextRoundTrip(n / 10);
      assert s[..|s| - 1] == NatText(n / 10);
    }
  }

  function Pow10(k: nat): (p: nat)
    ensures p >= 1
  {
    if k == 0 then 1 else 10 * Pow10(k - 1)
  }

  /** A value below 10^k takes at most k digits. */
  lemma {:induction false} NatTextLength(n: nat, k: nat)
    requires 1 <= k && n < Pow10(k)
    ensures |NatText(n)| <= k
  {
    if n >= 10 {
      NatTextLength(n / 10, k - 1);
    }
  }

  /** Any 32-bit `int` renders in at most 11 characters (a sign and ten digits). */
  lemma Int32TextLength(n: int)
    requires -0x8000_0000 <= n < 0x8000_0000
    ensures |IntText(n)| <= 11
  {
    assert Pow10(10) == 10_000_000_000 by {
      assert Pow10(1) == 10;
      assert Pow10(2) == 100;
      assert Pow10(3) == 1000;
      assert Pow10(4) == 10_000;
      assert Pow10(5) == 100_000;
      assert Pow10(6) == 1_000_000;
      assert Pow10(7) == 10_000_000;
      assert Pow10(8) == 100_000_000;
      assert Pow10(9) == 1_000_000_000;
    }
    if n < 0 {
      NatTextLength(-n, 10);
    } else {
      NatTextLength(n, 10);
    }
  }
}
