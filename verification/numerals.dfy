/**
 * The rename counter as C# string interpolation renders a non-negative
 * `int`: base ten, no sign, no leading zeros.
 */
module Numerals {

  predicate IsDigit(c: char) {
    '0' <= c <= '9'
  }

  predicate AllDigits(s: string) {
    forall i :: 0 <= i < |s| ==> IsDigit(s[i])
  }

  function DigitValue(c: char): nat
    requires IsDigit(c)
  {
    (c as int) - ('0' as int)
  }

  function DigitChar(d: nat): (c: char)
    requires d < 10
    ensures IsDigit(c) && DigitValue(c) == d
  {
    (('0' as int) + d) as char
  }

  /** Decimal digits of `n`, most significant first. */
  function ToDecimal(n: nat): (s: string)
    ensures 1 <= |s| && AllDigits(s)
    ensures s[0] == '0' <==> n == 0
    ensures n == 0 ==> s == "0"
    decreases n
  {
    if n < 10 then [DigitChar(n)] else ToDecimal(n / 10) + [DigitChar(n % 10)]
  }

  /** The number a string of decimal digits denotes (the empty string denotes 0). */
  function ValueOf(s: string): nat
    requires AllDigits(s)
  {
    if |s| == 0 then 0 else ValueOf(s[..|s| - 1]) * 10 + DigitValue(s[|s| - 1])
  }

  /** Reading back a rendered counter yields the counter. */
  lemma {:induction false} ValueOfToDecimal(n: nat)
    ensures ValueOf(ToDecimal(n)) == n
    decreases n
  {
    if n >= 10 {
      var s := ToDecimal(n);
      assert s[..|s| - 1] == ToDecimal(n / 10);
      ValueOfToDecimal(n / 10);
    }
  }

  /** Distinct counters render to distinct strings. */
  lemma ToDecimalInjective(m: nat, n: nat)
    ensures ToDecimal(m) == ToDecimal(n) ==> m == n
  {
    ValueOfToDecimal(m);
    ValueOfToDecimal(n);
  }

  function Pow10(k: nat): (p: nat)
    ensures 1 <= p
  {
    if k == 0 then 1 else 10 * Pow10(k - 1)
  }

  /** A counter renders in at most `k` digits exactly when it is below 10^k. */
  lemma {:induction false} ToDecimalWidth(n: nat, k: nat)
    requires 1 <= k
    ensures |ToDecimal(n)| <= k <==> n < Pow10(k)
    decreases k
  {
    if n < 10 {
      if k > 1 {
        assert Pow10(k) == 10 * Pow10(k - 1);
      }
    } else if k == 1 {
      assert |ToDecimal(n)| == |ToDecimal(n / 10)| + 1;
    } else {
      ToDecimalWidth(n / 10, k - 1);
      assert |ToDecimal(n)| == |ToDecimal(n / 10)| + 1;
      assert Pow10(k) == 10 * Pow10(k - 1);
    }
  }

  /** The four-digit bound behind the 9999-file limit. */
  lemma FourDigits(n: nat)
    ensures |ToDecimal(n)| <= 4 <==> n <= 9999
  {
    ToDecimalWidth(n, 4);
    assert Pow10(4) == 10000 by {
      assert Pow10(2) == 100;
    }
  }
}
