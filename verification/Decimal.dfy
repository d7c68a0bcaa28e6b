/** Decimal numerals of natural numbers. */
module Decimal {
  function Digit(d: nat): char
    requires d < 10
  {
    ((('0' as int) + d) as char)
  }

  function Digits(n: nat): string {
    if n < 10 then [Digit(n)] else Digits(n / 10) + [Digit(n % 10)]
  }

  predicate IsDigit(c: char) {
    '0' <= c <= '9'
  }

  predicate AllDigits(s: string) {
    forall i :: 0 <= i < |s| ==> IsDigit(s[i])
  }

  function Value(s: string): nat
    requires AllDigits(s)
  {
    if s == [] then 0 else Value(s[..|s| - 1]) * 10 + (s[|s| - 1] as int - '0' as int)
  }

  function Pow10(k: nat): nat {
    if k == 0 then 1 else 10 * Pow10(k - 1)
  }

  /** Numerals are canonical, read back to their number, and have k digits below 10^k. */
  lemma {:induction false} DigitsAreDecimal(n: nat)
    ensures AllDigits(Digits(n)) && Value(Digits(n)) == n
    ensures |Digits(n)| >= 1 && (Digits(n)[0] == '0' ==> n == 0)
    ensures n < Pow10(|Digits(n)|)
    ensures |Digits(n)| > 1 ==> n >= Pow10(|Digits(n)| - 1)
  {
    if n >= 10 {
      DigitsAreDecimal(n / 10);
      var s := Digits(n);
      assert s[..|s| - 1] == Digits(n / 10);
    }
  }

  lemma {:induction false} Pow10Grows(j: nat, k: nat)
    requires j <= k
    ensures Pow10(j) <= Pow10(k)
  {
    if j < k {
      Pow10Grows(j, k - 1);
    }
  }

  lemma DigitCount(n: nat, k: nat)
    requires k >= 1 && n < Pow10(k)
    ensures |Digits(n)| <= k
  {
    DigitsAreDecimal(n);
    var top: nat := |Digits(n)| - 1;
    if k <= top {
      Pow10Grows(k, top);
    }
  }
}
