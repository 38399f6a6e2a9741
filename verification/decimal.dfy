/**
 Decimal rendering of non-negative integers, as JavaScript's string
 conversion writes them in messages such as `Write 3 bytes, 512 expected`,
 and reading a digit string back.
 */
module Decimal {

  predicate IsDigit(c: char) {
    '0' <= c <= '9'
  }

  predicate AllDigits(s: string) {
    forall i :: 0 <= i < |s| ==> IsDigit(s[i])
  }

  function DigitChar(d: nat): (c: char)
    requires d < 10
    ensures IsDigit(c)
  {
    "0123456789"[d]
  }

  function DigitValue(c: char): nat
    requires IsDigit(c)
  {
    (c as int - '0' as int) as nat
  }

  /** The value of a string of decimal digits (most significant first). */
  function Value(s: string): nat
    requires AllDigits(s)
    decreases |s|
  {
    if |s| == 0 then 0 else 10 * Value(s[..|s| - 1]) + DigitValue(s[|s| - 1])
  }

  /** Canonical decimal rendering: no leading zero except for `0` itself. */
  function Show(n: nat): (s: string)
    ensures |s| > 0 && AllDigits(s)
    ensures |s| > 1 ==> s[0] != '0'
    decreases n
  {
    if n < 10 then [DigitChar(n)] else Show(n / 10) + [DigitChar(n % 10)]
  }

  lemma DigitRoundTrip(d: nat)
    requires d < 10
    ensures DigitValue(DigitChar(d)) == d
  {
  }

  /** Reading back a rendered number gives the number. */
  lemma {:induction false} ShowRoundTrip(n: nat)
    ensures Value(Show(n)) == n
    decreases n
  {
    if n < 10 {
      DigitRoundTrip(n);
      assert Show(n)[..0] == [];
    } else {
      var s := Show(n);
      ShowRoundTrip(n / 10);
      DigitRoundTrip(n % 10);
      assert s[..|s| - 1] == Show(n / 10);
    }
  }

  /** Distinct numbers are rendered differently. */
  lemma ShowInjective(m: nat, n: nat)
    requires Show(m) == Show(n)
    ensures m == n
  {
    ShowRoundTrip(m);
    ShowRoundTrip(n);
  }
}
