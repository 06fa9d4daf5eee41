/**
  Decimal digits: the `\D` character class of a regular expression, and the
  `toString()` of a non-negative integer, with its inverse.
 */
module Decimal {

  /** The characters `\d` matches. */
  predicate IsDigit(c: char)
  {
    '0' <= c <= '9'
  }

  predicate AllDigits(s: string)
  {
    forall i :: 0 <= i < |s| ==> IsDigit(s[i])
  }

  function DigitChar(d: nat): (c: char)
    requires d < 10
    ensures IsDigit(c)
  {
    (d + '0' as int) as char
  }

  function DigitValue(c: char): (d: nat)
    requires IsDigit(c)
    ensures d < 10
  {
    c as int - '0' as int
  }

  /** `n.toString()` for a non-negative integer: most significant digit first,
      no leading zeros. */
  function Show(n: nat): (s: string)
    ensures |s| >= 1
    ensures AllDigits(s)
    ensures s[0] == '0' ==> s == "0"
  {
    if n < 10 then [DigitChar(n)] else Show(n / 10) + [DigitChar(n % 10)]
  }

  /** The number a string of digits denotes. */
  function Value(s: string): nat
    requires AllDigits(s)
  {
    if |s| == 0 then 0 else Value(s[..|s| - 1]) * 10 + DigitValue(s[|s| - 1])
  }

  function Pow10(k: nat): (p: nat)
    ensures p >= 1
  {
    if k == 0 then 1 else 10 * Pow10(k - 1)
  }

  /** Reading back what `Show` wrote gives the number. */
  lemma {:induction false} ValueShow(n: nat)
    ensures Value(Show(n)) == n
  {
    var s := Show(n);
    if n >= 10 {
      ValueShow(n / 10);
      assert s[..|s| - 1] == Show(n / 10);
    }
  }

  /** A number with k+1 significant digits is written with exactly k+1 characters. */
  lemma {:induction false} ShowLength(n: nat, k: nat)
    requires Pow10(k) <= n < Pow10(k + 1)
    ensures |Show(n)| == k + 1
  {
    if k > 0 {
      ShowLength(n / 10, k - 1);
    }
  }

  /** Every integer of [100000, 999999] is a six-character string of digits
      that reads back as itself. */
  lemma SixDigits(n: nat)
    requires 100000 <= n <= 999999
    ensures |Show(n)| == 6 && AllDigits(Show(n)) && Value(Show(n)) == n
  {
    assert Pow10(5) == 100000 && Pow10(6) == 1000000;
    ShowLength(n, 5);
    ValueShow(n);
  }
}
