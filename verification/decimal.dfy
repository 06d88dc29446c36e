/**
  Decimal rendering of non-negative integers, as Python's `str()` does it for
  an `int` that is at least zero, together with an independent decoder that
  reads a string of decimal digits back into its value.

  `Decimal.Show` is the rendering; `Decimal.Value` is its partner. The lemmas
  at the end of the module prove the two inverse to each other: every number
  survives a render-then-read, and every canonical digit string (no leading
  zero unless it is "0" itself) survives a read-then-render.
 */
module Decimal {

  /** The character of one decimal digit. */
  function DigitChar(d: nat): (c: char)
    requires d < 10
    ensures '0' <= c <= '9'
    ensures CharValue(c) == d
  {
    '0' + d as char
  }

  predicate IsDigit(c: char) {
    '0' <= c <= '9'
  }

  /** The digit a decimal character stands for. */
  function CharValue(c: char): nat
    requires IsDigit(c)
  {
    (c - '0') as nat
  }

  predicate AllDigits(s: string) {
    forall i :: 0 <= i < |s| ==> IsDigit(s[i])
  }

  /** The form Python's `str()` gives a non-negative int: at least one digit,
      and no leading zero unless the number is zero. */
  predicate IsCanonical(s: string) {
    |s| > 0 && AllDigits(s) && (s[0] == '0' ==> |s| == 1)
  }

  function Pow10(k: nat): (p: nat)
    ensures p >= 1
  {
    if k == 0 then 1 else 10 * Pow10(k - 1)
  }

  /** Python's `str(n)` for `n >= 0`: most significant digit first, no sign,
      no padding. */
  function Show(n: nat): (r: string)
    ensures IsCanonical(r)
    ensures r[0] == '0' <==> n == 0
    decreases n
  {
    if n < 10 then [DigitChar(n)] else Show(n / 10) + [DigitChar(n % 10)]
  }

  /** The value of a string of decimal digits, read most significant first;
      leading zeros add nothing. This is the reference the rendering is
      checked against. */
  function Value(s: string): (v: nat)
    requires AllDigits(s)
    ensures v < Pow10(|s|)
    decreases |s|
  {
    if |s| == 0 then 0
    else
      var prefix := s[..|s| - 1];
      assert AllDigits(prefix) by {
        forall i | 0 <= i < |prefix| ensures IsDigit(prefix[i]) {
          assert prefix[i] == s[i];
        }
      }
      10 * Value(prefix) + CharValue(s[|s| - 1])
  }

  /** Reading back what `Show` wrote gives the number again. */
  lemma {:induction false} ValueOfShow(n: nat)
    ensures Value(Show(n)) == n
    decreases n
  {
    if n >= 10 {
      var s := Show(n);
      assert s[..|s| - 1] == Show(n / 10);
      ValueOfShow(n / 10);
    }
  }

  /** Rendering the value of a canonical digit string gives the string again,
      so `Show` hits every canonical string exactly once. */
  lemma {:induction false} ShowOfValue(s: string)
    requires IsCanonical(s)
    ensures Show(Value(s)) == s
    decreases |s|
  {
    if |s| > 1 {
      var prefix := s[..|s| - 1];
      assert prefix[0] == s[0];
      assert IsCanonical(prefix);
      LeadingDigitPositive(prefix);
      ShowOfValue(prefix);
      var v := Value(s);
      assert v / 10 == Value(prefix) && v % 10 == CharValue(s[|s| - 1]);
      assert s == prefix + [s[|s| - 1]];
    }
  }

  /** A digit string that does not start with '0' stands for a positive
      number. */
  lemma {:induction false} LeadingDigitPositive(s: string)
    requires AllDigits(s) && |s| > 0 && s[0] != '0'
    ensures Value(s) >= 1
    decreases |s|
  {
    if |s| > 1 {
      var prefix := s[..|s| - 1];
      assert prefix[0] == s[0];
      LeadingDigitPositive(prefix);
    }
  }

  /** `str(n)` fits in `k` characters exactly when `n < 10^k`. */
  lemma {:induction false} ShowLengthBound(n: nat, k: nat)
    requires k >= 1
    ensures |Show(n)| <= k <==> n < Pow10(k)
    decreases n
  {
    if n >= 10 {
      if k == 1 {
        assert |Show(n / 10)| >= 1;
      } else {
        ShowLengthBound(n / 10, k - 1);
        assert n / 10 < Pow10(k - 1) <==> n < 10 * Pow10(k - 1);
      }
    }
  }

  /** The number of digits of `str(n)` for the ranges the calendar uses. */
  lemma ShowLength(n: nat)
    ensures |Show(n)| == 1 <==> n < 10
    ensures |Show(n)| == 2 <==> 10 <= n < 100
    ensures |Show(n)| == 4 <==> 1000 <= n < 10000
  {
    ShowLengthBound(n, 1);
    ShowLengthBound(n, 2);
    ShowLengthBound(n, 3);
    ShowLengthBound(n, 4);
  }
}
