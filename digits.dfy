/** Decimal digits: the character class `[0-9]` of the validation pattern and
    the decimal rendering `Long.toString()` gives a non-negative number. */
module Digits {

  predicate IsAsciiDigit(c: char) {
    '0' <= c <= '9'
  }

  /** Every character of `s` is in `[0-9]`. */
  predicate AllDigits(s: string) {
    forall i :: 0 <= i < |s| ==> IsAsciiDigit(s[i])
  }

  /** Exactly twelve ASCII digits. */
  predicate IsTwelveDigits(s: string) {
    |s| == 12 && AllDigits(s)
  }

  function Pow10(k: nat): (p: nat)
    ensures p >= 1
  {
    if k == 0 then 1 else 10 * Pow10(k - 1)
  }

  function DigitChar(d: nat): (c: char)
    requires d < 10
    ensures IsAsciiDigit(c) && c as int - '0' as int == d
  {
    ('0' as int + d) as char
  }

  /** The decimal rendering of a non-negative number, most significant digit
      first and with no leading zeros, as `Long.toString()` writes it. */
  function DecimalString(n: nat): string
    decreases n
  {
    if n < 10 then [DigitChar(n)] else DecimalString(n / 10) + [DigitChar(n % 10)]
  }

  /** The value a string of digits denotes; the inverse of DecimalString. */
  function DigitsValue(s: string): nat
    requires AllDigits(s)
  {
    if s == [] then 0
    else 10 * DigitsValue(s[..|s| - 1]) + (s[|s| - 1] as int - '0' as int)
  }

  lemma {:induction false} DecimalStringIsDigits(n: nat)
    ensures |DecimalString(n)| >= 1 && AllDigits(DecimalString(n))
    decreases n
  {
    if n >= 10 {
      DecimalStringIsDigits(n / 10);
    }
  }

  /** Reading back the rendering gives the number. */
  lemma {:induction false} DecimalStringRoundTrip(n: nat)
    ensures AllDigits(DecimalString(n)) && DigitsValue(DecimalString(n)) == n
    decreases n
  {
    DecimalStringIsDigits(n);
    if n >= 10 {
      DecimalStringRoundTrip(n / 10);
      var s := DecimalString(n);
      assert s[..|s| - 1] == DecimalString(n / 10);
    }
  }

  /** A number with k + 1 decimal digits renders as k + 1 characters. */
  lemma {:induction false} DecimalStringLength(n: nat, k: nat)
    requires Pow10(k) <= n < Pow10(k + 1)
    ensures |DecimalString(n)| == k + 1
    decreases k
  {
    if k > 0 {
      assert Pow10(k) == 10 * Pow10(k - 1);
      assert Pow10(k + 1) == 10 * Pow10(k);
      DecimalStringLength(n / 10, k - 1);
    }
  }

  lemma DivUnique(n: nat, d: nat, q: nat, r: nat)
    requires d > 0 && r < d && n == d * q + r
    ensures n / d == q && n % d == r
  {
    var q', r' := n / d, n % d;
    assert n == d * q' + r';
    if q' > q {
      MulStep(d, q, q');
      assert false;
    } else if q' < q {
      MulStep(d, q', q);
      assert false;
    }
  }

  lemma MulDistributes(a: nat, x: nat, y: nat)
    ensures a * (x + y) == a * x + a * y
  {
  }

  lemma MulAssociates(a: nat, b: nat, c: nat)
    ensures a * (b * c) == (a * b) * c
  {
  }

  lemma MulMonotone(a: nat, x: nat, y: nat)
    requires x <= y
    ensures a * x <= a * y
  {
  }

  lemma MulStep(d: nat, x: nat, y: nat)
    requires x < y
    ensures d * x + d <= d * y
  {
    MulMonotone(d, x + 1, y);
    MulDistributes(d, x, 1);
  }

  lemma DivDiv(n: nat, a: nat, b: nat)
    requires a > 0 && b > 0
    ensures (n / a) / b == n / (a * b)
  {
    var q, r := n / a, n % a;
    var q2, r2 := q / b, q % b;
    MulDistributes(a, b * q2, r2);
    MulAssociates(a, b, q2);
    assert n == (a * b) * q2 + (a * r2 + r);
    MulMonotone(a, r2, b - 1);
    MulDistributes(a, b - 1, 1);
    assert a * r2 + r < a * b;
    DivUnique(n, a * b, q2, a * r2 + r);
  }

  /** Dropping the k lowest digits of n leaves a prefix of its rendering. */
  lemma {:induction false} DecimalStringPrefix(n: nat, k: nat)
    requires n >= Pow10(k)
    ensures DecimalString(n / Pow10(k)) <= DecimalString(n)
    decreases k
  {
    if k > 0 {
      assert Pow10(k) == 10 * Pow10(k - 1);
      assert n / 10 >= Pow10(k - 1);
      DecimalStringPrefix(n / 10, k - 1);
      DivDiv(n, 10, Pow10(k - 1));
      assert DecimalString(n / 10) <= DecimalString(n);
    }
  }
}
