/**
 * Python 3's built-in `round(x)` with no digits argument, over exact
 * rationals: the integer nearest to x, and on an exact half the even one of
 * the two neighbours ("banker's rounding").
 *
 * A rational is given as a numerator `n` and a positive denominator `d`.
 */
module Rounding {

  /** |x| for integers. */
  function Abs(x: int): (r: nat)
    ensures r == x || r == -x
  {
    if x < 0 then -x else x
  }

  /**
   * The reference definition: `k` is within one half of n/d, and when it is
   * exactly one half away, `k` is even.
   */
  predicate IsRoundHalfEven(n: int, d: int, k: int)
    requires d > 0
  {
    2 * Abs(n - k * d) <= d && (2 * Abs(n - k * d) == d ==> k % 2 == 0)
  }

  /** Round n/d to the nearest integer, halves to even. */
  function RoundHalfEven(n: int, d: int): (k: int)
    requires d > 0
    ensures IsRoundHalfEven(n, d, k)
  {
    var q, r := n / d, n % d;
    assert n - q * d == r;
    assert n - (q + 1) * d == r - d;
    if 2 * r < d then q
    else if 2 * r > d then q + 1
    else if q % 2 == 0 then q
    else q + 1
  }

  /** Cancelling a positive factor from an inequality. */
  lemma MulCancelLe(a: int, b: int, d: int)
    requires d > 0 && a * d <= b * d
    ensures a <= b
  {
  }

  /** Multiplying an inequality by a positive factor. */
  lemma MulLe(a: int, b: int, c: int)
    requires c > 0 && a <= b
    ensures a * c <= b * c
  {
  }

  /** The distance to k of n/d, scaled by c, is the distance to k of (n*c)/(d*c). */
  lemma ScaledDistance(n: int, d: int, k: int, c: int)
    requires c > 0
    ensures Abs(n * c - k * (d * c)) == Abs(n - k * d) * c
  {
  }

  /** The reference definition has exactly one solution: RoundHalfEven's. */
  lemma RoundHalfEvenUnique(n: int, d: int, k: int)
    requires d > 0 && IsRoundHalfEven(n, d, k)
    ensures k == RoundHalfEven(n, d)
  {
    var j := RoundHalfEven(n, d);
    if k < j {
      RoundedOrdered(n, n, d, j, k);
    } else if j < k {
      RoundedOrdered(n, n, d, k, j);
    }
  }

  /**
   * The core of monotonicity: if k1 rounds n1/d, k2 rounds n2/d and
   * n1 <= n2, then k1 <= k2.
   */
  lemma RoundedOrdered(n1: int, n2: int, d: int, k1: int, k2: int)
    requires d > 0 && n1 <= n2
    requires IsRoundHalfEven(n1, d, k1) && IsRoundHalfEven(n2, d, k2)
    ensures k1 <= k2
  {
    if k1 > k2 {
      var lo, hi := (2 * k1 - 1) * d, (2 * k2 + 1) * d;
      assert lo == 2 * (k1 * d) - d;
      assert hi == 2 * (k2 * d) + d;
      assert lo <= 2 * n1 <= 2 * n2 <= hi;
      MulCancelLe(2 * k1 - 1, 2 * k2 + 1, d);
      // so k1 == k2 + 1, and both n1/d and n2/d are exact halves between
      // k2 and k1: the two cannot both be even
    }
  }

  /**
   * Rounding depends only on the rational number, not on the fraction that
   * writes it: n/d and (n*c)/(d*c) round alike.
   */
  lemma RoundHalfEvenScale(n: int, d: int, c: int)
    requires d > 0 && c > 0
    ensures RoundHalfEven(n * c, d * c) == RoundHalfEven(n, d)
  {
    var k := RoundHalfEven(n, d);
    var a := 2 * Abs(n - k * d);
    ScaledDistance(n, d, k, c);
    assert 2 * Abs(n * c - k * (d * c)) == a * c;
    MulLe(a, d, c);
    if a * c == d * c {
      MulCancelLe(d, a, c);
    }
    assert IsRoundHalfEven(n * c, d * c, k);
    RoundHalfEvenUnique(n * c, d * c, k);
  }

  /** For a fixed denominator, rounding never decreases as the numerator grows. */
  lemma RoundHalfEvenMonotoneNumerator(n1: int, n2: int, d: int)
    requires d > 0 && n1 <= n2
    ensures RoundHalfEven(n1, d) <= RoundHalfEven(n2, d)
  {
    RoundedOrdered(n1, n2, d, RoundHalfEven(n1, d), RoundHalfEven(n2, d));
  }

  /** Rounding is monotone in the rational value: n1/d1 <= n2/d2 implies round(n1/d1) <= round(n2/d2). */
  lemma RoundHalfEvenMonotone(n1: int, d1: int, n2: int, d2: int)
    requires d1 > 0 && d2 > 0 && n1 * d2 <= n2 * d1
    ensures RoundHalfEven(n1, d1) <= RoundHalfEven(n2, d2)
  {
    RoundHalfEvenScale(n1, d1, d2);
    RoundHalfEvenScale(n2, d2, d1);
    assert d2 * d1 == d1 * d2;
    RoundHalfEvenMonotoneNumerator(n1 * d2, n2 * d1, d1 * d2);
  }
}
