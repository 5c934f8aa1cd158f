/**
 Division of reals by a positive divisor, which the scores, shares and means of the reports
 and the detector's area score all use. Stated once here so that those proofs stay linear.
 */
module Fractions {

  /** Dividing by a positive number keeps the order of the dividends. */
  lemma DivideMonotone(a: real, b: real, k: real)
    requires a <= b && k > 0.0
    ensures a / k <= b / k
  {
    var p, q := a / k, b / k;
    assert p * k == a && q * k == b;
    assert (q - p) * k == b - a;
    PositiveFactor(q - p, k);
  }

  /** A product with a positive factor is non-negative exactly when the other factor is. */
  lemma PositiveFactor(x: real, k: real)
    requires k > 0.0
    ensures x * k >= 0.0 <==> x >= 0.0
  {
  }

  /** `a / n >= t` is `a >= t n` for a positive divisor `n`. */
  lemma QuotientAtLeast(a: real, n: real, t: real)
    requires n > 0.0
    ensures a / n >= t <==> a >= t * n
  {
    var m := a / n;
    assert m * n == a;
    assert (m - t) * n == a - t * n;
    PositiveFactor(m - t, n);
  }

  /** `a / n <= t` is `a <= t n` for a positive divisor `n`. */
  lemma QuotientAtMost(a: real, n: real, t: real)
    requires n > 0.0
    ensures a / n <= t <==> a <= t * n
  {
    var m := a / n;
    assert m * n == a;
    assert (t - m) * n == t * n - a;
    PositiveFactor(t - m, n);
  }

  /** Bounds on a dividend give bounds on its quotient: `n lo <= s <= n hi` gives `lo <= s / n <= hi`. */
  lemma DivideWithin(s: real, n: real, lo: real, hi: real)
    requires n > 0.0 && n * lo <= s <= n * hi
    ensures lo <= s / n <= hi
  {
    var m := s / n;
    assert m * n == s;
    assert (m - lo) * n == s - n * lo;
    assert (hi - m) * n == n * hi - s;
    PositiveFactor(m - lo, n);
    PositiveFactor(hi - m, n);
  }
}
