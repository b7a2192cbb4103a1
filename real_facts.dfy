/** Small facts of real arithmetic, each stated over plain variables so
    that the solver meets one product at a time. */
module RealFacts {

  lemma ScaleLe(x: real, y: real, p: real)
    requires 0.0 < p
    ensures x <= y ==> x * p <= y * p
  {
  }

  lemma ScaleLt(x: real, y: real, p: real)
    requires 0.0 < p
    ensures x < y ==> x * p < y * p
  {
  }

  lemma MulDiv(n: real, p: real)
    requires 0.0 < p
    ensures n * p / p == n
  {
  }

  lemma ShiftProduct(n: real, p: real)
    ensures (n + 1.0) * p == n * p + p
  {
  }

  /** q · p == a and q below n + 1 put a below n · p + p. */
  lemma GapBelow(q: real, p: real, a: real, n: real)
    requires 0.0 < p && q * p == a && q < n + 1.0
    ensures a < n * p + p
  {
    ScaleLt(q, n + 1.0, p);
    ShiftProduct(n, p);
  }

  /** q · p == a and n below q + 1 put n · p below a + p. */
  lemma GapAbove(q: real, p: real, a: real, n: real)
    requires 0.0 < p && q * p == a && n < q + 1.0
    ensures n * p < a + p
  {
    ScaleLt(n, q + 1.0, p);
    ShiftProduct(q, p);
  }

  lemma NonNegProduct(x: real, y: real)
    requires 0.0 <= x && 0.0 <= y
    ensures 0.0 <= x * y
  {
  }

  lemma SquareNonNegative(x: real)
    ensures 0.0 <= x * x
  {
    if x < 0.0 {
      assert x * x == (-x) * (-x);
    }
  }

  lemma ZeroProduct(x: real, y: real)
    requires x * y == 0.0
    ensures x == 0.0 || y == 0.0
  {
  }

  lemma DifferenceOfSquares(t: real, u: real)
    ensures (t - u) * (t + u) == t * t - u * u
  {
  }

  /** Two non-negative numbers with the same square are equal. */
  lemma EqualSquares(t: real, u: real)
    requires 0.0 <= t && 0.0 <= u && t * t == u * u
    ensures t == u
  {
    DifferenceOfSquares(t, u);
    ZeroProduct(t - u, t + u);
  }

  /** m · n == s with n · lo <= s <= n · hi and n > 0 puts m in [lo, hi]. */
  lemma DivideBounds(s: real, n: real, m: real, lo: real, hi: real)
    requires 0.0 < n && m * n == s && n * lo <= s <= n * hi
    ensures lo <= m <= hi
  {
  }

  lemma Quotient(num: real, den: real, q: real)
    requires den != 0.0 && num == q * den
    ensures num / den == q
  {
  }

  lemma ScaleBack(s: real, n: real, v: real)
    requires 0.0 < n && s * s == 1.0 / n * v
    ensures s * s * n == v
  {
  }

  lemma NonNegativeOverCount(n: real, v: real)
    requires 0.0 < n && 0.0 <= v
    ensures 0.0 <= 1.0 / n * v
  {
  }

  /** A product is zero exactly when a factor is. */
  lemma ProductZero(x: real, y: real)
    ensures (x * y == 0.0) == (x == 0.0 || y == 0.0)
  {
    if x * y == 0.0 {
      ZeroProduct(x, y);
    }
  }

  /** v / n is zero exactly when v is, for a positive count n. */
  lemma OverCountZero(n: real, v: real)
    requires 0.0 < n
    ensures (1.0 / n * v == 0.0) == (v == 0.0)
  {
    ProductZero(1.0 / n, v);
  }

  /** One more value between lo and hi keeps a sum of k such values
      between k·lo and k·hi, now with n = k + 1. */
  lemma BoundsStep(k: real, n: real, lo: real, hi: real, x: real, rest: real)
    requires n == k + 1.0
    requires k * lo <= rest <= k * hi && lo <= x <= hi
    ensures n * lo <= x + rest <= n * hi
  {
    ShiftProduct(k, lo);
    ShiftProduct(k, hi);
  }
}
