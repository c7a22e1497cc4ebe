/** Sign and order facts about products of reals, kept apart from everything else. */
module RealArithmetic {

  lemma ProductNonNegative(a: real, b: real)
    requires a >= 0.0 && b >= 0.0
    ensures a * b >= 0.0
  {
  }

  lemma ProductPositive(a: real, b: real)
    requires a > 0.0 && b > 0.0
    ensures a * b > 0.0
  {
  }

  /** The same for a value given as a product: the caller's obligation is a polynomial identity. */
  lemma PositiveFactors(a: real, b: real, w: real)
    requires a > 0.0 && b > 0.0 && w == a * b
    ensures w > 0.0
  {
  }

  lemma NonNegativeFactors(a: real, b: real, w: real)
    requires a >= 0.0 && b >= 0.0 && w == a * b
    ensures w >= 0.0
  {
  }

  lemma SumOfProducts(a: real, b: real, c: real, d: real, w: real)
    requires a >= 0.0 && b >= 0.0 && c >= 0.0 && d >= 0.0 && w == a * b + c * d
    ensures w >= 0.0
  {
  }

  /** A weighted mean of two positive numbers is positive. */
  lemma WeightedPositive(a: real, u: real, v: real, w: real)
    requires 0.0 <= a <= 1.0 && u > 0.0 && v > 0.0 && w == (1.0 - a) * u + a * v
    ensures w > 0.0
  {
    if a <= 0.5 {
      ProductPositive(1.0 - a, u);
      ProductNonNegative(a, v);
    } else {
      ProductNonNegative(1.0 - a, u);
      ProductPositive(a, v);
    }
  }

  lemma ProductMonotone(a: real, b: real, c: real)
    requires a <= b && c >= 0.0
    ensures a * c <= b * c
  {
    ProductNonNegative(b - a, c);
  }

  lemma ProductStrict(a: real, b: real, c: real)
    requires a < b && c > 0.0
    ensures a * c < b * c
  {
    ProductPositive(b - a, c);
  }

  lemma SquareGap(t: real)
    requires 0.0 <= t <= 1.0
    ensures 0.0 <= t * t <= t
    ensures 0.0 <= t * (1.0 - t) <= 0.25
  {
    ProductNonNegative(t, t);
    ProductNonNegative(t, 1.0 - t);
    HalfSquare(t - 0.5);
  }

  lemma HalfSquare(d: real)
    ensures d * d >= 0.0
  {
    if d >= 0.0 {
      ProductNonNegative(d, d);
    } else {
      ProductNonNegative(-d, -d);
    }
  }
}
