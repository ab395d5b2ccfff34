/**
 Facts about products of reals that the solver does not find on its own; each
 one is stated on plain variables so that it can be used where the product
 sits inside larger terms.
 */
module RealArith {

  /** A zero product with a non-zero factor has a zero co-factor. */
  lemma ZeroFactor(a: real, b: real)
    requires a * b == 0.0 && b != 0.0
    ensures a == 0.0
  {
  }

  lemma SquareZero(x: real)
    requires x * x == 0.0
    ensures x == 0.0
  {
    if x != 0.0 {
      ZeroFactor(x, x);
    }
  }

  /** A product with a positive factor and a positive value has a positive co-factor. */
  lemma PositiveFactor(a: real, b: real, c: real)
    requires b > 0.0 && a * b == c && c > 0.0
    ensures a > 0.0
  {
  }

  /** A product with a positive factor and a non-negative value has a non-negative co-factor. */
  lemma NonNegativeFactor(a: real, b: real, c: real)
    requires b > 0.0 && a * b == c && c >= 0.0
    ensures a >= 0.0
  {
  }

  /**
   Scaling one more squared term: when `x` times `n` is `y` and `rest` times
   `n*n` is `rest'`, then `x*x + rest` times `n*n` is `y*y + rest'`.
   */
  lemma ScaledSquareSum(x: real, y: real, n: real, rest: real, rest': real, s: real, s': real)
    requires x * n == y && rest * (n * n) == rest'
    requires s == x * x + rest && s' == y * y + rest'
    ensures s * (n * n) == s'
  {
    assert (x * x) * (n * n) == (x * n) * (x * n);
  }

  /** Two quotients by the same divisor cross-multiply like their dividends. */
  lemma CrossRatio(a: real, b: real, c: real, d: real, n: real)
    requires a * n == c && b * n == d
    ensures a * d == b * c
  {
    assert a * (b * n) == b * (a * n);
  }
}
