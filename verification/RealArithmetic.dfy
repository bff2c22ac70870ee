/** Facts about products of real numbers. */
module RealArithmetic {

  lemma MulNonNegative(x: real, y: real)
    requires x >= 0.0 && y >= 0.0
    ensures x * y >= 0.0
  {
  }

  lemma MulPositive(x: real, y: real)
    requires x > 0.0 && y > 0.0
    ensures x * y > 0.0
  {
  }

  lemma SquareNonNegative(x: real)
    ensures x * x >= 0.0
  {
  }

  lemma SquareBound(n: real, bound: real)
    requires -bound <= n <= bound
    ensures 0.0 <= n * n <= bound * bound
  {
    SquareNonNegative(n);
    assert bound * bound - n * n == (bound - n) * (bound + n);
    MulNonNegative(bound - n, bound + n);
  }

  lemma RootBound(e: real, bound: real)
    requires bound >= 0.0
    requires e * e <= bound * bound
    ensures -bound <= e <= bound
  {
    if e > bound {
      MulPositive(e - bound, e + bound);
    } else if -e > bound {
      MulPositive(-e - bound, -e + bound);
    }
  }

  lemma NullVector(x: real, y: real)
    requires x * x + y * y == 0.0
    ensures x == 0.0 && y == 0.0
  {
    SquareNonNegative(x);
    SquareNonNegative(y);
    RootBound(x, 0.0);
    RootBound(y, 0.0);
  }
}
