/**
 * Facts about products of reals that the solver does not find on its own;
 * the easing curves and the vector geometry both lean on them.
 */
module Reals {

  lemma MulNonNegative(a: real, b: real)
    requires a >= 0.0 && b >= 0.0
    ensures a * b >= 0.0
  {
  }

  lemma MulAtMost(a: real, b: real)
    requires 0.0 <= a <= 1.0 && b >= 0.0
    ensures a * b <= b && b * a <= b
  {
    MulNonNegative(1.0 - a, b);
    assert (1.0 - a) * b == b - a * b;
  }

  lemma MulMonotone(a: real, b: real, c: real, d: real)
    requires 0.0 <= a <= b && 0.0 <= c <= d
    ensures a * c <= b * d
  {
    MulNonNegative(b - a, c);
    assert (b - a) * c == b * c - a * c;
    MulNonNegative(b, d - c);
    assert b * (d - c) == b * d - b * c;
  }

  /** A non-zero factor cancels. */
  lemma MulCancel(x: real, y: real, d: real)
    requires d != 0.0 && x * d == y * d
    ensures x == y
  {
    assert (x - y) * d == 0.0;
  }

  lemma SquarePositive(r: real)
    requires r != 0.0
    ensures r * r > 0.0
  {
    if r < 0.0 {
      assert r * r == (-r) * (-r);
    }
  }

  lemma SquareNonNegative(r: real)
    ensures r * r >= 0.0
  {
    if r != 0.0 {
      SquarePositive(r);
    }
  }
}
