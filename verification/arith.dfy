/**
 * Facts about multiplication and floor division on non-negative sizes that
 * the solver does not find by itself; every floor in the processors'
 * geometry is checked through these.
 */
module Arith {

  lemma MulNonNegative(a: int, b: int)
    requires a >= 0 && b >= 0
    ensures a * b >= 0
  {
  }

  /** Multiplying by a non-negative factor keeps order. */
  lemma MulMonotone(x: int, y: int, q: int)
    requires x <= y && q >= 0
    ensures x * q <= y * q
  {
    var d := y - x;
    assert y * q == x * q + d * q;
    MulNonNegative(d, q);
  }

  /** `x * q < y * q` with `q` positive forces `x < y`. */
  lemma MulLessCancel(x: int, y: int, q: int)
    requires q > 0 && x * q < y * q
    ensures x < y
  {
    if x >= y {
      MulMonotone(y, x, q);
    }
  }

  /** `x * q <= y * q` with `q` positive forces `x <= y`. */
  lemma MulLeCancel(x: int, y: int, q: int)
    requires q > 0 && x * q <= y * q
    ensures x <= y
  {
    if x > y {
      MulMonotone(y + 1, x, q);
    }
  }

  /** Floor division by a positive number brackets the dividend. */
  lemma FloorBracket(a: int, q: int)
    requires q > 0
    ensures (a / q) * q <= a < (a / q + 1) * q
  {
    assert a == q * (a / q) + a % q;
  }

  /** Floor division of a non-negative number by a positive one is non-negative. */
  lemma DivNonNegative(a: int, q: int)
    requires a >= 0 && q > 0
    ensures a / q >= 0
  {
    FloorBracket(a, q);
    MulLessCancel(0, a / q + 1, q);
  }

  /** The floor quotient is the only whole number that brackets the dividend. */
  lemma DivUnique(a: int, q: int, k: int)
    requires q > 0 && k * q <= a < (k + 1) * q
    ensures a / q == k
  {
    FloorBracket(a, q);
    MulLessCancel(a / q, k + 1, q);
    MulLessCancel(k, a / q + 1, q);
  }

  /** Floor division by a positive number is monotone in the dividend. */
  lemma DivMonotone(a: int, b: int, q: int)
    requires q > 0 && a <= b
    ensures a / q <= b / q
  {
    FloorBracket(a, q);
    FloorBracket(b, q);
    MulLessCancel(a / q, b / q + 1, q);
  }

  /** A dividend at most `b * q` has a floor quotient at most `b`. */
  lemma DivAtMost(a: int, b: int, q: int)
    requires q > 0 && a <= b * q
    ensures a / q <= b
  {
    FloorBracket(a, q);
    MulLeCancel(a / q, b, q);
  }

  /** Scaling `c` by a fraction `y / q` of at most one gives at most `c`. */
  lemma ScaledDivAtMost(c: int, y: int, q: int)
    requires c >= 0 && 0 <= y <= q && q > 0
    ensures (c * y) / q <= c
  {
    MulMonotone(y, q, c);
    DivAtMost(c * y, c, q);
  }
}
