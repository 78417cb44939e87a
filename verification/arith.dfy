/** Whole-number facts about multiplication and rounded-down division,
    shared by the percentile positions and the averages. */
module Arith {
  /** Integer division rounds down: `(x / b) * b <= x`. */
  lemma DivFloor(x: nat, b: nat)
    requires b > 0
    ensures (x / b) * b <= x
  {
  }

  /** Below `t` multiples of `b`, the quotient by `b` is below `t`. */
  lemma DivLess(x: nat, t: nat, b: nat)
    requires b > 0 && x < t * b
    ensures x / b < t
  {
  }

  /** Multiplying by the same factor keeps the order. */
  lemma MulLe(x: nat, y: nat, k: nat)
    requires x <= y
    ensures x * k <= y * k
  {
  }

  /** A positive multiple of `b` is at least `b`. */
  lemma PositiveMul(z: int, b: int)
    requires b > 0
    ensures z > 0 ==> z * b >= b
  {
  }

  /** A common positive factor cancels from `<=`. */
  lemma MulCancelLe(x: nat, y: nat, b: nat)
    requires b > 0 && x * b <= y * b
    ensures x <= y
  {
    assert x * b - y * b == (x - y) * b;
    PositiveMul(x - y, b);
  }

  /** If q*d <= x then q <= x/d. */
  lemma DivLowerBound(q: nat, x: nat, d: nat)
    requires d > 0 && q * d <= x
    ensures q <= x / d
  {
    var r := x / d;
    assert x == r * d + x % d;
    assert (r + 1) * d == r * d + d;
    MulCancel(q, r + 1, d);
  }

  /** A common positive factor cancels from `<`. */
  lemma MulCancel(a: nat, b: nat, d: nat)
    requires d > 0 && a * d < b * d
    ensures a < b
  {
    assert a * d - b * d == (a - b) * d;
    PositiveMul(a - b, d);
  }
}
