/** Nonlinear facts the layout proofs share. */
module Arithmetic {

  lemma NonNegative(d: int, w: int)
    requires d >= 0 && w >= 0
    ensures d * w >= 0
  {
  }

  lemma LessTimes(a: int, b: int, w: int)
    requires w >= 0
    ensures a < b ==> a * w + w <= b * w
  {
    if a < b {
      NonNegative(b - a - 1, w);
      assert b * w == a * w + (b - a - 1) * w + w;
    }
  }

  lemma MultipleOf(q: nat, width: nat)
    requires width > 0
    ensures (q * width) % width == 0 && (q * width) / width == q
  {
    QuotientIs(q * width, width, q, 0);
  }

  /** Division with remainder has one answer. */
  lemma QuotientIs(n: int, width: nat, q: int, r: nat)
    requires r < width && n == q * width + r
    ensures n / width == q && n % width == r
  {
    var a := n / width;
    assert n == a * width + n % width;
    LessTimes(a, q, width);
    LessTimes(q, a, width);
    assert a == q;
  }

  lemma QuotientSteps(x: nat, y: nat, d: nat)
    requires d > 0 && x + d <= y
    ensures x / d < y / d
  {
    assert x == x / d * d + x % d;
    assert y == y / d * d + y % d;
    LessTimes(y / d, x / d + 1, d);
    assert (x / d + 1) * d == x / d * d + d;
  }
}
