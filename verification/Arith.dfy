/** Facts about Euclidean division and powers of two that the other modules share. */
module Arith {

  lemma UniqueQuotient(d: int, q1: int, r1: int, q2: int, r2: int)
    requires 0 <= r1 < d && 0 <= r2 < d
    requires q1 * d + r1 == q2 * d + r2
    ensures q1 == q2 && r1 == r2
  {
    if q1 > q2 {
      assert (q1 - q2) * d == q1 * d - q2 * d;
      MulAtLeast(q1 - q2, d);
    } else if q2 > q1 {
      assert (q2 - q1) * d == q2 * d - q1 * d;
      MulAtLeast(q2 - q1, d);
    }
  }

  lemma MulAtLeast(k: int, d: int)
    requires k >= 1 && d >= 0
    ensures k * d >= d
  {
    assert k * d == (k - 1) * d + d;
    assert (k - 1) * d >= 0;
  }

  /** The quotient and remainder of `x` by a positive `d` are determined by `x == q * d + r`. */
  lemma DivModIs(x: int, d: int, q: int, r: int)
    requires 0 <= r < d && x == q * d + r
    ensures x / d == q && x % d == r
  {
    var q', r' := x / d, x % d;
    assert x == q' * d + r' by { assert x == d * q' + r'; }
    UniqueQuotient(d, q, r, q', r');
  }

  lemma DivMonotone(a: int, b: int, d: int)
    requires d > 0 && a <= b
    ensures a / d <= b / d
  {
    var qa, qb := a / d, b / d;
    assert a == qa * d + a % d && b == qb * d + b % d;
    if qa > qb {
      assert (qa - qb) * d == qa * d - qb * d;
      MulAtLeast(qa - qb, d);
    }
  }

  /** `q <= x / d` exactly when `q * d <= x`. */
  lemma DivAtLeast(x: int, d: int, q: int)
    requires d > 0
    ensures q <= x / d <==> q * d <= x
  {
    var q' := x / d;
    assert x == q' * d + x % d;
    if q <= q' {
      assert (q' - q) * d == q' * d - q * d;
      assert (q' - q) * d >= 0;
    } else {
      MulAtLeast(q - q', d);
      assert (q - q') * d == q * d - q' * d;
    }
  }

  /** Digit `i` below `outer` in a mixed-radix number. */
  lemma MixedRadix(outer: int, volume: int, e: int, i: int)
    requires 0 <= outer < volume && 0 <= i < e
    ensures 0 <= outer * e + i < volume * e
    ensures (outer * e + i) / e == outer && (outer * e + i) % e == i
  {
    MulAtLeast(volume - outer, e);
    assert (volume - outer) * e == volume * e - outer * e;
    assert outer * e >= 0;
    DivModIs(outer * e + i, e, outer, i);
  }

  lemma DivModSplit(n: int, e: int)
    requires e > 0
    ensures (n / e) * e + n % e == n
  {
  }

  lemma MulOrder(a: int, b: int, e: int)
    requires a < b && e >= 1
    ensures a * e < b * e && a * e + e <= b * e
  {
    MulAtLeast(b - a, e);
    assert (b - a) * e == b * e - a * e;
  }
}
