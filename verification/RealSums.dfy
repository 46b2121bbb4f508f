/** Finite sums of reals, written over prefixes so that no slicing is needed. */
module RealSums {

  function SumTo(y: seq<real>, n: nat): real
    requires n <= |y|
  {
    if n == 0 then 0.0 else SumTo(y, n - 1) + y[n - 1]
  }

  function Times(a: real, b: real): real { a * b }

  function Square(x: real): real { Times(x, x) }

  function Abs(x: real): real { if x < 0.0 then -x else x }

  /** Squared distance between the first `n` entries of two vectors. */
  function DistanceTo(a: seq<real>, b: seq<real>, n: nat): (d: real)
    requires n <= |a| && n <= |b|
    ensures d >= 0.0
  {
    if n == 0 then 0.0 else
      SquareNonNegative(a[n - 1] - b[n - 1]);
      DistanceTo(a, b, n - 1) + Square(a[n - 1] - b[n - 1])
  }

  function Distance(a: seq<real>, b: seq<real>): (d: real)
    requires |a| == |b|
    ensures d >= 0.0
  {
    DistanceTo(a, b, |a|)
  }

  lemma TimesSign(a: real, b: real)
    ensures (a > 0.0 && b > 0.0) || (a < 0.0 && b < 0.0) ==> Times(a, b) > 0.0
  {
  }

  lemma SquareNonNegative(x: real)
    ensures Square(x) >= 0.0
    ensures Square(x) == 0.0 ==> x == 0.0
  {
    TimesSign(x, x);
  }

  lemma {:induction false} DistanceZero(a: seq<real>, b: seq<real>, n: nat)
    requires n <= |a| && n <= |b| && DistanceTo(a, b, n) == 0.0
    ensures a[..n] == b[..n]
  {
    if n > 0 {
      SquareNonNegative(a[n - 1] - b[n - 1]);
      DistanceZero(a, b, n - 1);
      assert a[..n] == a[..n - 1] + [a[n - 1]];
      assert b[..n] == b[..n - 1] + [b[n - 1]];
    }
  }

  lemma {:induction false} SumBounds(y: seq<real>, lo: nat, hi: nat)
    requires lo <= hi <= |y|
    requires forall i | lo <= i < hi :: 0.0 <= y[i] <= 1.0
    ensures 0.0 <= SumTo(y, hi) - SumTo(y, lo) <= (hi - lo) as real
  {
    if lo < hi { SumBounds(y, lo, hi - 1); }
  }

  lemma {:induction false} SumAtLeast(y: seq<real>, lo: nat, hi: nat, c: real)
    requires lo <= hi <= |y|
    requires forall i | lo <= i < hi :: c <= y[i]
    ensures SumTo(y, hi) - SumTo(y, lo) >= Times((hi - lo) as real, c)
  {
    if lo < hi {
      SumAtLeast(y, lo, hi - 1, c);
      assert (hi - lo) as real == (hi - 1 - lo) as real + 1.0;
    } else {
      assert (hi - lo) as real == 0.0;
    }
  }

  lemma PositiveFactor(c: real, x: real)
    requires c > 0.0
    ensures c * x > 0.0 ==> x > 0.0
    ensures c * x >= 0.0 ==> x >= 0.0
  {
  }

  /** A weighted mean of two different values lies strictly between them. */
  lemma WeightedMean(a: real, b: real, p: real, q: real, m: real)
    requires p > 0.0 && q > 0.0 && a > b
    requires (p + q) * m == a * p + b * q
    ensures b < m < a
  {
    assert p * (a - b) > 0.0;
    assert q * (a - b) > 0.0;
    var lower, upper, total := m - b, a - m, p + q;
    assert total * lower == p * (a - b);
    assert total * upper == q * (a - b);
    PositiveFactor(total, lower);
    PositiveFactor(total, upper);
  }

  lemma TimesStrict(c: real, a: real, b: real)
    requires a < b && c > 0.0
    ensures Times(c, a) < Times(c, b)
  {
    assert c * (b - a) > 0.0;
  }

  lemma MulMonotone(a: real, b: real, c: real)
    requires a <= b && c >= 0.0
    ensures c * a <= c * b
    ensures a * c <= b * c
  {
  }

  /** Comparing a quotient is comparing with the product. */
  lemma DivCompare(x: real, p: real, b: real)
    requires b > 0.0
    ensures x / b <= p <==> x <= p * b
    ensures (x / b) * b == x
  {
    var q := x / b;
    assert q * b == x;
    if q <= p {
      MulMonotone(q, p, b);
    } else {
      var d := q - p;
      assert d * b > 0.0;
      assert d * b == x - p * b;
    }
  }

  lemma UnitSquare(x: real)
    requires -1.0 <= x <= 1.0
    ensures 0.0 <= Square(x) <= 1.0
  {
    SquareNonNegative(x);
    if x >= 0.0 { TimesAtMost(x, x); } else { TimesAtMost(-x, -x); assert Times(-x, -x) == Times(x, x); }
  }

  lemma TimesAtMost(a: real, b: real)
    requires 0.0 <= a <= 1.0 && 0.0 <= b <= 1.0
    ensures Times(a, b) <= 1.0
  {
    var x := a * b;
    MulMonotone(a, 1.0, b);
    assert x <= 1.0 * b;
  }

  /** A quotient of two ordered non-negative numbers is a fraction. */
  lemma Fraction(x: real, c: real)
    requires c > 0.0 && 0.0 <= x <= c
    ensures 0.0 <= x / c <= 1.0
  {
    DivCompare(x, 1.0, c);
    PositiveFactor(c, x / c);
    assert c * (x / c) == x;
  }

  /** The absolute gap of two means over `c` items, weighted by the share `c / n`. */
  lemma WeightedGap(p: real, y: real, c: real, n: real)
    requires c > 0.0 && n > 0.0
    ensures var term := c / n * Abs(p / c - y / c);
            term >= 0.0 && n * term == Abs(p - y)
  {
    var avgP, avgY, share := p / c, y / c, c / n;
    DivCompare(p, avgP, c);
    DivCompare(y, avgY, c);
    DivCompare(c, share, n);
    var d := avgP - avgY;
    assert c * d == p - y;
    AbsScales(c, d);
    PositiveFactor(n, share);
    var a := Abs(d);
    assert share * a >= 0.0;
    assert n * (share * a) == (share * n) * a;
  }

  lemma AbsScales(c: real, d: real)
    requires c > 0.0
    ensures c * Abs(d) == Abs(c * d)
  {
    var x := c * d;
    PositiveFactor(c, d);
    if d < 0.0 { PositiveFactor(c, -d); assert c * (-d) == -x; assert c * (-d) > 0.0; } else { assert c * d >= 0.0; }
  }

  /** One step of Abel summation: the partial residual sum `d` is non-negative and the
      weights decrease from `u` to `v`. */
  lemma AbelStep(c: real, d: real, r: real, u: real, v: real)
    requires c >= d * u && d >= 0.0 && v <= u
    ensures c + r * v >= (d + r) * v
  {
    MulMonotone(v, u, d);
    assert (d + r) * v == d * v + r * v;
  }
}
