/** The estimate of the size of the DHT from the distances of the closest nodes. */
module SizeEstimate {
  import opened Closest

  // The quotient is infinite when every distance is zero.
  datatype Estimate = Finite(size: real) | Infinite

  // === Finite sums ===

  /** `f(1) + ... + f(n)`. */
  function Sum(f: nat -> real, n: nat): real {
    if n == 0 then 0.0 else Sum(f, n - 1) + f(n)
  }

  ghost predicate AddsAt(m: real -> real, x: real, y: real) { m(x + y) == m(x) + m(y) }

  ghost predicate Additive(m: real -> real) { forall x, y :: AddsAt(m, x, y) }

  lemma {:induction false} SumIsLinear(e: nat -> real, f: nat -> real, g: nat -> real, h: nat -> real,
                                       m: real -> real, k: real -> real, n: nat)
    requires Additive(m) && Additive(k)
    requires forall i: nat :: 1 <= i <= n ==> e(i) == f(i) + m(g(i)) + k(h(i))
    ensures Sum(e, n) == Sum(f, n) + m(Sum(g, n)) + k(Sum(h, n))
  {
    if n == 0 {
      assert AddsAt(m, 0.0, 0.0) && AddsAt(k, 0.0, 0.0);
    } else {
      SumIsLinear(e, f, g, h, m, k, n - 1);
      assert AddsAt(m, Sum(g, n - 1), g(n)) && AddsAt(k, Sum(h, n - 1), h(n));
    }
  }

  lemma {:induction false} SumOfNonNegative(f: nat -> real, n: nat)
    requires forall i: nat :: 1 <= i <= n ==> f(i) >= 0.0
    ensures Sum(f, n) >= 0.0
    ensures Sum(f, n) == 0.0 <==> forall i: nat :: 1 <= i <= n ==> f(i) == 0.0
  {
    if n > 0 {
      SumOfNonNegative(f, n - 1);
    }
  }

  // === The quantities of the fit ===

  function D(ds: seq<nat>, i: nat): real { if 1 <= i <= |ds| then ds[i - 1] as real else 0.0 }

  function Weighted(ds: seq<nat>): nat -> real { (i: nat) => i as real * D(ds, i) }

  function Squares(): nat -> real { (i: nat) => i as real * i as real }

  function DistanceSquares(ds: seq<nat>): nat -> real { (i: nat) => D(ds, i) * D(ds, i) }

  function Deviation(ds: seq<nat>, slope: real): nat -> real {
    (i: nat) => (D(ds, i) - slope * i as real) * (D(ds, i) - slope * i as real)
  }

  function Times(c: real): real -> real { (x: real) => c * x }

  lemma TimesIsAdditive(c: real)
    ensures Additive(Times(c))
  {
    forall x, y ensures AddsAt(Times(c), x, y) {
      Distribute(c, x, y);
    }
  }

  lemma Distribute(c: real, x: real, y: real)
    ensures c * (x + y) == c * x + c * y
  {}

  /** The total squared error of the line `slope * i` through the origin. */
  function SquaredError(ds: seq<nat>, slope: real): real { Sum(Deviation(ds, slope), |ds|) }

  /** The slope of the least-squares line through the origin. */
  function BestSlope(ds: seq<nat>): real
    requires ds != []
  {
    SumOfSquaresClosedForm(|ds|);
    Sum(Weighted(ds), |ds|) / Sum(Squares(), |ds|)
  }

  // === The loop ===

  method DhtSizeEstimate(distances: seq<nat>) returns (estimate: Estimate)
    ensures distances == [] ==> estimate == Finite(0.0)
    ensures distances != [] ==>
              (estimate.Infinite? <==> forall k :: 0 <= k < |distances| ==> distances[k] == 0)
              && (estimate.Finite? ==> estimate.size * BestSlope(distances) == U128_MAX as real)
  {
    var sum, count := 0.0, 0;
    for i := 0 to |distances|
      invariant count == i && sum == Sum(Weighted(distances), i)
    {
      count := count + 1;
      sum := sum + count as real * distances[i] as real;
    }
    if count == 0 {
      return Finite(0.0);
    }
    var lsqConstant := count * (count + 1) * (2 * count + 1) / 6;
    SumOfSquaresClosedForm(count);
    WeightedSumZero(distances);
    estimate := Quotient(lsqConstant as real, U128_MAX as real, sum);
  }

  /** `q * m / w` as the floating-point division gives it. */
  function Quotient(q: real, m: real, w: real): (e: Estimate)
    requires q > 0.0 && w >= 0.0
    ensures e.Infinite? <==> w == 0.0
    ensures e.Finite? ==> e.size * (w / q) == m
  {
    if w == 0.0 then Infinite
    else
      SlopeCancels(q, m, w);
      Finite(q * m / w)
  }

  lemma SlopeCancels(q: real, m: real, w: real)
    requires q > 0.0 && w > 0.0
    ensures (q * m / w) * (w / q) == m
  {
    var x := q * m / w;
    assert x * w == q * m;
    var y := w / q;
    assert y * q == w;
    assert (x * y) * q == x * (y * q);
    assert (x * y) * q == m * q;
    assert (x * y - m) * q == 0.0;
  }

  lemma {:induction false} WeightedSumZero(ds: seq<nat>)
    ensures Sum(Weighted(ds), |ds|) >= 0.0
    ensures Sum(Weighted(ds), |ds|) == 0.0 <==> forall k :: 0 <= k < |ds| ==> ds[k] == 0
  {
    forall i: nat | 1 <= i <= |ds|
      ensures Weighted(ds)(i) >= 0.0 && (Weighted(ds)(i) == 0.0 <==> ds[i - 1] == 0)
    {
      ProductZero(i as real, D(ds, i));
    }
    SumOfNonNegative(Weighted(ds), |ds|);
    if Sum(Weighted(ds), |ds|) == 0.0 {
      forall k | 0 <= k < |ds| ensures ds[k] == 0 {
        assert Weighted(ds)(k + 1) == 0.0;
      }
    }
  }

  lemma ProductZero(a: real, b: real)
    requires a > 0.0 && b >= 0.0
    ensures a * b >= 0.0
    ensures a * b == 0.0 <==> b == 0.0
  {}

  // === The closed form ===

  function IntSquares(n: nat): nat { if n == 0 then 0 else IntSquares(n - 1) + n * n }

  lemma CubicStep(n: int)
    ensures n * (n + 1) * (2 * n + 1) == (n - 1) * n * (2 * n - 1) + 6 * (n * n)
  {
    var x, y, square, cube := n * (n + 1), (n - 1) * n, n * n, n * n * n;
    assert x == square + n && y == square - n;
    assert x * n == cube + square && y * n == cube - square;
    assert x * (2 * n + 1) == 2 * (x * n) + x;
    assert y * (2 * n - 1) == 2 * (y * n) - y;
  }

  lemma {:induction false} IntSquaresClosedForm(n: nat)
    ensures 6 * IntSquares(n) == n * (n + 1) * (2 * n + 1)
    ensures n > 0 ==> IntSquares(n) > 0
  {
    if n > 0 {
      IntSquaresClosedForm(n - 1);
      CubicStep(n);
    }
  }

  lemma {:induction false} IntSquaresAreSquares(n: nat)
    ensures IntSquares(n) as real == Sum(Squares(), n)
  {
    if n > 0 {
      IntSquaresAreSquares(n - 1);
      assert (n * n) as real == n as real * n as real;
    }
  }

  /** The closed form that the code uses is the sum of the first `n` squares. */
  lemma {:induction false} SumOfSquaresClosedForm(n: nat)
    ensures (n * (n + 1) * (2 * n + 1) / 6) as real == Sum(Squares(), n)
    ensures n > 0 ==> Sum(Squares(), n) > 0.0
  {
    IntSquaresClosedForm(n);
    IntSquaresAreSquares(n);
  }

  // === Least squares ===

  lemma ExpandDeviation(d: real, slope: real, n: real)
    ensures (d - slope * n) * (d - slope * n) == d * d + (-2.0 * slope) * (n * d) + (slope * slope) * (n * n)
  {
    var p := slope * n;
    assert (d - p) * (d - p) == d * d - 2.0 * (p * d) + p * p;
    assert p * d == slope * (n * d);
    assert (-2.0 * slope) * (n * d) == -2.0 * (slope * (n * d));
    assert p * p == slope * (n * p);
    assert n * p == slope * (n * n);
    assert slope * (slope * (n * n)) == (slope * slope) * (n * n);
  }

  lemma DeviationTerm(ds: seq<nat>, slope: real, i: nat)
    ensures Deviation(ds, slope)(i)
         == DistanceSquares(ds)(i) + Times(-2.0 * slope)(Weighted(ds)(i)) + Times(slope * slope)(Squares()(i))
  {
    ExpandDeviation(D(ds, i), slope, i as real);
  }

  function Parabola(s: real, w: real, q: real, slope: real): real {
    s + Times(-2.0 * slope)(w) + Times(slope * slope)(q)
  }

  /** The error is a parabola in the slope. */
  lemma {:induction false} ErrorIsQuadratic(ds: seq<nat>, slope: real)
    ensures SquaredError(ds, slope)
         == Parabola(Sum(DistanceSquares(ds), |ds|), Sum(Weighted(ds), |ds|), Sum(Squares(), |ds|), slope)
  {
    var m, k := Times(-2.0 * slope), Times(slope * slope);
    TimesIsAdditive(-2.0 * slope);
    TimesIsAdditive(slope * slope);
    forall i: nat | 1 <= i <= |ds|
      ensures Deviation(ds, slope)(i) == DistanceSquares(ds)(i) + m(Weighted(ds)(i)) + k(Squares()(i))
    {
      DeviationTerm(ds, slope, i);
    }
    SumIsLinear(Deviation(ds, slope), DistanceSquares(ds), Weighted(ds), Squares(), m, k, |ds|);
  }

  lemma CompleteTheSquare(s: real, w: real, q: real, best: real, slope: real)
    requires q > 0.0 && best == w / q
    ensures Parabola(s, w, q, slope) - Parabola(s, w, q, best) == (slope - best) * (slope - best) * q
  {
    assert best * q == w;
    var t := slope - best;
    assert (-2.0 * slope) * w == -2.0 * (slope * best * q);
    assert (-2.0 * best) * w == -2.0 * (best * best * q);
    assert t * t == slope * slope - 2.0 * (slope * best) + best * best;
    assert t * t * q == slope * slope * q - 2.0 * (slope * best) * q + best * best * q;
  }

  lemma SquareTimesPositive(t: real, q: real)
    requires q > 0.0
    ensures t * t * q >= 0.0
    ensures t * t * q == 0.0 ==> t == 0.0
  {
    if t < 0.0 {
      ProductZero(-t, -t);
      assert t * t == (-t) * (-t);
      ProductZero(q, t * t);
    } else if t > 0.0 {
      ProductZero(t, t);
      ProductZero(q, t * t);
    }
  }

  lemma ParabolaMinimum(s: real, w: real, q: real, best: real, slope: real)
    requires q > 0.0 && best == w / q
    ensures Parabola(s, w, q, best) <= Parabola(s, w, q, slope)
    ensures Parabola(s, w, q, best) == Parabola(s, w, q, slope) ==> slope == best
  {
    CompleteTheSquare(s, w, q, best, slope);
    SquareTimesPositive(slope - best, q);
  }

  /** The estimate comes from the one line through the origin with the least squared error. */
  lemma BestSlopeIsLeastSquares(ds: seq<nat>, slope: real)
    requires ds != []
    ensures SquaredError(ds, BestSlope(ds)) <= SquaredError(ds, slope)
    ensures SquaredError(ds, BestSlope(ds)) == SquaredError(ds, slope) ==> slope == BestSlope(ds)
  {
    SumOfSquaresClosedForm(|ds|);
    var best, q := BestSlope(ds), Sum(Squares(), |ds|);
    ErrorIsQuadratic(ds, slope);
    ErrorIsQuadratic(ds, best);
    ParabolaMinimum(Sum(DistanceSquares(ds), |ds|), Sum(Weighted(ds), |ds|), q, best, slope);
  }

  lemma {:induction false} SumScales(e: nat -> real, g: nat -> real, m: real -> real, n: nat)
    requires Additive(m)
    requires forall i: nat :: 1 <= i <= n ==> e(i) == m(g(i))
    ensures Sum(e, n) == m(Sum(g, n))
  {
    if n == 0 {
      assert AddsAt(m, 0.0, 0.0);
    } else {
      SumScales(e, g, m, n - 1);
      assert AddsAt(m, Sum(g, n - 1), g(n));
    }
  }

  lemma {:induction false} SpacedSum(ds: seq<nat>, gap: nat)
    requires forall k :: 0 <= k < |ds| ==> ds[k] == (k + 1) * gap
    ensures Sum(Weighted(ds), |ds|) == Times(gap as real)(Sum(Squares(), |ds|))
  {
    TimesIsAdditive(gap as real);
    forall i: nat | 1 <= i <= |ds| ensures Weighted(ds)(i) == Times(gap as real)(Squares()(i)) {
      assert ds[i - 1] == i * gap;
      SpacedTerm(i, gap);
    }
    SumScales(Weighted(ds), Squares(), Times(gap as real), |ds|);
  }

  /** Equally spaced nodes are counted exactly: the slope is the gap between them. */
  lemma EquallySpacedIsExact(ds: seq<nat>, gap: nat)
    requires ds != [] && forall k :: 0 <= k < |ds| ==> ds[k] == (k + 1) * gap
    ensures BestSlope(ds) == gap as real
  {
    SpacedSum(ds, gap);
    SumOfSquaresClosedForm(|ds|);
    Divide(gap as real, Sum(Squares(), |ds|));
  }

  lemma SpacedTerm(i: nat, gap: nat)
    ensures i as real * (i * gap) as real == gap as real * (i as real * i as real)
  {
    var x, g := i as real, gap as real;
    assert (i * gap) as real == x * g;
    assert x * (x * g) == g * (x * x);
  }

  lemma Divide(a: real, q: real)
    requires q > 0.0
    ensures a * q / q == a
  {}
}
