/** The Mahalanobis stress score and what bounds it. */
module Mahalanobis {
  import opened Prelude
  import opened Vectors
  import opened Inverses
  import opened Linalg
  import opened Samples

  /** (x - mu)^T * K * (x - mu), in the order the code multiplies. */
  function Stress2(p: nat, k: Mat, d: Vec): real {
    Dot(p, VecMat(p, d, k), d)
  }

  /** f is the square root on non-negative numbers. */
  ghost predicate IsSqrt(f: real -> real) {
    forall q :: q >= 0.0 ==> f(q) >= 0.0 && f(q) * f(q) == q
  }

  function Clamp(q: real): real {
    if q < 0.0 then 0.0 else q
  }

  datatype HomeostasisModel = HomeostasisModel(mean: Matrix, inverseCovariance: Matrix)

  /** Every dimension mismatch is an error of one of the four matrix steps. */
  method CalculateStress(model: HomeostasisModel, current: Matrix, sqrt: real -> real)
    returns (r: Result<real, Error>)
    requires model.mean.Valid() && model.inverseCovariance.Valid() && current.Valid() && current.cols >= 1
    ensures r.Ok? <==>
      && current.rows == model.mean.rows && current.cols == model.mean.cols
      && model.inverseCovariance.rows == model.inverseCovariance.cols == current.rows
    ensures r.Err? ==> r.error == Incompatible
    ensures r.Ok? ==> r.value == sqrt(Clamp(
      Stress2(current.rows, model.inverseCovariance.Value(), Deviation(current.Value(), model.mean.Value()))))
  {
    var diff := current.Sub(model.mean);
    if diff.Err? {
      return Err(Incompatible);
    }
    var diffT := diff.value.Transpose();
    var step3 := diffT.Mul(model.inverseCovariance);
    if step3.Err? {
      return Err(step3.error);
    }
    var step4 := step3.value.Mul(diff.value);
    if step4.Err? {
      return Err(step4.error);
    }
    var stressSquared := step4.value.Get(0, 0);
    ghost var p, k, d := current.rows, model.inverseCovariance.Value(), Deviation(current.Value(), model.mean.Value());
    forall j | 0 <= j < p ensures step3.value.Value()(0, j) == VecMat(p, d, k)(j) {
      DotCong(p, Row(diffT.Value(), 0), Col(k, j), d, Col(k, j));
    }
    DotCong(p, Row(step3.value.Value(), 0), Col(diff.value.Value(), 0), VecMat(p, d, k), d);
    return Ok(sqrt(Clamp(stressSquared)));
  }

  /** The first column of current - mean. */
  ghost function Deviation(current: Mat, mean: Mat): Vec {
    i => current(i, 0) - mean(i, 0)
  }

  // ------------------------------------------------- the score of a learned reading

  /** The squared stress of reading t of h against the statistics of h itself. */
  function OwnStress(h: History, p: nat, k: Mat): Vec {
    t => Stress2(p, k, Row(Centered(h), t))
  }

  /** The direction K * d along which reading t deviates. */
  function Direction(h: History, p: nat, k: Mat, t: int): Vec {
    MatVec(p, k, Row(Centered(h), t))
  }

  /** The projections of all readings on that direction. */
  function Projections(h: History, p: nat, k: Mat, t: int): Vec {
    MatVec(p, Centered(h), Direction(h, p, k, t))
  }

  lemma OwnProjection(h: History, p: nat, k: Mat, t: int)
    ensures Projections(h, p, k, t)(t) == OwnStress(h, p, k)(t)
  {
    var d := Row(Centered(h), t);
    DotAssoc(p, p, d, k, d);
  }

  lemma DirectionScatter(h: History, p: nat, k: Mat, t: int, i: int)
    requires |h| >= 2 && IsInverse(p, k, Cov(h)) && 0 <= i < p
    ensures MatVec(p, Scatter(h), Direction(h, p, k, t))(i) == (|h| - 1) as real * Centered(h)(t, i)
  {
    CovTimes(h, p, Direction(h, p, k, t), i);
    CancelLeft(p, Cov(h), k, Row(Centered(h), t), i);
  }

  lemma {:induction false} ScaledDotLeft(n: nat, f: real, u: Vec, v: Vec, x: Vec)
    requires forall i :: 0 <= i < n ==> v(i) == f * u(i)
    ensures Dot(n, v, x) == f * Dot(n, u, x)
  {
    if n > 0 {
      ScaledDotLeft(n - 1, f, u, v, x);
      var a, b, c := Dot(n - 1, u, x), u(n - 1), x(n - 1);
      assert f * (a + b * c) == f * a + (f * b) * c;
    }
  }

  /** The squares of the projections total (n - 1) * Q. */
  lemma ProjectionLength(h: History, p: nat, k: Mat, t: int)
    requires |h| >= 2 && IsInverse(p, k, Cov(h)) && 0 <= t < |h|
    ensures Dot(|h|, Projections(h, p, k, t), Projections(h, p, k, t)) ==
      (|h| - 1) as real * OwnStress(h, p, k)(t)
  {
    hide Scatter, Cov, Dot, IsInverse;
    var d, y := Row(Centered(h), t), Direction(h, p, k, t);
    var s := MatVec(p, Scatter(h), y);
    ScatterQuadratic(h, p, y);
    DotComm(p, y, s);
    forall i | 0 <= i < p ensures s(i) == (|h| - 1) as real * d(i) {
      DirectionScatter(h, p, k, t, i);
    }
    ScaledDotLeft(p, (|h| - 1) as real, d, s, y);
    OwnProjection(h, p, k, t);
  }

  /** A vector of sum zero cannot have too much of its length in one entry. */
  lemma OneEntryOfZeroSum(n: nat, z: Vec, t: int)
    requires n >= 2 && 0 <= t < n && Sum(n, z) == 0.0
    ensures n as real * (z(t) * z(t)) <= (n - 1) as real * Dot(n, z, z)
  {
    var m := (n - 1) as real;
    var c := z(t) / m;
    QuotientTimes(z(t), m);
    ShiftAndDrop(n, z, t, c, (z(t) + c) * (z(t) + c), n as real * (c * c));
    ZeroSumAlgebra(m, n as real, c, z(t), Dot(n, z, z));
  }

  /** Adding c to every entry of z and dropping entry t leaves a squared length. */
  lemma ShiftAndDrop(n: nat, z: Vec, t: int, c: real, s: real, ncc: real)
    requires 0 <= t < n && Sum(n, z) == 0.0
    requires s == (z(t) + c) * (z(t) + c) && ncc == n as real * (c * c)
    ensures Dot(n, z, z) + ncc - s >= 0.0
    ensures Dot(n, z, z) + ncc - s == 0.0 ==> forall i :: 0 <= i < n && i != t ==> z(i) == -c
  {
    var v: Vec := i => z(i) + c;
    var u: Vec := i => if i == t then 0.0 else v(i);
    CrossTerms(n, z, z, -c, -c, v, v);
    NegatedFactors(n as real, c);
    DropTerm(n, v, u, t, s);
    SelfDotPositive(n, u);
  }

  lemma DropTerm(n: nat, v: Vec, u: Vec, t: int, s: real)
    requires 0 <= t < n && s == v(t) * v(t) && u(t) == 0.0
    requires forall i :: 0 <= i < n && i != t ==> u(i) == v(i)
    ensures Dot(n, u, u) == Dot(n, v, v) - s
  {
    forall i | 0 <= i < n && i != t ensures Terms(u, u)(i) == Terms(v, v)(i) {
    }
    DotTwoTerms(n, v, v, u, u, t, -1);
    assert Terms(u, u)(t) == 0.0 && Terms(v, v)(t) == s;
  }

  lemma NegatedFactors(n: real, c: real)
    ensures n * (-c) * (-c) == n * (c * c)
  {
  }

  lemma ZeroSumAlgebra(m: real, n: real, c: real, q: real, zz: real)
    requires m >= 1.0 && m * c == q && n == m + 1.0
    requires zz + n * (c * c) - (q + c) * (q + c) >= 0.0
    ensures n * (q * q) <= m * zz
  {
    assert (q + c) * (q + c) == n * n * (c * c);
    assert zz >= m * n * (c * c);
    assert m * zz >= m * (m * n * (c * c));
    assert q * q == m * m * (c * c);
  }

  /** The score of a reading that the baseline already contains is bounded by the
      number of readings alone: 0 <= D^2 <= (n - 1)^2 / n. */
  lemma OwnStressBounded(h: History, p: nat, k: Mat, t: int)
    requires |h| >= 2 && IsInverse(p, k, Cov(h)) && 0 <= t < |h|
    ensures 0.0 <= OwnStress(h, p, k)(t)
    ensures |h| as real * OwnStress(h, p, k)(t) <= (|h| - 1) as real * (|h| - 1) as real
  {
    var n := |h|;
    var z := Projections(h, p, k, t);
    MeanAlong(h, p, Direction(h, p, k, t));
    OwnProjection(h, p, k, t);
    ProjectionLength(h, p, k, t);
    SelfDotPositive(n, z);
    OneEntryOfZeroSum(n, z, t);
    BoundAlgebra(n as real, (n - 1) as real, z(t), Dot(n, z, z));
  }

  lemma BoundAlgebra(n: real, m: real, q: real, zz: real)
    requires n >= 2.0 && m >= 1.0 && zz >= 0.0 && zz == m * q
    requires n * (q * q) <= m * zz
    ensures 0.0 <= q && n * q <= m * m
  {
  }

  // ------------------------------------------------- conservation

  /** The inner products of corresponding rows. */
  function RowDots(p: nat, a: Mat, b: Mat): Vec {
    t => Dot(p, Row(a, t), Row(b, t))
  }

  /** The inner products of corresponding columns. */
  function ColDots(n: nat, a: Mat, b: Mat): Vec {
    i => Dot(n, Col(a, i), Col(b, i))
  }

  lemma {:induction false} RowsOrColumns(n: nat, p: nat, a: Mat, b: Mat)
    ensures Sum(n, RowDots(p, a, b)) == Sum(p, ColDots(n, a, b))
  {
    if n == 0 {
      SumCong(p, ColDots(0, a, b), Constant(0.0));
      SumConstant(p, 0.0);
    } else {
      RowsOrColumns(n - 1, p, a, b);
      var last: Vec := i => a(n - 1, i) * b(n - 1, i);
      DotAsSum(p, Row(a, n - 1), Row(b, n - 1), last);
      SumLinear(p, 1.0, ColDots(n - 1, a, b), 1.0, last, ColDots(n, a, b));
    }
  }

  /** Row t of Centered * K. */
  function Weighted(h: History, p: nat, k: Mat): Mat {
    (t, i) => VecMat(p, Row(Centered(h), t), k)(i)
  }

  lemma WeightedColumn(h: History, p: nat, k: Mat, i: int)
    requires |h| >= 2 && IsInverse(p, k, Cov(h)) && 0 <= i < p
    ensures ColDots(|h|, Weighted(h, p, k), Centered(h))(i) == (|h| - 1) as real
  {
    var n, x := |h|, Centered(h);
    var w, v := Col(Weighted(h, p, k), i), MatVec(p, x, Col(k, i));
    forall t | 0 <= t < n ensures w(t) == v(t) {
      assert w(t) == Weighted(h, p, k)(t, i);
      assert Weighted(h, p, k)(t, i) == VecMat(p, Row(x, t), k)(i);
      assert v(t) == Dot(p, Row(x, t), Col(k, i));
    }
    DotCong(n, w, Col(x, i), v, Col(x, i));
    DotComm(n, MatVec(p, x, Col(k, i)), Col(x, i));
    ScatterTimes(h, p, Col(k, i), i);
    CovTimes(h, p, Col(k, i), i);
    assert MatVec(p, Cov(h), Col(k, i))(i) == Delta(i, i);
  }

  /** Conservation: over the readings a baseline was learned from, the squared
      stresses always total p * (n - 1). */
  lemma StressConserved(h: History, p: nat, k: Mat)
    requires |h| >= 2 && IsInverse(p, k, Cov(h))
    ensures Sum(|h|, OwnStress(h, p, k)) == p as real * (|h| - 1) as real
  {
    var n, w, x := |h|, Weighted(h, p, k), Centered(h);
    forall t | 0 <= t < n ensures OwnStress(h, p, k)(t) == RowDots(p, w, x)(t) {
      DotCong(p, VecMat(p, Row(x, t), k), Row(x, t), Row(w, t), Row(x, t));
    }
    SumCong(n, OwnStress(h, p, k), RowDots(p, w, x));
    RowsOrColumns(n, p, w, x);
    forall i | 0 <= i < p ensures ColDots(n, w, x)(i) == (n - 1) as real {
      WeightedColumn(h, p, k, i);
    }
    SumCong(p, ColDots(n, w, x), Constant((n - 1) as real));
    SumConstant(p, (n - 1) as real);
  }

  lemma {:induction false} ScaledSumAtMost(m: nat, u: Vec, f: real, c: real)
    requires forall i :: 0 <= i < m ==> f * u(i) <= c
    ensures f * Sum(m, u) <= m as real * c
  {
    if m > 0 {
      ScaledSumAtMost(m - 1, u, f, c);
      assert f * Sum(m, u) == f * Sum(m - 1, u) + f * u(m - 1);
      assert m as real * c == (m - 1) as real * c + c by {
        assert m as real == (m - 1) as real + 1.0;
      }
    }
  }

  /** A covariance over p probes can be inverted only after p + 1 readings. */
  lemma InversionNeedsReadings(h: History, p: nat, k: Mat)
    requires |h| >= 2 && IsInverse(p, k, Cov(h))
    ensures |h| >= p + 1
  {
    hide OwnStress, IsInverse, Cov, Sum;
    var n := |h|;
    var m := (n - 1) as real;
    var bound := m * m;
    StressConserved(h, p, k);
    OwnStressesWithin(h, p, k, bound);
    ScaledSumAtMost(n, OwnStress(h, p, k), n as real, bound);
    CancelCounts(n as real, m, p as real, Sum(n, OwnStress(h, p, k)), bound);
  }

  lemma CancelCounts(n: real, m: real, p: real, total: real, bound: real)
    requires n > 0.0 && m > 0.0 && total == p * m && bound == m * m
    requires n * total <= n * bound
    ensures p <= m
  {
    CancelFactor(n, total, bound);
    CancelFactor(m, p, m);
  }

  lemma OwnStressesWithin(h: History, p: nat, k: Mat, bound: real)
    requires |h| >= 2 && IsInverse(p, k, Cov(h)) && bound == (|h| - 1) as real * (|h| - 1) as real
    ensures forall t :: 0 <= t < |h| ==> |h| as real * OwnStress(h, p, k)(t) <= bound
  {
    forall t | 0 <= t < |h| ensures |h| as real * OwnStress(h, p, k)(t) <= bound {
      OwnStressBounded(h, p, k, t);
    }
  }

  lemma CancelFactor(c: real, x: real, y: real)
    requires c > 0.0 && c * x <= c * y
    ensures x <= y
  {
  }

  // ------------------------------------------------- the bound is attained

  /** n - 1 readings of a single idle probe and then one reading of 1. */
  function Spike(n: nat): History
    requires n >= 1
  {
    Idle(n - 1) + [[1.0]]
  }

  function Idle(n: nat): History {
    seq(n, _ => [0.0])
  }

  lemma {:induction false} IdleSums(n: nat, m: nat)
    requires m <= n
    ensures Sum(m, Col(Data(Idle(n)), 0)) == 0.0
    ensures Dot(m, Col(Data(Idle(n)), 0), Col(Data(Idle(n)), 0)) == 0.0
  {
    if m > 0 {
      IdleSums(n, m - 1);
    }
  }

  /** The spike's mean m has n * m = 1, and its scatter is d = 1 - m. */
  lemma SpikeStatistics(n: nat) returns (m: real, d: real)
    requires n >= 2
    ensures m == Mean(Spike(n))(0) && n as real * m == 1.0
    ensures d == 1.0 - m && Scatter(Spike(n))(0, 0) == d && d > 0.0
  {
    var g := Idle(n - 1);
    IdleSums(n - 1, n - 1);
    MeanTimesCount(g, 0);
    ZeroProduct((n - 1) as real, Mean(g)(0));
    ScatterClosedForm(g, 0, 0);
    MeanAppend(g, [1.0], 0);
    m := Mean(Spike(n))(0);
    d := 1.0 - m;
    ScatterAppend(g, [1.0], 0, 0, 1.0, d);
    assert n as real >= 2.0;
    SmallMean(n as real, m);
  }

  lemma SmallMean(n: real, m: real)
    requires n >= 2.0 && n * m == 1.0
    ensures m < 1.0
  {
  }

  lemma ZeroProduct(a: real, x: real)
    requires a != 0.0
    ensures a * x == 0.0 <==> x == 0.0
  {
  }

  /** The bound on the own score is exact for every count: the spike attains it. */
  lemma BoundIsAttained(n: nat) returns (k: Mat)
    requires n >= 2
    ensures |Spike(n)| == n && IsInverse(1, k, Cov(Spike(n)))
    ensures n as real * OwnStress(Spike(n), 1, k)(n - 1) == (n - 1) as real * (n - 1) as real
  {
    var h := Spike(n);
    var m, d := SpikeStatistics(n);
    var c := Cov(h)(0, 0);
    var f := (n - 1) as real;
    QuotientTimes(d, f);
    assert f * c == d;
    PositiveFactor(f, c, d);
    var q := 1.0 / c;
    QuotientTimes(1.0, c);
    k := (i, j) => q;
    ScalarInverse(q, c, k, Cov(h));
    var x := Row(Centered(h), n - 1);
    assert x(0) == d;
    ScalarStress(q, d, k, x);
    SpikeAlgebra(n as real, f, m, d, c, q, Stress2(1, k, x));
  }

  lemma PositiveFactor(f: real, c: real, d: real)
    requires f > 0.0 && d > 0.0 && f * c == d
    ensures c > 0.0
  {
  }

  lemma ScalarInverse(q: real, c: real, k: Mat, m: Mat)
    requires c * q == 1.0 && k(0, 0) == q && m(0, 0) == c
    ensures IsInverse(1, k, m)
  {
    forall i, j | 0 <= i < 1 && 0 <= j < 1
      ensures Dot(1, Row(k, i), Col(m, j)) == Delta(i, j) && Dot(1, Row(m, i), Col(k, j)) == Delta(i, j)
    {
      assert Dot(1, Row(k, 0), Col(m, 0)) == Dot(0, Row(k, 0), Col(m, 0)) + q * c;
      assert Dot(1, Row(m, 0), Col(k, 0)) == Dot(0, Row(m, 0), Col(k, 0)) + c * q;
    }
  }

  lemma ScalarStress(q: real, d: real, k: Mat, x: Vec)
    requires k(0, 0) == q && x(0) == d
    ensures Stress2(1, k, x) == (d * q) * d
  {
    assert VecMat(1, x, k)(0) == Dot(0, x, Col(k, 0)) + d * q;
  }

  lemma SpikeAlgebra(n: real, f: real, m: real, d: real, c: real, q: real, s: real)
    requires n * m == 1.0 && d == 1.0 - m && f == n - 1.0 && f * c == d && c * q == 1.0 && s == (d * q) * d
    ensures n * s == f * f
  {
    assert d * q == f * (c * q);
    assert n * d == f;
  }
}
