/** When the bound on the score is reached, by any number of probes. */
module Sharpness {
  import opened Vectors
  import opened Inverses
  import opened Samples
  import opened Mahalanobis

  /** Equality for a vector of sum zero: all other entries are the same. */
  lemma OneEntryExtreme(n: nat, z: Vec, t: int, c: real)
    requires n >= 2 && 0 <= t < n && Sum(n, z) == 0.0 && (n - 1) as real * c == z(t)
    requires n as real * (z(t) * z(t)) == (n - 1) as real * Dot(n, z, z)
    ensures forall i :: 0 <= i < n && i != t ==> z(i) == -c
  {
    ShiftAndDrop(n, z, t, c, (z(t) + c) * (z(t) + c), n as real * (c * c));
    ExtremeAlgebra((n - 1) as real, n as real, c, z(t), Dot(n, z, z));
  }

  lemma ExtremeAlgebra(m: real, n: real, c: real, q: real, zz: real)
    requires m >= 1.0 && m * c == q && n == m + 1.0 && n * (q * q) == m * zz
    ensures zz + n * (c * c) - (q + c) * (q + c) == 0.0
  {
    assert (q + c) * (q + c) == n * n * (c * c);
    assert q * q == m * m * (c * c);
    assert m * (m * n * (c * c)) == m * zz;
    SameFactor(m, m * n * (c * c), zz);
    assert m * n * (c * c) + n * (c * c) == n * n * (c * c);
  }

  /** At the bound the direction of the newest deviation does not vary on the readings before. */
  lemma ExtremeIsSingular(h: History, x: Reading, p: nat, k: Mat)
    requires |h| >= 2 && IsInverse(p, k, Cov(h + [x]))
    requires (|h| + 1) as real * OwnStress(h + [x], p, k)(|h|) == |h| as real * |h| as real
    ensures Singular(p, Cov(h))
  {
    hide Cov, IsInverse, Centered, OwnStress, Dot, Sum;
    var g, n, m := h + [x], |h| + 1, |h| as real;
    var y, z := Direction(g, p, k, n - 1), Projections(g, p, k, n - 1);
    var q := OwnStress(g, p, k)(n - 1);
    OwnProjection(g, p, k, n - 1);
    ProjectionLength(g, p, k, n - 1);
    MeanAlong(g, p, y);
    ExtremeSquares(n as real, m, q, Dot(n, z, z));
    var c := q / m;
    QuotientTimes(q, m);
    OneEntryExtreme(n, z, n - 1, c);
    forall t | 0 <= t < |h| ensures MatVec(p, Data(h), y)(t) == Dot(p, Mean(g), y) - c {
      CenteredTimes(g, p, y, t);
      DotCong(p, Row(Data(h), t), y, Row(Data(g), t), y);
    }
    assert TakesValue(h, p, y, Dot(p, Mean(g), y) - c);
    if !NonZero(p, y) {
      ZeroDot(p, y, Row(Centered(g), n - 1));
      DotComm(p, y, Row(Centered(g), n - 1));
      assert false;
    }
    SingularIffDependent(h, p);
  }

  lemma ExtremeSquares(n: real, m: real, q: real, zz: real)
    requires n > 0.0 && m >= 1.0 && n * q == m * m && zz == m * q
    ensures n * (q * q) == m * zz && q != 0.0
  {
    assert n * (q * q) == (n * q) * q;
    assert m * zz == (m * m) * q;
    if q == 0.0 {
      assert n * q == 0.0;
      SquareSign(m, m * m);
    }
  }

  /** a everywhere, except that the last entry is a - n * a. */
  lemma DotSpiked(n: nat, u: Vec, w: Vec, a: real, last: real)
    requires n >= 1 && (forall t :: 0 <= t < n - 1 ==> w(t) == a) && w(n - 1) == a + last
    ensures Dot(n, u, w) == a * Sum(n, u) + last * u(n - 1)
  {
    hide Dot, Sum;
    var b: Vec := t => if t == n - 1 then last else 0.0;
    DotComm(n, u, w);
    DotLinear(n, a, Constant(1.0), 1.0, b, w, u);
    DotAsSum(n, Constant(1.0), u, u);
    ZeroDot(n - 1, b, u);
    LastTerm(n, b, u);
  }

  lemma LastTerm(n: nat, u: Vec, v: Vec)
    requires n >= 1
    ensures Dot(n, u, v) == Dot(n - 1, u, v) + u(n - 1) * v(n - 1)
  {
  }

  /** Along a direction that only the newest reading leaves, all older readings lie at one
      distance a from the mean, and the newest at -(n - 1) * a. */
  lemma OnlyNewestLeaves(h: History, x: Reading, p: nat, v: Vec, c: real) returns (a: real)
    requires |h| >= 2 && TakesValue(h, p, v, c) && NonZero(p, v) && !Singular(p, Cov(h + [x]))
    ensures a != 0.0
    ensures forall t :: 0 <= t < |h| ==> MatVec(p, Centered(h + [x]), v)(t) == a
    ensures MatVec(p, Centered(h + [x]), v)(|h|) == -(|h| as real * a)
  {
    hide Cov, Centered, Dot, Singular;
    var g, w := h + [x], MatVec(p, Centered(h + [x]), v);
    a := c - Dot(p, Mean(g), v);
    forall t | 0 <= t < |h| ensures w(t) == a {
      CenteredTimes(g, p, v, t);
      DotCong(p, Row(Data(h), t), v, Row(Data(g), t), v);
      assert MatVec(p, Data(h), v)(t) == c;
    }
    MeanAlong(g, p, v);
    SumCong(|h|, w, Constant(a));
    SumConstant(|h|, a);
    assert Sum(|h| + 1, w) == Sum(|h|, w) + w(|h|);
    if a == 0.0 {
      assert |h| as real * a == 0.0;
      forall t | 0 <= t < |g| ensures MatVec(p, Data(g), v)(t) == Dot(p, Mean(g), v) {
        CenteredTimes(g, p, v, t);
      }
      assert TakesValue(g, p, v, Dot(p, Mean(g), v));
      SingularIffDependent(g, p);
      assert false;
    }
  }

  /** If the readings before did not span, the newest one is at the bound. */
  lemma SingularIsExtreme(h: History, x: Reading, p: nat, k: Mat)
    requires |h| >= 2 && IsInverse(p, k, Cov(h + [x])) && Singular(p, Cov(h))
    ensures (|h| + 1) as real * OwnStress(h + [x], p, k)(|h|) == |h| as real * |h| as real
  {
    hide Cov, Centered, Dot, Singular, IsInverse, OwnStress, Scatter;
    var g, n, m := h + [x], |h| + 1, |h| as real;
    InvertibleIsNotSingular(p, k, Cov(g));
    SingularIffDependent(h, p);
    var v :| NonZero(p, v) && ConstantOn(h, p, v);
    var c :| TakesValue(h, p, v, c);
    var a := OnlyNewestLeaves(h, x, p, v, c);
    var w, d, y := MatVec(p, Centered(g), v), Row(Centered(g), n - 1), Direction(g, p, k, n - 1);
    var last := -(n as real * a);
    assert -(m * a) == a + last;
    var f := last / m;
    QuotientTimes(last, m);
    forall i | 0 <= i < p ensures v(i) == f * y(i) {
      KernelStep(g, p, k, v, w, a, last, f, i);
    }
    ScaledDotLeft(p, f, y, v, d);
    DotComm(p, d, v);
    DotComm(p, d, y);
    OwnProjection(g, p, k, n - 1);
    var q := OwnStress(g, p, k)(n - 1);
    assert w(n - 1) == Dot(p, d, v) && q == Dot(p, d, y);
    ExtremeQuotient(n as real, m, a, last, f, q);
  }

  lemma ExtremeQuotient(n: real, m: real, a: real, last: real, f: real, q: real)
    requires m >= 1.0 && a != 0.0 && n == m + 1.0
    requires last == -(n * a) && m * f == last && -(m * a) == f * q
    ensures n * q == m * m
  {
    assert m * (f * q) == (m * f) * q;
    assert -(m * (m * a)) == -(n * a) * q;
    assert a * (m * m) == a * (n * q);
    SameFactor(a, m * m, n * q);
  }

  /** Inverting Cov * v = f * d, component by component. */
  lemma KernelStep(g: History, p: nat, k: Mat, v: Vec, w: Vec, a: real, last: real, f: real, i: int)
    requires |g| >= 2 && IsInverse(p, k, Cov(g)) && 0 <= i < p
    requires forall t :: 0 <= t < |g| ==> w(t) == MatVec(p, Centered(g), v)(t)
    requires (forall t :: 0 <= t < |g| - 1 ==> w(t) == a) && w(|g| - 1) == a + last
    requires (|g| - 1) as real * f == last
    ensures v(i) == f * Direction(g, p, k, |g| - 1)(i)
  {
    hide Cov, Centered, Dot, Scatter, Sum;
    var n, d := |g|, Row(Centered(g), |g| - 1);
    var s := MatVec(p, Cov(g), v);
    forall j | 0 <= j < p ensures s(j) == f * d(j) {
      ScatterTimes(g, p, v, j);
      DotCong(n, Col(Centered(g), j), w, Col(Centered(g), j), MatVec(p, Centered(g), v));
      DotSpiked(n, Col(Centered(g), j), w, a, last);
      CenteredSumsToZero(g, j);
      CovTimes(g, p, v, j);
      SpikeFactor((n - 1) as real, f, last, d(j), s(j), a);
    }
    CancelLeft(p, k, Cov(g), v, i);
    DotComm(p, Row(k, i), s);
    DotComm(p, Row(k, i), d);
    ScaledDotLeft(p, f, d, s, Row(k, i));
  }

  lemma SpikeFactor(m: real, f: real, last: real, d: real, s: real, a: real)
    requires m > 0.0 && m * f == last && m * s == a * 0.0 + last * d
    ensures s == f * d
  {
    assert m * (f * d) == (m * f) * d;
    SameFactor(m, s, f * d);
  }

  /** The bound on the score of the newest reading is reached exactly when the readings
      before it did not yet determine an inverse: for any number of probes, the first reading
      that makes the covariance invertible scores (n - 1)^2 / n, and no later one does. */
  lemma BoundIffFirst(h: History, x: Reading, p: nat, k: Mat)
    requires |h| >= 2 && IsInverse(p, k, Cov(h + [x]))
    ensures (|h| + 1) as real * OwnStress(h + [x], p, k)(|h|) == |h| as real * |h| as real
      <==> Singular(p, Cov(h))
  {
    if Singular(p, Cov(h)) {
      SingularIsExtreme(h, x, p, k);
    } else if (|h| + 1) as real * OwnStress(h + [x], p, k)(|h|) == |h| as real * |h| as real {
      ExtremeIsSingular(h, x, p, k);
    }
  }
}
