/** The choice of units for the probes changes neither scores nor invertibility. */
module Units {
  import opened Vectors
  import opened Inverses
  import opened Samples
  import opened Mahalanobis

  /** Every probe j measured as scale(j) * x + shift(j) instead of x. */
  function Rescale(h: History, p: nat, scale: Vec, shift: Vec): History {
    seq(|h|, t requires 0 <= t < |h| => RescaleReading(h[t], p, scale, shift))
  }

  function RescaleReading(x: Reading, p: nat, scale: Vec, shift: Vec): Reading {
    seq(p, j => scale(j) * Component(x, j) + shift(j))
  }

  lemma RescaledEntry(h: History, p: nat, scale: Vec, shift: Vec, t: int, j: int)
    requires 0 <= t < |h| && 0 <= j < p
    ensures Data(Rescale(h, p, scale, shift))(t, j) == scale(j) * Data(h)(t, j) + shift(j)
  {
  }

  lemma {:induction false} AffineSum(n: nat, a: real, u: Vec, b: real, w: Vec)
    requires forall t :: 0 <= t < n ==> w(t) == a * u(t) + b
    ensures Sum(n, w) == a * Sum(n, u) + b * n as real
  {
    if n > 0 {
      AffineSum(n - 1, a, u, b, w);
      assert n as real == (n - 1) as real + 1.0;
    }
  }

  lemma MeanOfAffine(h: History, g: History, a: real, b: real, j: int)
    requires |g| == |h| > 0
    requires forall t :: 0 <= t < |h| ==> Data(g)(t, j) == a * Data(h)(t, j) + b
    ensures Mean(g)(j) == a * Mean(h)(j) + b
  {
    hide Mean, Data, Sum;
    var n := |h|;
    AffineSum(n, a, Col(Data(h), j), b, Col(Data(g), j));
    MeanTimesCount(g, j);
    MeanTimesCount(h, j);
    AffineMean(n as real, a, b, Mean(g)(j), Mean(h)(j), Sum(n, Col(Data(h), j)));
  }

  lemma RescaledMean(h: History, p: nat, scale: Vec, shift: Vec, j: int)
    requires |h| > 0 && 0 <= j < p
    ensures Mean(Rescale(h, p, scale, shift))(j) == scale(j) * Mean(h)(j) + shift(j)
  {
    var g := Rescale(h, p, scale, shift);
    forall t | 0 <= t < |h| ensures Data(g)(t, j) == scale(j) * Data(h)(t, j) + shift(j) {
      RescaledEntry(h, p, scale, shift, t, j);
    }
    MeanOfAffine(h, g, scale(j), shift(j), j);
  }

  lemma AffineMean(n: real, a: real, b: real, mg: real, mh: real, sum: real)
    requires n > 0.0 && n * mh == sum && n * mg == a * sum + b * n
    ensures mg == a * mh + b
  {
    assert n * (a * mh + b) == a * (n * mh) + b * n;
    SameFactor(n, mg, a * mh + b);
  }

  lemma RescaledCentered(h: History, p: nat, scale: Vec, shift: Vec, t: int, j: int)
    requires 0 <= t < |h| && 0 <= j < p
    ensures Centered(Rescale(h, p, scale, shift))(t, j) == scale(j) * Centered(h)(t, j)
  {
    RescaledMean(h, p, scale, shift, j);
    RescaledEntry(h, p, scale, shift, t, j);
  }

  lemma RescaledCov(h: History, p: nat, scale: Vec, shift: Vec, i: int, j: int)
    requires |h| >= 2 && 0 <= i < p && 0 <= j < p
    ensures Cov(Rescale(h, p, scale, shift))(i, j) == scale(i) * (scale(j) * Cov(h)(i, j))
  {
    var g, n := Rescale(h, p, scale, shift), |h|;
    var xi, xj, yi, yj := Col(Centered(h), i), Col(Centered(h), j), Col(Centered(g), i), Col(Centered(g), j);
    forall t | 0 <= t < n ensures yi(t) == scale(i) * xi(t) && yj(t) == scale(j) * xj(t) {
      RescaledCentered(h, p, scale, shift, t, i);
      RescaledCentered(h, p, scale, shift, t, j);
    }
    ScaledPair(n, scale(i), xi, yi, scale(j), xj, yj);
    var sg, sh := Scatter(g)(i, j), Scatter(h)(i, j);
    assert Cov(g)(i, j) == sg / (n - 1) as real && Cov(h)(i, j) == sh / (n - 1) as real;
    ScaleQuotient(scale(i), scale(j), sh, sg, (n - 1) as real);
  }

  lemma ScaledPair(n: nat, a: real, u: Vec, u': Vec, b: real, v: Vec, v': Vec)
    requires forall t :: 0 <= t < n ==> u'(t) == a * u(t) && v'(t) == b * v(t)
    ensures Dot(n, u', v') == a * (b * Dot(n, u, v))
  {
    ScaledDotLeft(n, a, u, u', v');
    DotComm(n, u, v');
    ScaledDotLeft(n, b, v, v', u);
    DotComm(n, v, u);
  }

  lemma ScaleQuotient(a: real, b: real, s: real, s': real, d: real)
    requires d != 0.0 && s' == a * (b * s)
    ensures s' / d == a * (b * (s / d))
  {
    var q := s / d;
    assert d * (a * (b * q)) == a * (b * (d * q));
    QuotientTimes(s', d);
    SameFactor(d, s' / d, a * (b * q));
  }

  /** The inverse covariance, converted back from the rescaled units. */
  function Unscaled(k: Mat, scale: Vec): Mat {
    (i, j) => scale(i) * (scale(j) * k(i, j))
  }

  lemma UnscaledInverts(h: History, p: nat, scale: Vec, shift: Vec, k: Mat)
    requires |h| >= 2 && IsInverse(p, k, Cov(Rescale(h, p, scale, shift)))
    requires forall j :: 0 <= j < p ==> scale(j) != 0.0
    ensures LeftInverse(p, Unscaled(k, scale), Cov(h))
  {
    hide Cov, Dot;
    var c, c' := Cov(h), Cov(Rescale(h, p, scale, shift));
    var u := Unscaled(k, scale);
    forall i, j | 0 <= i < p && 0 <= j < p ensures Dot(p, Row(u, i), Col(c, j)) == Delta(i, j) {
      // scale(j) * (u * c)(i, j) == scale(i) * (k * c')(i, j), term by term
      var lhs: Vec := l => scale(j) * (u(i, l) * c(l, j));
      forall l | 0 <= l < p ensures lhs(l) == scale(i) * (k(i, l) * c'(l, j)) {
        RescaledCov(h, p, scale, shift, l, j);
        MoveScales(scale(i), scale(j), scale(l), k(i, l), c(l, j));
      }
      ScaledDot(p, scale(j), Row(u, i), Col(c, j), lhs);
      ScaledDot(p, scale(i), Row(k, i), Col(c', j), lhs);
      CancelDelta(scale(i), scale(j), Dot(p, Row(u, i), Col(c, j)), i, j);
    }
  }

  lemma CancelDelta(si: real, sj: real, x: real, i: int, j: int)
    requires sj != 0.0 && sj * x == si * Delta(i, j) && (i == j ==> si == sj)
    ensures x == Delta(i, j)
  {
    SameFactor(sj, x, Delta(i, j));
  }

  lemma MoveScales(si: real, sj: real, sl: real, k: real, c: real)
    ensures sj * ((si * (sl * k)) * c) == si * (k * (sl * (sj * c)))
  {
  }

  lemma {:induction false} ScaledDot(n: nat, f: real, u: Vec, v: Vec, w: Vec)
    requires forall i :: 0 <= i < n ==> w(i) == f * (u(i) * v(i))
    ensures Sum(n, w) == f * Dot(n, u, v)
  {
    if n > 0 {
      ScaledDot(n - 1, f, u, v, w);
      assert f * Dot(n, u, v) == f * Dot(n - 1, u, v) + f * (u(n - 1) * v(n - 1));
    }
  }

  /** The score of a reading does not depend on the units of the probes. */
  lemma StressIgnoresUnits(h: History, p: nat, scale: Vec, shift: Vec, k: Mat, k': Mat, t: int)
    requires |h| >= 2 && 0 <= t < |h|
    requires forall j :: 0 <= j < p ==> scale(j) != 0.0
    requires IsInverse(p, k, Cov(h)) && IsInverse(p, k', Cov(Rescale(h, p, scale, shift)))
    ensures OwnStress(Rescale(h, p, scale, shift), p, k')(t) == OwnStress(h, p, k)(t)
  {
    var d, d' := Row(Centered(h), t), Row(Centered(Rescale(h, p, scale, shift)), t);
    UnscaledInverts(h, p, scale, shift, k');
    InverseIsUnique(p, Unscaled(k', scale), k, Cov(h));
    forall j | 0 <= j < p ensures d'(j) == scale(j) * d(j) {
      RescaledCentered(h, p, scale, shift, t, j);
    }
    RescaledStress(p, scale, k, k', d, d');
  }

  lemma RescaledStress(p: nat, scale: Vec, k: Mat, k': Mat, d: Vec, d': Vec)
    requires SameMat(p, p, Unscaled(k', scale), k)
    requires forall j :: 0 <= j < p ==> d'(j) == scale(j) * d(j)
    ensures Stress2(p, k', d') == Stress2(p, k, d)
  {
    hide VecMat, SameMat, Unscaled, Dot;
    var v, v' := VecMat(p, d, k), VecMat(p, d', k');
    var w: Vec := j => v(j) * d(j);
    DotAsSum(p, v, d, w);
    forall j | 0 <= j < p ensures w(j) == 1.0 * (v'(j) * d'(j)) {
      RescaledWeight(p, scale, k, k', d, d', j);
      ScaleAcross(scale(j), v'(j), d(j));
    }
    ScaledDot(p, 1.0, v', d', w);
  }

  lemma RescaledWeight(p: nat, scale: Vec, k: Mat, k': Mat, d: Vec, d': Vec, j: int)
    requires SameMat(p, p, Unscaled(k', scale), k) && 0 <= j < p
    requires forall j :: 0 <= j < p ==> d'(j) == scale(j) * d(j)
    ensures VecMat(p, d, k)(j) == scale(j) * VecMat(p, d', k')(j)
  {
    hide Dot;
    var w: Vec := i => d(i) * k(i, j);
    DotAsSum(p, d, Col(k, j), w);
    forall i | 0 <= i < p ensures w(i) == scale(j) * (d'(i) * k'(i, j)) {
      assert k(i, j) == Unscaled(k', scale)(i, j);
      ScaleOutOfRow(d(i), scale(i), scale(j), k'(i, j));
    }
    ScaledDot(p, scale(j), d', Col(k', j), w);
  }

  lemma ScaleAcross(s: real, v: real, d: real)
    ensures (s * v) * d == v * (s * d)
  {
  }

  lemma ScaleOutOfRow(d: real, si: real, sj: real, k: real)
    ensures d * (si * (sj * k)) == sj * ((si * d) * k)
  {
  }

  /** Nor does it depend on them whether the covariance can be inverted. */
  lemma SingularityIgnoresUnits(h: History, p: nat, scale: Vec, shift: Vec)
    requires |h| >= 2
    requires forall j :: 0 <= j < p ==> scale(j) != 0.0
    ensures Singular(p, Cov(Rescale(h, p, scale, shift))) <==> Singular(p, Cov(h))
  {
    var c, c' := Cov(h), Cov(Rescale(h, p, scale, shift));
    if Singular(p, c') {
      var v :| InKernel(p, c', v);
      var w: Vec := j => scale(j) * v(j);
      RescaledKernel(h, p, scale, shift, v, w);
    }
    if Singular(p, c) {
      var w :| InKernel(p, c, w);
      var v: Vec := j => if scale(j) == 0.0 then 0.0 else w(j) / scale(j);
      forall j | 0 <= j < p ensures w(j) == scale(j) * v(j) {
        QuotientTimes(w(j), scale(j));
      }
      RescaledKernel(h, p, scale, shift, v, w);
    }
  }

  lemma RescaledProduct(h: History, p: nat, scale: Vec, shift: Vec, v: Vec, w: Vec, i: int)
    requires |h| >= 2 && 0 <= i < p
    requires forall j :: 0 <= j < p ==> w(j) == scale(j) * v(j)
    ensures MatVec(p, Cov(Rescale(h, p, scale, shift)), v)(i) == scale(i) * MatVec(p, Cov(h), w)(i)
  {
    forall j | 0 <= j < p
      ensures Cov(Rescale(h, p, scale, shift))(i, j) == scale(i) * (scale(j) * Cov(h)(i, j))
    {
      RescaledCov(h, p, scale, shift, i, j);
    }
    ScaledRow(p, Row(Cov(h), i), Row(Cov(Rescale(h, p, scale, shift)), i), scale(i), scale, v, w);
  }

  lemma ScaledRow(p: nat, row: Vec, row': Vec, s: real, scale: Vec, v: Vec, w: Vec)
    requires forall j :: 0 <= j < p ==> w(j) == scale(j) * v(j) && row'(j) == s * (scale(j) * row(j))
    ensures Dot(p, row', v) == s * Dot(p, row, w)
  {
    var terms: Vec := j => row'(j) * v(j);
    DotAsSum(p, row', v, terms);
    forall j | 0 <= j < p ensures terms(j) == s * (row(j) * w(j)) {
      ScaleIntoVector(s, scale(j), row(j), v(j));
    }
    ScaledDot(p, s, row, w, terms);
  }

  lemma ScaleIntoVector(si: real, sj: real, c: real, v: real)
    ensures (si * (sj * c)) * v == si * (c * (sj * v))
  {
  }

  lemma RescaledKernel(h: History, p: nat, scale: Vec, shift: Vec, v: Vec, w: Vec)
    requires |h| >= 2
    requires forall j :: 0 <= j < p ==> scale(j) != 0.0 && w(j) == scale(j) * v(j)
    ensures InKernel(p, Cov(Rescale(h, p, scale, shift)), v) <==> InKernel(p, Cov(h), w)
  {
    var c, c' := Cov(h), Cov(Rescale(h, p, scale, shift));
    forall j | 0 <= j < p ensures w(j) == 0.0 <==> v(j) == 0.0 {
      ZeroProduct(scale(j), v(j));
    }
    assert NonZero(p, v) <==> NonZero(p, w);
    forall i | 0 <= i < p ensures MatVec(p, c', v)(i) == 0.0 <==> MatVec(p, c, w)(i) == 0.0 {
      RescaledProduct(h, p, scale, shift, v, w, i);
      ZeroProduct(scale(i), MatVec(p, c, w)(i));
    }
  }
}
