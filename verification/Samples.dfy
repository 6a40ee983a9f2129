/** The batch statistics of a history of readings, and the laws they obey. */
module Samples {
  import opened Vectors
  import opened Inverses

  type Reading = seq<real>
  type History = seq<Reading>

  /** Component j of a reading. */
  function Component(x: Reading, j: int): real {
    if 0 <= j < |x| then x[j] else 0.0
  }

  /** One row per reading, one column per variable. */
  function Data(h: History): Mat {
    (t, j) => if 0 <= t < |h| then Component(h[t], j) else 0.0
  }

  /** The first n rows of a, p entries each, as a history. */
  function Readings(n: nat, p: nat, a: Mat): History {
    seq(n, t => seq(p, j => a(t, j)))
  }

  function Mean(h: History): Vec {
    j => if |h| == 0 then 0.0 else Sum(|h|, Col(Data(h), j)) / |h| as real
  }

  function Centered(h: History): Mat {
    (t, j) => Data(h)(t, j) - Mean(h)(j)
  }

  /** Sums of products of deviations from the mean: Centered^T * Centered. */
  function Scatter(h: History): Mat {
    (i, j) => Dot(|h|, Col(Centered(h), i), Col(Centered(h), j))
  }

  /** The sample covariance. */
  function Cov(h: History): Mat
    requires |h| >= 2
  {
    (i, j) => Scatter(h)(i, j) / (|h| - 1) as real
  }

  lemma ScatterSymmetric(h: History, i: int, j: int)
    ensures Scatter(h)(i, j) == Scatter(h)(j, i)
  {
    DotComm(|h|, Col(Centered(h), i), Col(Centered(h), j));
  }

  lemma QuotientTimes(x: real, d: real)
    requires d != 0.0
    ensures d * (x / d) == x
  {
  }

  lemma MeanTimesCount(h: History, j: int)
    ensures |h| as real * Mean(h)(j) == Sum(|h|, Col(Data(h), j))
  {
    if |h| > 0 {
      QuotientTimes(Sum(|h|, Col(Data(h), j)), |h| as real);
    }
  }

  lemma SumAppend(h: History, x: Reading, j: int)
    ensures Sum(|h| + 1, Col(Data(h + [x]), j)) == Sum(|h|, Col(Data(h), j)) + Component(x, j)
  {
    SumCong(|h|, Col(Data(h + [x]), j), Col(Data(h), j));
  }

  /** The mean moves towards a new reading by 1/n of the distance. */
  lemma MeanAppend(h: History, x: Reading, j: int)
    ensures (|h| + 1) as real * Mean(h + [x])(j) == |h| as real * Mean(h)(j) + Component(x, j)
    ensures Mean(h + [x])(j) == Mean(h)(j) + (Component(x, j) - Mean(h)(j)) / (|h| + 1) as real
  {
    MeanTimesCount(h, j);
    MeanTimesCount(h + [x], j);
    SumAppend(h, x, j);
    var n1 := (|h| + 1) as real;
    var delta := Component(x, j) - Mean(h)(j);
    QuotientTimes(delta, n1);
    assert n1 * Mean(h + [x])(j) == n1 * (Mean(h)(j) + delta / n1);
    SameFactor(n1, Mean(h + [x])(j), Mean(h)(j) + delta / n1);
  }

  lemma SameFactor(c: real, x: real, y: real)
    requires c != 0.0 && c * x == c * y
    ensures x == y
  {
  }

  lemma {:induction false} CrossTerms(n: nat, u: Vec, v: Vec, a: real, b: real, cu: Vec, cv: Vec)
    requires forall t :: 0 <= t < n ==> cu(t) == u(t) - a && cv(t) == v(t) - b
    ensures Dot(n, cu, cv) == Dot(n, u, v) - b * Sum(n, u) - a * Sum(n, v) + n as real * a * b
  {
    if n > 0 {
      CrossTerms(n - 1, u, v, a, b, cu, cv);
      var x, y := u(n - 1), v(n - 1);
      assert (x - a) * (y - b) == x * y - b * x - a * y + a * b;
      assert b * Sum(n, u) == b * Sum(n - 1, u) + b * x;
      assert a * Sum(n, v) == a * Sum(n - 1, v) + a * y;
      assert n as real * a * b == (n - 1) as real * a * b + a * b by {
        assert n as real == (n - 1) as real + 1.0;
      }
    }
  }

  lemma CrossClosedForm(n: nat, u: Vec, v: Vec, a: real, b: real, cu: Vec, cv: Vec)
    requires forall t :: 0 <= t < n ==> cu(t) == u(t) - a && cv(t) == v(t) - b
    requires n as real * a == Sum(n, u) && n as real * b == Sum(n, v)
    ensures Dot(n, cu, cv) == Dot(n, u, v) - n as real * a * b
  {
    CrossTerms(n, u, v, a, b, cu, cv);
    ClosedFormAlgebra(n as real, a, b, Sum(n, u), Sum(n, v));
  }

  lemma ClosedFormAlgebra(n: real, a: real, b: real, su: real, sv: real)
    requires n * a == su && n * b == sv
    ensures b * su == n * a * b && a * sv == n * a * b
  {
  }

  lemma ScatterClosedForm(h: History, i: int, j: int)
    ensures Scatter(h)(i, j) ==
      Dot(|h|, Col(Data(h), i), Col(Data(h), j)) - |h| as real * Mean(h)(i) * Mean(h)(j)
  {
    hide Mean, Data, Dot, Sum;
    MeanTimesCount(h, i);
    MeanTimesCount(h, j);
    CrossClosedForm(|h|, Col(Data(h), i), Col(Data(h), j), Mean(h)(i), Mean(h)(j),
      Col(Centered(h), i), Col(Centered(h), j));
  }

  lemma WelfordAlgebra(n: real, a: real, b: real, b': real, a': real, x: real, y: real)
    requires (n + 1.0) * a' == n * a + x
    requires (n + 1.0) * b' == n * b + y
    ensures x * y - (n + 1.0) * a' * b' == (x - a) * (y - b') - n * a * b
  {
    calc {
      x * y - (n + 1.0) * a' * b';
      x * y - (n * a + x) * b';
      x * y - n * a * b' - x * b';
      { assert a * ((n + 1.0) * b') == a * (n * b + y);
        assert a * ((n + 1.0) * b') == n * a * b' + a * b';
        assert a * (n * b + y) == n * a * b + a * y; }
      x * y - (n * a * b + a * y - a * b') - x * b';
      (x - a) * (y - b') - n * a * b;
    }
  }

  /** The identity behind the incremental update: appending a reading adds the
      product of its deviations d1 from the old and d2 from the new mean. */
  lemma ScatterAppend(h: History, x: Reading, i: int, j: int, d1: real, d2: real)
    requires d1 == Component(x, i) - Mean(h)(i)
    requires d2 == Component(x, j) - Mean(h + [x])(j)
    ensures Scatter(h + [x])(i, j) == Scatter(h)(i, j) + d1 * d2
  {
    var n := |h|;
    var h' := h + [x];
    ScatterClosedForm(h, i, j);
    ScatterClosedForm(h', i, j);
    DotCong(n, Col(Data(h'), i), Col(Data(h'), j), Col(Data(h), i), Col(Data(h), j));
    MeanAppend(h, x, i);
    MeanAppend(h, x, j);
    assert (n + 1) as real == n as real + 1.0;
    WelfordAlgebra(n as real, Mean(h)(i), Mean(h)(j), Mean(h')(j), Mean(h')(i), Component(x, i), Component(x, j));
  }

  lemma CenteredSumsToZero(h: History, j: int)
    ensures Sum(|h|, Col(Centered(h), j)) == 0.0
  {
    var n, m := |h|, Mean(h)(j);
    SumLinear(n, 1.0, Col(Data(h), j), -m, Constant(1.0), Col(Centered(h), j));
    SumConstant(n, 1.0);
    MeanTimesCount(h, j);
  }

  lemma {:induction false} SumConstant(n: nat, c: real)
    ensures Sum(n, Constant(c)) == n as real * c
  {
    if n > 0 {
      SumConstant(n - 1, c);
      assert n as real * c == (n - 1) as real * c + c by {
        assert n as real == (n - 1) as real + 1.0;
      }
    }
  }

  // ------------------------------------------------- order of the readings

  function Tally(h: History, f: Reading -> real): real {
    if |h| == 0 then 0.0 else Tally(h[..|h| - 1], f) + f(h[|h| - 1])
  }

  lemma {:induction false} TallyRemove(h: History, k: nat, f: Reading -> real)
    requires k < |h|
    ensures Tally(h, f) == Tally(h[..k] + h[k + 1..], f) + f(h[k])
  {
    var n := |h|;
    if k == n - 1 {
      assert h[..k] + h[k + 1..] == h[..n - 1];
    } else {
      var g := h[..n - 1];
      TallyRemove(g, k, f);
      var without := h[..k] + h[k + 1..];
      assert without[..n - 2] == g[..k] + g[k + 1..];
      assert without[n - 2] == h[n - 1];
    }
  }

  /** A total over readings ignores their order. */
  lemma {:induction false} TallyPermutation(g: History, h: History, f: Reading -> real)
    requires multiset(g) == multiset(h)
    ensures Tally(g, f) == Tally(h, f)
    decreases |g|
  {
    assert |g| == |multiset(g)| == |multiset(h)| == |h|;
    if |g| > 0 {
      var n := |g|;
      var last := g[n - 1];
      assert last in multiset(h);
      var k :| 0 <= k < n && h[k] == last;
      TallyRemove(h, k, f);
      var rest := h[..k] + h[k + 1..];
      assert g == g[..n - 1] + [last];
      assert h == h[..k] + [last] + h[k + 1..];
      assert multiset(g) == multiset(g[..n - 1]) + multiset{last};
      assert multiset(h) == multiset(rest) + multiset{last};
      assert multiset(rest) == multiset(h) - multiset{last};
      TallyPermutation(g[..n - 1], rest, f);
    }
  }

  lemma {:induction false} SumIsTally(h: History, j: int)
    ensures Sum(|h|, Col(Data(h), j)) == Tally(h, Pick(j))
  {
    if |h| > 0 {
      var g := h[..|h| - 1];
      SumIsTally(g, j);
      assert h == g + [h[|h| - 1]];
      SumAppend(g, h[|h| - 1], j);
    }
  }

  lemma {:induction false} DotIsTally(h: History, i: int, j: int)
    ensures Dot(|h|, Col(Data(h), i), Col(Data(h), j)) == Tally(h, PickPair(i, j))
  {
    if |h| > 0 {
      var g := h[..|h| - 1];
      DotIsTally(g, i, j);
      DotCong(|g|, Col(Data(g), i), Col(Data(g), j), Col(Data(h), i), Col(Data(h), j));
    }
  }

  function Pick(j: int): Reading -> real {
    x => Component(x, j)
  }

  function PickPair(i: int, j: int): Reading -> real {
    x => Component(x, i) * Component(x, j)
  }

  /** Mean and scatter depend on which readings there are, not on their order. */
  lemma StatisticsIgnoreOrder(g: History, h: History, i: int, j: int)
    requires multiset(g) == multiset(h)
    ensures |g| == |h|
    ensures Mean(g)(j) == Mean(h)(j)
    ensures Scatter(g)(i, j) == Scatter(h)(i, j)
  {
    assert |g| == |multiset(g)| == |multiset(h)| == |h|;
    forall k ensures Mean(g)(k) == Mean(h)(k) {
      SumIsTally(g, k);
      SumIsTally(h, k);
      TallyPermutation(g, h, Pick(k));
    }
    DotIsTally(g, i, j);
    DotIsTally(h, i, j);
    TallyPermutation(g, h, PickPair(i, j));
    ScatterClosedForm(g, i, j);
    ScatterClosedForm(h, i, j);
  }

  // ------------------------------------------------- positive semidefiniteness

  lemma {:induction false} SelfDotPositive(n: nat, u: Vec)
    ensures Dot(n, u, u) >= 0.0
    ensures NonZero(n, u) ==> Dot(n, u, u) > 0.0
  {
    if n > 0 {
      SelfDotPositive(n - 1, u);
      SquareSign(u(n - 1), u(n - 1) * u(n - 1));
      if NonZero(n, u) && u(n - 1) == 0.0 {
        assert NonZero(n - 1, u);
      }
    }
  }

  lemma SquareSign(x: real, s: real)
    requires s == x * x
    ensures s >= 0.0
    ensures x != 0.0 ==> s > 0.0
  {
    if x > 0.0 {
      PositiveProduct(x, x, s);
    } else if x < 0.0 {
      PositiveProduct(-x, -x, s);
    }
  }

  lemma PositiveProduct(x: real, y: real, s: real)
    requires s == x * y && x > 0.0 && y > 0.0
    ensures s > 0.0
  {
  }

  /** Scatter * v = Centered^T * (Centered * v). */
  lemma ScatterTimes(h: History, p: nat, v: Vec, i: int)
    ensures MatVec(p, Scatter(h), v)(i) == Dot(|h|, Col(Centered(h), i), MatVec(p, Centered(h), v))
  {
    var n, x := |h|, Centered(h);
    DotAssoc(n, p, Col(x, i), x, v);
    DotCong(p, Row(Scatter(h), i), v, VecMat(n, Col(x, i), x), v);
  }

  /** v^T * Scatter * v is the squared length of Centered * v. */
  lemma ScatterQuadratic(h: History, p: nat, v: Vec)
    ensures Dot(p, v, MatVec(p, Scatter(h), v)) ==
      Dot(|h|, MatVec(p, Centered(h), v), MatVec(p, Centered(h), v))
  {
    var n, x := |h|, Centered(h);
    var z := MatVec(p, x, v);
    forall i | 0 <= i < p ensures MatVec(p, Scatter(h), v)(i) == VecMat(n, z, x)(i) {
      ScatterTimes(h, p, v, i);
      DotComm(n, Col(x, i), z);
    }
    DotCong(p, v, MatVec(p, Scatter(h), v), v, VecMat(n, z, x));
    DotComm(p, v, VecMat(n, z, x));
    DotAssoc(n, p, z, x, v);
  }

  /** v takes one value on all readings. */
  ghost predicate ConstantOn(h: History, p: nat, v: Vec) {
    exists c: real :: TakesValue(h, p, v, c)
  }

  ghost predicate TakesValue(h: History, p: nat, v: Vec, c: real) {
    forall t :: 0 <= t < |h| ==> MatVec(p, Data(h), v)(t) == c
  }

  lemma CenteredTimes(h: History, p: nat, v: Vec, t: int)
    ensures MatVec(p, Centered(h), v)(t) == MatVec(p, Data(h), v)(t) - Dot(p, Mean(h), v)
  {
    DotLinear(p, 1.0, Row(Data(h), t), -1.0, Mean(h), Row(Centered(h), t), v);
  }

  /** The readings average to the mean along any direction. */
  lemma MeanAlong(h: History, p: nat, v: Vec)
    ensures Sum(|h|, MatVec(p, Centered(h), v)) == 0.0
  {
    var n, x := |h|, Centered(h);
    var ones := Constant(1.0);
    DotAsSum(n, ones, MatVec(p, x, v), MatVec(p, x, v));
    DotAssoc(n, p, ones, x, v);
    forall j | 0 <= j < p ensures VecMat(n, ones, x)(j) == 0.0 {
      DotAsSum(n, ones, Col(x, j), Col(x, j));
      CenteredSumsToZero(h, j);
    }
    ZeroDot(p, VecMat(n, ones, x), v);
  }

  /** A vector that the covariance sends to zero takes its mean value on every reading. */
  lemma KernelIsConstant(h: History, p: nat, v: Vec)
    requires |h| >= 2 && forall i :: 0 <= i < p ==> MatVec(p, Cov(h), v)(i) == 0.0
    ensures TakesValue(h, p, v, Dot(p, Mean(h), v))
  {
    hide Cov, Scatter, Centered, Mean, Dot;
    var z := MatVec(p, Centered(h), v);
    forall i | 0 <= i < p ensures MatVec(p, Scatter(h), v)(i) == 0.0 {
      CovTimes(h, p, v, i);
    }
    DotComm(p, v, MatVec(p, Scatter(h), v));
    ZeroDot(p, MatVec(p, Scatter(h), v), v);
    ScatterQuadratic(h, p, v);
    SelfDotPositive(|h|, z);
    assert forall t :: 0 <= t < |h| ==> z(t) == 0.0;
    forall t | 0 <= t < |h| ensures MatVec(p, Data(h), v)(t) == Dot(p, Mean(h), v) {
      CenteredTimes(h, p, v, t);
    }
  }

  /** A vector that takes one value on all readings is sent to zero. */
  lemma ConstantIsKernel(h: History, p: nat, v: Vec, c: real, i: int)
    requires |h| >= 2 && TakesValue(h, p, v, c) && 0 <= i < p
    ensures MatVec(p, Cov(h), v)(i) == 0.0
  {
    hide Cov, Scatter, Centered, Mean, Dot;
    var n := |h|;
    var z := MatVec(p, Centered(h), v);
    var d := c - Dot(p, Mean(h), v);
    forall t | 0 <= t < n ensures z(t) == d {
      CenteredTimes(h, p, v, t);
    }
    MeanAlong(h, p, v);
    SumCong(n, z, Constant(d));
    SumConstant(n, d);
    FactorIsZero(n as real, d);
    DotComm(n, Col(Centered(h), i), z);
    ZeroDot(n, z, Col(Centered(h), i));
    ScatterTimes(h, p, v, i);
    CovTimes(h, p, v, i);
    FactorIsZero((n - 1) as real, MatVec(p, Cov(h), v)(i));
  }

  lemma FactorIsZero(c: real, x: real)
    requires c != 0.0 && c * x == 0.0
    ensures x == 0.0
  {
  }

  lemma KernelIffConstant(h: History, p: nat, v: Vec)
    requires |h| >= 2
    ensures (forall i :: 0 <= i < p ==> MatVec(p, Cov(h), v)(i) == 0.0) <==> ConstantOn(h, p, v)
  {
    hide Cov, MatVec, TakesValue;
    if forall i :: 0 <= i < p ==> MatVec(p, Cov(h), v)(i) == 0.0 {
      KernelIsConstant(h, p, v);
    }
    if ConstantOn(h, p, v) {
      var c :| TakesValue(h, p, v, c);
      forall i | 0 <= i < p ensures MatVec(p, Cov(h), v)(i) == 0.0 {
        ConstantIsKernel(h, p, v, c, i);
      }
    }
  }

  lemma CovTimes(h: History, p: nat, v: Vec, i: int)
    requires |h| >= 2
    ensures MatVec(p, Scatter(h), v)(i) == (|h| - 1) as real * MatVec(p, Cov(h), v)(i)
  {
    var d := (|h| - 1) as real;
    forall j | 0 <= j < p ensures Row(Scatter(h), i)(j) == d * Row(Cov(h), i)(j) + 0.0 * Row(Cov(h), i)(j) {
      QuotientTimes(Scatter(h)(i, j), d);
    }
    DotLinear(p, d, Row(Cov(h), i), 0.0, Row(Cov(h), i), Row(Scatter(h), i), v);
  }

  /** The covariance has no inverse exactly when the readings lie on a common
      hyperplane: some fixed nonzero combination of the probes never varies. */
  lemma SingularIffDependent(h: History, p: nat)
    requires |h| >= 2
    ensures Singular(p, Cov(h)) <==> exists v :: NonZero(p, v) && ConstantOn(h, p, v)
  {
    if Singular(p, Cov(h)) {
      var v :| InKernel(p, Cov(h), v);
      KernelIffConstant(h, p, v);
      assert NonZero(p, v) && ConstantOn(h, p, v);
    }
    if exists v :: NonZero(p, v) && ConstantOn(h, p, v) {
      var v :| NonZero(p, v) && ConstantOn(h, p, v);
      KernelIffConstant(h, p, v);
      assert InKernel(p, Cov(h), v);
    }
  }

  /** An invertible covariance stays invertible as readings are appended. */
  lemma StaysInvertible(h: History, x: Reading, p: nat)
    requires |h| >= 2 && !Singular(p, Cov(h))
    ensures !Singular(p, Cov(h + [x]))
  {
    SingularIffDependent(h, p);
    SingularIffDependent(h + [x], p);
    forall v | NonZero(p, v) && ConstantOn(h + [x], p, v) ensures false {
      var c :| TakesValue(h + [x], p, v, c);
      forall t | 0 <= t < |h| ensures MatVec(p, Data(h), v)(t) == c {
        assert MatVec(p, Data(h + [x]), v)(t) == c;
        DotCong(p, Row(Data(h), t), v, Row(Data(h + [x]), t), v);
      }
      assert TakesValue(h, p, v, c);
      assert ConstantOn(h, p, v);
    }
  }
}
