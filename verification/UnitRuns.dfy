/** The choice of units for the probes changes no report of any run. */
module UnitRuns {
  import opened Prelude
  import opened Vectors
  import opened Inverses
  import opened Linalg
  import opened Samples
  import opened Predictor
  import opened CortexRuns
  import opened Units

  /** Factors and offsets, one per probe; no factor is zero. */
  datatype UnitChange = UnitChange(p: nat, scale: Vec, shift: Vec)

  ghost predicate Proper(u: UnitChange) {
    forall j :: 0 <= j < u.p ==> u.scale(j) != 0.0
  }

  /** A reading of the wrong length is rejected in any units. */
  function ConvertReading(u: UnitChange, x: Reading): Reading {
    if |x| == u.p then RescaleReading(x, u.p, u.scale, u.shift) else x
  }

  function ConvertMind(u: UnitChange, s: Mind): Mind {
    s.(folded := Rescale(s.folded, u.p, u.scale, u.shift))
  }

  function ConvertStates(u: UnitChange, states: seq<Mind>): seq<Mind> {
    seq(|states|, t requires 0 <= t < |states| => ConvertMind(u, states[t]))
  }

  function ConvertTicks(u: UnitChange, ticks: seq<Tick>): seq<Tick> {
    seq(|ticks|, t requires 0 <= t < |ticks| => ticks[t].(x := ConvertReading(u, ticks[t].x)))
  }

  /** The inverse covariance in the new units. */
  function ConvertInverse(u: UnitChange, k: Mat): Mat {
    (i, j) => Reciprocal(u.scale(i)) * (Reciprocal(u.scale(j)) * k(i, j))
  }

  function Reciprocal(x: real): (r: real)
    ensures x != 0.0 ==> r * x == 1.0
  {
    if x == 0.0 then 0.0 else 1.0 / x
  }

  /** An inner product in which the unit of every index cancels. */
  lemma CancelUnits(n: nat, f: real, g: real, q: Vec, s: Vec, k: Vec, c: Vec, k': Vec, c': Vec)
    requires forall l :: 0 <= l < n ==> q(l) * s(l) == 1.0
    requires forall l :: 0 <= l < n ==> k'(l) == f * (q(l) * k(l)) && c'(l) == s(l) * (g * c(l))
    ensures Dot(n, k', c') == (f * g) * Dot(n, k, c)
  {
    hide Dot, Sum;
    var terms: Vec := l => k'(l) * c'(l);
    var fg := f * g;
    forall l | 0 <= l < n ensures terms(l) == fg * (k(l) * c(l)) {
      CancelPair(q(l), s(l), f, g, fg, k(l), c(l), k'(l), c'(l));
    }
    DotAsSum(n, k', c', terms);
    ScaledDot(n, fg, k, c, terms);
  }

  lemma CancelPair(q: real, s: real, f: real, g: real, fg: real, k: real, c: real, k': real, c': real)
    requires q * s == 1.0 && fg == f * g && k' == f * (q * k) && c' == s * (g * c)
    ensures k' * c' == fg * (k * c)
  {
    assert (f * (q * k)) * (s * (g * c)) == (q * s) * ((f * g) * (k * c));
  }

  lemma ReciprocalTimes(u: UnitChange)
    requires Proper(u)
    ensures forall l :: 0 <= l < u.p ==> Reciprocal(u.scale(l)) * u.scale(l) == 1.0
    ensures forall i, j :: 0 <= i < u.p && i == j ==> Reciprocal(u.scale(i)) * u.scale(j) == 1.0
  {
  }

  lemma Exchange(a: real, b: real, x: real)
    ensures a * (b * x) == b * (a * x)
  {
  }

  lemma InverseConverts(u: UnitChange, h: History, k: Mat)
    requires Proper(u) && |h| >= 2 && IsInverse(u.p, k, Cov(h))
    ensures IsInverse(u.p, ConvertInverse(u, k), Cov(Rescale(h, u.p, u.scale, u.shift)))
  {
    var c' := Cov(Rescale(h, u.p, u.scale, u.shift));
    forall i, j | 0 <= i < u.p && 0 <= j < u.p
      ensures c'(i, j) == u.scale(i) * (u.scale(j) * Cov(h)(i, j))
    {
      RescaledCov(h, u.p, u.scale, u.shift, i, j);
    }
    LeftConverts(u, k, Cov(h), c');
    RightConverts(u, k, Cov(h), c');
  }

  /** c' is c in the new units. */
  ghost predicate Converted(u: UnitChange, c: Mat, c': Mat) {
    forall i, j :: 0 <= i < u.p && 0 <= j < u.p ==> c'(i, j) == u.scale(i) * (u.scale(j) * c(i, j))
  }

  lemma LeftConverts(u: UnitChange, k: Mat, c: Mat, c': Mat)
    requires Proper(u) && LeftInverse(u.p, k, c) && Converted(u, c, c')
    ensures LeftInverse(u.p, ConvertInverse(u, k), c')
  {
    hide Reciprocal, Delta, Dot;
    var k' := ConvertInverse(u, k);
    forall i, j | 0 <= i < u.p && 0 <= j < u.p ensures Dot(u.p, Row(k', i), Col(c', j)) == Delta(i, j) {
      forall l | 0 <= l < u.p
        ensures Row(k', i)(l) == Reciprocal(u.scale(i)) * (Reciprocal(u.scale(l)) * Row(k, i)(l))
        ensures Col(c', j)(l) == u.scale(l) * (u.scale(j) * Col(c, j)(l))
      {
      }
      ConvertedEntry(u, Row(k, i), Col(c, j), Row(k', i), Col(c', j), i, j);
    }
  }

  lemma RightConverts(u: UnitChange, k: Mat, c: Mat, c': Mat)
    requires Proper(u) && LeftInverse(u.p, c, k) && Converted(u, c, c')
    ensures LeftInverse(u.p, c', ConvertInverse(u, k))
  {
    hide Reciprocal, Dot;
    var k' := ConvertInverse(u, k);
    forall i, j | 0 <= i < u.p && 0 <= j < u.p ensures Dot(u.p, Row(c', j), Col(k', i)) == Delta(j, i) {
      forall l | 0 <= l < u.p
        ensures Col(k', i)(l) == Reciprocal(u.scale(i)) * (Reciprocal(u.scale(l)) * Col(k, i)(l))
        ensures Row(c', j)(l) == u.scale(l) * (u.scale(j) * Row(c, j)(l))
      {
        Exchange(Reciprocal(u.scale(l)), Reciprocal(u.scale(i)), k(l, i));
        Exchange(u.scale(j), u.scale(l), c(j, l));
      }
      DotComm(u.p, Col(k', i), Row(c', j));
      DotComm(u.p, Col(k, i), Row(c, j));
      ConvertedEntry(u, Col(k, i), Row(c, j), Col(k', i), Row(c', j), i, j);
    }
  }

  /** An inner product that gives an entry of the identity still does after conversion. */
  lemma ConvertedEntry(u: UnitChange, k: Vec, c: Vec, k': Vec, c': Vec, i: int, j: int)
    requires Proper(u) && 0 <= i < u.p && 0 <= j < u.p && Dot(u.p, k, c) == Delta(i, j)
    requires forall l :: 0 <= l < u.p ==> k'(l) == Reciprocal(u.scale(i)) * (Reciprocal(u.scale(l)) * k(l))
    requires forall l :: 0 <= l < u.p ==> c'(l) == u.scale(l) * (u.scale(j) * c(l))
    ensures Dot(u.p, k', c') == Delta(i, j)
  {
    hide Dot, Reciprocal;
    var f, g := Reciprocal(u.scale(i)), u.scale(j);
    ReciprocalTimes(u);
    var q: Vec := l => Reciprocal(u.scale(l));
    CancelUnits(u.p, f, g, q, u.scale, k, c, k', c');
  }

  lemma ConvertAppend(u: UnitChange, h: History, x: Reading)
    ensures Rescale(h + [x], u.p, u.scale, u.shift) ==
      Rescale(h, u.p, u.scale, u.shift) + [RescaleReading(x, u.p, u.scale, u.shift)]
  {
  }

  /** The score of the newest reading is the same number in both units. */
  lemma NewestScoreConverts(u: UnitChange, sqrt: real -> real, h: History, k: Mat)
    requires Proper(u) && |h| >= 2 && IsInverse(u.p, k, Cov(h))
    ensures NewestScore(u.p, sqrt, Rescale(h, u.p, u.scale, u.shift), ConvertInverse(u, k)) ==
      NewestScore(u.p, sqrt, h, k)
  {
    InverseConverts(u, h, k);
    StressIgnoresUnits(h, u.p, u.scale, u.shift, k, ConvertInverse(u, k), |h| - 1);
  }

  /** A step in one choice of units is a step in every other, with the same report. */
  lemma StepConverts(u: UnitChange, e: Environment, s: Mind, x: Reading, now: int, s': Mind, r: Result<Analysis, Error>)
    requires Proper(u) && u.p == e.p && Step(e.cfg, e.p, e.sqrt, s, x, now, s', r)
    ensures Step(e.cfg, e.p, e.sqrt, ConvertMind(u, s), ConvertReading(u, x), now, ConvertMind(u, s'), r)
  {
    if |x| == e.p {
      var learned := s.(folded := s.folded + [x]);
      var h := learned.folded;
      ConvertAppend(u, s.folded, x);
      if |h| >= 2 {
        SingularityIgnoresUnits(h, e.p, u.scale, u.shift);
        if |h| >= e.cfg.minSamples && !Singular(e.p, Cov(h)) {
          ScoredStepConverts(u, e, learned, now, s', r);
        }
      }
    }
  }

  lemma ScoredStepConverts(u: UnitChange, e: Environment, learned: Mind, now: int, s': Mind, r: Result<Analysis, Error>)
    requires Proper(u) && u.p == e.p && |learned.folded| >= 2
    requires ScoredStep(e.cfg, e.p, e.sqrt, learned, now, s', r)
    ensures ScoredStep(e.cfg, e.p, e.sqrt, ConvertMind(u, learned), now, ConvertMind(u, s'), r)
  {
    var h := learned.folded;
    var k :| IsInverse(e.p, k, Cov(h)) && ScoredWith(e.cfg, e.p, e.sqrt, learned, k, now, s', r);
    InverseConverts(u, h, k);
    NewestScoreConverts(u, e.sqrt, h, k);
    assert ScoredWith(e.cfg, e.p, e.sqrt, ConvertMind(u, learned), ConvertInverse(u, k), now, ConvertMind(u, s'), r);
  }

  /** A run converted to other units is a run with the same reports. */
  lemma RunConverts(u: UnitChange, e: Environment, states: seq<Mind>, ticks: seq<Tick>,
    results: seq<Result<Analysis, Error>>)
    requires Proper(u) && u.p == e.p && Run(e, states, ticks, results)
    ensures Run(e, ConvertStates(u, states), ConvertTicks(u, ticks), results)
  {
    var states', ticks' := ConvertStates(u, states), ConvertTicks(u, ticks);
    assert Rescale([], u.p, u.scale, u.shift) == [];
    forall t | 0 <= t < |ticks| ensures StepAt(e, states', ticks', results, t) {
      assert StepAt(e, states, ticks, results, t);
      StepConverts(u, e, states[t], ticks[t].x, ticks[t].now, states[t + 1], results[t]);
    }
  }

  /** No report of any run depends on the units: two runs on the same readings, taken in
      different units at the same times, report the same stress, derivative and level, and
      the same errors, at every call. */
  lemma RunIgnoresUnits(u: UnitChange, e: Environment, ticks: seq<Tick>,
    states: seq<Mind>, results: seq<Result<Analysis, Error>>,
    states': seq<Mind>, results': seq<Result<Analysis, Error>>)
    requires Proper(u) && u.p == e.p
    requires Run(e, states, ticks, results) && Run(e, states', ConvertTicks(u, ticks), results')
    ensures results' == results && states' == ConvertStates(u, states)
  {
    RunConverts(u, e, states, ticks, results);
    RunDeterministic(e, ConvertTicks(u, ticks), ConvertStates(u, states), results, states', results', |ticks|);
    assert states'[..|ticks| + 1] == states' && results'[..|ticks|] == results';
    assert ConvertStates(u, states)[..|ticks| + 1] == ConvertStates(u, states) && results[..|ticks|] == results;
  }
}
