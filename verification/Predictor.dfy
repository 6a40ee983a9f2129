/** The predictive cortex: learn, score, smooth, differentiate, classify. */
module Predictor {
  import opened Prelude
  import opened Vectors
  import opened Inverses
  import opened Linalg
  import opened Samples
  import opened Welford
  import opened Mahalanobis
  import opened Memory
  import opened Hysteresis

  /** Instants are integer nanoseconds. */
  const NANOS := 1000000000.0

  datatype StressReading = StressReading(dm: real, dmDot: real, level: Level, timestamp: int)

  datatype Analysis = Analysis(stress: real, dmDot: real, level: Level)

  /** Returned while there is nothing to report. */
  const CALM := Analysis(0.0, 0.0, HOMEOSTASIS)

  /** Everything the cortex remembers between calls. */
  datatype Mind = Mind(folded: History, ewma: Option<real>, prev: Option<StressReading>, held: Held)

  const BLANK := Mind([], None, None, START)

  function SanitizedAlpha(alpha: real): (a: real)
    ensures 0.0 < a <= 1.0
    ensures 0.0 < alpha <= 1.0 ==> a == alpha
    ensures alpha <= 0.0 || alpha > 1.0 ==> a == 0.2
  {
    if alpha <= 0.0 || alpha > 1.0 then DEFAULT_CONFIG.alpha else alpha
  }

  /** The first score initialises the average; later ones are blended in. */
  function Smooth(alpha: real, ewma: Option<real>, dm: real): (s: real)
    ensures ewma.None? ==> s == dm
    ensures ewma.Some? ==> s - dm == (1.0 - alpha) * (ewma.value - dm)
  {
    match ewma
    case None => dm
    case Some(v) => alpha * dm + (1.0 - alpha) * v
  }

  /** Finite difference per second; zero without a reference or elapsed time. */
  function Derivative(prev: Option<StressReading>, dm: real, now: int): (d: real)
    ensures prev.Some? && now > prev.value.timestamp ==>
      d * ((now - prev.value.timestamp) as real / NANOS) == dm - prev.value.dm
    ensures prev.None? || now <= prev.value.timestamp ==> d == 0.0
  {
    match prev
    case None => 0.0
    case Some(q) =>
      if now <= q.timestamp then 0.0 else (dm - q.dm) / ((now - q.timestamp) as real / NANOS)
  }

  /** The state after scoring a reading whose raw distance is dm. */
  function Scored(cfg: PredictorConfig, s: Mind, dm: real, now: int): Mind {
    var l := Resolve(cfg);
    var smoothed := Smooth(cfg.alpha, s.ewma, dm);
    var dmDot := Derivative(s.prev, smoothed, now);
    var held := Settle(l.hysteresisDown, s.held, Cycle(Candidate(l, smoothed, dmDot), dmDot < l.relax));
    Mind(s.folded, Some(smoothed), Some(StressReading(smoothed, dmDot, held.level, now)), held)
  }

  function Report(s: Mind): Analysis
    requires s.prev.Some?
  {
    Analysis(s.prev.value.dm, s.prev.value.dmDot, s.held.level)
  }

  /** One call of Analyze on reading x, as a relation between states. */
  ghost predicate Step(cfg: PredictorConfig, p: nat, sqrt: real -> real, s: Mind, x: Reading, now: int,
    s': Mind, r: Result<Analysis, Error>)
  {
    var learned := s.(folded := s.folded + [x]);
    var n := |learned.folded|;
    if |x| != p then s' == s && r == Err(Incompatible)
    else if n < cfg.minSamples then s' == learned && r == Ok(CALM)
    else if n < 2 then s' == learned && r == Err(TooFewSamples)
    else if Singular(p, Cov(learned.folded)) then s' == learned && r == Ok(CALM)
    else ScoredStep(cfg, p, sqrt, learned, now, s', r)
  }

  ghost predicate ScoredStep(cfg: PredictorConfig, p: nat, sqrt: real -> real, learned: Mind, now: int,
    s': Mind, r: Result<Analysis, Error>)
    requires |learned.folded| >= 2
  {
    exists k :: IsInverse(p, k, Cov(learned.folded)) && ScoredWith(cfg, p, sqrt, learned, k, now, s', r)
  }

  ghost predicate ScoredWith(cfg: PredictorConfig, p: nat, sqrt: real -> real, learned: Mind, k: Mat, now: int,
    s': Mind, r: Result<Analysis, Error>)
    requires |learned.folded| >= 2
  {
    && s' == Scored(cfg, learned, NewestScore(p, sqrt, learned.folded, k), now)
    && r == Ok(Report(s'))
  }

  /** The stress of the newest folded reading against the baseline that includes it. */
  ghost function NewestScore(p: nat, sqrt: real -> real, h: History, k: Mat): real
    requires |h| >= 1
  {
    sqrt(Clamp(OwnStress(h, p, k)(|h| - 1)))
  }

  class PredictiveCortex {
    const buffer: RingBuffer
    const config: PredictorConfig
    const welford: WelfordState
    var ewmaValue: real
    var ewmaReady: bool
    var prev: Option<StressReading>
    var currentLevel: Level
    var belowCount: nat

    ghost predicate Valid()
      reads this, buffer, buffer.data.data, welford, welford.mean, welford.m2
    {
      && buffer.Valid() && welford.Valid()
      && buffer.data.data != welford.mean && buffer.data.data != welford.m2
      && 0.0 < config.alpha <= 1.0
      && welford.p == (if buffer.vars == 0 then 1 else buffer.vars)
    }

    ghost function State(): Mind
      reads this, welford
    {
      Mind(welford.history, if ewmaReady then Some(ewmaValue) else None, prev, Held(currentLevel, belowCount))
    }

    constructor (buffer: RingBuffer, cfg: PredictorConfig)
      requires buffer.Valid()
      ensures Valid() && fresh(welford) && fresh(welford.mean) && fresh(welford.m2)
      ensures this.buffer == buffer && State() == BLANK
      ensures config == cfg.(alpha := SanitizedAlpha(cfg.alpha))
    {
      var snap := buffer.Snapshot();
      var vars := snap.cols;
      if vars == 0 {
        vars := 1;
      }
      this.buffer := buffer;
      config := cfg.(alpha := SanitizedAlpha(cfg.alpha));
      welford := new WelfordState(vars);
      ewmaValue, ewmaReady, prev := 0.0, false, None;
      currentLevel, belowCount := HOMEOSTASIS, 0;
    }

    method CalcDerivative(dm: real, now: int) returns (dmDot: real)
      ensures dmDot == Derivative(prev, dm, now)
    {
      if prev.None? {
        return 0.0;
      }
      var elapsed := now - prev.value.timestamp;
      if elapsed <= 0 {
        return 0.0;
      }
      return (dm - prev.value.dm) / (elapsed as real / NANOS);
    }

    method Classify(dm: real, dmDot: real) returns (level: Level)
      modifies this`currentLevel, this`belowCount
      ensures level == currentLevel
      ensures Held(currentLevel, belowCount) ==
        var l := Resolve(config);
        Settle(l.hysteresisDown, Held(old(currentLevel), old(belowCount)),
          Cycle(Candidate(l, dm, dmDot), dmDot < l.relax))
    {
      var l := Resolve(config);
      var candidate := Candidate(l, dm, dmDot);
      if candidate < currentLevel {
        if dmDot < l.relax {
          belowCount := belowCount + 1;
        } else {
          belowCount := 0;
        }
        if belowCount >= l.hysteresisDown {
          belowCount := 0;
          currentLevel := candidate;
        }
      } else {
        belowCount := 0;
        currentLevel := candidate;
      }
      return currentLevel;
    }

    /** The last row of a snapshot as a reading. */
    method LastReading(snap: Matrix) returns (reading: Reading)
      requires snap.Valid() && snap.rows >= 1
      ensures |reading| == snap.cols
      ensures forall j :: 0 <= j < snap.cols ==> reading[j] == snap.Value()(snap.rows - 1, j)
    {
      var lastRow := snap.rows - 1;
      reading := [];
      for j := 0 to snap.cols
        invariant |reading| == j
        invariant forall l :: 0 <= l < j ==> reading[l] == snap.Value()(lastRow, l)
      {
        var x := snap.Get(lastRow, j);
        reading := reading + [x];
      }
    }

    /** The distance of the newest folded reading, or None while the covariance
        is singular. */
    method Distance(reading: Reading, sqrt: real -> real) returns (r: Result<Option<real>, Error>)
      requires welford.Valid() && |welford.history| >= 1 && reading == welford.history[|welford.history| - 1]
      ensures r.Err? <==> |welford.history| < 2
      ensures r.Err? ==> r.error == TooFewSamples
      ensures r.Ok? ==> (r.value.None? <==> Singular(welford.p, Cov(welford.history)))
      ensures r.Ok? && r.value.Some? ==>
        exists k :: IsInverse(welford.p, k, Cov(welford.history))
          && r.value.value == NewestScore(welford.p, sqrt, welford.history, k)
    {
      hide Cov, Singular, IsInverse, NewestScore, Stress2;
      ghost var h, p := welford.history, welford.p;
      var mean := welford.MeanColumn();
      var cov := welford.Covariance();
      if cov.Err? {
        return Err(cov.error);
      }
      var inv := cov.value.Inverse();
      CovarianceCopy(p, cov.value.Value(), Cov(h));
      if inv.Err? {
        return Ok(None);
      }
      var current := Column(reading);
      var dm := CalculateStress(HomeostasisModel(mean, inv.value), current, sqrt);
      InverseOfCopy(p, inv.value.Value(), cov.value.Value(), Cov(h));
      DeviationIsCentered(p, h, reading, current.Value(), mean.Value());
      ScoreIsNewest(p, sqrt, h, inv.value.Value(), Mahalanobis.Deviation(current.Value(), mean.Value()));
      return Ok(Some(dm.value));
    }

    method Column(reading: Reading) returns (current: Matrix)
      ensures fresh(current) && fresh(current.data) && current.Valid()
      ensures current.rows == |reading| && current.cols == 1
      ensures forall j :: 0 <= j < |reading| ==> current.Value()(j, 0) == reading[j]
    {
      current := new Matrix(|reading|, 1);
      for j := 0 to |reading|
        invariant forall l :: 0 <= l < j ==> current.Value()(l, 0) == reading[l]
      {
        current.Set(j, 0, reading[j]);
      }
    }

    /** Smoothing, differentiation and classification of one raw distance. */
    method Judge(dm: real, now: int) returns (a: Analysis)
      modifies this
      ensures State() == Scored(config, old(State()), dm, now) && a == Report(State())
    {
      if !ewmaReady {
        ewmaValue := dm;
        ewmaReady := true;
      } else {
        ewmaValue := config.alpha * dm + (1.0 - config.alpha) * ewmaValue;
      }
      var smoothed := ewmaValue;
      assert smoothed == Smooth(config.alpha, old(State()).ewma, dm);
      var dmDot := CalcDerivative(smoothed, now);
      assert dmDot == Derivative(old(State()).prev, smoothed, now);
      var level := Classify(smoothed, dmDot);
      prev := Some(StressReading(smoothed, dmDot, level, now));
      return Analysis(smoothed, dmDot, level);
    }

    method Analyze(sqrt: real -> real, now: int) returns (r: Result<Analysis, Error>)
      requires Valid()
      modifies this, welford, welford.mean, welford.m2
      ensures Valid()
      ensures Least(|buffer.inserted|, buffer.capacity) <= 1 ==> State() == old(State()) && r == Ok(CALM)
      ensures Least(|buffer.inserted|, buffer.capacity) > 1 ==>
        Step(config, welford.p, sqrt, old(State()), LastSnapshotRow(buffer.inserted, buffer.capacity), now, State(), r)
    {
      hide Cov, Singular, IsInverse, NewestScore, Scored, Source;
      if !buffer.IsReady() {
        return Ok(CALM);
      }
      var snap := buffer.Snapshot();
      if snap.rows < 2 {
        return Ok(CALM);
      }
      var reading := LastReading(snap);
      assert reading == LastSnapshotRow(buffer.inserted, buffer.capacity);
      var ok := welford.Update(reading);
      if !ok {
        return Err(Incompatible);
      }
      if !welford.IsReady(config.minSamples) {
        return Ok(CALM);
      }
      var dm := Distance(reading, sqrt);
      if dm.Err? {
        return Err(dm.error);
      }
      if dm.value.None? {
        return Ok(CALM);
      }
      ghost var learned := State();
      var a := Judge(dm.value.value, now);
      ghost var k :| IsInverse(welford.p, k, Cov(learned.folded))
        && dm.value.value == NewestScore(welford.p, sqrt, learned.folded, k);
      assert ScoredWith(config, welford.p, sqrt, learned, k, now, State(), Ok(a));
      return Ok(a);
    }
  }

  lemma CovarianceCopy(p: nat, a: Mat, b: Mat)
    requires SameMat(p, p, a, b)
    ensures Singular(p, a) <==> Singular(p, b)
  {
    forall v ensures InKernel(p, a, v) <==> InKernel(p, b, v) {
      forall i | 0 <= i < p ensures MatVec(p, a, v)(i) == MatVec(p, b, v)(i) {
        DotCong(p, Row(a, i), v, Row(b, i), v);
      }
    }
  }

  lemma InverseOfCopy(p: nat, k: Mat, a: Mat, b: Mat)
    requires SameMat(p, p, a, b) && IsInverse(p, k, a)
    ensures IsInverse(p, k, b)
  {
    forall i, j | 0 <= i < p && 0 <= j < p
      ensures Dot(p, Row(k, i), Col(b, j)) == Delta(i, j)
      ensures Dot(p, Row(b, i), Col(k, j)) == Delta(i, j)
    {
      DotCong(p, Row(k, i), Col(b, j), Row(k, i), Col(a, j));
      DotCong(p, Row(b, i), Col(k, j), Row(a, i), Col(k, j));
    }
  }

  lemma DeviationIsCentered(p: nat, h: History, reading: Reading, current: Mat, mean: Mat)
    requires |h| >= 1 && reading == h[|h| - 1] && |reading| == p
    requires forall j :: 0 <= j < p ==> current(j, 0) == reading[j] && mean(j, 0) == Mean(h)(j)
    ensures SameVec(p, Mahalanobis.Deviation(current, mean), Row(Centered(h), |h| - 1))
  {
  }

  /** The score computed from the last deviation is the newest score. */
  lemma ScoreIsNewest(p: nat, sqrt: real -> real, h: History, k: Mat, d: Vec)
    requires |h| >= 1 && SameVec(p, d, Row(Centered(h), |h| - 1))
    ensures sqrt(Clamp(Stress2(p, k, d))) == NewestScore(p, sqrt, h, k)
  {
    SameStress(p, k, d, Row(Centered(h), |h| - 1));
  }

  lemma SameStress(p: nat, k: Mat, d: Vec, e: Vec)
    requires SameVec(p, d, e)
    ensures Stress2(p, k, d) == Stress2(p, k, e)
  {
    forall j | 0 <= j < p ensures VecMat(p, d, k)(j) == VecMat(p, e, k)(j) {
      DotCong(p, d, Col(k, j), e, Col(k, j));
    }
    DotCong(p, VecMat(p, d, k), d, VecMat(p, e, k), e);
  }
}
