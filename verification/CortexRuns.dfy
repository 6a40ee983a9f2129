/** Properties of every run of the cortex, from an empty baseline on. */
module CortexRuns {
  import opened Prelude
  import opened Vectors
  import opened Inverses
  import opened Linalg
  import opened Samples
  import opened Mahalanobis
  import opened Sharpness
  import opened Hysteresis
  import opened Predictor

  /** The reading Analyze picked up, and the time at which it ran. */
  datatype Tick = Tick(x: Reading, now: int)

  /** A configuration, the probe count and a square root. */
  datatype Environment = Environment(cfg: PredictorConfig, p: nat, sqrt: real -> real)

  ghost predicate ValidEnvironment(e: Environment) {
    0.0 < e.cfg.alpha <= 1.0 && IsSqrt(e.sqrt)
  }

  ghost predicate Run(e: Environment, states: seq<Mind>, ticks: seq<Tick>, results: seq<Result<Analysis, Error>>) {
    && ValidEnvironment(e)
    && |states| == |ticks| + 1 && |results| == |ticks|
    && states[0] == BLANK
    && forall t :: 0 <= t < |ticks| ==> StepAt(e, states, ticks, results, t)
  }

  ghost predicate StepAt(e: Environment, states: seq<Mind>, ticks: seq<Tick>,
    results: seq<Result<Analysis, Error>>, t: int)
    requires |states| == |ticks| + 1 && |results| == |ticks| && 0 <= t < |ticks|
  {
    Step(e.cfg, e.p, e.sqrt, states[t], ticks[t].x, ticks[t].now, states[t + 1], results[t])
  }

  // ------------------------------------------------- what n readings allow

  /** A squared score q is possible with n readings in the baseline: q <= (n - 1)^2 / n. */
  predicate Within(q: real, n: nat) {
    n >= 1 && q * n as real <= (n - 1) as real * (n - 1) as real
  }

  lemma WithinGrows(q: real, n: nat)
    requires Within(q, n)
    ensures Within(q, n + 1)
  {
    var m := (n - 1) as real;
    assert n as real == m + 1.0 && (n + 1) as real == m + 2.0;
    WithinAlgebra(q, m);
  }

  lemma WithinAlgebra(q: real, m: real)
    requires m >= 0.0 && q * (m + 1.0) <= m * m
    ensures q * (m + 2.0) <= (m + 1.0) * (m + 1.0)
  {
    if q > m {
      PositiveProduct(q - m, m + 1.0, (q - m) * (m + 1.0));
    }
    assert q <= m;
  }

  lemma WithinSmaller(q: real, r: real, n: nat)
    requires Within(q, n) && r <= q
    ensures Within(r, n)
  {
    var f := n as real;
    assert (q - r) * f >= 0.0;
  }

  lemma SquareMonotone(x: real, y: real)
    requires 0.0 <= x <= y
    ensures x * x <= y * y
  {
    assert (y - x) * (y + x) >= 0.0;
  }

  /** A score of x is possible with n readings in the baseline. */
  predicate Attainable(x: real, n: nat) {
    Within(x * x, n)
  }

  lemma AttainableGrows(x: real, n: nat)
    requires Attainable(x, n)
    ensures Attainable(x, n + 1)
  {
    WithinGrows(x * x, n);
  }

  lemma AttainableSmaller(x: real, y: real, n: nat)
    requires 0.0 <= x <= y && Attainable(y, n)
    ensures Attainable(x, n)
  {
    SquareMonotone(x, y);
    WithinSmaller(y * y, x * x, n);
  }

  /** The invariant of every run. */
  ghost predicate Sound(e: Environment, s: Mind) {
    var n := |s.folded|;
    && (s.ewma.None? ==> s.prev.None? && s.held == START)
    && (s.ewma.Some? ==>
      && n >= 2 && n >= e.cfg.minSamples && !Singular(e.p, Cov(s.folded))
      && s.ewma.value >= 0.0 && Attainable(s.ewma.value, n) && s.prev.Some?)
    && (s.held.level >= 2 ==> Allowed(e.cfg, s.held.level, n))
  }

  /** n readings are enough for level k (k >= 2). */
  ghost predicate Allowed(cfg: PredictorConfig, k: Level, n: nat)
    requires k >= 2
  {
    Attainable(LeastThreshold(Resolve(cfg), k - 1), n)
  }

  /** One more reading, folded in, keeps the invariant. */
  lemma FoldKeeps(e: Environment, s: Mind, x: Reading)
    requires Sound(e, s)
    ensures Sound(e, s.(folded := s.folded + [x]))
  {
    hide Attainable, Cov, Singular, LeastThreshold, Resolve;
    var n := |s.folded|;
    if s.ewma.Some? {
      StaysInvertible(s.folded, x, e.p);
      AttainableGrows(s.ewma.value, n);
    }
    if s.held.level >= 2 {
      AttainableGrows(LeastThreshold(Resolve(e.cfg), s.held.level - 1), n);
    }
  }

  /** The raw score is the root of a bounded non-negative number: the clamp at
      zero never changes anything. */
  lemma NewestScoreBounded(e: Environment, h: History, k: Mat)
    requires ValidEnvironment(e) && |h| >= 2 && IsInverse(e.p, k, Cov(h))
    ensures Clamp(OwnStress(h, e.p, k)(|h| - 1)) == OwnStress(h, e.p, k)(|h| - 1)
    ensures NewestScore(e.p, e.sqrt, h, k) >= 0.0
    ensures Attainable(NewestScore(e.p, e.sqrt, h, k), |h|)
  {
    OwnStressBounded(h, e.p, k, |h| - 1);
  }

  /** An average of two scores that n readings allow is allowed too. */
  lemma SmoothWithin(alpha: real, ewma: Option<real>, dm: real, n: nat)
    requires 0.0 < alpha <= 1.0 && dm >= 0.0 && Attainable(dm, n)
    requires ewma.Some? ==> ewma.value >= 0.0 && Attainable(ewma.value, n)
    ensures var s := Smooth(alpha, ewma, dm); s >= 0.0 && Attainable(s, n)
  {
    hide Attainable;
    if ewma.Some? {
      var v, s := ewma.value, Smooth(alpha, ewma, dm);
      var top := if v <= dm then dm else v;
      BlendBetween(alpha, dm, v, top);
      AttainableSmaller(s, top, n);
    }
  }

  lemma BlendBetween(alpha: real, x: real, y: real, top: real)
    requires 0.0 < alpha <= 1.0 && 0.0 <= x <= top && 0.0 <= y <= top
    ensures 0.0 <= alpha * x + (1.0 - alpha) * y <= top
  {
    assert alpha * (top - x) >= 0.0 && (1.0 - alpha) * (top - y) >= 0.0;
    assert alpha * x >= 0.0 && (1.0 - alpha) * y >= 0.0;
    assert alpha * top + (1.0 - alpha) * top == top;
  }

  /** A candidate of level k >= 2 needs a magnitude at the threshold of k - 1. */
  lemma CandidateAllowed(e: Environment, dm: real, dmDot: real, n: nat)
    requires dm >= 0.0 && Attainable(dm, n)
    ensures var c := Candidate(Resolve(e.cfg), dm, dmDot); c >= 2 ==> Allowed(e.cfg, c, n)
  {
    hide Attainable;
    var l := Resolve(e.cfg);
    var c := Candidate(l, dm, dmDot);
    if c >= 2 {
      BaseLevelReaches(l, dm, c - 1);
      AttainableSmaller(LeastThreshold(l, c - 1), dm, n);
    }
  }

  lemma ScoredKeeps(e: Environment, s: Mind, dm: real, now: int)
    requires ValidEnvironment(e) && Sound(e, s)
    requires |s.folded| >= 2 && |s.folded| >= e.cfg.minSamples && !Singular(e.p, Cov(s.folded))
    requires dm >= 0.0 && Attainable(dm, |s.folded|)
    ensures Sound(e, Scored(e.cfg, s, dm, now))
  {
    hide Attainable, Allowed, Cov, Singular, Resolve, Candidate, Smooth, Derivative;
    var smoothed := Smooth(e.cfg.alpha, s.ewma, dm);
    SmoothWithin(e.cfg.alpha, s.ewma, dm, |s.folded|);
    CandidateAllowed(e, smoothed, Derivative(s.prev, smoothed, now), |s.folded|);
  }

  lemma StepKeeps(e: Environment, s: Mind, x: Reading, now: int, s': Mind, r: Result<Analysis, Error>)
    requires ValidEnvironment(e) && Sound(e, s) && Step(e.cfg, e.p, e.sqrt, s, x, now, s', r)
    ensures Sound(e, s')
    ensures r.Ok? ==> r.value.level == s'.held.level
  {
    hide Attainable, Allowed, Cov, Singular, IsInverse, NewestScore;
    if |x| == e.p {
      FoldKeeps(e, s, x);
      var learned := s.(folded := s.folded + [x]);
      if r.Ok? && s' != learned {
        var k :| IsInverse(e.p, k, Cov(learned.folded)) && ScoredWith(e.cfg, e.p, e.sqrt, learned, k, now, s', r);
        NewestScoreBounded(e, learned.folded, k);
        ScoredKeeps(e, learned, NewestScore(e.p, e.sqrt, learned.folded, k), now);
      }
    }
  }

  // ------------------------------------------------- theorems about every run

  lemma {:induction false} RunSound(e: Environment, states: seq<Mind>, ticks: seq<Tick>,
    results: seq<Result<Analysis, Error>>, t: nat)
    requires Run(e, states, ticks, results) && t <= |ticks|
    ensures Sound(e, states[t]) && |states[t].folded| <= t
  {
    if t > 0 {
      RunSound(e, states, ticks, results, t - 1);
      assert StepAt(e, states, ticks, results, t - 1);
      StepKeeps(e, states[t - 1], ticks[t - 1].x, ticks[t - 1].now, states[t], results[t - 1]);
    }
  }

  /** How soon a level can be reported: reporting level k >= 2 needs a baseline of n
      readings with n * th^2 <= (n - 1)^2, where th is the threshold of level k - 1;
      derivative escalation is included. */
  lemma LevelNeedsReadings(e: Environment, states: seq<Mind>, ticks: seq<Tick>,
    results: seq<Result<Analysis, Error>>, t: nat)
    requires Run(e, states, ticks, results) && t < |ticks|
    requires results[t].Ok? && results[t].value.level >= 2
    ensures |states[t + 1].folded| <= t + 1
    ensures Allowed(e.cfg, results[t].value.level, |states[t + 1].folded|)
  {
    RunSound(e, states, ticks, results, t);
    RunSound(e, states, ticks, results, t + 1);
    assert StepAt(e, states, ticks, results, t);
    StepKeeps(e, states[t], ticks[t].x, ticks[t].now, states[t + 1], results[t]);
  }

  /** With the default thresholds: no Survival before reading 66, no Protection
      before reading 33. */
  lemma DefaultsNeedReadings(e: Environment, states: seq<Mind>, ticks: seq<Tick>,
    results: seq<Result<Analysis, Error>>, t: nat)
    requires Run(e, states, ticks, results) && t < |ticks|
    requires Resolve(e.cfg) == Resolve(DEFAULT_CONFIG) && results[t].Ok?
    ensures results[t].value.level == SURVIVAL ==> |states[t + 1].folded| >= 66
    ensures results[t].value.level >= PROTECTION ==> |states[t + 1].folded| >= 33
  {
    if results[t].value.level >= PROTECTION {
      LevelNeedsReadings(e, states, ticks, results, t);
      var n := |states[t + 1].folded|;
      if results[t].value.level == SURVIVAL {
        Needs66(n);
      } else {
        Needs33(n);
      }
    }
  }

  lemma Needs66(n: nat)
    requires Attainable(8.0, n)
    ensures n >= 66
  {
    ClearDenominators(64.0, n, 64, 1);
    if n <= 65 {
      Below66(n);
    }
  }

  lemma Below66(n: nat)
    requires 1 <= n <= 65
    ensures (n - 1) * (n - 1) < 64 * n
  {
    assert n * (66 - n) >= n * 1;
    assert (n - 1) * (n - 1) == 64 * n + 1 - n * (66 - n);
  }

  lemma Needs33(n: nat)
    requires Attainable(5.5, n)
    ensures n >= 33
  {
    ClearDenominators(30.25, n, 121, 4);
    if n <= 32 {
      Below33(n);
    }
  }

  lemma Below33(n: nat)
    requires 1 <= n <= 32
    ensures 4 * ((n - 1) * (n - 1)) < 121 * n
  {
    assert (32 - n) * (4 * n - 1) >= 0;
    assert 4 * ((n - 1) * (n - 1)) == 121 * n - 28 - (32 - n) * (4 * n - 1);
  }

  lemma ClearDenominators(q: real, n: nat, num: nat, den: nat)
    requires Within(q, n) && den as real * q == num as real
    ensures num * n <= den * ((n - 1) * (n - 1))
  {
  }

  /** Inversion is only lost at a cold start: once a run has scored a reading,
      every later well-formed reading is scored, and its report is the held level. */
  lemma {:induction false} ScoringNeverStops(e: Environment, states: seq<Mind>, ticks: seq<Tick>,
    results: seq<Result<Analysis, Error>>, t: nat, u: nat)
    requires Run(e, states, ticks, results) && t <= u < |ticks| && states[t].ewma.Some?
    ensures states[u].ewma.Some? && states[u + 1].ewma.Some?
    ensures |ticks[u].x| == e.p ==>
      && |states[u + 1].folded| >= 2 && !Singular(e.p, Cov(states[u + 1].folded))
      && states[u + 1].prev.Some? && results[u] == Ok(Report(states[u + 1]))
  {
    if u > t {
      ScoringNeverStops(e, states, ticks, results, t, u - 1);
    }
    RunSound(e, states, ticks, results, u);
    assert StepAt(e, states, ticks, results, u);
    if |ticks[u].x| == e.p {
      StaysInvertible(states[u].folded, ticks[u].x, e.p);
    }
  }

  /** A run scores its first reading only with more readings than probes. */
  lemma ScoringNeedsReadings(e: Environment, states: seq<Mind>, ticks: seq<Tick>,
    results: seq<Result<Analysis, Error>>, t: nat)
    requires Run(e, states, ticks, results) && t < |ticks| && states[t + 1].ewma.Some?
    ensures |states[t + 1].folded| >= e.p + 1
    decreases t
  {
    assert StepAt(e, states, ticks, results, t);
    if states[t].ewma.Some? {
      ScoringNeedsReadings(e, states, ticks, results, t - 1);
    } else {
      var h := states[t].folded + [ticks[t].x];
      var k :| IsInverse(e.p, k, Cov(h));
      InversionNeedsReadings(h, e.p, k);
    }
  }

  // ------------------------------------------------- reports are determined

  lemma SameScore(p: nat, sqrt: real -> real, h: History, k: Mat, l: Mat)
    requires |h| >= 1 && SameMat(p, p, k, l)
    ensures NewestScore(p, sqrt, h, k) == NewestScore(p, sqrt, h, l)
  {
    var d := Row(Centered(h), |h| - 1);
    forall j | 0 <= j < p ensures VecMat(p, d, k)(j) == VecMat(p, d, l)(j) {
      DotCong(p, d, Col(k, j), d, Col(l, j));
    }
    DotCong(p, VecMat(p, d, k), d, VecMat(p, d, l), d);
  }

  /** Step relates a state and a reading to one successor and one report only, although
      the inverse in it is existential: there is only one. */
  lemma StepDeterministic(e: Environment, s: Mind, tick: Tick, s1: Mind, r1: Result<Analysis, Error>,
    s2: Mind, r2: Result<Analysis, Error>)
    requires Step(e.cfg, e.p, e.sqrt, s, tick.x, tick.now, s1, r1)
    requires Step(e.cfg, e.p, e.sqrt, s, tick.x, tick.now, s2, r2)
    ensures s1 == s2 && r1 == r2
  {
    hide Scored, NewestScore;
    var learned := s.(folded := s.folded + [tick.x]);
    var h := learned.folded;
    if |tick.x| == e.p && |h| >= e.cfg.minSamples && |h| >= 2 && !Singular(e.p, Cov(h)) {
      var k :| IsInverse(e.p, k, Cov(h)) && ScoredWith(e.cfg, e.p, e.sqrt, learned, k, tick.now, s1, r1);
      var l :| IsInverse(e.p, l, Cov(h)) && ScoredWith(e.cfg, e.p, e.sqrt, learned, l, tick.now, s2, r2);
      InverseIsUnique(e.p, k, l, Cov(h));
      SameScore(e.p, e.sqrt, h, k, l);
    }
  }

  /** The readings and times of a run determine all its states and reports. */
  lemma {:induction false} RunDeterministic(e: Environment, ticks: seq<Tick>,
    states1: seq<Mind>, results1: seq<Result<Analysis, Error>>,
    states2: seq<Mind>, results2: seq<Result<Analysis, Error>>, t: nat)
    requires Run(e, states1, ticks, results1) && Run(e, states2, ticks, results2) && t <= |ticks|
    ensures states1[..t + 1] == states2[..t + 1] && results1[..t] == results2[..t]
  {
    if t > 0 {
      RunDeterministic(e, ticks, states1, results1, states2, results2, t - 1);
      assert states1[t - 1] == states1[..t][t - 1] == states2[..t][t - 1] == states2[t - 1];
      assert StepAt(e, states1, ticks, results1, t - 1) && StepAt(e, states2, ticks, results2, t - 1);
      StepDeterministic(e, states1[t - 1], ticks[t - 1], states1[t], results1[t - 1], states2[t], results2[t - 1]);
      assert states1[..t + 1] == states1[..t] + [states1[t]] && states2[..t + 1] == states2[..t] + [states2[t]];
      assert results1[..t] == results1[..t - 1] + [results1[t - 1]];
      assert results2[..t] == results2[..t - 1] + [results2[t - 1]];
    }
  }

  /** Every state takes a step on every reading. */
  lemma StepTotal(e: Environment, s: Mind, tick: Tick) returns (s': Mind, r: Result<Analysis, Error>)
    ensures Step(e.cfg, e.p, e.sqrt, s, tick.x, tick.now, s', r)
  {
    hide Scored, NewestScore;
    var learned := s.(folded := s.folded + [tick.x]);
    var h := learned.folded;
    if |tick.x| != e.p {
      s', r := s, Err(Incompatible);
    } else if |h| < e.cfg.minSamples {
      s', r := learned, Ok(CALM);
    } else if |h| < 2 {
      s', r := learned, Err(TooFewSamples);
    } else if Singular(e.p, Cov(h)) {
      s', r := learned, Ok(CALM);
    } else {
      var k := InverseExists(e.p, Cov(h));
      s' := Scored(e.cfg, learned, NewestScore(e.p, e.sqrt, h, k), tick.now);
      ScoredHasReport(e, learned, NewestScore(e.p, e.sqrt, h, k), tick.now);
      r := Ok(Report(s'));
      assert ScoredWith(e.cfg, e.p, e.sqrt, learned, k, tick.now, s', r);
    }
  }

  lemma ScoredHasReport(e: Environment, s: Mind, dm: real, now: int)
    ensures Scored(e.cfg, s, dm, now).prev.Some?
  {
  }

  /** So every list of readings and times has a run, and by RunDeterministic only one. */
  lemma {:induction false} RunExists(e: Environment, ticks: seq<Tick>)
    returns (states: seq<Mind>, results: seq<Result<Analysis, Error>>)
    requires ValidEnvironment(e)
    ensures Run(e, states, ticks, results)
    decreases |ticks|
  {
    if |ticks| == 0 {
      states, results := [BLANK], [];
    } else {
      var before, tick := ticks[..|ticks| - 1], ticks[|ticks| - 1];
      states, results := RunExists(e, before);
      var s, r := StepTotal(e, states[|before|], tick);
      RunExtends(e, states, before, results, tick, s, r);
      assert ticks == before + [tick];
      states, results := states + [s], results + [r];
    }
  }

  /** Only the first reading a run scores can reach the bound on the score. */
  lemma LaterScoresBelowBound(e: Environment, states: seq<Mind>, ticks: seq<Tick>,
    results: seq<Result<Analysis, Error>>, t: nat, k: Mat)
    requires Run(e, states, ticks, results) && t < |ticks| && states[t].ewma.Some? && |ticks[t].x| == e.p
    requires |states[t + 1].folded| >= 2 && IsInverse(e.p, k, Cov(states[t + 1].folded))
    ensures var h := states[t + 1].folded;
      |h| as real * OwnStress(h, e.p, k)(|h| - 1) < (|h| - 1) as real * (|h| - 1) as real
  {
    hide Cov, Singular, IsInverse, OwnStress;
    RunSound(e, states, ticks, results, t);
    assert StepAt(e, states, ticks, results, t);
    FoldedGrows(e, states[t], ticks[t], states[t + 1], results[t]);
    var g, x := states[t].folded, ticks[t].x;
    OwnStressBounded(g + [x], e.p, k, |g|);
    BoundIffFirst(g, x, e.p, k);
  }

  lemma FoldedGrows(e: Environment, s: Mind, tick: Tick, s': Mind, r: Result<Analysis, Error>)
    requires Step(e.cfg, e.p, e.sqrt, s, tick.x, tick.now, s', r) && |tick.x| == e.p
    ensures s'.folded == s.folded + [tick.x]
  {
  }

  // ------------------------------------------------- the hysteresis machine inside a run

  /** Call t of Analyze scored its reading. */
  predicate ScoredAt(e: Environment, states: seq<Mind>, ticks: seq<Tick>, t: nat)
    requires |states| == |ticks| + 1 && t < |ticks|
  {
    |ticks[t].x| == e.p && states[t + 1].prev.Some?
  }

  /** The hysteresis cycle of a remembered score. */
  function CycleOf(e: Environment, s: StressReading): Cycle {
    var l := Resolve(e.cfg);
    Cycle(Candidate(l, s.dm, s.dmDot), s.dmDot < l.relax)
  }

  /** The cycles of the calls among the first t that scored, in order. */
  function ScoredCycles(e: Environment, states: seq<Mind>, ticks: seq<Tick>, t: nat): (run: seq<Cycle>)
    requires |states| == |ticks| + 1 && t <= |ticks|
    ensures |run| <= t
  {
    if t == 0 then []
    else
      var before := ScoredCycles(e, states, ticks, t - 1);
      if ScoredAt(e, states, ticks, t - 1) then before + [CycleOf(e, states[t].prev.value)] else before
  }

  /** A call that scores settles the held level on its cycle; any other leaves it alone. */
  lemma CallSettles(e: Environment, states: seq<Mind>, ticks: seq<Tick>, results: seq<Result<Analysis, Error>>, t: nat)
    requires Run(e, states, ticks, results) && t < |ticks|
    ensures states[t + 1].held ==
      if ScoredAt(e, states, ticks, t)
      then Settle(Resolve(e.cfg).hysteresisDown, states[t].held, CycleOf(e, states[t + 1].prev.value))
      else states[t].held
  {
    hide Cov, Singular, IsInverse, NewestScore, Resolve, Candidate, Smooth, Derivative, Settle;
    RunSound(e, states, ticks, results, t);
    assert StepAt(e, states, ticks, results, t);
    if |ticks[t].x| == e.p && states[t].ewma.Some? {
      StaysInvertible(states[t].folded, ticks[t].x, e.p);
    }
  }

  /** The levels of a run are those of the hysteresis machine on its scored cycles, call by
      call. */
  lemma {:induction false} CyclesOf(e: Environment, states: seq<Mind>, ticks: seq<Tick>,
    results: seq<Result<Analysis, Error>>, t: nat)
    requires Run(e, states, ticks, results) && t <= |ticks|
    ensures var h, run := Resolve(e.cfg).hysteresisDown, ScoredCycles(e, states, ticks, t);
      && states[t].held == After(h, run, |run|)
      && LevelChanges(states, t) == ChangeCount(h, run, |run|)
  {
    hide Resolve, Settle, Step, CycleOf, ScoredAt;
    if t > 0 {
      CyclesOf(e, states, ticks, results, t - 1);
      CallSettles(e, states, ticks, results, t - 1);
      var h := Resolve(e.cfg).hysteresisDown;
      var before, run := ScoredCycles(e, states, ticks, t - 1), ScoredCycles(e, states, ticks, t);
      AfterPrefix(h, before, run, |before|);
      ChangesPrefix(h, before, run, |before|);
    }
  }

  predicate FallsAt(states: seq<Mind>, t: nat)
    requires t + 1 < |states|
  {
    states[t + 1].held.level < states[t].held.level
  }

  /** A call of Analyze lowers the level exactly when it scores, the last h scored cycles
      were all quiet, and none of the earlier h - 1 among them already lowered it. */
  lemma AnalyzeFallsIff(e: Environment, states: seq<Mind>, ticks: seq<Tick>, results: seq<Result<Analysis, Error>>,
    t: nat)
    requires Run(e, states, ticks, results) && t < |ticks|
    ensures var h, run := Resolve(e.cfg).hysteresisDown, ScoredCycles(e, states, ticks, t + 1);
      FallsAt(states, t) <==>
        && ScoredAt(e, states, ticks, t) && |run| >= h
        && (forall s :: |run| - h <= s < |run| ==> Quiet(h, run, s))
        && (forall s :: |run| - h <= s < |run| - 1 ==> !Falls(h, run, s))
  {
    hide Resolve, Settle, Step, CycleOf, ScoredAt, Quiet;
    CyclesOf(e, states, ticks, results, t);
    CyclesOf(e, states, ticks, results, t + 1);
    CallSettles(e, states, ticks, results, t);
    var h := Resolve(e.cfg).hysteresisDown;
    var before, run := ScoredCycles(e, states, ticks, t), ScoredCycles(e, states, ticks, t + 1);
    if ScoredAt(e, states, ticks, t) {
      AfterPrefix(h, before, run, |before|);
      FallsIffQuietHistory(h, run, |before|);
    }
  }

  /** Call t of Analyze scored below the level held before it, with a relaxed derivative. */
  predicate QuietCall(e: Environment, states: seq<Mind>, t: nat)
    requires t + 1 < |states|
  {
    && states[t + 1].prev.Some?
    && CycleOf(e, states[t + 1].prev.value).candidate < states[t].held.level
    && CycleOf(e, states[t + 1].prev.value).relaxed
  }

  /** Calls that score and calls before the first score, as cycles; the latter candidates
      are homeostasis, which is the level held then. */
  function CallCycles(e: Environment, states: seq<Mind>, t: nat): (run: seq<Cycle>)
    requires t < |states|
    ensures |run| == t
  {
    seq(t, i requires 0 <= i < t =>
      if states[i + 1].prev.Some? then CycleOf(e, states[i + 1].prev.value) else Cycle(HOMEOSTASIS, false))
  }

  lemma {:induction false} HeldAfterCalls(e: Environment, states: seq<Mind>, ticks: seq<Tick>,
    results: seq<Result<Analysis, Error>>, t: nat, n: nat)
    requires Run(e, states, ticks, results) && t <= n <= |ticks|
    requires forall i :: 0 <= i < |ticks| ==> |ticks[i].x| == e.p
    ensures states[t].held == After(Resolve(e.cfg).hysteresisDown, CallCycles(e, states, n), t)
  {
    hide Resolve, CycleOf;
    if t > 0 {
      HeldAfterCalls(e, states, ticks, results, t - 1, n);
      CallSettles(e, states, ticks, results, t - 1);
      if states[t].prev.None? {
        RunSound(e, states, ticks, results, t);
        ColdCall(Resolve(e.cfg).hysteresisDown);
      }
    }
  }

  lemma ColdCall(h: nat)
    ensures Settle(h, START, Cycle(HOMEOSTASIS, false)) == START
  {
  }

  /** The history theorem call by call, for readings of the right length: Analyze lowers the
      level at call t exactly when its last h calls were all quiet and none of the earlier
      h - 1 among them lowered it. */
  lemma AnalyzeFallsOnQuietCalls(e: Environment, states: seq<Mind>, ticks: seq<Tick>,
    results: seq<Result<Analysis, Error>>, t: nat)
    requires Run(e, states, ticks, results) && t < |ticks|
    requires forall i :: 0 <= i < |ticks| ==> |ticks[i].x| == e.p
    ensures var h := Resolve(e.cfg).hysteresisDown;
      FallsAt(states, t) <==>
        && t + 1 >= h
        && (forall s :: t + 1 - h <= s <= t ==> QuietCall(e, states, s))
        && (forall s :: t + 1 - h <= s < t ==> !FallsAt(states, s))
  {
    hide Step, Resolve, CycleOf, After;
    var h, run := Resolve(e.cfg).hysteresisDown, CallCycles(e, states, |ticks|);
    forall s | 0 <= s < |ticks|
      ensures (Quiet(h, run, s) <==> QuietCall(e, states, s)) && (Falls(h, run, s) <==> FallsAt(states, s))
    {
      HeldAfterCalls(e, states, ticks, results, s, |ticks|);
      HeldAfterCalls(e, states, ticks, results, s + 1, |ticks|);
    }
    FallsIffQuietHistory(h, run, t);
  }

  // ------------------------------------------------- level changes over a run

  ghost function LevelChanges(states: seq<Mind>, t: nat): nat
    requires t < |states|
  {
    if t == 0 then 0 else
      LevelChanges(states, t - 1) + if states[t].held.level != states[t - 1].held.level then 1 else 0
  }

  lemma {:induction false} ChangesPrefix(h: nat, run: seq<Cycle>, more: seq<Cycle>, t: nat)
    requires t <= |run| && run <= more
    ensures ChangeCount(h, run, t) == ChangeCount(h, more, t)
  {
    if t > 0 {
      ChangesPrefix(h, run, more, t - 1);
      AfterPrefix(h, run, more, t);
      AfterPrefix(h, run, more, t - 1);
    }
  }

  /** Anti-flapping end to end: t calls of Analyze change the level at most
      5 * (t/h) + 4 times, whatever the readings and the clock do. */
  lemma RunAntiFlapping(e: Environment, states: seq<Mind>, ticks: seq<Tick>,
    results: seq<Result<Analysis, Error>>, t: nat)
    requires Run(e, states, ticks, results) && t <= |ticks|
    ensures LevelChanges(states, t) <= 5 * (t / Resolve(e.cfg).hysteresisDown) + 4
  {
    var h := Resolve(e.cfg).hysteresisDown;
    CyclesOf(e, states, ticks, results, t);
    var run := ScoredCycles(e, states, ticks, t);
    AntiFlapping(h, run, |run|);
    QuotientMonotone(h, |run|, t);
  }

  lemma QuotientMonotone(h: nat, x: nat, y: nat)
    requires h >= 1 && x <= y
    ensures x / h <= y / h
  {
    QuotientBound(h, x / h, y);
  }

  /** A run continued by one more step is a run. */
  lemma RunExtends(e: Environment, states: seq<Mind>, ticks: seq<Tick>, results: seq<Result<Analysis, Error>>,
    tick: Tick, s: Mind, r: Result<Analysis, Error>)
    requires Run(e, states, ticks, results)
    requires Step(e.cfg, e.p, e.sqrt, states[|ticks|], tick.x, tick.now, s, r)
    ensures Run(e, states + [s], ticks + [tick], results + [r])
    ensures LevelChanges(states + [s], |ticks| + 1) ==
      LevelChanges(states, |ticks|) + if s.held.level != states[|ticks|].held.level then 1 else 0
  {
    var states', ticks', results' := states + [s], ticks + [tick], results + [r];
    forall t | 0 <= t < |ticks'| ensures StepAt(e, states', ticks', results', t) {
      if t < |ticks| {
        assert StepAt(e, states, ticks, results, t);
      }
    }
    LevelChangesPrefix(states, states', |ticks|);
  }

  lemma {:induction false} LevelChangesPrefix(states: seq<Mind>, more: seq<Mind>, t: nat)
    requires t < |states| && states <= more
    ensures LevelChanges(states, t) == LevelChanges(more, t)
  {
    if t > 0 {
      LevelChangesPrefix(states, more, t - 1);
    }
  }
}
