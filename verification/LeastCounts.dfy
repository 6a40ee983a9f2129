/** The least reading counts for Protection and Survival are reached. */
module LeastCounts {
  import opened Prelude
  import opened Vectors
  import opened Inverses
  import opened Linalg
  import opened Samples
  import opened Mahalanobis
  import opened Hysteresis
  import opened Predictor
  import opened CortexRuns

  /** One busy reading of a single probe, then idle ones: n in all. */
  function Warmup(n: nat): History
    requires n >= 1
  {
    [[1.0]] + Idle(n - 1)
  }

  /** The score of a reading of one probe, in terms of the scatter. */
  lemma SingleProbeScore(h: History, k: Mat, t: int)
    requires |h| >= 2 && IsInverse(1, k, Cov(h))
    ensures Scatter(h)(0, 0) * OwnStress(h, 1, k)(t) ==
      (|h| - 1) as real * (Centered(h)(t, 0) * Centered(h)(t, 0))
  {
    hide Scatter, Centered;
    var m, c, q, d := (|h| - 1) as real, Cov(h)(0, 0), k(0, 0), Centered(h)(t, 0);
    assert Dot(1, Row(k, 0), Col(Cov(h), 0)) == Dot(0, Row(k, 0), Col(Cov(h), 0)) + q * c;
    QuotientTimes(Scatter(h)(0, 0), m);
    ScalarStress(q, d, k, Row(Centered(h), t));
    ScoreAlgebra(m, c, q, d, Scatter(h)(0, 0), OwnStress(h, 1, k)(t));
  }

  lemma ScoreAlgebra(m: real, c: real, q: real, d: real, s: real, score: real)
    requires q * c == 1.0 && m * c == s && score == (d * q) * d
    ensures s * score == m * (d * d)
  {
    assert s * score == m * (q * c) * (d * d);
  }

  /** A positive scatter of one probe makes the covariance invertible. */
  lemma SpreadInverts(h: History)
    requires |h| >= 2 && Scatter(h)(0, 0) > 0.0
    ensures !Singular(1, Cov(h))
  {
    hide Scatter;
    var c := Cov(h)(0, 0);
    QuotientTimes(Scatter(h)(0, 0), (|h| - 1) as real);
    PositiveFactor((|h| - 1) as real, c, Scatter(h)(0, 0));
    var q := 1.0 / c;
    QuotientTimes(1.0, c);
    var k: Mat := (i, j) => q;
    ScalarInverse(q, c, k, Cov(h));
    InvertibleIsNotSingular(1, k, Cov(h));
  }

  /** The warm-up has n * m == 1 for its mean m, and scatter 1 - m. */
  lemma WarmupStatistics(n: nat) returns (m: real)
    requires n >= 2
    ensures m == Mean(Warmup(n))(0) && n as real * m == 1.0
    ensures Scatter(Warmup(n))(0, 0) == 1.0 - m > 0.0
  {
    hide Mean, Scatter;
    var d;
    m, d := SpikeStatistics(n);
    assert multiset(Warmup(n)) == multiset(Spike(n));
    StatisticsIgnoreOrder(Warmup(n), Spike(n), 0, 0);
  }

  /** Its last reading scores D^2 == m. */
  lemma WarmupScore(n: nat, k: Mat) returns (m: real)
    requires n >= 2 && IsInverse(1, k, Cov(Warmup(n)))
    ensures n as real * m == 1.0 && OwnStress(Warmup(n), 1, k)(n - 1) == m
  {
    hide Mean, Scatter, OwnStress, Cov, IsInverse;
    m := WarmupStatistics(n);
    SingleProbeScore(Warmup(n), k, n - 1);
    IdleDeviation(n);
    WarmupAlgebra(n as real, (n - 1) as real, m, OwnStress(Warmup(n), 1, k)(n - 1));
  }

  lemma IdleDeviation(n: nat)
    requires n >= 2
    ensures Centered(Warmup(n))(n - 1, 0) == -Mean(Warmup(n))(0)
  {
    assert Warmup(n)[n - 1] == [0.0];
  }

  lemma WarmupAlgebra(n: real, f: real, m: real, q: real)
    requires n >= 2.0 && f == n - 1.0 && n * m == 1.0 && (1.0 - m) * q == f * (-m * -m)
    ensures q == m
  {
    assert 1.0 - m == f * m;
    assert (1.0 - m) * m == f * (m * m);
    assert n * (1.0 - m) == f;
    SmallMean(n, m);
    SameFactor(1.0 - m, q, m);
  }

  /** The warm-up and one reading of 1000: n readings in all. */
  function LateSpike(n: nat): History
    requires n >= 2
  {
    Warmup(n - 1) + [[1000.0]]
  }

  lemma LateSpikeStatistics(n: nat, m: real) returns (mean: real, s: real)
    requires n >= 3 && (n - 1) as real * m == 1.0
    ensures n as real * mean == 1001.0
    ensures s == 1.0 - m + (1000.0 - m) * (1000.0 - mean) == Scatter(LateSpike(n))(0, 0)
    ensures Centered(LateSpike(n))(n - 1, 0) == 1000.0 - mean
  {
    var h := Warmup(n - 1);
    var m' := WarmupStatistics(n - 1);
    SameFactor((n - 1) as real, m, m');
    mean := Mean(LateSpike(n))(0);
    s := Scatter(LateSpike(n))(0, 0);
    MeanAppend(h, [1000.0], 0);
    ScatterAppend(h, [1000.0], 0, 0, 1000.0 - m, 1000.0 - mean);
    assert LateSpike(n)[n - 1] == [1000.0];
  }

  /** Among 66 readings the late spike has D >= 8, and among 33 it has D >= 5.5. */
  lemma LateSpikeScore(n: nat, k: Mat)
    requires (n == 33 || n == 66) && IsInverse(1, k, Cov(LateSpike(n)))
    ensures OwnStress(LateSpike(n), 1, k)(n - 1) >= if n == 66 then 8.0 * 8.0 else 5.5 * 5.5
  {
    hide Scatter, Centered, OwnStress, Cov, IsInverse;
    var m := 1.0 / (n - 1) as real;
    QuotientTimes(1.0, (n - 1) as real);
    var mean, s := LateSpikeStatistics(n, m);
    SingleProbeScore(LateSpike(n), k, n - 1);
    var q := OwnStress(LateSpike(n), 1, k)(n - 1);
    if n == 66 {
      Numbers66(m, mean, s, q);
    } else {
      Numbers33(m, mean, s, q);
    }
  }

  lemma Numbers66(m: real, mean: real, s: real, q: real)
    requires 65.0 * m == 1.0 && 66.0 * mean == 1001.0
    requires s == 1.0 - m + (1000.0 - m) * (1000.0 - mean)
    requires s * q == 65.0 * ((1000.0 - mean) * (1000.0 - mean))
    ensures q >= 64.0
  {
    assert m == 1.0 / 65.0 && mean == 1001.0 / 66.0;
    assert s > 0.0 && s * 64.0 <= s * q;
    CancelFactor(s, 64.0, q);
  }

  lemma Numbers33(m: real, mean: real, s: real, q: real)
    requires 32.0 * m == 1.0 && 33.0 * mean == 1001.0
    requires s == 1.0 - m + (1000.0 - m) * (1000.0 - mean)
    requires s * q == 32.0 * ((1000.0 - mean) * (1000.0 - mean))
    ensures q >= 30.25
  {
    assert m == 1.0 / 32.0 && mean == 1001.0 / 33.0;
    assert s > 0.0 && s * 30.25 <= s * q;
    CancelFactor(s, 30.25, q);
  }

  // ------------------------------------------------- the run

  /** One reading a second. */
  function SpikeTicks(n: nat): seq<Tick>
    requires n >= 2
  {
    seq(n, i requires 0 <= i < n => Tick(LateSpike(n)[i], 1000000000 * i))
  }

  lemma {:induction false} FoldedSoFar(e: Environment, states: seq<Mind>, results: seq<Result<Analysis, Error>>,
    n: nat, t: nat)
    requires n >= 2 && e.p == 1 && Run(e, states, SpikeTicks(n), results) && t <= n
    ensures states[t].folded == LateSpike(n)[..t]
  {
    hide Step;
    if t > 0 {
      FoldedSoFar(e, states, results, n, t - 1);
      assert StepAt(e, states, SpikeTicks(n), results, t - 1);
      OneProbe(n, t - 1);
      FoldedGrows(e, states[t - 1], SpikeTicks(n)[t - 1], states[t], results[t - 1]);
      assert LateSpike(n)[..t] == LateSpike(n)[..t - 1] + [LateSpike(n)[t - 1]];
    }
  }

  lemma OneProbe(n: nat, t: nat)
    requires n >= 2 && t < n
    ensures |LateSpike(n)[t]| == 1
  {
    if 0 < t < n - 1 {
      assert LateSpike(n)[t] == Idle(n - 2)[t - 1];
    }
  }

  /** What a scored call without smoothing remembers. */
  lemma UnsmoothedCall(e: Environment, states: seq<Mind>, ticks: seq<Tick>, results: seq<Result<Analysis, Error>>,
    t: nat) returns (k: Mat)
    requires Run(e, states, ticks, results) && t < |ticks| && e.cfg.alpha == 1.0
    requires var h := states[t].folded + [ticks[t].x];
      |ticks[t].x| == e.p && |h| >= e.cfg.minSamples && |h| >= 2 && !Singular(e.p, Cov(h))
    ensures var h := states[t].folded + [ticks[t].x];
      && IsInverse(e.p, k, Cov(h))
      && var dm := NewestScore(e.p, e.sqrt, h, k);
      && dm >= 0.0 && dm * dm == OwnStress(h, e.p, k)(|h| - 1)
      && states[t + 1].prev.Some? && results[t] == Ok(Report(states[t + 1]))
      && states[t + 1].prev.value.dm == dm && states[t + 1].prev.value.timestamp == ticks[t].now
      && states[t + 1].prev.value.dmDot == Derivative(states[t].prev, dm, ticks[t].now)
      && CycleOf(e, states[t + 1].prev.value).candidate <= states[t + 1].held.level
  {
    hide Cov, Singular, IsInverse, OwnStress, Derivative, Candidate, Resolve;
    assert StepAt(e, states, ticks, results, t);
    var learned := states[t].(folded := states[t].folded + [ticks[t].x]);
    var h := learned.folded;
    k :| IsInverse(e.p, k, Cov(h))
      && ScoredWith(e.cfg, e.p, e.sqrt, learned, k, ticks[t].now, states[t + 1], results[t]);
    NewestScoreBounded(e, h, k);
    NoSmoothing(learned.ewma, NewestScore(e.p, e.sqrt, h, k));
  }

  lemma NoSmoothing(ewma: Option<real>, dm: real)
    ensures Smooth(1.0, ewma, dm) == dm
  {
  }

  lemma RootAtLeast(x: real, y: real)
    requires x >= 0.0 && y >= 0.0 && x * x >= y * y
    ensures x >= y
  {
    if x < y {
      PositiveProduct(y - x, y + x, (y - x) * (y + x));
    }
  }

  /** The last idle reading is scored, with D <= 1. */
  lemma BeforeSpike(e: Environment, states: seq<Mind>, results: seq<Result<Analysis, Error>>, n: nat)
    requires e.cfg == DEFAULT_CONFIG.(alpha := 1.0) && e.p == 1 && n >= 31
    requires Run(e, states, SpikeTicks(n), results)
    ensures states[n - 1].prev.Some? && states[n - 1].prev.value.dm <= 1.0
    ensures states[n - 1].prev.value.timestamp == SpikeTicks(n)[n - 2].now
  {
    hide Step, Scatter, OwnStress, Cov, Singular, IsInverse, CycleOf, SpikeTicks, LateSpike, Warmup, NewestScore;
    SpikeTicksLength(n);
    FoldedSoFar(e, states, results, n, n - 2);
    Ends(n);
    var m := WarmupStatistics(n - 1);
    SpreadInverts(Warmup(n - 1));
    var k := UnsmoothedCall(e, states, SpikeTicks(n), results, n - 2);
    var m0 := WarmupScore(n - 1, k);
    SmallRoot((n - 1) as real, m0, states[n - 1].prev.value.dm);
  }

  /** The spike is scored, steeply above that. */
  lemma AtSpike(e: Environment, states: seq<Mind>, results: seq<Result<Analysis, Error>>, n: nat)
    requires e.cfg == DEFAULT_CONFIG.(alpha := 1.0) && e.p == 1 && (n == 33 || n == 66)
    requires Run(e, states, SpikeTicks(n), results)
    ensures states[n].prev.Some? && results[n - 1] == Ok(Report(states[n]))
    ensures CycleOf(e, states[n].prev.value).candidate <= states[n].held.level
    ensures states[n].prev.value.dm >= if n == 66 then 8.0 else 5.5
    ensures states[n].prev.value.dmDot >= states[n].prev.value.dm - 1.0
  {
    hide Step, Scatter, OwnStress, Cov, Singular, IsInverse, CycleOf, LateSpike, Warmup, NewestScore, Derivative;
    SpikeTicksLength(n);
    FoldedSoFar(e, states, results, n, n - 1);
    Ends(n);
    var m := WarmupStatistics(n - 1);
    SpreadInverts(Warmup(n - 1));
    StaysInvertible(Warmup(n - 1), [1000.0], 1);
    var k := UnsmoothedCall(e, states, SpikeTicks(n), results, n - 1);
    LateSpikeScore(n, k);
    RootAtLeast(states[n].prev.value.dm, if n == 66 then 8.0 else 5.5);
    BeforeSpike(e, states, results, n);
    SecondLater(n, states[n - 1].prev.value, states[n].prev.value);
  }

  lemma SpikeTicksLength(n: nat)
    requires n >= 2
    ensures |SpikeTicks(n)| == |LateSpike(n)| == n
  {
  }

  /** The counts of DefaultsNeedReadings are exact: with the default thresholds, one probe and
      no smoothing there is a run that reports Protection at reading 33, and one that reports
      Survival at reading 66. */
  lemma LeastCountsReached(e: Environment, n: nat)
    returns (states: seq<Mind>, results: seq<Result<Analysis, Error>>)
    requires ValidEnvironment(e) && e.cfg == DEFAULT_CONFIG.(alpha := 1.0) && e.p == 1
    requires n == 33 || n == 66
    ensures Run(e, states, SpikeTicks(n), results) && |states[n].folded| == n
    ensures results[n - 1].Ok? && results[n - 1].value.level == if n == 66 then SURVIVAL else PROTECTION
  {
    hide Step, CycleOf, LateSpike;
    states, results := RunExists(e, SpikeTicks(n));
    SpikeTicksLength(n);
    FoldedSoFar(e, states, results, n, n);
    AtSpike(e, states, results, n);
    SteepRise(e, n, states[n].prev.value);
    DefaultsNeedReadings(e, states, SpikeTicks(n), results, n - 1);
  }

  lemma Ends(n: nat)
    requires n >= 3
    ensures LateSpike(n)[..n - 2] + [SpikeTicks(n)[n - 2].x] == Warmup(n - 1)
    ensures LateSpike(n)[..n - 1] + [SpikeTicks(n)[n - 1].x] == Warmup(n - 1) + [[1000.0]] == LateSpike(n)
    ensures |SpikeTicks(n)[n - 2].x| == |SpikeTicks(n)[n - 1].x| == 1
  {
    OneProbe(n, n - 2);
    assert LateSpike(n)[n - 1] == [1000.0];
  }

  lemma SmallRoot(n: real, m: real, x: real)
    requires n >= 2.0 && n * m == 1.0 && x >= 0.0 && x * x == m
    ensures x <= 1.0
  {
    SmallMean(n, m);
    RootAtLeast(1.0, x);
  }

  /** Over one second the derivative is the difference of the scores. */
  lemma SecondLater(n: nat, before: StressReading, now: StressReading)
    requires n >= 2 && before.timestamp == SpikeTicks(n)[n - 2].now && now.timestamp == SpikeTicks(n)[n - 1].now
    requires now.dmDot == Derivative(Some(before), now.dm, now.timestamp)
    ensures now.dmDot == now.dm - before.dm
  {
    assert (now.timestamp - before.timestamp) as real / NANOS == 1.0;
  }

  lemma SteepRise(e: Environment, n: nat, now: StressReading)
    requires e.cfg == DEFAULT_CONFIG.(alpha := 1.0) && (n == 33 || n == 66)
    requires now.dm >= (if n == 66 then 8.0 else 5.5) && now.dmDot >= now.dm - 1.0
    ensures CycleOf(e, now).candidate >= if n == 66 then SURVIVAL else PROTECTION
  {
  }
}
