/** What a run of Analyze reports, as a function of its readings and times alone. */
module Reports {
  import opened Prelude
  import opened Vectors
  import opened Inverses
  import opened Linalg
  import opened Samples
  import opened Mahalanobis
  import opened Hysteresis
  import opened Predictor
  import opened CortexRuns

  // ------------------------------------------------- which calls score, and their raw score

  /** The readings of the right length among the first t. */
  function Accepted(e: Environment, ticks: seq<Tick>, t: nat): History
    requires t <= |ticks|
  {
    if t == 0 then []
    else
      var before := Accepted(e, ticks, t - 1);
      if |ticks[t - 1].x| == e.p then before + [ticks[t - 1].x] else before
  }

  /** The baseline after call t is large enough, and its covariance is invertible. */
  ghost predicate Scores(e: Environment, ticks: seq<Tick>, t: nat)
    requires t < |ticks|
  {
    var h := Accepted(e, ticks, t + 1);
    && |ticks[t].x| == e.p
    && |h| >= e.cfg.minSamples && |h| >= 2
    && !Singular(e.p, Cov(h))
  }

  /** The last call before t that scored; -1 when none did. */
  ghost function Previous(e: Environment, ticks: seq<Tick>, t: nat): (u: int)
    requires t <= |ticks|
    ensures -1 <= u < t && (u >= 0 ==> Scores(e, ticks, u))
    ensures forall s :: 0 <= s && u < s < t ==> !Scores(e, ticks, s)
  {
    if t == 0 then -1 else if Scores(e, ticks, t - 1) then t - 1 else Previous(e, ticks, t - 1)
  }

  /** x minus the mean of h. */
  function Departure(h: History, x: Reading): Vec {
    j => Component(x, j) - Mean(h)(j)
  }

  /** dm is the Mahalanobis distance of x from the mean of h, in the covariance of h. */
  ghost predicate IsDistance(p: nat, h: History, x: Reading, dm: real)
    requires |h| >= 2
  {
    dm >= 0.0 && exists k :: IsInverse(p, k, Cov(h)) && dm * dm == Stress2(p, k, Departure(h, x))
  }

  /** There is only one such distance. */
  lemma DistanceUnique(p: nat, h: History, x: Reading, d1: real, d2: real)
    requires |h| >= 2 && IsDistance(p, h, x, d1) && IsDistance(p, h, x, d2)
    ensures d1 == d2
  {
    hide Cov, Stress2;
    var k :| IsInverse(p, k, Cov(h)) && d1 * d1 == Stress2(p, k, Departure(h, x));
    var l :| IsInverse(p, l, Cov(h)) && d2 * d2 == Stress2(p, l, Departure(h, x));
    InverseIsUnique(p, k, l, Cov(h));
    StressOfCopy(p, k, l, Departure(h, x));
    EqualRoots(d1, d2);
  }

  lemma StressOfCopy(p: nat, k: Mat, l: Mat, d: Vec)
    requires SameMat(p, p, k, l)
    ensures Stress2(p, k, d) == Stress2(p, l, d)
  {
    forall j | 0 <= j < p ensures VecMat(p, d, k)(j) == VecMat(p, d, l)(j) {
      DotCong(p, d, Col(k, j), d, Col(l, j));
    }
    DotCong(p, VecMat(p, d, k), d, VecMat(p, d, l), d);
  }

  lemma EqualRoots(x: real, y: real)
    requires x >= 0.0 && y >= 0.0 && x * x == y * y
    ensures x == y
  {
    if x < y {
      PositiveProduct(y - x, y + x, (y - x) * (y + x));
    } else if y < x {
      PositiveProduct(x - y, x + y, (x - y) * (x + y));
    }
  }

  // ------------------------------------------------- the memory is what was reported last

  /** After t calls the cortex has folded the accepted readings, and what it remembers is the
      report of the last call that scored. */
  ghost predicate Remembers(e: Environment, s: Mind, ticks: seq<Tick>, results: seq<Result<Analysis, Error>>, t: nat)
    requires t <= |ticks| == |results|
  {
    var u := Previous(e, ticks, t);
    && s.folded == Accepted(e, ticks, t)
    && (u < 0 ==> s.ewma.None? && s.prev.None? && s.held == START)
    && (u >= 0 ==>
          && results[u].Ok? && s.ewma == Some(results[u].value.stress)
          && s.prev.Some? && s.prev.value.dm == results[u].value.stress
          && s.prev.value.dmDot == results[u].value.dmDot
          && s.prev.value.timestamp == ticks[u].now
          && s.held.level == results[u].value.level)
  }

  lemma {:induction false} MemoryIsLastReport(e: Environment, states: seq<Mind>, ticks: seq<Tick>,
    results: seq<Result<Analysis, Error>>, t: nat)
    requires Run(e, states, ticks, results) && t <= |ticks|
    ensures Remembers(e, states[t], ticks, results, t)
  {
    if t > 0 {
      MemoryIsLastReport(e, states, ticks, results, t - 1);
      assert StepAt(e, states, ticks, results, t - 1);
      CallRemembers(e, states, ticks, results, t - 1);
    }
  }

  /** One call keeps that: it scores exactly when Scores says so. */
  lemma CallRemembers(e: Environment, states: seq<Mind>, ticks: seq<Tick>,
    results: seq<Result<Analysis, Error>>, t: nat)
    requires Run(e, states, ticks, results) && t < |ticks| && Remembers(e, states[t], ticks, results, t)
    ensures Remembers(e, states[t + 1], ticks, results, t + 1)
  {
    hide Cov, Singular, IsInverse, NewestScore, Resolve, Candidate, Smooth, Derivative, Settle;
    assert StepAt(e, states, ticks, results, t);
  }

  // ------------------------------------------------- calls that do not score

  /** The reports of all other calls: an error for a reading of the wrong length, zero stress
      and derivative at level 0 while calibrating or while the covariance is singular, and an
      error for a single reading when no calibration is asked for. */
  lemma OtherReports(e: Environment, states: seq<Mind>, ticks: seq<Tick>,
    results: seq<Result<Analysis, Error>>, t: nat)
    requires Run(e, states, ticks, results) && t < |ticks| && !Scores(e, ticks, t)
    ensures var n := |Accepted(e, ticks, t + 1)|;
      results[t] ==
        if |ticks[t].x| != e.p then Err(Incompatible)
        else if n < 2 && n >= e.cfg.minSamples then Err(TooFewSamples)
        else Ok(Analysis(0.0, 0.0, 0))
  {
    hide Cov, Singular, IsInverse, Scored, NewestScore;
    MemoryIsLastReport(e, states, ticks, results, t);
    assert StepAt(e, states, ticks, results, t);
  }

  // ------------------------------------------------- calls that score

  /** What a call that scores does to the memory, before it is read as a report. */
  lemma ScoringCall(e: Environment, states: seq<Mind>, ticks: seq<Tick>,
    results: seq<Result<Analysis, Error>>, t: nat) returns (raw: real)
    requires Run(e, states, ticks, results) && t < |ticks| && Scores(e, ticks, t)
    ensures IsDistance(e.p, Accepted(e, ticks, t + 1), ticks[t].x, raw)
    ensures states[t + 1] == Scored(e.cfg, states[t].(folded := Accepted(e, ticks, t + 1)), raw, ticks[t].now)
    ensures results[t] == Ok(Report(states[t + 1]))
    ensures states[t + 1].prev.Some?
  {
    hide Cov, Singular, IsInverse, Scored, NewestScore, Stress2;
    MemoryIsLastReport(e, states, ticks, results, t);
    assert StepAt(e, states, ticks, results, t);
    var learned := states[t].(folded := states[t].folded + [ticks[t].x]);
    var h := learned.folded;
    var k :| IsInverse(e.p, k, Cov(h))
      && ScoredWith(e.cfg, e.p, e.sqrt, learned, k, ticks[t].now, states[t + 1], results[t]);
    raw := NewestScore(e.p, e.sqrt, h, k);
    NewestScoreBounded(e, h, k);
    RawIsDistance(e, h, k);
    ScoredHasReport(e, learned, raw, ticks[t].now);
  }

  lemma DepartureIsCentered(p: nat, h: History)
    requires |h| >= 1
    ensures SameVec(p, Row(Centered(h), |h| - 1), Departure(h, h[|h| - 1]))
  {
    var t := |h| - 1;
    forall j | 0 <= j < p ensures Row(Centered(h), t)(j) == Departure(h, h[t])(j) {
      assert Row(Centered(h), t)(j) == Data(h)(t, j) - Mean(h)(j);
      assert Data(h)(t, j) == Component(h[t], j);
    }
  }

  lemma RawIsDistance(e: Environment, h: History, k: Mat)
    requires ValidEnvironment(e) && |h| >= 2 && IsInverse(e.p, k, Cov(h))
    ensures IsDistance(e.p, h, h[|h| - 1], NewestScore(e.p, e.sqrt, h, k))
  {
    hide Cov, IsInverse, Stress2;
    NewestScoreBounded(e, h, k);
    OwnStressBounded(h, e.p, k, |h| - 1);
    DepartureIsCentered(e.p, h);
    SameStress(e.p, k, Row(Centered(h), |h| - 1), Departure(h, h[|h| - 1]));
  }

  /** The reported stress is the distance smoothed: the first one as it is, and later ones
      blended with the stress reported before. The reported derivative is the difference of the
      two reported stresses per second, and zero without a report before or without elapsed
      time. */
  lemma ReportedScore(e: Environment, states: seq<Mind>, ticks: seq<Tick>,
    results: seq<Result<Analysis, Error>>, t: nat) returns (raw: real)
    requires Run(e, states, ticks, results) && t < |ticks| && Scores(e, ticks, t)
    ensures IsDistance(e.p, Accepted(e, ticks, t + 1), ticks[t].x, raw) && results[t].Ok?
    ensures var a, u := results[t].value, Previous(e, ticks, t);
      && (u < 0 ==> a.stress == raw && a.dmDot == 0.0)
      && (u >= 0 ==> results[u].Ok?)
      && (u >= 0 ==> a.stress == e.cfg.alpha * raw + (1.0 - e.cfg.alpha) * results[u].value.stress)
      && (u >= 0 && ticks[t].now <= ticks[u].now ==> a.dmDot == 0.0)
      && (u >= 0 && ticks[t].now > ticks[u].now ==>
            a.dmDot * ((ticks[t].now - ticks[u].now) as real / 1000000000.0) ==
            a.stress - results[u].value.stress)
  {
    hide Cov, Singular, IsInverse, IsDistance, Resolve, Candidate, Settle, Derivative;
    MemoryIsLastReport(e, states, ticks, results, t);
    raw := ScoringCall(e, states, ticks, results, t);
  }

  /** The level before call t, as reported; level 0 before the first score. */
  ghost function LevelBeforeCall(e: Environment, ticks: seq<Tick>, results: seq<Result<Analysis, Error>>, t: nat): int
    requires t <= |ticks| == |results|
  {
    var u := Previous(e, ticks, t);
    if u >= 0 && results[u].Ok? then results[u].value.level else 0
  }

  /** A report calls for level k by its own stress and derivative. */
  predicate ReportCallsFor(e: Environment, a: Analysis, k: Level) {
    CallsFor(Resolve(e.cfg), a.stress, a.dmDot, k)
  }

  /** A reported level is never below what the report calls for. It exceeds the level before
      only when called for, and when it falls it falls to exactly what is called for. */
  lemma ReportedLevel(e: Environment, states: seq<Mind>, ticks: seq<Tick>,
    results: seq<Result<Analysis, Error>>, t: nat)
    requires Run(e, states, ticks, results) && t < |ticks| && Scores(e, ticks, t)
    ensures results[t].Ok?
    ensures var a, before := results[t].value, LevelBeforeCall(e, ticks, results, t);
      && (forall k: Level :: ReportCallsFor(e, a, k) ==> a.level >= k)
      && (a.level != before ==> forall k: Level :: a.level >= k ==> ReportCallsFor(e, a, k))
  {
    hide Cov, Singular, IsInverse, IsDistance, Resolve, Candidate, Smooth, Derivative, CallsFor;
    MemoryIsLastReport(e, states, ticks, results, t);
    var raw := ScoringCall(e, states, ticks, results, t);
    var a := results[t].value;
    forall k: Level ensures Candidate(Resolve(e.cfg), a.stress, a.dmDot) >= k <==> ReportCallsFor(e, a, k) {
      CandidateReaches(Resolve(e.cfg), a.stress, a.dmDot, k);
    }
  }

  // ------------------------------------------------- when a reported level falls

  ghost predicate Lowers(e: Environment, ticks: seq<Tick>, results: seq<Result<Analysis, Error>>, t: nat)
    requires t < |ticks| == |results|
  {
    Scores(e, ticks, t) && results[t].Ok? && results[t].value.level < LevelBeforeCall(e, ticks, results, t)
  }

  /** A report that does not call for the level before it, with a derivative below the limit. */
  ghost predicate QuietReport(e: Environment, ticks: seq<Tick>, results: seq<Result<Analysis, Error>>, t: nat)
    requires t < |ticks| == |results|
  {
    && Scores(e, ticks, t) && results[t].Ok?
    && (var before := LevelBeforeCall(e, ticks, results, t);
        0 < before <= 4 && !ReportCallsFor(e, results[t].value, before))
    && results[t].value.dmDot < Resolve(e.cfg).relax
  }

  /** The reports see what the states do. */
  lemma ReportsAndStates(e: Environment, states: seq<Mind>, ticks: seq<Tick>,
    results: seq<Result<Analysis, Error>>, t: nat)
    requires Run(e, states, ticks, results) && t < |ticks|
    ensures FallsAt(states, t) <==> Lowers(e, ticks, results, t)
    ensures |ticks[t].x| == e.p ==> (QuietCall(e, states, t) <==> QuietReport(e, ticks, results, t))
  {
    hide Cov, Singular, IsInverse, IsDistance, Resolve, Candidate, Smooth, Derivative, CallsFor, Settle;
    MemoryIsLastReport(e, states, ticks, results, t);
    MemoryIsLastReport(e, states, ticks, results, t + 1);
    if Scores(e, ticks, t) {
      var raw := ScoringCall(e, states, ticks, results, t);
      var a := results[t].value;
      CandidateReaches(Resolve(e.cfg), a.stress, a.dmDot, states[t].held.level);
      EveryScoreReachesZero(Resolve(e.cfg), a.stress, a.dmDot);
    } else if |ticks[t].x| == e.p {
      NeverScoredBefore(e, states, ticks, results, t);
    }
  }

  lemma EveryScoreReachesZero(l: Limits, dm: real, dmDot: real)
    ensures CallsFor(l, dm, dmDot, 0)
  {
  }

  /** A well-formed reading that does not score comes before all that do. */
  lemma NeverScoredBefore(e: Environment, states: seq<Mind>, ticks: seq<Tick>,
    results: seq<Result<Analysis, Error>>, t: nat)
    requires Run(e, states, ticks, results) && t < |ticks| && |ticks[t].x| == e.p && !Scores(e, ticks, t)
    ensures states[t].ewma.None? && states[t + 1].prev.None?
  {
    hide Cov, Singular, IsInverse;
    MemoryIsLastReport(e, states, ticks, results, t);
    MemoryIsLastReport(e, states, ticks, results, t + 1);
    RunSound(e, states, ticks, results, t);
    if states[t].ewma.Some? {
      StaysInvertible(states[t].folded, ticks[t].x, e.p);
      assert false;
    }
  }

  /** The history of a descent in terms of reports alone, for readings of the right length: a
      reported level falls at call t exactly when the last h reports were quiet and none of the
      earlier h - 1 of them already lowered the level. */
  lemma LevelFallsOnQuietReports(e: Environment, states: seq<Mind>, ticks: seq<Tick>,
    results: seq<Result<Analysis, Error>>, t: nat)
    requires Run(e, states, ticks, results) && t < |ticks|
    requires forall i :: 0 <= i < |ticks| ==> |ticks[i].x| == e.p
    ensures var h := Resolve(e.cfg).hysteresisDown;
      Lowers(e, ticks, results, t) <==>
        && t + 1 >= h
        && (forall s :: t + 1 - h <= s <= t ==> QuietReport(e, ticks, results, s))
        && (forall s :: t + 1 - h <= s < t ==> !Lowers(e, ticks, results, s))
  {
    hide Step, Resolve, QuietCall, QuietReport, FallsAt, Lowers;
    AnalyzeFallsOnQuietCalls(e, states, ticks, results, t);
    forall s | 0 <= s < |ticks|
      ensures QuietCall(e, states, s) <==> QuietReport(e, ticks, results, s)
      ensures FallsAt(states, s) <==> Lowers(e, ticks, results, s)
    {
      ReportsAndStates(e, states, ticks, results, s);
    }
  }
}
