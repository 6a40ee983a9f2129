/** Alert levels: classification by magnitude and derivative, held by hysteresis. */
module Hysteresis {

  /** Homeostasis, vigilance, containment, protection, survival. */
  type Level = x: int | 0 <= x <= 4

  const HOMEOSTASIS: Level := 0
  const VIGILANCE: Level := 1
  const CONTAINMENT: Level := 2
  const PROTECTION: Level := 3
  const SURVIVAL: Level := 4

  /** Zero or negative fields mean "use the built-in default". */
  datatype PredictorConfig = PredictorConfig(
    minSamples: int,
    alpha: real,
    vigilance: real,
    containment: real,
    protection: real,
    survival: real,
    escalate: real,
    relax: real,
    hysteresisDown: int)

  const DEFAULT_CONFIG := PredictorConfig(30, 0.2, 3.5, 5.5, 8.0, 12.0, 2.0, 0.5, 5)

  /** The thresholds in force once defaults are filled in. */
  datatype Limits = Limits(
    vigilance: real,
    containment: real,
    protection: real,
    survival: real,
    escalate: real,
    relax: real,
    hysteresisDown: nat)

  /** Every setting reads this way: zero or less selects the built-in value. */
  function OrDefault(x: real, d: real): (r: real)
    requires d > 0.0
    ensures r > 0.0
  {
    if x <= 0.0 then d else x
  }

  function Resolve(cfg: PredictorConfig): (l: Limits)
    ensures l.hysteresisDown >= 1
    ensures l.vigilance > 0.0 && l.containment > 0.0 && l.protection > 0.0 && l.survival > 0.0
    ensures l.escalate > 0.0 && l.relax > 0.0
  {
    Limits(
      OrDefault(cfg.vigilance, 3.5),
      OrDefault(cfg.containment, 5.5),
      OrDefault(cfg.protection, 8.0),
      OrDefault(cfg.survival, 12.0),
      OrDefault(cfg.escalate, 2.0),
      OrDefault(cfg.relax, 0.5),
      if cfg.hysteresisDown <= 0 then 5 else cfg.hysteresisDown)
  }

  /** Which limits a configuration selects, field by field: positive settings as they are,
      and the documented default for every other one. */
  lemma ResolvedLimits(cfg: PredictorConfig)
    ensures var l := Resolve(cfg);
      && (l.vigilance == cfg.vigilance > 0.0 || (cfg.vigilance <= 0.0 && l.vigilance == 3.5))
      && (l.containment == cfg.containment > 0.0 || (cfg.containment <= 0.0 && l.containment == 5.5))
      && (l.protection == cfg.protection > 0.0 || (cfg.protection <= 0.0 && l.protection == 8.0))
      && (l.survival == cfg.survival > 0.0 || (cfg.survival <= 0.0 && l.survival == 12.0))
      && (l.escalate == cfg.escalate > 0.0 || (cfg.escalate <= 0.0 && l.escalate == 2.0))
      && (l.relax == cfg.relax > 0.0 || (cfg.relax <= 0.0 && l.relax == 0.5))
      && (l.hysteresisDown == cfg.hysteresisDown > 0 || (cfg.hysteresisDown <= 0 && l.hysteresisDown == 5))
  {
  }

  /** The level for a magnitude alone; the highest threshold is tried first. */
  function BaseLevel(l: Limits, dm: real): Level {
    if dm >= l.survival then SURVIVAL
    else if dm >= l.protection then PROTECTION
    else if dm >= l.containment then CONTAINMENT
    else if dm >= l.vigilance then VIGILANCE
    else HOMEOSTASIS
  }

  /** A steep rise escalates by one level. */
  function Candidate(l: Limits, dm: real, dmDot: real): Level {
    var base := BaseLevel(l, dm);
    if dmDot > l.escalate && base < SURVIVAL then base + 1 else base
  }

  /** The least magnitude that classifies at level k or above. Thresholds need
      not be ordered: an operator may put protection above survival. */
  function LeastThreshold(l: Limits, k: Level): real
    requires k >= 1
  {
    if k == SURVIVAL then l.survival
    else if k == PROTECTION then Min(l.protection, l.survival)
    else if k == CONTAINMENT then Min(l.containment, Min(l.protection, l.survival))
    else Min(l.vigilance, Min(l.containment, Min(l.protection, l.survival)))
  }

  function Min(x: real, y: real): real {
    if x <= y then x else y
  }

  /** BaseLevel reaches k exactly at LeastThreshold(k), whatever the order of thresholds. */
  lemma BaseLevelReaches(l: Limits, dm: real, k: Level)
    requires k >= 1
    ensures BaseLevel(l, dm) >= k <==> dm >= LeastThreshold(l, k)
    ensures dm >= LeastThreshold(l, k) <==> AtMagnitude(l, dm, k)
  {
  }

  /** dm is at the threshold of level k or of some level above it. */
  predicate AtMagnitude(l: Limits, dm: real, k: Level) {
    k == 0 || dm >= l.survival || (k <= 3 && dm >= l.protection) || (k <= 2 && dm >= l.containment)
    || (k <= 1 && dm >= l.vigilance)
  }

  /** A score and its derivative call for level k: by magnitude, or by a steep rise when the
      magnitude calls for the level below. */
  predicate CallsFor(l: Limits, dm: real, dmDot: real, k: Level) {
    AtMagnitude(l, dm, k) || (k > 0 && dmDot > l.escalate && AtMagnitude(l, dm, k - 1))
  }

  /** The candidate is the highest level called for; a steep rise escalates from every level. */
  lemma CandidateReaches(l: Limits, dm: real, dmDot: real, k: Level)
    ensures Candidate(l, dm, dmDot) >= k <==> CallsFor(l, dm, dmDot, k)
    ensures k >= 1 ==> (Candidate(l, dm, dmDot) >= k <==>
      dm >= LeastThreshold(l, k) || (dmDot > l.escalate && (k == 1 || dm >= LeastThreshold(l, k - 1))))
  {
  }

  // ------------------------------------------------- holding a level

  /** The held level and how many quiet cycles in a row it has seen. */
  datatype Held = Held(level: Level, below: nat)

  /** What one cycle contributes: its candidate level, and whether the derivative
      was below the relaxation limit. */
  datatype Cycle = Cycle(candidate: Level, relaxed: bool)

  const START := Held(HOMEOSTASIS, 0)

  /** Rises at once, falls after h quiet cycles. */
  function Settle(h: nat, s: Held, c: Cycle): (r: Held)
    ensures r.level >= c.candidate
    ensures s.level <= c.candidate ==> r.level == c.candidate
    ensures r.level == s.level || r.level == c.candidate
  {
    if c.candidate < s.level then
      var below := if c.relaxed then s.below + 1 else 0;
      if below >= h then Held(c.candidate, 0) else Held(s.level, below)
    else
      Held(c.candidate, 0)
  }

  /** The held state after the first t cycles. */
  function After(h: nat, run: seq<Cycle>, t: nat): Held
    requires t <= |run|
  {
    if t == 0 then START else Settle(h, After(h, run, t - 1), run[t - 1])
  }

  /** Cycle t stays below the level held before it, with a relaxed derivative. */
  predicate Quiet(h: nat, run: seq<Cycle>, t: nat)
    requires t < |run|
  {
    run[t].candidate < After(h, run, t).level && run[t].relaxed
  }

  predicate Falls(h: nat, run: seq<Cycle>, t: nat)
    requires t < |run|
  {
    After(h, run, t + 1).level < After(h, run, t).level
  }

  predicate Rises(h: nat, run: seq<Cycle>, t: nat)
    requires t < |run|
  {
    After(h, run, t + 1).level > After(h, run, t).level
  }

  /** The counter is the length of the current streak of quiet cycles since the
      last one that was not quiet or that made the level fall. */
  lemma {:induction false} BelowIsStreak(h: nat, run: seq<Cycle>, t: nat)
    requires h >= 1 && t <= |run|
    ensures var b := After(h, run, t).below;
      && b < h && b <= t
      && (forall s :: t - b <= s < t ==> Quiet(h, run, s) && !Falls(h, run, s))
      && (b < t ==> !Quiet(h, run, t - b - 1) || Falls(h, run, t - b - 1))
  {
    if t > 0 {
      BelowIsStreak(h, run, t - 1);
    }
  }

  /** Hysteresis refines a statement about history: the level falls at cycle t
      exactly when the last h cycles were all quiet and none of the earlier h - 1
      among them already made it fall. */
  lemma FallsIffQuietHistory(h: nat, run: seq<Cycle>, t: nat)
    requires h >= 1 && t < |run|
    ensures Falls(h, run, t) <==>
      && t + 1 >= h
      && (forall s :: t + 1 - h <= s <= t ==> Quiet(h, run, s))
      && (forall s :: t + 1 - h <= s < t ==> !Falls(h, run, s))
  {
    BelowIsStreak(h, run, t);
    var b := After(h, run, t).below;
    assert Falls(h, run, t) <==> Quiet(h, run, t) && b == h - 1;
    if t + 1 >= h && b < h - 1 {
      // The streak is too short; the cycle that cut it lies among the last h - 1.
      var cut := t - b - 1;
      assert t + 1 - h <= cut < t;
      assert !Quiet(h, run, cut) || Falls(h, run, cut);
    }
  }

  // ------------------------------------------------- how far a descent goes

  /** A descent goes all the way to the candidate of its cycle, at once. */
  lemma FallsToCandidate(h: nat, run: seq<Cycle>, t: nat)
    requires t < |run| && Falls(h, run, t)
    ensures After(h, run, t + 1) == Held(run[t].candidate, 0)
  {
  }

  /** So it is a descent by one level exactly when the candidate is the next lower level. */
  lemma FallsByOneIff(h: nat, run: seq<Cycle>, t: nat)
    requires t < |run|
    ensures After(h, run, t + 1).level == After(h, run, t).level - 1 <==>
      Falls(h, run, t) && run[t].candidate == After(h, run, t).level - 1
  {
  }

  /** A drop from any level to any lower one is reachable, for every h. */
  lemma FarFall(h: nat, high: Level, low: Level) returns (run: seq<Cycle>)
    requires h >= 1 && low < high
    ensures |run| == h + 1
    ensures After(h, run, h).level == high && After(h, run, h + 1).level == low
  {
    run := [Cycle(high, true)] + Repeated(h, Cycle(low, true));
    assert After(h, run, 1) == Settle(h, After(h, run, 0), run[0]) == Held(high, 0);
    WaitsBelow(h, run, 1, h - 1);
    assert run[h] == Cycle(low, true);
  }

  function Repeated(n: nat, c: Cycle): (run: seq<Cycle>)
    ensures |run| == n && forall i :: 0 <= i < n ==> run[i] == c
  {
    seq(n, _ => c)
  }

  /** Fewer than h quiet cycles after a rise only advance the counter. */
  lemma {:induction false} WaitsBelow(h: nat, run: seq<Cycle>, from: nat, n: nat)
    requires n < h && from + n <= |run| && After(h, run, from).below == 0
    requires forall t :: from <= t < from + n ==> run[t].relaxed && run[t].candidate < After(h, run, from).level
    ensures After(h, run, from + n) == Held(After(h, run, from).level, n)
  {
    if n > 0 {
      WaitsBelow(h, run, from, n - 1);
    }
  }

  // ------------------------------------------------- monotonicity

  /** Cycle by cycle, high has at least the candidate of low, and is relaxed only when
      low is: its magnitude and its derivative are nowhere lower. */
  predicate Dominated(low: seq<Cycle>, high: seq<Cycle>) {
    |low| == |high| && forall t :: 0 <= t < |low| ==>
      low[t].candidate <= high[t].candidate && (high[t].relaxed ==> low[t].relaxed)
  }

  /** One cycle keeps the order of two held levels, except exactly when the higher one
      falls below the lower one and the lower one stays where it is. */
  lemma SettleMonotoneIff(h: nat, lo: Held, cl: Cycle, hi: Held, ch: Cycle)
    requires h >= 1 && lo.level <= hi.level && cl.candidate <= ch.candidate
    ensures Settle(h, lo, cl).level <= Settle(h, hi, ch).level <==>
      !(ch.candidate < lo.level && ch.relaxed && hi.below + 1 >= h && !(cl.relaxed && lo.below + 1 >= h))
  {
  }

  /** Over runs the machine is monotone exactly without hysteresis, that is for h == 1. */
  lemma MonotoneIffOneCycle(h: nat)
    requires h >= 1
    ensures (forall low, high :: Dominated(low, high) ==>
               After(h, low, |low|).level <= After(h, high, |high|).level) <==> h == 1
  {
    if h == 1 {
      forall low, high | Dominated(low, high)
        ensures After(h, low, |low|).level <= After(h, high, |high|).level
      {
        OneCycleMonotone(low, high, |low|);
      }
    } else {
      var low, high := HigherRunMayEndLower(h);
    }
  }

  lemma {:induction false} OneCycleMonotone(low: seq<Cycle>, high: seq<Cycle>, t: nat)
    requires Dominated(low, high) && t <= |low|
    ensures After(1, low, t).level <= After(1, high, t).level
  {
    if t > 0 {
      OneCycleMonotone(low, high, t - 1);
      SettleMonotoneIff(1, After(1, low, t - 1), low[t - 1], After(1, high, t - 1), high[t - 1]);
    }
  }

  /** For every h >= 2 a run that is nowhere lower, and equally relaxed, ends lower,
      because its quiet streak began earlier. */
  lemma HigherRunMayEndLower(h: nat) returns (low: seq<Cycle>, high: seq<Cycle>)
    requires h >= 2
    ensures Dominated(low, high) && forall t :: 0 <= t < |low| ==> low[t].relaxed == high[t].relaxed
    ensures |low| == h + 1 && After(h, low, h + 1).level == 2 && After(h, high, h + 1).level == 1
  {
    var rest := Repeated(h - 1, Cycle(2, true)) + [Cycle(1, true)];
    low, high := [Cycle(0, true)] + rest, [Cycle(3, true)] + rest;
    assert low[h] == high[h] == Cycle(1, true);
    assert After(h, high, 1) == Settle(h, After(h, high, 0), high[0]) == Held(3, 0);
    WaitsBelow(h, high, 1, h - 1);
    assert After(h, low, 1) == Settle(h, After(h, low, 0), low[0]) == Held(0, 0);
    StaysAt(h, low, 2, 1, h - 1);
  }

  /** Cycles whose candidate is the level hold it. */
  lemma {:induction false} StaysAt(h: nat, run: seq<Cycle>, level: Level, from: nat, n: nat)
    requires n >= 1 && from + n <= |run| && After(h, run, from).level <= level
    requires forall t :: from <= t < from + n ==> run[t].candidate == level
    ensures After(h, run, from + n) == Held(level, 0)
  {
    if n > 1 {
      StaysAt(h, run, level, from, n - 1);
    }
  }

  // ------------------------------------------------- anti-flapping

  function FallCount(h: nat, run: seq<Cycle>, t: nat): nat
    requires t <= |run|
  {
    if t == 0 then 0 else FallCount(h, run, t - 1) + if Falls(h, run, t - 1) then 1 else 0
  }

  function RiseCount(h: nat, run: seq<Cycle>, t: nat): nat
    requires t <= |run|
  {
    if t == 0 then 0 else RiseCount(h, run, t - 1) + if Rises(h, run, t - 1) then 1 else 0
  }

  function ChangeCount(h: nat, run: seq<Cycle>, t: nat): nat
    requires t <= |run|
  {
    if t == 0 then 0 else
      ChangeCount(h, run, t - 1) + if After(h, run, t).level != After(h, run, t - 1).level then 1 else 0
  }

  /** A descent uses up h cycles of its own, and a rise one. */
  lemma {:induction false} ChangesCostCycles(h: nat, run: seq<Cycle>, t: nat)
    requires h >= 1 && t <= |run|
    ensures h * FallCount(h, run, t) + RiseCount(h, run, t) + After(h, run, t).below <= t
  {
    if t > 0 {
      ChangesCostCycles(h, run, t - 1);
      StepCost(h, run, t - 1);
      OneMoreTimes(h, FallCount(h, run, t - 1));
    }
  }

  /** What one cycle adds to the account: a descent spends the counter, h - 1. */
  lemma StepCost(h: nat, run: seq<Cycle>, t: nat)
    requires h >= 1 && t < |run|
    ensures (if Falls(h, run, t) then h else 0) + (if Rises(h, run, t) then 1 else 0) + After(h, run, t + 1).below
      <= After(h, run, t).below + 1
  {
    BelowIsStreak(h, run, t);
  }

  lemma OneMoreTimes(h: nat, f: nat)
    ensures h * (f + 1) == h * f + h
  {
  }

  lemma {:induction false} RisesPaidByFalls(h: nat, run: seq<Cycle>, t: nat)
    requires t <= |run|
    ensures RiseCount(h, run, t) <= After(h, run, t).level + 4 * FallCount(h, run, t)
    ensures ChangeCount(h, run, t) == RiseCount(h, run, t) + FallCount(h, run, t)
  {
    if t > 0 {
      RisesPaidByFalls(h, run, t - 1);
    }
  }

  /** In any t cycles there are at most t/h descents and 5*(t/h) + 4 level changes. */
  lemma AntiFlapping(h: nat, run: seq<Cycle>, t: nat)
    requires h >= 1 && t <= |run|
    ensures FallCount(h, run, t) <= t / h
    ensures ChangeCount(h, run, t) <= 5 * (t / h) + 4
  {
    ChangesCostCycles(h, run, t);
    RisesPaidByFalls(h, run, t);
    QuotientBound(h, FallCount(h, run, t), t);
  }

  lemma QuotientBound(h: nat, f: nat, t: nat)
    requires h >= 1 && h * f <= t
    ensures f <= t / h
  {
    var q := t / h;
    assert t < h * (q + 1);
    if q + 1 <= f {
      TimesMonotone(h, q + 1, f);
    }
  }

  lemma TimesMonotone(h: nat, x: nat, y: nat)
    requires x <= y
    ensures h * x <= h * y
  {
  }

  /** Only the first t cycles matter for the state after them. */
  lemma {:induction false} AfterPrefix(h: nat, run: seq<Cycle>, more: seq<Cycle>, t: nat)
    requires t <= |run| && run <= more
    ensures After(h, run, t) == After(h, more, t)
  {
    if t > 0 {
      AfterPrefix(h, run, more, t - 1);
    }
  }
}
