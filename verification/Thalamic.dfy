/** The thalamic filter: which events the run of levels puts into the log. */
module Thalamic {
  import opened Hysteresis

  datatype EventType =
    | Heartbeat
    | AnomalyDetected
    | LevelChange
    | ContainmentApplied
    | HomeostasisRestored
    | ProtectionApplied
    | SurvivalEngaged

  datatype Event = Event(timestamp: int, kind: EventType, level: Level, stressDM: real, stressDMDot: real)

  datatype FilterState = FilterState(level: Level, lastHeartbeat: int, log: seq<Event>)

  /** One call of Observe: at most one event. */
  function Observed(interval: int, s: FilterState, level: Level, dm: real, dmDot: real, now: int): FilterState {
    if level == HOMEOSTASIS && s.level == HOMEOSTASIS then
      if now - s.lastHeartbeat >= interval then
        FilterState(level, now, s.log + [Event(now, Heartbeat, level, dm, 0.0)])
      else
        s
    else if s.level == HOMEOSTASIS then
      FilterState(level, s.lastHeartbeat, s.log + [Event(now, AnomalyDetected, level, dm, dmDot)])
    else if level > s.level || (level < s.level && level > HOMEOSTASIS) then
      FilterState(level, s.lastHeartbeat, s.log + [Event(now, LevelChange, level, dm, dmDot)])
    else if level == HOMEOSTASIS then
      FilterState(level, now, s.log + [Event(now, HomeostasisRestored, level, dm, 0.0)])
    else
      s
  }

  function NotifiedContainment(s: FilterState, level: Level, dm: real, now: int): FilterState {
    var kind := if level == PROTECTION then ProtectionApplied
                else if level == SURVIVAL then SurvivalEngaged
                else ContainmentApplied;
    s.(log := s.log + [Event(now, kind, level, dm, 0.0)])
  }

  function NotifiedSurvival(s: FilterState, dm: real, dmDot: real, now: int): FilterState {
    s.(log := s.log + [Event(now, SurvivalEngaged, SURVIVAL, dm, dmDot)])
  }

  /** Start-up lines carry the zero values of level and scores. */
  function StartupLine(now: int): Event {
    Event(now, Heartbeat, HOMEOSTASIS, 0.0, 0.0)
  }

  class ThalamicFilter {
    const interval: int
    var currentLevel: Level
    var prevLevel: Level
    var lastHeartbeat: int
    var log: seq<Event>

    constructor (interval: int, now: int)
      ensures this.interval == interval && State() == FilterState(HOMEOSTASIS, now, [])
    {
      this.interval := interval;
      currentLevel, prevLevel := HOMEOSTASIS, HOMEOSTASIS;
      lastHeartbeat := now;
      log := [];
    }

    ghost function State(): FilterState
      reads this
    {
      FilterState(currentLevel, lastHeartbeat, log)
    }

    method Emit(event: Event)
      modifies this`log
      ensures log == old(log) + [event]
    {
      log := log + [event];
    }

    /** A start-up line, or the sensor summary; both go out with the heartbeat type. */
    method Boot(now: int)
      modifies this`log
      ensures State() == old(State()).(log := old(log) + [StartupLine(now)])
    {
      Emit(StartupLine(now));
    }

    method Observe(level: Level, dm: real, dmDot: real, now: int)
      modifies this
      ensures State() == Observed(interval, old(State()), level, dm, dmDot, now)
      ensures prevLevel == old(currentLevel)
    {
      prevLevel := currentLevel;
      currentLevel := level;
      if level == HOMEOSTASIS && prevLevel == HOMEOSTASIS {
        if now - lastHeartbeat >= interval {
          Emit(Event(now, Heartbeat, level, dm, 0.0));
          lastHeartbeat := now;
        }
      } else if level > HOMEOSTASIS && prevLevel == HOMEOSTASIS {
        Emit(Event(now, AnomalyDetected, level, dm, dmDot));
      } else if level > prevLevel {
        Emit(Event(now, LevelChange, level, dm, dmDot));
      } else if level < prevLevel && level > HOMEOSTASIS {
        Emit(Event(now, LevelChange, level, dm, dmDot));
      } else if level == HOMEOSTASIS && prevLevel > HOMEOSTASIS {
        Emit(Event(now, HomeostasisRestored, level, dm, 0.0));
        lastHeartbeat := now;
      }
    }

    method NotifyContainment(level: Level, dm: real, now: int)
      modifies this`log
      ensures State() == NotifiedContainment(old(State()), level, dm, now)
    {
      var kind := ContainmentApplied;
      if level == PROTECTION {
        kind := ProtectionApplied;
      } else if level == SURVIVAL {
        kind := SurvivalEngaged;
      }
      Emit(Event(now, kind, level, dm, 0.0));
    }

    method NotifySurvival(dm: real, dmDot: real, now: int)
      modifies this`log
      ensures State() == NotifiedSurvival(old(State()), dm, dmDot, now)
    {
      Emit(Event(now, SurvivalEngaged, SURVIVAL, dm, dmDot));
    }
  }

  /** What one observation adds to the log, by comparing levels and times alone. */
  lemma ObservedEvents(interval: int, s: FilterState, level: Level, dm: real, dmDot: real, now: int)
    ensures var s' := Observed(interval, s, level, dm, dmDot, now);
      && s'.level == level
      && (level == s.level > 0 ==> s' == s)
      && (level == s.level == 0 && now - s.lastHeartbeat < interval ==> s' == s)
      && (level == s.level == 0 && now - s.lastHeartbeat >= interval ==>
            s'.log == s.log + [Event(now, Heartbeat, 0, dm, 0.0)] && s'.lastHeartbeat == now)
      && (s.level == 0 < level ==> s'.log == s.log + [Event(now, AnomalyDetected, level, dm, dmDot)])
      && (level == 0 < s.level ==>
            s'.log == s.log + [Event(now, HomeostasisRestored, 0, dm, 0.0)] && s'.lastHeartbeat == now)
      && (level != s.level && level > 0 && s.level > 0 ==>
            s'.log == s.log + [Event(now, LevelChange, level, dm, dmDot)])
      && (level > 0 ==> s'.lastHeartbeat == s.lastHeartbeat)
  {
  }

  /** Each actuation notice is one event, of the kind that belongs to its level. */
  lemma NoticeKinds(s: FilterState, level: Level, dm: real, dmDot: real, now: int)
    ensures NotifiedContainment(s, level, dm, now) == s.(log := s.log + [Event(now,
      if level == 3 then ProtectionApplied else if level == 4 then SurvivalEngaged else ContainmentApplied,
      level, dm, 0.0)])
    ensures NotifiedSurvival(s, dm, dmDot, now) == s.(log := s.log + [Event(now, SurvivalEngaged, 4, dm, dmDot)])
  {
  }

  // ------------------------------------------------- the log of a run

  /** What one tick of the main loop tells the filter: the level observed at a time,
      and whether a containment and a survival notice follow at that level, a little
      later. */
  datatype Notice =
    Notice(level: Level, dm: real, dmDot: real, now: int, contained: bool, engaged: bool, later: int)

  /** The main loop announces containment only from containment up, and survival only
      at the survival level. */
  predicate InTickOrder(n: Notice) {
    (n.contained ==> n.level >= CONTAINMENT) && (n.engaged ==> n.level == SURVIVAL)
  }

  function Told(interval: int, s: FilterState, n: Notice): FilterState {
    var s1 := Observed(interval, s, n.level, n.dm, n.dmDot, n.now);
    var s2 := if n.contained then NotifiedContainment(s1, n.level, n.dm, n.later) else s1;
    if n.engaged then NotifiedSurvival(s2, n.dm, n.dmDot, n.later) else s2
  }

  /** A filter that has only written start-up lines. */
  ghost predicate Opening(s: FilterState) {
    s.level == HOMEOSTASIS && forall i :: 0 <= i < |s.log| ==> s.log[i] == StartupLine(s.log[i].timestamp)
  }

  function LogAfter(interval: int, opening: FilterState, notices: seq<Notice>, t: nat): FilterState
    requires t <= |notices|
  {
    if t == 0 then opening
    else Told(interval, LogAfter(interval, opening, notices, t - 1), notices[t - 1])
  }

  lemma LogGrows(interval: int, opening: FilterState, notices: seq<Notice>, n: Notice)
    ensures LogAfter(interval, opening, notices + [n], |notices| + 1) ==
      Told(interval, LogAfter(interval, opening, notices, |notices|), n)
  {
    LogPrefix(interval, opening, notices, notices + [n], |notices|);
  }

  lemma {:induction false} LogPrefix(interval: int, opening: FilterState, notices: seq<Notice>,
    more: seq<Notice>, t: nat)
    requires t <= |notices| && notices <= more
    ensures LogAfter(interval, opening, notices, t) == LogAfter(interval, opening, more, t)
  {
    if t > 0 {
      LogPrefix(interval, opening, notices, more, t - 1);
    }
  }

  /** The level a log ends with; homeostasis while it is empty. */
  function LastLevel(log: seq<Event>): Level {
    if |log| == 0 then HOMEOSTASIS else log[|log| - 1].level
  }

  /** Inside an anomaly: the last anomaly event has not been followed by a restored event. */
  function InAnomaly(log: seq<Event>): bool {
    if |log| == 0 then false
    else if log[|log| - 1].kind == AnomalyDetected then true
    else if log[|log| - 1].kind == HomeostasisRestored then false
    else InAnomaly(log[..|log| - 1])
  }

  /** Anomaly and restored events strictly alternate, starting with an anomaly. */
  predicate Alternates(log: seq<Event>) {
    forall i :: 0 <= i < |log| ==>
      && (log[i].kind == AnomalyDetected ==> !InAnomaly(log[..i]))
      && (log[i].kind == HomeostasisRestored ==> InAnomaly(log[..i]))
  }

  /** From event number first on, heartbeats are at least an interval apart, and no less
      than that from start; none is later than mark. */
  predicate Spaced(interval: int, start: int, mark: int, log: seq<Event>, first: nat) {
    && (forall i, j :: first <= i < j < |log| && log[i].kind == Heartbeat && log[j].kind == Heartbeat ==>
          log[j].timestamp - log[i].timestamp >= interval)
    && (forall i :: first <= i < |log| && log[i].kind == Heartbeat ==> start + interval <= log[i].timestamp <= mark)
  }

  ghost predicate MonotoneClock(start: int, notices: seq<Notice>) {
    forall i :: 0 <= i < |notices| ==>
      notices[i].now >= start && forall j :: 0 <= j < i ==> notices[j].now <= notices[i].now
  }

  lemma AppendEvent(log: seq<Event>, e: Event)
    requires Alternates(log)
    requires e.kind == AnomalyDetected ==> !InAnomaly(log)
    requires e.kind == HomeostasisRestored ==> InAnomaly(log)
    ensures Alternates(log + [e])
    ensures LastLevel(log + [e]) == e.level
    ensures InAnomaly(log + [e]) ==
      (e.kind == AnomalyDetected || (e.kind != HomeostasisRestored && InAnomaly(log)))
  {
    var l := log + [e];
    assert l[..|log|] == log;
    forall i | 0 <= i < |log| ensures l[..i] == log[..i] {
    }
  }

  /** What every state of the filter satisfies between ticks. */
  ghost predicate Coherent(s: FilterState) {
    && LastLevel(s.log) == s.level
    && Alternates(s.log)
    && (InAnomaly(s.log) <==> s.level > HOMEOSTASIS)
  }

  lemma ObservedKeepsCoherent(interval: int, s: FilterState, level: Level, dm: real, dmDot: real, now: int)
    requires Coherent(s)
    ensures var t := Observed(interval, s, level, dm, dmDot, now); Coherent(t) && t.level == level
  {
    var t := Observed(interval, s, level, dm, dmDot, now);
    if t.log != s.log {
      var e := t.log[|s.log|];
      assert t.log == s.log + [e];
      AppendEvent(s.log, e);
    }
  }

  /** A notice at the current level keeps the log coherent. */
  lemma NoticeKeepsCoherent(s: FilterState, e: Event)
    requires Coherent(s) && e.level == s.level
    requires e.kind != AnomalyDetected && e.kind != HomeostasisRestored
    ensures Coherent(s.(log := s.log + [e]))
  {
    AppendEvent(s.log, e);
  }

  lemma ToldKeepsCoherent(interval: int, s: FilterState, n: Notice)
    requires Coherent(s) && InTickOrder(n)
    ensures Coherent(Told(interval, s, n)) && Told(interval, s, n).level == n.level
  {
    var s1 := Observed(interval, s, n.level, n.dm, n.dmDot, n.now);
    ObservedKeepsCoherent(interval, s, n.level, n.dm, n.dmDot, n.now);
    var s2 := s1;
    if n.contained {
      s2 := NotifiedContainment(s1, n.level, n.dm, n.later);
      NoticeKeepsCoherent(s1, s2.log[|s1.log|]);
    }
    if n.engaged {
      NoticeKeepsCoherent(s2, Event(n.later, SurvivalEngaged, SURVIVAL, n.dm, n.dmDot));
    }
  }

  lemma {:induction false} QuietLog(log: seq<Event>)
    requires forall i :: 0 <= i < |log| ==> log[i].kind == Heartbeat
    ensures !InAnomaly(log)
  {
    if |log| > 0 {
      QuietLog(log[..|log| - 1]);
    }
  }

  lemma OpeningIsCoherent(s: FilterState)
    requires Opening(s)
    ensures Coherent(s)
  {
    assert forall i :: 0 <= i < |s.log| ==> s.log[i] == StartupLine(s.log[i].timestamp);
    QuietLog(s.log);
  }

  lemma ToldLevel(interval: int, s: FilterState, n: Notice)
    ensures Told(interval, s, n).level == n.level
  {
  }

  /** Log replay: over any run of ticks the last event of the log carries the current
      level, and anomaly and restored events strictly alternate, starting with an anomaly. */
  lemma {:induction false} LogReplays(interval: int, opening: FilterState, notices: seq<Notice>, t: nat)
    requires Opening(opening)
    requires t <= |notices| && forall i :: 0 <= i < |notices| ==> InTickOrder(notices[i])
    ensures var s := LogAfter(interval, opening, notices, t);
      && Coherent(s)
      && s.level == (if t == 0 then HOMEOSTASIS else notices[t - 1].level)
  {
    if t == 0 {
      OpeningIsCoherent(opening);
    } else {
      LogReplays(interval, opening, notices, t - 1);
      ToldKeepsCoherent(interval, LogAfter(interval, opening, notices, t - 1), notices[t - 1]);
    }
  }

  lemma SpacedAppend(interval: int, start: int, mark: int, now: int, log: seq<Event>, first: nat, e: Event)
    requires Spaced(interval, start, mark, log, first) && start <= mark <= now
    requires e.kind == Heartbeat ==> e.timestamp == now && now - mark >= interval
    ensures Spaced(interval, start, now, log + [e], first)
    ensures e.kind != Heartbeat ==> Spaced(interval, start, mark, log + [e], first)
  {
  }

  lemma ObservedKeepsSpacing(interval: int, start: int, first: nat, s: FilterState, n: Notice)
    requires Spaced(interval, start, s.lastHeartbeat, s.log, first)
    requires start <= s.lastHeartbeat <= n.now
    ensures var s' := Observed(interval, s, n.level, n.dm, n.dmDot, n.now);
      && Spaced(interval, start, s'.lastHeartbeat, s'.log, first)
      && s.lastHeartbeat <= s'.lastHeartbeat <= n.now
  {
    hide Spaced;
    var s' := Observed(interval, s, n.level, n.dm, n.dmDot, n.now);
    if s'.log != s.log {
      SpacedAppend(interval, start, s.lastHeartbeat, n.now, s.log, first, s'.log[|s.log|]);
    }
  }

  lemma ToldKeepsSpacing(interval: int, start: int, first: nat, s: FilterState, n: Notice)
    requires Spaced(interval, start, s.lastHeartbeat, s.log, first)
    requires start <= s.lastHeartbeat <= n.now
    ensures var s' := Told(interval, s, n);
      && Spaced(interval, start, s'.lastHeartbeat, s'.log, first)
      && s.lastHeartbeat <= s'.lastHeartbeat <= n.now
  {
    hide Spaced, Observed;
    ObservedKeepsSpacing(interval, start, first, s, n);
    var s1 := Observed(interval, s, n.level, n.dm, n.dmDot, n.now);
    var s2 := s1;
    if n.contained {
      s2 := NotifiedContainment(s1, n.level, n.dm, n.later);
      SpacedAppend(interval, start, s1.lastHeartbeat, n.now, s1.log, first, s2.log[|s1.log|]);
    }
    if n.engaged {
      SpacedAppend(interval, start, s1.lastHeartbeat, n.now, s2.log, first,
        Event(n.later, SurvivalEngaged, SURVIVAL, n.dm, n.dmDot));
    }
  }

  /** Under a monotone clock any two heartbeats behind the start-up lines, and the creation of
      the filter and such a heartbeat, are at least one interval apart. */
  lemma {:induction false} HeartbeatsSpaced(interval: int, opening: FilterState, notices: seq<Notice>, t: nat)
    requires t <= |notices| && MonotoneClock(opening.lastHeartbeat, notices)
    ensures var start, s := opening.lastHeartbeat, LogAfter(interval, opening, notices, t);
      && Spaced(interval, start, s.lastHeartbeat, s.log, |opening.log|)
      && start <= s.lastHeartbeat <= (if t == 0 then start else notices[t - 1].now)
  {
    if t > 0 {
      HeartbeatsSpaced(interval, opening, notices, t - 1);
      ToldKeepsSpacing(interval, opening.lastHeartbeat, |opening.log|,
        LogAfter(interval, opening, notices, t - 1), notices[t - 1]);
    }
  }

  /** A sign of life: a heartbeat or the return to homeostasis, behind the start-up lines. */
  predicate SignOfLife(log: seq<Event>, first: nat, at: int) {
    exists i :: first <= i < |log| && (log[i].kind == Heartbeat || log[i].kind == HomeostasisRestored)
      && log[i].timestamp == at
  }

  lemma SignStays(log: seq<Event>, more: seq<Event>, first: nat, at: int)
    requires log <= more && SignOfLife(log, first, at)
    ensures SignOfLife(more, first, at)
  {
    var i :| first <= i < |log| && (log[i].kind == Heartbeat || log[i].kind == HomeostasisRestored)
      && log[i].timestamp == at;
    assert more[i] == log[i];
  }

  lemma ToldExtends(interval: int, s: FilterState, n: Notice)
    ensures s.log <= Told(interval, s, n).log
    ensures var s' := Told(interval, s, n);
      s'.lastHeartbeat != s.lastHeartbeat ==> SignOfLife(s'.log, |s.log|, s'.lastHeartbeat)
  {
    hide SignOfLife;
    var s1 := Observed(interval, s, n.level, n.dm, n.dmDot, n.now);
    if s1.lastHeartbeat != s.lastHeartbeat {
      FreshSign(s.log, s1.log[|s.log|]);
      SignStays(s1.log, Told(interval, s, n).log, |s.log|, s1.lastHeartbeat);
    }
  }

  lemma FreshSign(log: seq<Event>, e: Event)
    requires e.kind == Heartbeat || e.kind == HomeostasisRestored
    ensures SignOfLife(log + [e], |log|, e.timestamp)
  {
    assert (log + [e])[|log|] == e;
  }

  /** The filter remembers the time of a sign of life in its log, or of its creation. */
  lemma {:induction false} HeartbeatIsLogged(interval: int, opening: FilterState, notices: seq<Notice>, t: nat)
    requires t <= |notices|
    ensures var s := LogAfter(interval, opening, notices, t);
      && opening.log <= s.log
      && (s.lastHeartbeat == opening.lastHeartbeat || SignOfLife(s.log, |opening.log|, s.lastHeartbeat))
  {
    hide Told;
    if t > 0 {
      HeartbeatIsLogged(interval, opening, notices, t - 1);
      var before := LogAfter(interval, opening, notices, t - 1);
      var s := LogAfter(interval, opening, notices, t);
      ToldExtends(interval, before, notices[t - 1]);
      if s.lastHeartbeat == before.lastHeartbeat {
        if s.lastHeartbeat != opening.lastHeartbeat {
          SignStays(before.log, s.log, |opening.log|, s.lastHeartbeat);
        }
      } else {
        var i :| |before.log| <= i < |s.log|
          && (s.log[i].kind == Heartbeat || s.log[i].kind == HomeostasisRestored)
          && s.log[i].timestamp == s.lastHeartbeat;
      }
    }
  }

  /** Heartbeats come in time: whenever homeostasis is observed, the log shows a sign of life
      less than one interval old, or the filter itself is no older than that. */
  lemma HeartbeatsInTime(interval: int, opening: FilterState, notices: seq<Notice>, t: nat)
    requires interval > 0 && t < |notices| && notices[t].level == HOMEOSTASIS
    ensures var s, now := LogAfter(interval, opening, notices, t + 1), notices[t].now;
      && now - s.lastHeartbeat < interval
      && (s.lastHeartbeat == opening.lastHeartbeat || SignOfLife(s.log, |opening.log|, s.lastHeartbeat))
  {
    HeartbeatIsLogged(interval, opening, notices, t + 1);
    var before := LogAfter(interval, opening, notices, t);
    ObservedEvents(interval, before, HOMEOSTASIS, notices[t].dm, notices[t].dmDot, notices[t].now);
  }

  /** The start-up lines are not spaced: they have the heartbeat type, and two of them may
      follow each other within any time. */
  lemma StartupLinesCrowd(interval: int, start: int, mark: int, at: int, gap: nat)
    requires gap < interval
    ensures Opening(FilterState(HOMEOSTASIS, start, [StartupLine(at), StartupLine(at + gap)]))
    ensures !Spaced(interval, start, mark, [StartupLine(at), StartupLine(at + gap)], 0)
  {
    var log := [StartupLine(at), StartupLine(at + gap)];
    assert log[1].timestamp - log[0].timestamp < interval;
  }
}
