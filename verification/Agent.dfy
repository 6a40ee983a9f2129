/** The main loop: sense, memorize, analyze, filter, react. */
module Agent {
  import opened Prelude
  import opened Bytes
  import opened Linalg
  import opened Samples
  import opened Mahalanobis
  import opened Hysteresis
  import opened Memory
  import opened Predictor
  import opened CortexRuns
  import opened Cgroups
  import opened Survival
  import opened Thalamic

  const RING_BUFFER_CAPACITY := 300
  const NUM_VARS := 4

  /** The instants at which one tick reads the clock. */
  datatype Clock = Clock(analyze: int, observe: int, later: int)

  /** What the environment does to one tick's writes and scheduler calls. */
  datatype Weather = Weather(
    motorFaults: set<FileId>,
    survivalFaults: set<FileId>,
    linkFD: Option<nat>,
    closeFails: bool)

  /** The level of the last completed tick. */
  function LastOf(steps: seq<MotorStep>): Level {
    LevelBefore(steps, |steps|)
  }

  /** What a tick tells filter and motors: nothing for a reading that does not fit, calm after
      the first insert, and otherwise what the call of Analyze reported, unless it is an error. */
  function TickReport(fits: bool, inserted: nat, results: seq<Result<Analysis, Error>>): Option<Analysis> {
    if !fits then None
    else if inserted <= 1 then Some(Analysis(0.0, 0.0, 0))
    else if |results| > 0 && results[|results| - 1].Ok? then Some(results[|results| - 1].value)
    else None
  }

  /** The call of Analyze after n >= 2 inserts; its reading is the last snapshot row. */
  ghost predicate TicksFollow(ticks: seq<CortexRuns.Tick>, inserted: History, capacity: nat)
    requires capacity > 0
  {
    && |ticks| == (if |inserted| <= 1 then 0 else |inserted| - 1)
    && forall i :: 0 <= i < |ticks| ==> ticks[i].x == LastSnapshotRow(inserted[..i + 2], capacity)
  }

  lemma TicksGrow(ticks: seq<CortexRuns.Tick>, inserted: History, capacity: nat, x: Reading, now: int)
    requires capacity > 0 && TicksFollow(ticks, inserted, capacity)
    ensures |inserted| == 0 ==> TicksFollow(ticks, inserted + [x], capacity)
    ensures |inserted| > 0 ==>
      TicksFollow(ticks + [CortexRuns.Tick(LastSnapshotRow(inserted + [x], capacity), now)], inserted + [x], capacity)
  {
    var more := inserted + [x];
    assert more[..|more|] == more;
    forall i | 0 <= i < |ticks| ensures ticks[i].x == LastSnapshotRow(more[..i + 2], capacity) {
      assert more[..i + 2] == inserted[..i + 2];
    }
  }

  /** The cortex held this level at some point of the run. */
  ghost predicate WasHeld(minds: seq<Mind>, level: Level) {
    exists t :: 0 <= t < |minds| && minds[t].held.level == level
  }

  /** So it is with every level that was applied. */
  ghost predicate AllHeld(minds: seq<Mind>, steps: seq<MotorStep>) {
    forall i :: 0 <= i < |steps| ==> WasHeld(minds, steps[i].level)
  }

  lemma AllHeldLater(minds: seq<Mind>, more: seq<Mind>, steps: seq<MotorStep>)
    requires minds <= more && AllHeld(minds, steps)
    ensures AllHeld(more, steps)
  {
    forall i | 0 <= i < |steps| ensures WasHeld(more, steps[i].level) {
      var t :| 0 <= t < |minds| && minds[t].held.level == steps[i].level;
      assert more[t] == minds[t];
    }
  }

  lemma AllHeldNext(minds: seq<Mind>, steps: seq<MotorStep>, c: MotorStep)
    requires AllHeld(minds, steps) && |minds| > 0 && minds[|minds| - 1].held.level == c.level
    ensures AllHeld(minds, steps + [c])
  {
    assert WasHeld(minds, c.level);
  }

  /** The survival motor never writes the two memory limits. */
  lemma LimitsUntouched(files: Files, cfg: SurvivalConfig, groups: seq<seq<int>>, faults: set<FileId>, f: FileId)
    requires f.name == MemoryHigh || f.name == MemoryMax
    ensures f in WrittenAll(files, EngageWrites(cfg, groups), faults) <==> f in files
    ensures f in files ==> WrittenAll(files, EngageWrites(cfg, groups), faults)[f] == files[f]
    ensures f in WrittenAll(files, ReleaseWrites(cfg), faults) <==> f in files
    ensures f in files ==> WrittenAll(files, ReleaseWrites(cfg), faults)[f] == files[f]
  {
    hide EngageWrites, ReleaseWrites, WrittenAll, LastValue;
    EngageValues(cfg, groups, f);
    ReleaseValues(cfg, f);
    NoWriteTo(EngageWrites(cfg, groups), faults, files, f);
    NoWriteTo(ReleaseWrites(cfg), faults, files, f);
  }

  class Agent {
    const sqrt: real -> real
    const memTotal: nat
    const normalInterval: int
    const vigilanceInterval: int
    const phase2Enabled: bool
    const buffer: RingBuffer
    const cortex: PredictiveCortex
    const filter: ThalamicFilter
    const fs: ControlFiles
    const motor: CgroupMotor
    const survival: SurvivalMotor?
    var interval: int
    var tickCount: nat

    /** The run so far: the calls of Analyze that reached the cortex, the calls of Apply
        with the failures they met, and the limits at the start. */
    ghost var minds: seq<Mind>
    ghost var ticks: seq<Tick>
    ghost var results: seq<Result<Analysis, Error>>
    ghost var steps: seq<MotorStep>
    ghost const start: MotorState

    /** What the filter was told on completed ticks, and its state before. */
    ghost var notices: seq<Notice>
    ghost const opening: FilterState

    ghost function Env(): Environment {
      Environment(cortex.config, cortex.welford.p, sqrt)
    }

    ghost predicate Wired() {
      && cortex.buffer == buffer && motor.fs == fs && (survival != null ==> survival.fs == fs)
      && buffer.capacity == RING_BUFFER_CAPACITY && buffer.vars == NUM_VARS
    }

    ghost predicate Valid()
      reads this, buffer, buffer.data.data, cortex, cortex.buffer, cortex.buffer.data.data, cortex.welford,
        cortex.welford.mean, cortex.welford.m2, filter, fs, motor, motor.fs, survival
    {
      && Wired() && cortex.Valid() && motor.Valid()
      && Traced() && Counted() && Acted()
    }

    /** The ghost run is a run of the cortex, and it ends in the present state. */
    ghost predicate Traced()
      reads this`minds, this`ticks, this`results, buffer, cortex, cortex.welford
    {
      && Run(Env(), minds, ticks, results)
      && minds[|ticks|] == cortex.State()
      && buffer.capacity > 0 && TicksFollow(ticks, buffer.inserted, buffer.capacity)
    }

    /** The levels reported by completed ticks follow the level the cortex holds. */
    ghost predicate Counted()
      reads this, buffer, cortex, cortex.welford
    {
      && |buffer.inserted| <= tickCount && |steps| <= tickCount
      && |minds| == |ticks| + 1
      && LastOf(steps) == cortex.State().held.level
      && EffectiveApplies(steps, |steps|) == LevelChanges(minds, |ticks|)
      && AllHeld(minds, steps)
    }

    /** Filter, motors and sampling interval agree with the last level. */
    ghost predicate Acted()
      reads this`steps, this`notices, this`interval, filter, fs, motor, motor.fs, survival
      requires motor.Valid()
    {
      && Logged() && filter.currentLevel == LastOf(steps)
      && start.last == 0 && motor.lastLevel == LastOf(steps)
      && motor.State() == MotorAfter(motor.cfg, memTotal, start, steps, |steps|)
      && (phase2Enabled && survival != null ==> (survival.active <==> LastOf(steps) == SURVIVAL))
      && interval == (if LastOf(steps) == HOMEOSTASIS then normalInterval else vigilanceInterval)
    }

    /** The log is what the notices of the completed ticks make of it. */
    ghost predicate Logged()
      reads this`steps, this`notices, filter
    {
      && Opening(opening) && |notices| == |steps|
      && filter.State() == LogAfter(filter.interval, opening, notices, |notices|)
      && forall i :: 0 <= i < |notices| ==> InTickOrder(notices[i]) && notices[i].level == steps[i].level
    }

    /** An agent over components in their initial states. */
    constructor (sqrt: real -> real, cortex: PredictiveCortex, filter: ThalamicFilter, motor: CgroupMotor,
      survival: SurvivalMotor?, memTotal: nat, normalInterval: int, vigilanceInterval: int, phase2: bool)
      requires IsSqrt(sqrt)
      requires cortex.Valid() && cortex.State() == BLANK && cortex.buffer.inserted == []
      requires cortex.buffer.capacity == RING_BUFFER_CAPACITY && cortex.buffer.vars == NUM_VARS
      requires Opening(filter.State())
      requires motor.Valid() && motor.lastLevel == 0
      requires survival != null ==> survival.fs == motor.fs && !survival.active
      ensures Valid()
      ensures this.cortex == cortex && this.motor == motor && this.filter == filter && this.survival == survival
      ensures this.memTotal == memTotal && this.sqrt == sqrt && phase2Enabled == phase2
      ensures this.normalInterval == normalInterval && this.vigilanceInterval == vigilanceInterval
      ensures tickCount == 0 && steps == [] && start == motor.State() && opening == filter.State()
    {
      this.sqrt := sqrt;
      this.memTotal := memTotal;
      this.normalInterval := normalInterval;
      this.vigilanceInterval := vigilanceInterval;
      phase2Enabled := phase2;
      buffer := cortex.buffer;
      this.cortex := cortex;
      this.filter := filter;
      fs := motor.fs;
      this.motor := motor;
      this.survival := survival;
      interval := normalInterval;
      tickCount := 0;
      minds, ticks, results, steps := [BLANK], [], [], [];
      start := motor.State();
      notices := [];
      opening := filter.State();
    }

    /** Appends one call of Analyze to the ghost run. */
    ghost method Record(x: Reading, now: int, s: Mind, r: Result<Analysis, Error>)
      requires Run(Env(), minds, ticks, results)
      requires Step(cortex.config, cortex.welford.p, sqrt, minds[|ticks|], x, now, s, r)
      modifies this`minds, this`ticks, this`results
      ensures Run(Env(), minds, ticks, results) && minds[|ticks|] == s
      ensures ticks == old(ticks) + [CortexRuns.Tick(x, now)]
      ensures old(minds) <= minds
      ensures results == old(results) + [r]
      ensures LevelChanges(minds, |ticks|) == old(LevelChanges(minds, |ticks|)) +
        if s.held.level != old(minds[|ticks|]).held.level then 1 else 0
      ensures r.Ok? ==> r.value.level == s.held.level
      ensures r.Err? ==> s.held == old(minds[|ticks|]).held
    {
      RunSound(Env(), minds, ticks, results, |ticks|);
      StepKeeps(Env(), minds[|ticks|], x, now, s, r);
      RunExtends(Env(), minds, ticks, results, CortexRuns.Tick(x, now), s, r);
      minds, ticks, results := minds + [s], ticks + [CortexRuns.Tick(x, now)], results + [r];
    }

    /** Inserts the reading and analyzes; None when the tick is abandoned. */
    method Sense(reading: Reading, now: int) returns (r: Option<Analysis>)
      requires Wired() && cortex.Valid() && Traced()
      modifies buffer, buffer.data.data, cortex, cortex.welford, cortex.welford.mean, cortex.welford.m2
      modifies this`minds, this`ticks, this`results
      ensures cortex.Valid() && Traced()
      ensures old(minds) <= minds && |minds| == |ticks| + 1
      ensures buffer.inserted == old(buffer.inserted) + if |reading| == NUM_VARS then [reading] else []
      ensures ticks == old(ticks) + if |reading| == NUM_VARS && |buffer.inserted| > 1
        then [CortexRuns.Tick(LastSnapshotRow(buffer.inserted, RING_BUFFER_CAPACITY), now)] else []
      ensures |results| == |ticks| && old(results) <= results
      ensures r == TickReport(|reading| == NUM_VARS, |buffer.inserted|, results)
      ensures LevelChanges(minds, |ticks|) == old(LevelChanges(minds, |ticks|)) +
        if cortex.State().held.level != old(cortex.State().held.level) then 1 else 0
      ensures r.None? ==> cortex.State().held == old(cortex.State().held)
      ensures r.Some? ==> r.value.level == cortex.State().held.level
    {
      hide Step, LevelChanges, LastSnapshotRow, TicksFollow;
      TicksGrow(ticks, buffer.inserted, buffer.capacity, reading, now);
      TicksCount(ticks, buffer.inserted, buffer.capacity);
      var ok := buffer.Insert(reading);
      if !ok {
        return None;
      }
      var a := cortex.Analyze(sqrt, now);
      if |buffer.inserted| > 1 {
        Record(LastSnapshotRow(buffer.inserted, buffer.capacity), now, cortex.State(), a);
      }
      if a.Err? {
        return None;
      }
      return Some(a.value);
    }

    /** React: motor, containment notice, survival motor, next interval. */
    method React(stress: real, dmDot: real, level: Level, clock: Clock, weather: Weather)
      returns (contained: bool, engaged: bool)
      requires Wired() && motor.Valid()
      modifies motor, fs, filter`log, survival, this`interval
      ensures motor.Valid()
      ensures motor.State() == Applied(motor.cfg, old(motor.State()), level, memTotal,
        motor.HighFile() in weather.motorFaults, motor.MaxFile() in weather.motorFaults)
      ensures motor.lastLevel == level
      ensures contained <==> level != old(motor.lastLevel) && level >= CONTAINMENT
      ensures engaged <==>
        (phase2Enabled && survival != null && level == SURVIVAL && !old(survival.active) &&
         EngageSucceeds(survival.cfg, survival.groups, survival.schedExtAvail, weather.linkFD, weather.survivalFaults))
      ensures filter.State() ==
        var told := old(filter.State());
        var s := if contained then NotifiedContainment(told, level, stress, clock.later) else told;
        if engaged then NotifiedSurvival(s, stress, dmDot, clock.later) else s
      ensures phase2Enabled && survival != null ==> (survival.active <==> level == SURVIVAL)
      ensures interval == if level == HOMEOSTASIS then normalInterval else vigilanceInterval
    {
      var changed, ok := motor.Apply(level, memTotal, weather.motorFaults);
      contained := changed && level >= CONTAINMENT;
      if contained {
        filter.NotifyContainment(level, stress, clock.later);
      }
      engaged := false;
      if phase2Enabled && survival != null {
        engaged := Intervene(level, weather);
        if engaged {
          filter.NotifySurvival(stress, dmDot, clock.later);
        }
      }
      interval := if level == HOMEOSTASIS then normalInterval else vigilanceInterval;
    }

    /** Engages or releases the survival motor; true when a notice is due. */
    method Intervene(level: Level, weather: Weather) returns (engaged: bool)
      requires Wired() && motor.Valid() && survival != null
      modifies fs, survival
      ensures motor.Valid() && motor.State() == old(motor.State())
      ensures survival.active <==> level == SURVIVAL
      ensures engaged <==>
        (level == SURVIVAL && !old(survival.active) &&
         EngageSucceeds(survival.cfg, survival.groups, survival.schedExtAvail, weather.linkFD, weather.survivalFaults))
      ensures fs.content ==
        if level == SURVIVAL && !old(survival.active) then
          WrittenAll(old(fs.content), EngageWrites(survival.cfg, survival.groups), weather.survivalFaults)
        else if level < SURVIVAL && old(survival.active) then
          WrittenAll(old(fs.content), ReleaseWrites(survival.cfg), weather.survivalFaults)
        else old(fs.content)
    {
      engaged := false;
      LimitsUntouched(fs.content, survival.cfg, survival.groups, weather.survivalFaults, motor.HighFile());
      LimitsUntouched(fs.content, survival.cfg, survival.groups, weather.survivalFaults, motor.MaxFile());
      if level == SURVIVAL && !survival.active {
        engaged := survival.Engage(weather.linkFD, weather.survivalFaults);
      } else if level < SURVIVAL && survival.active {
        var ok := survival.Release(weather.closeFails, weather.survivalFaults);
      }
    }

    /** The call of Apply at a level, with the failures that the environment has ready. */
    ghost function StepMet(level: Level, weather: Weather): MotorStep {
      MotorStep(level, motor.HighFile() in weather.motorFaults, motor.MaxFile() in weather.motorFaults)
    }

    /** What the filter hears of a report: the report, the time of observation, and a notice of
        containment or of survival when the level has just come to it. */
    ghost function NoticeMet(a: Analysis, before: Level, clock: Clock, weather: Weather): Notice {
      Notice(a.level, a.stress, a.dmDot, clock.observe,
        a.level != before && a.level >= CONTAINMENT,
        phase2Enabled && survival != null && a.level == SURVIVAL && before != SURVIVAL &&
        EngageSucceeds(survival.cfg, survival.groups, survival.schedExtAvail, weather.linkFD, weather.survivalFaults),
        clock.later)
    }

    /** One round of the main loop. */
    method RunTick(reading: Reading, clock: Clock, weather: Weather)
      requires Valid()
      modifies this, buffer, buffer.data.data, cortex, cortex.welford, cortex.welford.mean, cortex.welford.m2,
        filter, fs, motor, survival
      ensures Valid()
      ensures tickCount == old(tickCount) + 1
      ensures buffer.inserted == old(buffer.inserted) + if |reading| == NUM_VARS then [reading] else []
      ensures ticks == old(ticks) + if |reading| == NUM_VARS && |buffer.inserted| > 1
        then [CortexRuns.Tick(LastSnapshotRow(buffer.inserted, RING_BUFFER_CAPACITY), clock.analyze)] else []
      ensures |results| == |ticks| && old(results) <= results
      ensures
        var report := TickReport(|reading| == NUM_VARS, |buffer.inserted|, results);
        && steps == old(steps) + (if report.Some? then [StepMet(report.value.level, weather)] else [])
        && notices == old(notices) +
             if report.Some? then [NoticeMet(report.value, LastOf(old(steps)), clock, weather)] else []
    {
      hide LogAfter, Opening, EffectiveApplies, MotorAfter, LevelChanges, TicksFollow, Run, AllHeld;
      hide PredictiveCortex.Valid, RingBuffer.Valid, CgroupMotor.Valid;
      tickCount := tickCount + 1;
      var r := Sense(reading, clock.analyze);
      AllHeldLater(old(minds), minds, steps);
      if r.None? {
        return;
      }
      AllHeldNext(minds, steps, StepMet(r.value.level, weather));
      Act(r.value, clock, weather);
    }

    /** Tells the filter, then reacts. */
    method FilterAndReact(a: Analysis, clock: Clock, weather: Weather) returns (ghost notice: Notice)
      requires Wired() && motor.Valid() && Acted()
      modifies filter, fs, motor, survival, this`interval
      ensures motor.Valid()
      ensures motor.State() == Applied(motor.cfg, old(motor.State()), a.level, memTotal,
        motor.HighFile() in weather.motorFaults, motor.MaxFile() in weather.motorFaults)
      ensures motor.lastLevel == a.level
      ensures InTickOrder(notice) && notice == NoticeMet(a, LastOf(old(steps)), clock, weather)
      ensures filter.State() == Told(filter.interval, old(filter.State()), notice)
      ensures phase2Enabled && survival != null ==> (survival.active <==> a.level == SURVIVAL)
      ensures interval == if a.level == HOMEOSTASIS then normalInterval else vigilanceInterval
    {
      filter.Observe(a.level, a.stress, a.dmDot, clock.observe);
      var contained, engaged := React(a.stress, a.dmDot, a.level, clock, weather);
      notice := Notice(a.level, a.stress, a.dmDot, clock.observe, contained, engaged, clock.later);
    }

    /** The second half of a round, with its account of levels. */
    method Act(a: Analysis, clock: Clock, weather: Weather)
      requires Wired() && motor.Valid() && Acted()
      modifies filter, fs, motor, survival, this`interval, this`steps, this`notices
      ensures motor.Valid() && Acted()
      ensures steps == old(steps) + [StepMet(a.level, weather)]
      ensures notices == old(notices) + [NoticeMet(a, LastOf(old(steps)), clock, weather)]
      ensures EffectiveApplies(steps, |steps|) ==
        old(EffectiveApplies(steps, |steps|)) + if a.level != LastOf(old(steps)) then 1 else 0
    {
      hide Applied, Told, LogAfter, Opening, EffectiveApplies, MotorAfter;
      ghost var notice := FilterAndReact(a, clock, weather);
      ToldLevel(filter.interval, old(filter.State()), notice);
      LogGrows(filter.interval, opening, notices, notice);
      ghost var step := StepMet(a.level, weather);
      RunGrows(motor.cfg, memTotal, start, steps, step);
      steps := steps + [step];
      notices := notices + [notice];
    }
  }

  lemma TicksCount(ticks: seq<CortexRuns.Tick>, inserted: History, capacity: nat)
    requires capacity > 0 && TicksFollow(ticks, inserted, capacity)
    ensures |ticks| == if |inserted| <= 1 then 0 else |inserted| - 1
  {
  }

  function StartupLines(startup: seq<int>): (log: seq<Event>)
    ensures |log| == |startup|
  {
    seq(|startup|, i requires 0 <= i < |startup| => StartupLine(startup[i]))
  }

  lemma BuiltInSurvival(cfg: PredictorConfig)
    requires cfg.survival == 0.0
    ensures Resolve(cfg).survival == 12.0
  {
  }

  lemma LinesAreOpening(now: int, startup: seq<int>)
    ensures Opening(FilterState(HOMEOSTASIS, now, StartupLines(startup)))
  {
  }

  method WriteStartupLines(filter: ThalamicFilter, startup: seq<int>)
    modifies filter`log
    ensures filter.log == old(filter.log) + StartupLines(startup)
  {
    for i := 0 to |startup|
      invariant filter.log == old(filter.log) + StartupLines(startup[..i])
    {
      filter.Boot(startup[i]);
      assert startup[..i + 1] == startup[..i] + [startup[i]];
      assert StartupLines(startup[..i + 1]) == StartupLines(startup[..i]) + [StartupLine(startup[i])];
    }
    assert startup[..|startup|] == startup;
  }

  /** The configured CPU weight as the 32-bit field that the survival motor gets. */
  function WeightField(configured: int): (w: Word)
    ensures (configured - w) % 0x1_0000_0000 == 0
  {
    configured % TWO_32
  }

  /** Boot: builds the components. The survival threshold is not among the fields that
      are passed on, so the built-in one applies. The cgroup at cgPath exists already. */
  method Boot(sqrt: real -> real, detection: PredictorConfig, fs: ControlFiles, cgPath: string, limits: MotorConfig,
    memTotal: nat, normalInterval: int, vigilanceInterval: int, heartbeat: int, now: int,
    startup: seq<int>, phase2: bool, survivalCfg: SurvivalConfig, weight: int, groups: seq<seq<int>>,
    schedExtAvail: bool)
    returns (a: Agent)
    requires IsSqrt(sqrt)
    requires FileId(cgPath, MemoryHigh) in fs.content && FileId(cgPath, MemoryMax) in fs.content
    ensures a.Valid() && a.tickCount == 0 && a.steps == []
    ensures a.buffer.capacity == 300 && a.buffer.vars == 4
    ensures a.cortex.config == detection.(survival := 0.0, alpha := SanitizedAlpha(detection.alpha))
    ensures Resolve(a.cortex.config).survival == 12.0
    ensures a.motor.cfg == limits && a.memTotal == memTotal && a.filter.interval == heartbeat
    ensures a.opening == FilterState(HOMEOSTASIS, now, StartupLines(startup))
    ensures a.phase2Enabled == phase2 && (a.survival != null <==> phase2)
    ensures a.survival != null ==> a.survival.cfg == survivalCfg.(cpuWeightStarve := WeightField(weight))
    ensures a.start == MotorState(0, fs.content[FileId(cgPath, MemoryHigh)], fs.content[FileId(cgPath, MemoryMax)])
  {
    hide LogAfter, MotorAfter, Run, TicksFollow, Opening, Resolve, RingBuffer.Valid;
    BuiltInSurvival(detection.(survival := 0.0, alpha := SanitizedAlpha(detection.alpha)));
    LinesAreOpening(now, startup);
    var buf := new RingBuffer(RING_BUFFER_CAPACITY, NUM_VARS);
    var cortex := new PredictiveCortex(buf, detection.(survival := 0.0));
    var filter := new ThalamicFilter(heartbeat, now);
    WriteStartupLines(filter, startup);
    var motor := new CgroupMotor(fs, cgPath, limits);
    var survival: SurvivalMotor? := null;
    if phase2 {
      survival := new SurvivalMotor(fs, survivalCfg.(cpuWeightStarve := WeightField(weight)), groups, schedExtAvail);
    }
    a := new Agent(sqrt, cortex, filter, motor, survival, memTotal, normalInterval, vigilanceInterval, phase2);
  }

  // ------------------------------------------------- what every agent satisfies

  /** A tick passes a report on exactly when its reading was inserted and the call it makes
      returned that report; the call after the first insert returns zero stress at level 0. */
  lemma TickReportIff(fits: bool, inserted: nat, results: seq<Result<Analysis, Error>>, a: Analysis)
    ensures TickReport(fits, inserted, results) == Some(a) <==>
      && fits
      && (inserted <= 1 ==> a.stress == 0.0 && a.dmDot == 0.0 && a.level == 0)
      && (inserted > 1 ==> |results| > 0 && results[|results| - 1] == Ok(a))
  {
  }

  /** The notices of an agent carry its reports: level, stress, derivative and both times. */
  lemma NoticeCarriesReport(agent: Agent, a: Analysis, before: Level, clock: Clock, weather: Weather)
    ensures var n := agent.NoticeMet(a, before, clock, weather);
      && n.level == a.level && n.dm == a.stress && n.dmDot == a.dmDot
      && n.now == clock.observe && n.later == clock.later
      && (n.contained <==> a.level >= 2 && a.level != before)
      && (n.engaged ==> a.level == 4 != before)
  {
  }

  /** Over the life of an agent the motor acts at most 5 * (t/h) + 4 times in t ticks. */
  lemma ActuationBounded(a: Agent)
    requires a.Valid()
    ensures EffectiveApplies(a.steps, |a.steps|) <= 5 * (a.tickCount / Resolve(a.cortex.config).hysteresisDown) + 4
  {
    RunAntiFlapping(a.Env(), a.minds, a.ticks, a.results, |a.ticks|);
    QuotientMonotone(Resolve(a.cortex.config).hysteresisDown, |a.ticks|, a.tickCount);
  }

  /** With the default thresholds the survival motor stays off for the first 66 ticks. No
      tick reports protection in the first 33, and a cgroup that had no hard memory limit
      has none until then, whatever writes fail. */
  lemma NoEarlyIntervention(a: Agent)
    requires a.Valid() && Resolve(a.cortex.config) == Resolve(DEFAULT_CONFIG)
    ensures a.phase2Enabled && a.survival != null && a.survival.active ==> a.tickCount >= 67
    ensures forall i :: 0 <= i < |a.steps| && a.steps[i].level >= PROTECTION ==> a.tickCount >= 34
    ensures a.start.max == Max && a.motor.State().max != Max ==> a.tickCount >= 34
  {
    if LastOf(a.steps) == SURVIVAL {
      HeldLevelNeedsTicks(a, |a.ticks|);
    }
    forall i | 0 <= i < |a.steps| && a.steps[i].level >= PROTECTION ensures a.tickCount >= 34 {
      assert WasHeld(a.minds, a.steps[i].level);
      var t :| 0 <= t < |a.minds| && a.minds[t].held.level == a.steps[i].level;
      HeldLevelNeedsTicks(a, t);
    }
    if a.start.max == Max && a.motor.State().max != Max {
      HardLimitHasCause(a.motor.cfg, a.memTotal, a.start, a.steps, |a.steps|);
    }
  }

  /** The first tick folds nothing, so ticks exceed folded readings by one. */
  lemma HeldLevelNeedsTicks(a: Agent, t: nat)
    requires a.Valid() && Resolve(a.cortex.config) == Resolve(DEFAULT_CONFIG) && t < |a.minds|
    ensures a.minds[t].held.level == SURVIVAL ==> a.tickCount >= 67
    ensures a.minds[t].held.level >= PROTECTION ==> a.tickCount >= 34
  {
    RunSound(a.Env(), a.minds, a.ticks, a.results, t);
    if a.minds[t].held.level == SURVIVAL {
      Needs66(|a.minds[t].folded|);
    } else if a.minds[t].held.level == PROTECTION {
      Needs33(|a.minds[t].folded|);
    }
  }

  /** At any time, and with any failures, each limit of the running agent is that of the
      last level at which it was actually written. */
  lemma LimitsOfAgent(a: Agent, i: nat)
    requires a.Valid() && i < |a.steps|
    ensures HighWritten(a.steps, i) && (forall j :: i < j < |a.steps| ==> !HighWritten(a.steps, j)) ==>
      a.motor.State().high == HighAt(a.motor.cfg, a.memTotal, a.steps[i].level)
    ensures MaxWritten(a.steps, i) && (forall j :: i < j < |a.steps| ==> !MaxWritten(a.steps, j)) ==>
      a.motor.State().max == MaxAt(a.motor.cfg, a.memTotal, a.steps[i].level)
  {
    hide MotorAfter, HighAt, MaxAt, HighWritten, MaxWritten, LogAfter, Run, TicksFollow;
    LimitsUnderFaults(a.motor.cfg, a.memTotal, a.start, a.steps, |a.steps|);
  }

  /** As long as no limit write fails, and from unlimited files, memory.high follows the
      last level and memory.max is limited exactly when protection has been reached since
      the last level below containment. */
  lemma LimitsWithoutErrors(a: Agent)
    requires a.Valid() && ErrorFree(a.steps) && a.start == MotorState(0, Max, Max)
    requires ProtectMax(a.motor.cfg, a.memTotal) > 0
    ensures a.motor.State().high == HighAt(a.motor.cfg, a.memTotal, LastOf(a.steps))
    ensures a.motor.State().max != Max <==> ProtectedSince(a.steps, |a.steps|)
  {
    LimitsFollowLevels(a.motor.cfg, a.memTotal, a.steps, |a.steps|);
  }

  /** The log of a running agent ends with its level, and its anomaly and restored events
      strictly alternate; under a monotone clock its heartbeats behind the start-up lines are at
      least one interval apart. */
  lemma LogOfAgent(a: Agent)
    requires a.Valid()
    ensures Coherent(a.filter.State()) && a.filter.State().level == LastOf(a.steps)
    ensures MonotoneClock(a.opening.lastHeartbeat, a.notices) ==>
      Spaced(a.filter.interval, a.opening.lastHeartbeat, a.filter.lastHeartbeat, a.filter.log, |a.opening.log|)
  {
    hide MotorAfter, Run, TicksFollow, LogAfter, Spaced, Coherent, AllHeld;
    LogReplays(a.filter.interval, a.opening, a.notices, |a.notices|);
    if MonotoneClock(a.opening.lastHeartbeat, a.notices) {
      HeartbeatsSpaced(a.filter.interval, a.opening, a.notices, |a.notices|);
    }
  }

  /** After the first lap of the buffer the agent sees one reading in 300: two agents that
      analyze at the same times, and whose readings agree in the first lap and at the end of
      every later one, give the same reports at every call and hold the same levels. */
  lemma BlindBetweenLaps(a: Agent, b: Agent)
    requires a.Valid() && b.Valid() && a.Env() == b.Env()
    requires |a.buffer.inserted| == |b.buffer.inserted|
    requires forall t :: 0 <= t < |a.buffer.inserted| && EverLast(t, RING_BUFFER_CAPACITY) ==>
      a.buffer.inserted[t] == b.buffer.inserted[t]
    requires forall i :: 0 <= i < |a.ticks| && i < |b.ticks| ==> a.ticks[i].now == b.ticks[i].now
    ensures a.results == b.results && a.minds == b.minds
  {
    hide MotorAfter, LogAfter, LastSnapshotRow, EffectiveApplies, LevelChanges, WasHeld;
    forall i | 0 <= i < |a.ticks| ensures a.ticks[i] == b.ticks[i] {
      OthersNeverShow(a.buffer.inserted, b.buffer.inserted, RING_BUFFER_CAPACITY, i + 2);
    }
    assert a.ticks == b.ticks;
    RunDeterministic(a.Env(), a.ticks, a.minds, a.results, b.minds, b.results, |a.ticks|);
    assert a.minds[..|a.ticks| + 1] == a.minds && b.minds[..|a.ticks| + 1] == b.minds;
    assert a.results[..|a.ticks|] == a.results && b.results[..|a.ticks|] == b.results;
  }
}
