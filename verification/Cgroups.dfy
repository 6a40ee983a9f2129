/** The control files of cgroups and the motor that writes the memory limits. */
module Cgroups {
  import opened Prelude
  import opened Hysteresis

  /** What a control file holds: "max", a number, or a CPU list. */
  datatype Setting = Max | Number(n: nat) | Cpus(text: string)

  /** The control files written: memory.high, memory.max, cpu.weight, cpuset.cpus,
      memory.swappiness and memory.swap.max. */
  datatype ControlFile = MemoryHigh | MemoryMax | CpuWeight | CpuSetCpus | Swappiness | SwapMax

  /** A control file of the cgroup at a path. */
  datatype FileId = FileId(path: string, name: ControlFile)

  type Files = map<FileId, Setting>

  /** The part of the file system the agent writes. Each write may fail; which ones
      do is an input of every operation that writes. */
  class ControlFiles {
    var content: Files

    constructor (content: Files)
      ensures this.content == content
    {
      this.content := content;
    }

    method Write(file: FileId, value: Setting, faults: set<FileId>) returns (ok: bool)
      modifies this
      ensures ok <==> file !in faults
      ensures content == Written(old(content), file, value, faults)
    {
      if file in faults {
        return false;
      }
      content := content[file := value];
      return true;
    }
  }

  function Written(files: Files, file: FileId, value: Setting, faults: set<FileId>): Files {
    if file in faults then files else files[file := value]
  }

  /** SetMemoryHigh and SetMemoryMax write "max" for zero. */
  function ByteLimit(bytes: nat): Setting {
    if bytes == 0 then Max else Number(bytes)
  }

  /** Fractions of the total memory; zero or less means the default. */
  datatype MotorConfig = MotorConfig(containment: real, protectionHigh: real, protectionMax: real)

  /** A fraction of the memory in whole bytes. */
  function Share(total: nat, fraction: real): (bytes: nat)
    requires fraction > 0.0
    ensures bytes as real <= total as real * fraction < bytes as real + 1.0
  {
    (total as real * fraction).Floor
  }

  function ContainHigh(cfg: MotorConfig, total: nat): nat {
    Share(total, OrDefault(cfg.containment, 0.75))
  }

  function ProtectHigh(cfg: MotorConfig, total: nat): nat {
    Share(total, OrDefault(cfg.protectionHigh, 0.5))
  }

  function ProtectMax(cfg: MotorConfig, total: nat): nat {
    Share(total, OrDefault(cfg.protectionMax, 0.9))
  }

  /** The state one motor can change: its last level and its two limits. */
  datatype MotorState = MotorState(last: int, high: Setting, max: Setting)

  /** Both limits in turn; the second write is skipped when the first fails. */
  function SetLimits(s: MotorState, high: Setting, max: Option<Setting>, highFails: bool, maxFails: bool): MotorState {
    if highFails then s
    else if max.None? || maxFails then s.(high := high)
    else s.(high := high, max := max.value)
  }

  /** What Apply does to the state; the level is recorded before anything is written. */
  function Applied(cfg: MotorConfig, s: MotorState, level: int, total: nat, highFails: bool, maxFails: bool)
    : MotorState
  {
    if level == s.last then s
    else
      var t := s.(last := level);
      if level == 0 || level == 1 then SetLimits(t, Max, Some(Max), highFails, maxFails)
      else if level == 2 then SetLimits(t, ByteLimit(ContainHigh(cfg, total)), None, highFails, maxFails)
      else if level == 3 || level == 4 then
        SetLimits(t, ByteLimit(ProtectHigh(cfg, total)), Some(ByteLimit(ProtectMax(cfg, total))), highFails, maxFails)
      else t
  }

  class CgroupMotor {
    const fs: ControlFiles
    const cgPath: string
    const cfg: MotorConfig
    var lastLevel: int

    constructor (fs: ControlFiles, cgPath: string, cfg: MotorConfig)
      ensures this.fs == fs && this.cgPath == cgPath && this.cfg == cfg && lastLevel == 0
    {
      this.fs := fs;
      this.cgPath := cgPath;
      this.cfg := cfg;
      lastLevel := 0;
    }

    function HighFile(): FileId {
      FileId(cgPath, MemoryHigh)
    }

    function MaxFile(): FileId {
      FileId(cgPath, MemoryMax)
    }

    /** The two limit files exist, as they do in every cgroup. */
    ghost predicate Valid()
      reads this, fs
    {
      HighFile() in fs.content && MaxFile() in fs.content
    }

    ghost function State(): MotorState
      reads this, fs
      requires Valid()
    {
      MotorState(lastLevel, fs.content[HighFile()], fs.content[MaxFile()])
    }

    /** Writes memory.high, then memory.max when a value is given. */
    method WriteLimits(high: Setting, max: Option<Setting>, faults: set<FileId>) returns (ok: bool)
      requires Valid()
      modifies fs
      ensures Valid()
      ensures State() == SetLimits(old(State()), high, max, HighFile() in faults, MaxFile() in faults)
      ensures forall f :: f in old(fs.content) && f != HighFile() && f != MaxFile() ==>
        f in fs.content && fs.content[f] == old(fs.content)[f]
      ensures fs.content.Keys == old(fs.content).Keys
      ensures ok <==> HighFile() !in faults && (max.Some? ==> MaxFile() !in faults)
    {
      assert HighFile() != MaxFile();
      ok := fs.Write(HighFile(), high, faults);
      if ok && max.Some? {
        ok := fs.Write(MaxFile(), max.value, faults);
      }
    }

    /** Acts only when the level differs from the last one. */
    method Apply(level: int, total: nat, faults: set<FileId>) returns (changed: bool, ok: bool)
      requires Valid()
      modifies this, fs
      ensures Valid()
      ensures State() == Applied(cfg, old(State()), level, total, HighFile() in faults, MaxFile() in faults)
      ensures changed <==> level != old(lastLevel) && 0 <= level <= 4
      ensures forall f :: f in old(fs.content) && f != HighFile() && f != MaxFile() ==>
        f in fs.content && fs.content[f] == old(fs.content)[f]
      ensures fs.content.Keys == old(fs.content).Keys
    {
      if level == lastLevel {
        return false, true;
      }
      lastLevel := level;
      if level == 0 || level == 1 {
        ok := WriteLimits(Max, Some(Max), faults);
        return true, ok;
      } else if level == 2 {
        ok := WriteLimits(ByteLimit(ContainHigh(cfg, total)), None, faults);
        return true, ok;
      } else if level == 3 || level == 4 {
        ok := WriteLimits(ByteLimit(ProtectHigh(cfg, total)), Some(ByteLimit(ProtectMax(cfg, total))), faults);
        return true, ok;
      } else {
        return false, false;
      }
    }
  }

  // ------------------------------------------------- the limits in bytes

  /** A limit file holds a fraction of the memory, in whole bytes rounded down; a share of
      less than one byte is written as no limit. */
  ghost predicate HoldsShare(s: Setting, total: nat, fraction: real) {
    exists b: nat :: IsShare(s, total, fraction, b)
  }

  predicate IsShare(s: Setting, total: nat, fraction: real, b: nat) {
    && b as real <= total as real * fraction < b as real + 1.0
    && s == if b == 0 then Max else Number(b)
  }

  /** What a call of Apply that changes the level, and whose writes succeed, leaves in the two
      files: no limits at levels 0 and 1; the containment share, 0.75 unless configured, at
      level 2; and from level 3 on the protection shares, 0.5 and 0.9 unless configured. */
  lemma LimitsWritten(cfg: MotorConfig, s: MotorState, level: Level, total: nat)
    requires level != s.last
    ensures var t := Applied(cfg, s, level, total, false, false);
      && t.last == level
      && (level <= 1 ==> t.high == Max && t.max == Max)
      && (level == 2 ==> HoldsShare(t.high, total, if cfg.containment > 0.0 then cfg.containment else 0.75))
      && (level == 2 ==> t.max == s.max)
      && (level >= 3 ==> HoldsShare(t.high, total, if cfg.protectionHigh > 0.0 then cfg.protectionHigh else 0.5))
      && (level >= 3 ==> HoldsShare(t.max, total, if cfg.protectionMax > 0.0 then cfg.protectionMax else 0.9))
  {
    if level == 2 {
      assert IsShare(ByteLimit(ContainHigh(cfg, total)), total,
        if cfg.containment > 0.0 then cfg.containment else 0.75, ContainHigh(cfg, total));
    } else if level >= 3 {
      assert IsShare(ByteLimit(ProtectHigh(cfg, total)), total,
        if cfg.protectionHigh > 0.0 then cfg.protectionHigh else 0.5, ProtectHigh(cfg, total));
      assert IsShare(ByteLimit(ProtectMax(cfg, total)), total,
        if cfg.protectionMax > 0.0 then cfg.protectionMax else 0.9, ProtectMax(cfg, total));
    }
  }

  /** A share below one byte lifts the limit instead of tightening it. */
  lemma TinyShareIsNoLimit(cfg: MotorConfig, s: MotorState, total: nat)
    requires s.last != 3 && cfg.protectionHigh > 0.0
    ensures Applied(cfg, s, 3, total, false, false).high == Max <==> total as real * cfg.protectionHigh < 1.0
  {
    ZeroShare(total, cfg.protectionHigh);
    hide Share;
  }

  lemma ZeroShare(total: nat, f: real)
    requires f > 0.0
    ensures Share(total, f) == 0 <==> total as real * f < 1.0
  {
    var x := total as real * f;
    FloorIsZero(x, Share(total, f));
  }

  lemma FloorIsZero(x: real, b: nat)
    requires b as real <= x < b as real + 1.0
    ensures b == 0 <==> x < 1.0
  {
  }

  lemma LargerShare(total: nat, f: real, g: real)
    requires 0.0 < f <= g
    ensures Share(total, f) <= Share(total, g)
  {
    LargerProduct(total as real, f, g);
  }

  lemma LargerProduct(t: real, f: real, g: real)
    requires t >= 0.0 && f <= g
    ensures t * f <= t * g
  {
    assert t * (g - f) >= 0.0;
  }

  /** A total at which two different fractions give different shares. */
  lemma SharesDiffer(f: real, g: real) returns (total: nat)
    requires 0.0 < f < g
    ensures Share(total, f) < Share(total, g)
  {
    var gap := g - f;
    total := (1.0 / gap).Floor + 1;
    assert total as real > 1.0 / gap;
    ProductAtLeast(total as real, 1.0 / gap, gap);
    assert total as real * g == total as real * f + total as real * gap;
  }

  lemma ProductAtLeast(t: real, x: real, gap: real)
    requires t >= x && gap > 0.0 && x * gap == 1.0
    ensures t * gap >= 1.0
  {
    assert (t - x) * gap >= 0.0;
  }

  /** What the configuration check demands of the two high fractions. */
  predicate Validated(cfg: MotorConfig) {
    0.0 < cfg.containment < 1.0 && cfg.protectionHigh < cfg.containment
  }

  /** The check is meant to make protection at least as tight as containment. It does, at
      every memory size, exactly unless the protection fraction is left out while containment is
      set below the 0.5 that then applies to protection. */
  lemma ProtectionIsTighterIff(cfg: MotorConfig)
    requires Validated(cfg)
    ensures (forall total: nat :: ProtectHigh(cfg, total) <= ContainHigh(cfg, total)) <==>
      cfg.protectionHigh > 0.0 || cfg.containment >= 0.5
  {
    var f := if cfg.protectionHigh > 0.0 then cfg.protectionHigh else 0.5;
    if f <= cfg.containment {
      forall total: nat ensures ProtectHigh(cfg, total) <= ContainHigh(cfg, total) {
        LargerShare(total, f, cfg.containment);
      }
    } else {
      var total := SharesDiffer(cfg.containment, f);
      assert ProtectHigh(cfg, total) > ContainHigh(cfg, total);
    }
  }

  /** A validated configuration whose protection is looser than its containment. */
  lemma ProtectionCanBeLooser(s: MotorState)
    requires s.last <= 1
    ensures var cfg := MotorConfig(0.3, 0.0, 0.9);
      && Validated(cfg)
      && Applied(cfg, s, 2, 1000, false, false).high == Number(300)
      && Applied(cfg, s, 3, 1000, false, false).high == Number(500)
  {
  }

  // ------------------------------------------------- runs of the motor

  /** One call of Apply: its level, and which of the two limit writes would fail. */
  datatype MotorStep = MotorStep(level: Level, highFails: bool, maxFails: bool)

  /** The motor after the first t calls. */
  function MotorAfter(cfg: MotorConfig, total: nat, start: MotorState, run: seq<MotorStep>, t: nat): MotorState
    requires t <= |run|
  {
    if t == 0 then start
    else
      var c := run[t - 1];
      Applied(cfg, MotorAfter(cfg, total, start, run, t - 1), c.level, total, c.highFails, c.maxFails)
  }

  /** The level before call t; every run starts from homeostasis. */
  function LevelBefore(run: seq<MotorStep>, t: nat): Level
    requires t <= |run|
  {
    if t == 0 then HOMEOSTASIS else run[t - 1].level
  }

  /** Call t changes the level; only then does Apply do anything. */
  predicate Changes(run: seq<MotorStep>, t: nat)
    requires t < |run|
  {
    run[t].level != LevelBefore(run, t)
  }

  predicate HighWritten(run: seq<MotorStep>, t: nat)
    requires t < |run|
  {
    Changes(run, t) && !run[t].highFails
  }

  /** memory.max is written after memory.high, and not for containment. */
  predicate MaxWritten(run: seq<MotorStep>, t: nat)
    requires t < |run|
  {
    HighWritten(run, t) && run[t].level != CONTAINMENT && !run[t].maxFails
  }

  /** memory.high as a function of the level alone. */
  function HighAt(cfg: MotorConfig, total: nat, level: Level): Setting {
    if level <= 1 then Max
    else if level == 2 then ByteLimit(ContainHigh(cfg, total))
    else ByteLimit(ProtectHigh(cfg, total))
  }

  /** What memory.max is set to when it is written at a level. */
  function MaxAt(cfg: MotorConfig, total: nat, level: Level): Setting {
    if level <= 1 then Max else ByteLimit(ProtectMax(cfg, total))
  }

  /** The last of the first t calls that wrote memory.high; -1 when none did. */
  function LastHigh(run: seq<MotorStep>, t: nat): (i: int)
    requires t <= |run|
    ensures -1 <= i < t && (i >= 0 ==> HighWritten(run, i))
    ensures forall j :: 0 <= j && i < j < t ==> !HighWritten(run, j)
  {
    if t == 0 then -1 else if HighWritten(run, t - 1) then t - 1 else LastHigh(run, t - 1)
  }

  /** The last of the first t calls that wrote memory.max; -1 when none did. */
  function LastMax(run: seq<MotorStep>, t: nat): (i: int)
    requires t <= |run|
    ensures -1 <= i < t && (i >= 0 ==> MaxWritten(run, i))
    ensures forall j :: 0 <= j && i < j < t ==> !MaxWritten(run, j)
  {
    if t == 0 then -1 else if MaxWritten(run, t - 1) then t - 1 else LastMax(run, t - 1)
  }

  /** Over every run, with any failures, each limit is that of the last level at which it
      was actually written, and the one at the start as long as it never was. */
  lemma {:induction false} LimitsUnderFaults(cfg: MotorConfig, total: nat, start: MotorState, run: seq<MotorStep>,
    t: nat)
    requires start.last == 0 && t <= |run|
    ensures var s, i, j := MotorAfter(cfg, total, start, run, t), LastHigh(run, t), LastMax(run, t);
      && s.last == LevelBefore(run, t)
      && s.high == (if i < 0 then start.high else HighAt(cfg, total, run[i].level))
      && s.max == (if j < 0 then start.max else MaxAt(cfg, total, run[j].level))
  {
    hide HighAt, MaxAt, Applied, HighWritten, MaxWritten;
    if t > 0 {
      LimitsUnderFaults(cfg, total, start, run, t - 1);
      LimitsStep(cfg, total, MotorAfter(cfg, total, start, run, t - 1), run, t - 1);
    }
  }

  /** What one call does to each limit. */
  lemma LimitsStep(cfg: MotorConfig, total: nat, s: MotorState, run: seq<MotorStep>, t: nat)
    requires t < |run| && s.last == LevelBefore(run, t)
    ensures var c := run[t];
      var s' := Applied(cfg, s, c.level, total, c.highFails, c.maxFails);
      && s'.last == c.level
      && s'.high == (if HighWritten(run, t) then HighAt(cfg, total, c.level) else s.high)
      && s'.max == (if MaxWritten(run, t) then MaxAt(cfg, total, c.level) else s.max)
  {
  }

  /** A hard limit that was not there at the start was set by a level of protection or
      above, whatever failed. */
  lemma HardLimitHasCause(cfg: MotorConfig, total: nat, start: MotorState, run: seq<MotorStep>, t: nat)
    requires start.last == 0 && start.max == Max && t <= |run|
    requires MotorAfter(cfg, total, start, run, t).max != Max
    ensures exists i :: 0 <= i < t && run[i].level >= PROTECTION
  {
    hide MotorAfter;
    LimitsUnderFaults(cfg, total, start, run, t);
    var i := LastMax(run, t);
    assert run[i].level >= PROTECTION;
  }

  lemma RepeatIsIdle(cfg: MotorConfig, total: nat, s: MotorState, c: MotorStep)
    requires s.last == c.level
    ensures Applied(cfg, s, c.level, total, c.highFails, c.maxFails) == s
  {
  }

  /** A write that failed is not tried again while the level stays: repeated calls leave
      the whole state alone, so the old limits remain in force. */
  lemma {:induction false} FailedWriteIsNotRetried(cfg: MotorConfig, total: nat, start: MotorState, run: seq<MotorStep>,
    i: nat, t: nat)
    requires start.last == 0 && i < t <= |run| && forall j :: i < j < t ==> run[j].level == run[i].level
    ensures MotorAfter(cfg, total, start, run, t) == MotorAfter(cfg, total, start, run, i + 1)
    ensures var before, s := MotorAfter(cfg, total, start, run, i), MotorAfter(cfg, total, start, run, t);
      && (run[i].highFails ==> s.high == before.high && s.max == before.max)
      && (run[i].maxFails ==> s.max == before.max)
    decreases t
  {
    hide LastHigh, LastMax, HighAt, MaxAt, Applied;
    LimitsUnderFaults(cfg, total, start, run, i);
    LimitsStep(cfg, total, MotorAfter(cfg, total, start, run, i), run, i);
    if t > i + 1 {
      FailedWriteIsNotRetried(cfg, total, start, run, i, t - 1);
      RepeatIsIdle(cfg, total, MotorAfter(cfg, total, start, run, t - 1), run[t - 1]);
    }
  }

  /** A level of protection or above was applied, and none below containment since. */
  predicate ProtectedSince(run: seq<MotorStep>, t: nat)
    requires t <= |run|
  {
    exists i :: 0 <= i < t && run[i].level >= 3 && forall j :: i < j < t ==> run[j].level >= 2
  }

  predicate ErrorFree(run: seq<MotorStep>) {
    forall i :: 0 <= i < |run| ==> !run[i].highFails && !run[i].maxFails
  }

  /** Over a run without write errors, from unlimited files, memory.high follows the last
      level, while memory.max keeps its hard limit through containment: it is limited
      exactly when a level of protection or above has been applied since the last level
      below containment. */
  lemma {:induction false} LimitsFollowLevels(cfg: MotorConfig, total: nat, run: seq<MotorStep>, t: nat)
    requires t <= |run| && ErrorFree(run) && ProtectMax(cfg, total) > 0
    ensures var s := MotorAfter(cfg, total, MotorState(0, Max, Max), run, t);
      && s.last == LevelBefore(run, t)
      && s.high == HighAt(cfg, total, s.last)
      && (s.max == Max || s.max == ByteLimit(ProtectMax(cfg, total)))
      && (s.max != Max <==> ProtectedSince(run, t))
      && (s.last >= 3 ==> s.max != Max) && (s.last <= 1 ==> s.max == Max)
  {
    if t > 0 {
      LimitsFollowLevels(cfg, total, run, t - 1);
      LimitsStep(cfg, total, MotorAfter(cfg, total, MotorState(0, Max, Max), run, t - 1), run, t - 1);
      ProtectedStep(run, t);
    }
  }

  lemma ProtectedStep(run: seq<MotorStep>, t: nat)
    requires 0 < t <= |run|
    ensures ProtectedSince(run, t) <==>
      run[t - 1].level >= 3 || (run[t - 1].level == 2 && ProtectedSince(run, t - 1))
  {
    if run[t - 1].level == 2 && ProtectedSince(run, t - 1) {
      var i :| 0 <= i < t - 1 && run[i].level >= 3 && forall j :: i < j < t - 1 ==> run[j].level >= 2;
      assert forall j :: i < j < t ==> run[j].level >= 2;
    }
    if ProtectedSince(run, t) && run[t - 1].level < 3 {
      var i :| 0 <= i < t && run[i].level >= 3 && forall j :: i < j < t ==> run[j].level >= 2;
      assert i < t - 1;
    }
  }

  /** How often Apply does anything. */
  function EffectiveApplies(run: seq<MotorStep>, t: nat): nat
    requires t <= |run|
  {
    if t == 0 then 0 else EffectiveApplies(run, t - 1) + if Changes(run, t - 1) then 1 else 0
  }

  /** One more call extends both accounts of a run. */
  lemma RunGrows(cfg: MotorConfig, total: nat, start: MotorState, run: seq<MotorStep>, c: MotorStep)
    ensures var more, n := run + [c], |run|;
      && MotorAfter(cfg, total, start, more, n + 1) ==
           Applied(cfg, MotorAfter(cfg, total, start, run, n), c.level, total, c.highFails, c.maxFails)
      && EffectiveApplies(more, n + 1) ==
           EffectiveApplies(run, n) + if c.level != LevelBefore(run, n) then 1 else 0
  {
    PrefixAgrees(cfg, total, start, run, run + [c], |run|);
  }

  lemma {:induction false} PrefixAgrees(cfg: MotorConfig, total: nat, start: MotorState, run: seq<MotorStep>,
    more: seq<MotorStep>, t: nat)
    requires t <= |run| && run <= more
    ensures MotorAfter(cfg, total, start, run, t) == MotorAfter(cfg, total, start, more, t)
    ensures EffectiveApplies(run, t) == EffectiveApplies(more, t)
  {
    if t > 0 {
      PrefixAgrees(cfg, total, start, run, more, t - 1);
      assert LevelBefore(run, t - 1) == LevelBefore(more, t - 1);
    }
  }
}
