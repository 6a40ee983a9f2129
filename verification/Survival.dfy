/** The phase-2 survival motor: CPU starvation, swap pressure and CPU pinning. */
module Survival {
  import opened Prelude
  import opened Bytes
  import opened CpuList
  import opened Cgroups

  /** Empty paths switch off the part that concerns them. */
  datatype SurvivalConfig = SurvivalConfig(
    hasBpfObject: bool,
    offender: string,
    vital: string,
    cpuWeightStarve: Word,
    swappinessOffender: int,
    swappinessVital: int)

  function Clamped(x: int, lo: nat, hi: nat): (n: nat)
    requires lo <= hi
    ensures lo <= n <= hi
    ensures lo <= x <= hi ==> n == x
    ensures x < lo ==> n == lo
    ensures x > hi ==> n == hi
  {
    if x < lo then lo else if x > hi then hi else x
  }

  /** One attempted write. */
  datatype Write = Write(file: FileId, value: Setting)

  /** Attempts every write in turn, each on its own; failures do not stop the rest. */
  function WrittenAll(files: Files, writes: seq<Write>, faults: set<FileId>): Files {
    if |writes| == 0 then files
    else
      var last := writes[|writes| - 1];
      Written(WrittenAll(files, writes[..|writes| - 1], faults), last.file, last.value, faults)
  }

  predicate AnyFails(writes: seq<Write>, faults: set<FileId>) {
    exists i :: 0 <= i < |writes| && writes[i].file in faults
  }

  function CpusText(cpus: seq<int>): Setting {
    Cpus(Render(Ranges(Sorted(cpus))))
  }

  /** The second cache group isolates the offender. */
  predicate PinsOffender(cfg: SurvivalConfig, groups: seq<seq<int>>) {
    cfg.offender != "" && |groups| > 1 && |groups[1]| > 0
  }

  /** The first cache group keeps the vital processes warm. */
  predicate PinsVital(cfg: SurvivalConfig, groups: seq<seq<int>>) {
    cfg.vital != "" && |groups| > 0 && |groups[0]| > 0
  }

  function OffenderWrites(cfg: SurvivalConfig, groups: seq<seq<int>>): seq<Write> {
    if cfg.offender == "" then [] else
      [Write(FileId(cfg.offender, CpuWeight), Number(Clamped(cfg.cpuWeightStarve, 1, 10000))),
       Write(FileId(cfg.offender, Swappiness), Number(Clamped(cfg.swappinessOffender, 0, 200)))]
      + if PinsOffender(cfg, groups) then [Write(FileId(cfg.offender, CpuSetCpus), CpusText(groups[1]))] else []
  }

  function VitalWrites(cfg: SurvivalConfig, groups: seq<seq<int>>): seq<Write> {
    if cfg.vital == "" then [] else
      [Write(FileId(cfg.vital, SwapMax), Number(0)),
       Write(FileId(cfg.vital, Swappiness), Number(Clamped(cfg.swappinessVital, 0, 200)))]
      + if PinsVital(cfg, groups) then [Write(FileId(cfg.vital, CpuSetCpus), CpusText(groups[0]))] else []
  }

  function EngageWrites(cfg: SurvivalConfig, groups: seq<seq<int>>): seq<Write> {
    OffenderWrites(cfg, groups) + VitalWrites(cfg, groups)
  }

  function ReleaseWrites(cfg: SurvivalConfig): seq<Write> {
    (if cfg.offender == "" then [] else
       [Write(FileId(cfg.offender, CpuWeight), Number(100)), Write(FileId(cfg.offender, Swappiness), Number(60))])
    + (if cfg.vital == "" then [] else
         [Write(FileId(cfg.vital, SwapMax), Max), Write(FileId(cfg.vital, Swappiness), Number(60))])
  }

  /** Engaging reports success when every write succeeds and a scheduler that should
      be loaded is loaded. */
  predicate EngageSucceeds(cfg: SurvivalConfig, groups: seq<seq<int>>, schedExtAvail: bool, linkFD: Option<nat>,
    faults: set<FileId>)
  {
    !AnyFails(EngageWrites(cfg, groups), faults) && (schedExtAvail && cfg.hasBpfObject ==> linkFD.Some?)
  }

  lemma WrittenSnoc(files: Files, writes: seq<Write>, w: Write, faults: set<FileId>)
    ensures WrittenAll(files, writes + [w], faults) ==
      Written(WrittenAll(files, writes, faults), w.file, w.value, faults)
    ensures AnyFails(writes + [w], faults) <==> AnyFails(writes, faults) || w.file in faults
  {
    var all := writes + [w];
    assert all[..|writes|] == writes && all[|writes|] == w;
    assert forall i :: 0 <= i < |writes| ==> all[i] == writes[i];
  }

  class SurvivalMotor {
    const fs: ControlFiles
    const cfg: SurvivalConfig
    const groups: seq<seq<int>>
    const schedExtAvail: bool
    var schedExtFD: int
    var active: bool

    constructor (fs: ControlFiles, cfg: SurvivalConfig, groups: seq<seq<int>>, schedExtAvail: bool)
      ensures this.fs == fs && this.cfg == cfg && this.groups == groups && this.schedExtAvail == schedExtAvail
      ensures schedExtFD == -1 && !active
    {
      this.fs := fs;
      this.cfg := cfg;
      this.groups := groups;
      this.schedExtAvail := schedExtAvail;
      schedExtFD := -1;
      active := false;
    }

    method WriteEach(writes: seq<Write>, faults: set<FileId>) returns (ok: bool)
      modifies fs
      ensures fs.content == WrittenAll(old(fs.content), writes, faults)
      ensures ok <==> !AnyFails(writes, faults)
    {
      ok := true;
      for i := 0 to |writes|
        invariant fs.content == WrittenAll(old(fs.content), writes[..i], faults)
        invariant ok <==> !AnyFails(writes[..i], faults)
      {
        WrittenSnoc(old(fs.content), writes[..i], writes[i], faults);
        assert writes[..i + 1] == writes[..i] + [writes[i]];
        var written := fs.Write(writes[i].file, writes[i].value, faults);
        ok := ok && written;
      }
      assert writes[..|writes|] == writes;
    }

    /** Engages once; a second call does nothing. The motor counts as active even
        when some writes or the scheduler load failed. linkFD is what loading the
        sched_ext scheduler yields. */
    method Engage(linkFD: Option<nat>, faults: set<FileId>) returns (ok: bool)
      modifies this, fs
      ensures active
      ensures fs.content == if old(active) then old(fs.content)
        else WrittenAll(old(fs.content), EngageWrites(cfg, groups), faults)
      ensures schedExtFD == if !old(active) && schedExtAvail && cfg.hasBpfObject && linkFD.Some? then linkFD.value
        else old(schedExtFD)
      ensures ok <==> old(active) || EngageSucceeds(cfg, groups, schedExtAvail, linkFD, faults)
    {
      if active {
        return true;
      }
      ok := WriteEach(EngageWrites(cfg, groups), faults);
      if schedExtAvail && cfg.hasBpfObject {
        if linkFD.Some? {
          schedExtFD := linkFD.value;
        } else {
          ok := false;
        }
      }
      active := true;
    }

    /** Closes the scheduler link and writes kernel defaults back. */
    method Release(closeFails: bool, faults: set<FileId>) returns (ok: bool)
      modifies this, fs
      ensures !active
      ensures fs.content == if old(active) then WrittenAll(old(fs.content), ReleaseWrites(cfg), faults)
        else old(fs.content)
      ensures schedExtFD == if old(active) && old(schedExtFD) >= 0 then -1 else old(schedExtFD)
      ensures ok <==> (!old(active) ||
        (!AnyFails(ReleaseWrites(cfg), faults) && !(old(schedExtFD) >= 0 && closeFails)))
    {
      if !active {
        return true;
      }
      var closed := true;
      if schedExtFD >= 0 {
        closed := !closeFails;
        schedExtFD := -1;
      }
      ok := WriteEach(ReleaseWrites(cfg), faults);
      ok := ok && closed;
      active := false;
    }
  }

  // ------------------------------------------------- what release restores

  /** Engaging and then releasing; each call meets its own write failures. */
  function EngageThenRelease(files: Files, cfg: SurvivalConfig, groups: seq<seq<int>>, engageFaults: set<FileId>,
    releaseFaults: set<FileId>): Files
  {
    WrittenAll(WrittenAll(files, EngageWrites(cfg, groups), engageFaults), ReleaseWrites(cfg), releaseFaults)
  }

  /** The last value a list of writes gives to a file. */
  function LastValue(writes: seq<Write>, f: FileId): Option<Setting> {
    if |writes| == 0 then None
    else if writes[|writes| - 1].file == f then Some(writes[|writes| - 1].value)
    else LastValue(writes[..|writes| - 1], f)
  }

  /** A file holds the last value written to it, unless its writes fail. */
  lemma {:induction false} WrittenReads(files: Files, writes: seq<Write>, faults: set<FileId>, f: FileId)
    ensures var v := if f in faults then None else LastValue(writes, f);
      && (f in WrittenAll(files, writes, faults) <==> f in files || v.Some?)
      && (v.Some? ==> WrittenAll(files, writes, faults)[f] == v.value)
      && (v.None? && f in files ==> WrittenAll(files, writes, faults)[f] == files[f])
  {
    if |writes| > 0 {
      WrittenReads(files, writes[..|writes| - 1], faults, f);
    }
  }

  lemma {:induction false} LastValueAppend(a: seq<Write>, b: seq<Write>, f: FileId)
    ensures LastValue(a + b, f) == if LastValue(b, f).Some? then LastValue(b, f) else LastValue(a, f)
  {
    if |b| == 0 {
      assert a + b == a;
    } else {
      assert (a + b)[..|a + b| - 1] == a + b[..|b| - 1];
      LastValueAppend(a, b[..|b| - 1], f);
    }
  }

  lemma PairValue(a: Write, b: Write, f: FileId)
    ensures LastValue([a, b], f) == if b.file == f then Some(b.value) else LastValue([a], f)
    ensures LastValue([a], f) == if a.file == f then Some(a.value) else None
  {
    assert [a, b][..1] == [a] && [a][..0] == [];
  }

  /** What releasing writes to each file. */
  function Released(cfg: SurvivalConfig, f: FileId): Option<Setting> {
    if cfg.vital != "" && f == FileId(cfg.vital, Swappiness) then Some(Number(60))
    else if cfg.vital != "" && f == FileId(cfg.vital, SwapMax) then Some(Max)
    else if cfg.offender != "" && f == FileId(cfg.offender, Swappiness) then Some(Number(60))
    else if cfg.offender != "" && f == FileId(cfg.offender, CpuWeight) then Some(Number(100))
    else None
  }

  lemma ReleaseValues(cfg: SurvivalConfig, f: FileId)
    ensures LastValue(ReleaseWrites(cfg), f) == Released(cfg, f)
  {
    var off1 := Write(FileId(cfg.offender, CpuWeight), Number(100));
    var off2 := Write(FileId(cfg.offender, Swappiness), Number(60));
    var vit1, vit2 := Write(FileId(cfg.vital, SwapMax), Max), Write(FileId(cfg.vital, Swappiness), Number(60));
    PairValue(off1, off2, f);
    PairValue(vit1, vit2, f);
    LastValueAppend(if cfg.offender == "" then [] else [off1, off2], if cfg.vital == "" then [] else [vit1, vit2], f);
  }

  /** What engaging leaves in each file; the vital group is written last. */
  function Engaged(cfg: SurvivalConfig, groups: seq<seq<int>>, f: FileId): Option<Setting> {
    if EngagedVital(cfg, groups, f).Some? then EngagedVital(cfg, groups, f) else EngagedOffender(cfg, groups, f)
  }

  function EngagedVital(cfg: SurvivalConfig, groups: seq<seq<int>>, f: FileId): Option<Setting> {
    if cfg.vital == "" || f.path != cfg.vital then None
    else if f.name == Swappiness then Some(Number(Clamped(cfg.swappinessVital, 0, 200)))
    else if f.name == SwapMax then Some(Number(0))
    else if f.name == CpuSetCpus && PinsVital(cfg, groups) then Some(CpusText(groups[0]))
    else None
  }

  function EngagedOffender(cfg: SurvivalConfig, groups: seq<seq<int>>, f: FileId): Option<Setting> {
    if cfg.offender == "" || f.path != cfg.offender then None
    else if f.name == Swappiness then Some(Number(Clamped(cfg.swappinessOffender, 0, 200)))
    else if f.name == CpuWeight then Some(Number(Clamped(cfg.cpuWeightStarve, 1, 10000)))
    else if f.name == CpuSetCpus && PinsOffender(cfg, groups) then Some(CpusText(groups[1]))
    else None
  }

  lemma OffenderValues(cfg: SurvivalConfig, groups: seq<seq<int>>, f: FileId)
    ensures LastValue(OffenderWrites(cfg, groups), f) == EngagedOffender(cfg, groups, f)
  {
    hide CpusText;
    if cfg.offender != "" {
      var w1 := Write(FileId(cfg.offender, CpuWeight), Number(Clamped(cfg.cpuWeightStarve, 1, 10000)));
      var w2 := Write(FileId(cfg.offender, Swappiness), Number(Clamped(cfg.swappinessOffender, 0, 200)));
      PairValue(w1, w2, f);
      if PinsOffender(cfg, groups) {
        var w3 := Write(FileId(cfg.offender, CpuSetCpus), CpusText(groups[1]));
        PairValue(w3, w3, f);
        LastValueAppend([w1, w2], [w3], f);
      }
    }
  }

  lemma VitalValues(cfg: SurvivalConfig, groups: seq<seq<int>>, f: FileId)
    ensures LastValue(VitalWrites(cfg, groups), f) == EngagedVital(cfg, groups, f)
  {
    hide CpusText;
    if cfg.vital != "" {
      var w1 := Write(FileId(cfg.vital, SwapMax), Number(0));
      var w2 := Write(FileId(cfg.vital, Swappiness), Number(Clamped(cfg.swappinessVital, 0, 200)));
      PairValue(w1, w2, f);
      if PinsVital(cfg, groups) {
        var w3 := Write(FileId(cfg.vital, CpuSetCpus), CpusText(groups[0]));
        PairValue(w3, w3, f);
        LastValueAppend([w1, w2], [w3], f);
      }
    }
  }

  lemma EngageValues(cfg: SurvivalConfig, groups: seq<seq<int>>, f: FileId)
    ensures LastValue(EngageWrites(cfg, groups), f) == Engaged(cfg, groups, f)
  {
    hide OffenderWrites, VitalWrites, EngagedVital, EngagedOffender, LastValue;
    OffenderValues(cfg, groups, f);
    VitalValues(cfg, groups, f);
    LastValueAppend(OffenderWrites(cfg, groups), VitalWrites(cfg, groups), f);
  }

  /** Engaging gives a pinned cpuset its list and touches no other cpuset. */
  lemma EngageCpusets(cfg: SurvivalConfig, groups: seq<seq<int>>, path: string)
    ensures LastValue(EngageWrites(cfg, groups), FileId(path, CpuSetCpus)) ==
      if path != "" && path == cfg.vital && |groups| >= 1 && groups[0] != [] then Some(CpusText(groups[0]))
      else if path != "" && path == cfg.offender && |groups| >= 2 && groups[1] != [] then Some(CpusText(groups[1]))
      else None
  {
    hide EngageWrites, LastValue;
    EngageValues(cfg, groups, FileId(path, CpuSetCpus));
  }

  lemma {:induction false} WrittenIffValue(writes: seq<Write>, f: FileId)
    ensures LastValue(writes, f).Some? <==> exists i :: 0 <= i < |writes| && writes[i].file == f
  {
    if |writes| > 0 {
      var init, last := writes[..|writes| - 1], writes[|writes| - 1];
      WrittenIffValue(init, f);
      if last.file != f && LastValue(init, f).Some? {
        var i :| 0 <= i < |init| && init[i].file == f;
        assert writes[i].file == f;
      }
      if i :| 0 <= i < |writes| && writes[i].file == f && last.file != f {
        assert init[i].file == f;
      }
    }
  }

  /** Engaging reports success exactly when no control file that it writes fails, and the
      scheduler, where one is configured and supported, is linked. */
  lemma EngageSucceedsIff(cfg: SurvivalConfig, groups: seq<seq<int>>, schedExtAvail: bool, linkFD: Option<nat>,
    faults: set<FileId>)
    ensures EngageSucceeds(cfg, groups, schedExtAvail, linkFD, faults) <==>
      && (forall f :: f in faults ==> Engaged(cfg, groups, f).None?)
      && !(schedExtAvail && cfg.hasBpfObject && linkFD.None?)
  {
    hide EngageWrites, Engaged, LastValue;
    forall f ensures Engaged(cfg, groups, f).Some? <==>
      exists i :: 0 <= i < |EngageWrites(cfg, groups)| && EngageWrites(cfg, groups)[i].file == f
    {
      EngageValues(cfg, groups, f);
      WrittenIffValue(EngageWrites(cfg, groups), f);
    }
    if i :| 0 <= i < |EngageWrites(cfg, groups)| && EngageWrites(cfg, groups)[i].file in faults {
      assert Engaged(cfg, groups, EngageWrites(cfg, groups)[i].file).Some?;
    }
  }

  /** The list that is written denotes the CPUs of the group, in order. */
  lemma PinnedListReadsBack(cpus: seq<int>)
    requires forall n :: n in cpus ==> IsCpu(n)
    ensures CpusText(cpus).Cpus? && Denoted(CpusText(cpus).text) == Sorted(cpus)
  {
    RoundTrip(cpus);
  }

  /** The knobs after engaging and after releasing: starvation and swap pressure for the
      offender, protection from swap for the vital group, and then the kernel defaults. */
  lemma KnobValues(cfg: SurvivalConfig, groups: seq<seq<int>>)
    ensures cfg.offender != "" ==>
      && LastValue(EngageWrites(cfg, groups), FileId(cfg.offender, CpuWeight)) ==
           Some(Number(Clamped(cfg.cpuWeightStarve, 1, 10000)))
      && LastValue(ReleaseWrites(cfg), FileId(cfg.offender, CpuWeight)) == Some(Number(100))
      && LastValue(ReleaseWrites(cfg), FileId(cfg.offender, Swappiness)) == Some(Number(60))
    ensures cfg.offender != "" && cfg.offender != cfg.vital ==>
      LastValue(EngageWrites(cfg, groups), FileId(cfg.offender, Swappiness)) ==
        Some(Number(Clamped(cfg.swappinessOffender, 0, 200)))
    ensures cfg.vital != "" ==>
      && LastValue(EngageWrites(cfg, groups), FileId(cfg.vital, SwapMax)) == Some(Number(0))
      && LastValue(EngageWrites(cfg, groups), FileId(cfg.vital, Swappiness)) ==
           Some(Number(Clamped(cfg.swappinessVital, 0, 200)))
      && LastValue(ReleaseWrites(cfg), FileId(cfg.vital, SwapMax)) == Some(Max)
      && LastValue(ReleaseWrites(cfg), FileId(cfg.vital, Swappiness)) == Some(Number(60))
  {
    hide EngageWrites, ReleaseWrites, LastValue, Clamped;
    EngageValues(cfg, groups, FileId(cfg.offender, CpuWeight));
    EngageValues(cfg, groups, FileId(cfg.offender, Swappiness));
    EngageValues(cfg, groups, FileId(cfg.vital, SwapMax));
    EngageValues(cfg, groups, FileId(cfg.vital, Swappiness));
    ReleaseValues(cfg, FileId(cfg.offender, CpuWeight));
    ReleaseValues(cfg, FileId(cfg.offender, Swappiness));
    ReleaseValues(cfg, FileId(cfg.vital, SwapMax));
    ReleaseValues(cfg, FileId(cfg.vital, Swappiness));
  }

  /** A file that no write names keeps its value. */
  lemma NoWriteTo(writes: seq<Write>, faults: set<FileId>, files: Files, f: FileId)
    requires LastValue(writes, f) == None
    ensures f in WrittenAll(files, writes, faults) <==> f in files
    ensures f in files ==> WrittenAll(files, writes, faults)[f] == files[f]
  {
    WrittenReads(files, writes, faults, f);
  }

  /** The last value that reaches a file when engaging and then releasing. */
  function Aftermath(cfg: SurvivalConfig, groups: seq<seq<int>>, engageFaults: set<FileId>,
    releaseFaults: set<FileId>, f: FileId): Option<Setting>
  {
    if f !in releaseFaults && Released(cfg, f).Some? then Released(cfg, f)
    else if f !in engageFaults then Engaged(cfg, groups, f)
    else None
  }

  /** Every file's value after engaging and releasing, whatever writes fail. */
  lemma AftermathValues(files: Files, cfg: SurvivalConfig, groups: seq<seq<int>>, engageFaults: set<FileId>,
    releaseFaults: set<FileId>, f: FileId)
    ensures var after := EngageThenRelease(files, cfg, groups, engageFaults, releaseFaults);
      var v := Aftermath(cfg, groups, engageFaults, releaseFaults, f);
      && (f in after <==> f in files || v.Some?)
      && (v.Some? ==> after[f] == v.value)
      && (v.None? && f in files ==> after[f] == files[f])
  {
    hide WrittenAll, EngageWrites, ReleaseWrites, LastValue, Engaged, Released;
    var engaged := WrittenAll(files, EngageWrites(cfg, groups), engageFaults);
    WrittenReads(files, EngageWrites(cfg, groups), engageFaults, f);
    WrittenReads(engaged, ReleaseWrites(cfg), releaseFaults, f);
    ReleaseValues(cfg, f);
    EngageValues(cfg, groups, f);
  }

  predicate Holds(files: Files, f: FileId, value: Setting) {
    f in files && files[f] == value
  }

  /** A knob is back where it was: its reset succeeds and it was at the kernel default, or
      only engaging wrote it and it held that value already, or both writes failed. */
  predicate KnobRestored(files: Files, f: FileId, engaged: Setting, default: Setting, engageFaults: set<FileId>,
    releaseFaults: set<FileId>)
  {
    if f !in releaseFaults then Holds(files, f, default)
    else if f !in engageFaults then Holds(files, f, engaged)
    else true
  }

  /** A pinned cpuset, which is never reset, held that list already, or pinning failed. */
  predicate PinRestored(files: Files, f: FileId, cpus: seq<int>, engageFaults: set<FileId>) {
    f in engageFaults || Holds(files, f, CpusText(cpus))
  }

  predicate VitalRestored(files: Files, cfg: SurvivalConfig, groups: seq<seq<int>>, engageFaults: set<FileId>,
    releaseFaults: set<FileId>)
  {
    cfg.vital != "" ==>
      && KnobRestored(files, FileId(cfg.vital, Swappiness), Number(Clamped(cfg.swappinessVital, 0, 200)), Number(60),
           engageFaults, releaseFaults)
      && KnobRestored(files, FileId(cfg.vital, SwapMax), Number(0), Max, engageFaults, releaseFaults)
      && (PinsVital(cfg, groups) ==> PinRestored(files, FileId(cfg.vital, CpuSetCpus), groups[0], engageFaults))
  }

  /** Where both groups are one cgroup, the vital values are the ones in force. */
  predicate OffenderRestored(files: Files, cfg: SurvivalConfig, groups: seq<seq<int>>, engageFaults: set<FileId>,
    releaseFaults: set<FileId>)
  {
    cfg.offender != "" ==>
      && KnobRestored(files, FileId(cfg.offender, CpuWeight), Number(Clamped(cfg.cpuWeightStarve, 1, 10000)),
           Number(100), engageFaults, releaseFaults)
      && (cfg.vital != cfg.offender ==>
            KnobRestored(files, FileId(cfg.offender, Swappiness), Number(Clamped(cfg.swappinessOffender, 0, 200)),
              Number(60), engageFaults, releaseFaults))
      && (PinsOffender(cfg, groups) && !(PinsVital(cfg, groups) && cfg.vital == cfg.offender) ==>
            PinRestored(files, FileId(cfg.offender, CpuSetCpus), groups[1], engageFaults))
  }

  /** Release restores the state before Engage exactly when every knob and every pinned
      cpuset is back where it was, whatever writes failed in either call. Without failures
      that asks for kernel defaults and for pinning that changed nothing. */
  lemma ReleaseRestores(files: Files, cfg: SurvivalConfig, groups: seq<seq<int>>, engageFaults: set<FileId>,
    releaseFaults: set<FileId>)
    ensures EngageThenRelease(files, cfg, groups, engageFaults, releaseFaults) == files <==>
      && VitalRestored(files, cfg, groups, engageFaults, releaseFaults)
      && OffenderRestored(files, cfg, groups, engageFaults, releaseFaults)
  {
    hide EngageThenRelease, Aftermath, VitalRestored, OffenderRestored;
    var after := EngageThenRelease(files, cfg, groups, engageFaults, releaseFaults);
    if && VitalRestored(files, cfg, groups, engageFaults, releaseFaults)
       && OffenderRestored(files, cfg, groups, engageFaults, releaseFaults)
    {
      forall f ensures (f in after <==> f in files) && (f in files ==> after[f] == files[f]) {
        AftermathValues(files, cfg, groups, engageFaults, releaseFaults, f);
        if Aftermath(cfg, groups, engageFaults, releaseFaults, f).Some? {
          AlreadyThere(files, cfg, groups, engageFaults, releaseFaults, f);
        }
      }
    } else {
      var f := Witness(files, cfg, groups, engageFaults, releaseFaults);
      AftermathValues(files, cfg, groups, engageFaults, releaseFaults, f);
    }
  }

  lemma AlreadyThere(files: Files, cfg: SurvivalConfig, groups: seq<seq<int>>, engageFaults: set<FileId>,
    releaseFaults: set<FileId>, f: FileId)
    requires VitalRestored(files, cfg, groups, engageFaults, releaseFaults)
    requires OffenderRestored(files, cfg, groups, engageFaults, releaseFaults)
    requires Aftermath(cfg, groups, engageFaults, releaseFaults, f).Some?
    ensures Holds(files, f, Aftermath(cfg, groups, engageFaults, releaseFaults, f).value)
  {
    hide CpusText, Clamped;
  }

  /** A file that engaging and releasing leaves different. */
  lemma Witness(files: Files, cfg: SurvivalConfig, groups: seq<seq<int>>, engageFaults: set<FileId>,
    releaseFaults: set<FileId>) returns (f: FileId)
    requires !(VitalRestored(files, cfg, groups, engageFaults, releaseFaults)
               && OffenderRestored(files, cfg, groups, engageFaults, releaseFaults))
    ensures Aftermath(cfg, groups, engageFaults, releaseFaults, f).Some?
    ensures !Holds(files, f, Aftermath(cfg, groups, engageFaults, releaseFaults, f).value)
  {
    hide CpusText, Clamped;
    if !VitalRestored(files, cfg, groups, engageFaults, releaseFaults) {
      f := VitalWitness(files, cfg, groups, engageFaults, releaseFaults);
    } else {
      f := OffenderWitness(files, cfg, groups, engageFaults, releaseFaults);
    }
  }

  lemma VitalWitness(files: Files, cfg: SurvivalConfig, groups: seq<seq<int>>, engageFaults: set<FileId>,
    releaseFaults: set<FileId>) returns (f: FileId)
    requires !VitalRestored(files, cfg, groups, engageFaults, releaseFaults)
    ensures Aftermath(cfg, groups, engageFaults, releaseFaults, f).Some?
    ensures !Holds(files, f, Aftermath(cfg, groups, engageFaults, releaseFaults, f).value)
  {
    hide CpusText, Clamped;
    var swappiness, swapMax := FileId(cfg.vital, Swappiness), FileId(cfg.vital, SwapMax);
    if !KnobRestored(files, swappiness, Number(Clamped(cfg.swappinessVital, 0, 200)), Number(60),
      engageFaults, releaseFaults)
    {
      f := swappiness;
    } else if !KnobRestored(files, swapMax, Number(0), Max, engageFaults, releaseFaults) {
      f := swapMax;
    } else {
      f := FileId(cfg.vital, CpuSetCpus);
    }
  }

  lemma OffenderWitness(files: Files, cfg: SurvivalConfig, groups: seq<seq<int>>, engageFaults: set<FileId>,
    releaseFaults: set<FileId>) returns (f: FileId)
    requires !OffenderRestored(files, cfg, groups, engageFaults, releaseFaults)
    ensures Aftermath(cfg, groups, engageFaults, releaseFaults, f).Some?
    ensures !Holds(files, f, Aftermath(cfg, groups, engageFaults, releaseFaults, f).value)
  {
    hide CpusText, Clamped;
    var weight, swappiness := FileId(cfg.offender, CpuWeight), FileId(cfg.offender, Swappiness);
    if !KnobRestored(files, weight, Number(Clamped(cfg.cpuWeightStarve, 1, 10000)), Number(100),
      engageFaults, releaseFaults)
    {
      f := weight;
    } else if cfg.vital != cfg.offender
      && !KnobRestored(files, swappiness, Number(Clamped(cfg.swappinessOffender, 0, 200)), Number(60),
           engageFaults, releaseFaults)
    {
      f := swappiness;
    } else {
      f := FileId(cfg.offender, CpuSetCpus);
    }
  }

  /** A state that is not restored although nothing fails and all knobs are at their defaults:
      the vital group may use CPUs 0 to 3, the first cache group is CPU 0, and the pinning
      stays behind. */
  lemma PinningStays(cfg: SurvivalConfig, files: Files)
    requires cfg.vital == "vital" && cfg.offender == ""
    requires files == map[
      FileId("vital", Swappiness) := Number(60),
      FileId("vital", SwapMax) := Max,
      FileId("vital", CpuSetCpus) := Cpus("0-3")]
    ensures EngageThenRelease(files, cfg, [[0]], {}, {}) == files[FileId("vital", CpuSetCpus) := Cpus("0")] != files
  {
    hide EngageThenRelease;
    var groups := [[0]];
    var after := EngageThenRelease(files, cfg, groups, {}, {});
    SingleCpu();
    forall f ensures
      && (f in after <==> f in files)
      && (f in after ==> after[f] == if f == FileId("vital", CpuSetCpus) then Cpus("0") else files[f])
    {
      AftermathValues(files, cfg, groups, {}, {}, f);
    }
    assert after[FileId("vital", CpuSetCpus)] == Cpus("0");
  }

  lemma SingleCpu()
    ensures CpusText([0]) == Cpus("0")
  {
    assert Sorted([0]) == [0];
    assert Ranges([0]) == [Span(0, 0)];
    assert RangeText(Span(0, 0)) == "0";
  }
}
