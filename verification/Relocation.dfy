/** Patching map file descriptors into BPF bytecode. */
module Relocation {
  import opened Bytes
  import opened Int64

  const INSN_SIZE: int := 8

  /** Where the instruction with index k starts, in 64-bit arithmetic. */
  function OffsetOf(k: int): (at: int)
    ensures MIN_INT <= at <= MAX_INT
  {
    Wrap64(k * INSN_SIZE)
  }

  lemma {:induction false} WrapAligned(x: int)
    requires x % INSN_SIZE == 0
    ensures Wrap64(x) % INSN_SIZE == 0
    decreases if x < 0 then -x else x + 1
  {
    if x > MAX_INT {
      WrapAligned(x - TWO_64);
    } else if x < MIN_INT {
      WrapAligned(x + TWO_64);
    }
  }

  lemma OffsetAligned(k: int)
    ensures OffsetOf(k) % INSN_SIZE == 0
  {
    WrapAligned(k * INSN_SIZE);
  }

  /** Byte i of an instruction after patching: the upper half of byte 1 (the source
      register) and bytes 4 to 7 (the immediate) change. */
  function PatchedByte(b: Byte, i: nat, fd: int): Byte
    requires i < INSN_SIZE
  {
    if i == 1 then b % 16 + 16
    else if i >= 4 then WordByte(fd % TWO_32, i - 4)
    else b
  }

  /** The bytecode with a descriptor loaded at every byte offset in loads. */
  function Patched(insns: seq<Byte>, loads: map<int, int>): (r: seq<Byte>)
    ensures |r| == |insns|
  {
    seq(|insns|, i requires 0 <= i < |insns| =>
      var at := i - i % INSN_SIZE;
      if at in loads then PatchedByte(insns[i], i % INSN_SIZE, loads[at]) else insns[i])
  }

  /** Descriptors of the known references in order; later ones replace earlier ones at
      the same offset. */
  function Loads(order: seq<int>, refs: map<int, string>, fds: map<string, int>): map<int, int> {
    if |order| == 0 then map[]
    else
      var k := order[|order| - 1];
      var before := Loads(order[..|order| - 1], refs, fds);
      if k in refs && refs[k] in fds then before[OffsetOf(k) := fds[refs[k]]] else before
  }

  predicate Known(order: seq<int>, refs: map<int, string>, fds: map<string, int>) {
    forall i :: 0 <= i < |order| ==> order[i] in refs && refs[order[i]] in fds
  }

  /** The 64-bit bounds check lets this offset pass, but the access is out of range. */
  predicate Unguarded(at: int) {
    at < 0 || at + INSN_SIZE > MAX_INT
  }

  /** The map is known and the instruction lies inside the bytecode. */
  predicate Resolves(refs: map<int, string>, fds: map<string, int>, length: nat, k: int)
    requires k in refs
  {
    refs[k] in fds && !Unguarded(OffsetOf(k)) && OffsetOf(k) + INSN_SIZE <= length
  }

  /** Panic is an index that is out of range behind the check. */
  datatype Outcome = Done | UnknownMap(name: string) | OutOfBounds(offset: int) | Panic

  /** What visiting one reference comes to. */
  function Verdict(refs: map<int, string>, fds: map<string, int>, length: nat, k: int): (v: Outcome)
    requires k in refs
    ensures v == Done <==> Resolves(refs, fds, length, k)
    ensures v.UnknownMap? <==> refs[k] !in fds
    ensures v.OutOfBounds? ==> v.offset == OffsetOf(k)
  {
    if refs[k] !in fds then UnknownMap(refs[k])
    else if Unguarded(OffsetOf(k)) then Panic
    else if OffsetOf(k) + INSN_SIZE > length then OutOfBounds(OffsetOf(k))
    else Done
  }

  /** The first failure in an order; Done when there is none. */
  function FirstFailure(order: seq<int>, refs: map<int, string>, fds: map<string, int>, length: nat): Outcome
    requires forall i :: 0 <= i < |order| ==> order[i] in refs
  {
    if |order| == 0 then Done
    else if Verdict(refs, fds, length, order[0]) != Done then Verdict(refs, fds, length, order[0])
    else FirstFailure(order[1..], refs, fds, length)
  }

  /** Some references, each at most once, all of which resolve. */
  ghost predicate Visited(order: seq<int>, refs: map<int, string>, fds: map<string, int>, length: nat) {
    && (forall i, j :: 0 <= i < j < |order| ==> order[i] != order[j])
    && (forall i :: 0 <= i < |order| ==> order[i] in refs && Resolves(refs, fds, length, order[i]))
  }

  /** The references are visited in an arbitrary order, until one fails: whole is that
      order, and done the part of it that was patched. Success does not depend on the
      order; which failure is met may. A byte slice is never within eight bytes of the
      largest integer. */
  method RelocateInsns(insns: array<Byte>, refs: map<int, string>, fds: map<string, int>)
    returns (r: Outcome, ghost done: seq<int>, ghost whole: seq<int>)
    requires insns.Length <= MAX_INT - INSN_SIZE
    modifies insns
    ensures r == Done <==> forall k :: k in refs ==> Resolves(refs, fds, insns.Length, k)
    ensures IsOrder(whole, refs) && r == FirstFailure(whole, refs, fds, insns.Length)
    ensures done <= whole && Visited(done, refs, fds, insns.Length)
    ensures r == Done ==> done == whole
    ensures r != Done ==> |done| < |whole| && Verdict(refs, fds, insns.Length, whole[|done|]) == r
    ensures insns[..] == Patched(old(insns[..]), Loads(done, refs, fds))
  {
    hide OffsetOf, Patched, FirstFailure;
    var todo := refs.Keys;
    done, whole := [], [];
    NothingLoaded(insns[..]);
    while todo != {}
      invariant todo <= refs.Keys && forall k :: k in refs ==> k in todo || k in done
      invariant forall i :: 0 <= i < |done| ==> done[i] !in todo
      invariant Visited(done, refs, fds, insns.Length)
      invariant insns[..] == Patched(old(insns[..]), Loads(done, refs, fds))
      decreases todo
    {
      EmptyOrNot(todo);
      var k :| k in todo;
      if refs[k] !in fds {
        whole := Failing(done, k, todo, refs, fds, insns.Length);
        return UnknownMap(refs[k]), done, whole;
      }
      var byteOffset := OffsetOf(k);
      OffsetAligned(k);
      if Wrap64(byteOffset + INSN_SIZE) > insns.Length {
        CheckFails(byteOffset, insns.Length);
        whole := Failing(done, k, todo, refs, fds, insns.Length);
        return OutOfBounds(byteOffset), done, whole;
      }
      CheckPasses(byteOffset, insns.Length);
      if byteOffset < 0 || byteOffset + INSN_SIZE > insns.Length {
        whole := Failing(done, k, todo, refs, fds, insns.Length);
        return Panic, done, whole;
      }
      ghost var was, loads := insns[..], Loads(done, refs, fds);
      PatchInsn(insns, byteOffset, fds[refs[k]]);
      OneMore(old(insns[..]), was, insns[..], loads, byteOffset, fds[refs[k]]);
      assert (done + [k])[..|done|] == done;
      done := done + [k];
      todo := todo - {k};
    }
    NoFailure(done, refs, fds, insns.Length);
    return Done, done, done;
  }

  lemma {:induction false} NoFailure(order: seq<int>, refs: map<int, string>, fds: map<string, int>, length: nat)
    requires forall i :: 0 <= i < |order| ==> order[i] in refs && Resolves(refs, fds, length, order[i])
    ensures FirstFailure(order, refs, fds, length) == Done
  {
    if |order| > 0 {
      NoFailure(order[1..], refs, fds, length);
    }
  }

  /** When k fails after done, the remaining references may follow in any order. */
  lemma Failing(done: seq<int>, k: int, todo: set<int>, refs: map<int, string>, fds: map<string, int>, length: nat)
    returns (whole: seq<int>)
    requires Visited(done, refs, fds, length) && k in todo && todo <= refs.Keys
    requires (forall l :: l in refs ==> l in todo || l in done) && forall i :: 0 <= i < |done| ==> done[i] !in todo
    requires Verdict(refs, fds, length, k) != Done
    ensures IsOrder(whole, refs) && done + [k] <= whole
    ensures FirstFailure(whole, refs, fds, length) == Verdict(refs, fds, length, k)
  {
    var rest := Enumerated(todo - {k});
    whole := done + [k] + rest;
    assert forall i :: 0 <= i < |rest| ==> rest[i] in rest;
    assert forall l :: l in rest ==> l in whole;
    assert forall l :: l in done ==> l in whole;
    assert whole[|done|] == k;
    FailureAt(whole, |done|, refs, fds, length);
  }

  lemma {:induction false} FailureAt(order: seq<int>, n: nat, refs: map<int, string>, fds: map<string, int>,
    length: nat)
    requires n < |order| && forall i :: 0 <= i < |order| ==> order[i] in refs
    requires forall i :: 0 <= i < n ==> Resolves(refs, fds, length, order[i])
    requires Verdict(refs, fds, length, order[n]) != Done
    ensures FirstFailure(order, refs, fds, length) == Verdict(refs, fds, length, order[n])
  {
    if n > 0 {
      FailureAt(order[1..], n - 1, refs, fds, length);
    }
  }

  lemma CheckFails(at: int, length: nat)
    requires MIN_INT <= at <= MAX_INT && at % INSN_SIZE == 0 && Wrap64(at + INSN_SIZE) > length
    ensures !Unguarded(at) && at + INSN_SIZE > length
  {
  }

  lemma CheckPasses(at: int, length: nat)
    requires MIN_INT <= at <= MAX_INT && Wrap64(at + INSN_SIZE) <= length
    ensures Unguarded(at) || at + INSN_SIZE <= length
  {
  }

  lemma NothingLoaded(insns: seq<Byte>)
    ensures Patched(insns, map[]) == insns
  {
  }

  lemma EmptyOrNot(keys: set<int>)
    ensures keys == {} || exists k :: k in keys
  {
    if forall k :: k !in keys {
      assert keys == {};
    }
  }

  method PatchInsn(insns: array<Byte>, offset: nat, fd: int)
    requires offset + INSN_SIZE <= insns.Length
    modifies insns
    ensures forall i :: 0 <= i < insns.Length ==>
      insns[i] == if offset <= i < offset + INSN_SIZE then PatchedByte(old(insns[i]), i - offset, fd) else old(insns[i])
  {
    var dstReg := insns[offset + 1] % 16;
    insns[offset + 1] := dstReg + 16;
    for n := 0 to 4
      invariant forall i :: 0 <= i < insns.Length ==>
        insns[i] == if offset <= i < offset + 4 + n then PatchedByte(old(insns[i]), i - offset, fd) else old(insns[i])
    {
      insns[offset + 4 + n] := WordByte(fd % TWO_32, n);
    }
  }

  lemma OneMore(before: seq<Byte>, was: seq<Byte>, now: seq<Byte>, loads: map<int, int>, at: nat, fd: int)
    requires was == Patched(before, loads) && |now| == |was| && at % INSN_SIZE == 0
    requires forall i :: 0 <= i < |was| ==>
      now[i] == if at <= i < at + INSN_SIZE then PatchedByte(was[i], i - at, fd) else was[i]
    ensures now == Patched(before, loads[at := fd])
  {
    forall i | 0 <= i < |now| ensures now[i] == Patched(before, loads[at := fd])[i] {
      InsnOfByte(i, at);
      NibbleTwice(before[i]);
    }
  }

  /** Byte i belongs to the instruction at offset at exactly when rounding i down gives at. */
  lemma InsnOfByte(i: nat, at: nat)
    requires at % INSN_SIZE == 0
    ensures i - i % INSN_SIZE == at <==> at <= i < at + INSN_SIZE
    ensures at <= i < at + INSN_SIZE ==> i % INSN_SIZE == i - at
  {
  }

  lemma NibbleTwice(b: Byte)
    ensures (b % 16 + 16) % 16 == b % 16
  {
  }

  // ------------------------------------------------- what the visiting order decides

  /** The whole set of references, in some order. */
  ghost predicate IsOrder(order: seq<int>, refs: map<int, string>) {
    && (forall i, j :: 0 <= i < j < |order| ==> order[i] != order[j])
    && (forall i :: 0 <= i < |order| ==> order[i] in refs)
    && (forall k :: k in refs ==> k in order)
  }

  ghost predicate AllResolve(length: nat, refs: map<int, string>, fds: map<string, int>) {
    forall k :: k in refs ==> Resolves(refs, fds, length, k)
  }

  /** References at the same offset want the same 32 bits. */
  ghost predicate Unambiguous(refs: map<int, string>, fds: map<string, int>)
    requires forall k :: k in refs ==> refs[k] in fds
  {
    forall k, l :: k in refs && l in refs && OffsetOf(k) == OffsetOf(l) ==>
      fds[refs[k]] % TWO_32 == fds[refs[l]] % TWO_32
  }

  /** Every loaded descriptor is that of a reference at its offset. */
  lemma {:induction false} LoadsFromOrder(order: seq<int>, refs: map<int, string>, fds: map<string, int>)
    requires Known(order, refs, fds)
    ensures forall at :: at in Loads(order, refs, fds) ==>
      exists k :: k in order && OffsetOf(k) == at && Loads(order, refs, fds)[at] == fds[refs[k]]
    ensures forall k :: k in order ==> OffsetOf(k) in Loads(order, refs, fds)
  {
    hide OffsetOf;
    if |order| > 0 {
      var init, last := order[..|order| - 1], order[|order| - 1];
      LoadsFromOrder(init, refs, fds);
      assert order == init + [last];
    }
  }

  /** The offsets loaded are those of the references, whatever the order. */
  lemma LoadsOfOrder(length: nat, order: seq<int>, refs: map<int, string>, fds: map<string, int>)
    requires AllResolve(length, refs, fds) && IsOrder(order, refs)
    ensures Loads(order, refs, fds).Keys == Offsets(refs)
    ensures Unambiguous(refs, fds) ==>
      forall k :: k in refs ==> Loads(order, refs, fds)[OffsetOf(k)] % TWO_32 == fds[refs[k]] % TWO_32
  {
    hide OffsetOf, Loads;
    forall i | 0 <= i < |order| ensures order[i] in refs && refs[order[i]] in fds {
      assert Resolves(refs, fds, length, order[i]);
    }
    LoadsFromOrder(order, refs, fds);
    var loads := Loads(order, refs, fds);
    forall k | k in refs ensures OffsetOf(k) in loads {
      assert k in order;
    }
    forall at | at in loads ensures at in Offsets(refs) {
      var k :| k in order && OffsetOf(k) == at && loads[at] == fds[refs[k]];
    }
    if Unambiguous(refs, fds) {
      forall k | k in refs ensures loads[OffsetOf(k)] % TWO_32 == fds[refs[k]] % TWO_32 {
        var l :| l in order && OffsetOf(l) == OffsetOf(k) && loads[OffsetOf(k)] == fds[refs[l]];
      }
    }
  }

  ghost function Offsets(refs: map<int, string>): set<int> {
    set k | k in refs :: OffsetOf(k)
  }

  /** On unambiguous references all orders leave the same bytes. */
  lemma OrdersAgree(insns: seq<Byte>, refs: map<int, string>, fds: map<string, int>, o1: seq<int>, o2: seq<int>)
    requires AllResolve(|insns|, refs, fds) && Unambiguous(refs, fds) && IsOrder(o1, refs) && IsOrder(o2, refs)
    ensures Patched(insns, Loads(o1, refs, fds)) == Patched(insns, Loads(o2, refs, fds))
  {
    hide OffsetOf, Loads, Patched;
    LoadsOfOrder(|insns|, o1, refs, fds);
    LoadsOfOrder(|insns|, o2, refs, fds);
    SameLoads(insns, Loads(o1, refs, fds), Loads(o2, refs, fds));
  }

  lemma SameLoads(insns: seq<Byte>, loads: map<int, int>, others: map<int, int>)
    requires loads.Keys == others.Keys
    requires forall at :: at in loads ==> loads[at] % TWO_32 == others[at] % TWO_32
    ensures Patched(insns, loads) == Patched(insns, others)
  {
  }

  /** Two references that want different bits at one offset: the later one wins. */
  lemma OrdersDiffer(insns: seq<Byte>, refs: map<int, string>, fds: map<string, int>, k: int, l: int)
    returns (o1: seq<int>, o2: seq<int>)
    requires AllResolve(|insns|, refs, fds) && k in refs && l in refs && OffsetOf(k) == OffsetOf(l)
    requires fds[refs[k]] % TWO_32 != fds[refs[l]] % TWO_32
    ensures IsOrder(o1, refs) && IsOrder(o2, refs)
    ensures Patched(insns, Loads(o1, refs, fds)) != Patched(insns, Loads(o2, refs, fds))
  {
    var at := OffsetOf(k);
    OffsetAligned(k);
    o1 := OrderEndingWith(refs, k);
    o2 := OrderEndingWith(refs, l);
    assert Resolves(refs, fds, |insns|, k);
    LoadedImmediate(insns, Loads(o1, refs, fds), at);
    LoadedImmediate(insns, Loads(o2, refs, fds), at);
  }

  lemma OrderEndingWith(refs: map<int, string>, k: int) returns (order: seq<int>)
    requires k in refs
    ensures IsOrder(order, refs) && |order| > 0 && order[|order| - 1] == k
  {
    var rest := Enumerated(refs.Keys - {k});
    order := rest + [k];
    assert forall l :: l in order <==> l in rest || l == k;
    assert forall i :: 0 <= i < |order| ==> order[i] in order;
    assert forall i :: 0 <= i < |rest| ==> rest[i] in rest;
  }

  lemma {:induction false} Enumerated(keys: set<int>) returns (order: seq<int>)
    ensures forall i, j :: 0 <= i < j < |order| ==> order[i] != order[j]
    ensures forall k :: k in order <==> k in keys
  {
    order := [];
    EmptyOrNot(keys);
    if keys != {} {
      var k :| k in keys;
      var rest := Enumerated(keys - {k});
      order := rest + [k];
      assert forall l :: l in order <==> l in rest || l == k;
    }
  }

  /** The immediate at a loaded offset is the descriptor in 32 bits. */
  lemma LoadedImmediate(insns: seq<Byte>, loads: map<int, int>, at: nat)
    requires at in loads && at % INSN_SIZE == 0 && at + INSN_SIZE <= |insns|
    ensures Le32(Patched(insns, loads), at + 4) == loads[at] % TWO_32
  {
    InsnOfByte(at + 4, at);
    InsnOfByte(at + 5, at);
    InsnOfByte(at + 6, at);
    InsnOfByte(at + 7, at);
    WordRoundTrip(loads[at] % TWO_32);
  }

  /** The bytes left on success are independent of the visiting order exactly when the
      references are unambiguous. */
  lemma OrderIrrelevantIff(insns: seq<Byte>, refs: map<int, string>, fds: map<string, int>)
    requires AllResolve(|insns|, refs, fds)
    ensures (forall o1, o2 :: IsOrder(o1, refs) && IsOrder(o2, refs) ==>
               Patched(insns, Loads(o1, refs, fds)) == Patched(insns, Loads(o2, refs, fds)))
      <==> Unambiguous(refs, fds)
  {
    if Unambiguous(refs, fds) {
      forall o1, o2 | IsOrder(o1, refs) && IsOrder(o2, refs)
        ensures Patched(insns, Loads(o1, refs, fds)) == Patched(insns, Loads(o2, refs, fds))
      {
        OrdersAgree(insns, refs, fds, o1, o2);
      }
    } else {
      var k, l :| k in refs && l in refs && OffsetOf(k) == OffsetOf(l)
        && fds[refs[k]] % TWO_32 != fds[refs[l]] % TWO_32;
      var o1, o2 := OrdersDiffer(insns, refs, fds, k, l);
    }
  }

  /** The outcome is the same for every visiting order exactly when all references that do
      not resolve fail in the same way. */
  lemma OutcomeIrrelevantIff(refs: map<int, string>, fds: map<string, int>, length: nat)
    ensures (forall o1, o2 :: IsOrder(o1, refs) && IsOrder(o2, refs) ==>
               FirstFailure(o1, refs, fds, length) == FirstFailure(o2, refs, fds, length))
      <==> FailAlike(refs, fds, length)
  {
    if FailAlike(refs, fds, length) {
      forall o1, o2 | IsOrder(o1, refs) && IsOrder(o2, refs)
        ensures FirstFailure(o1, refs, fds, length) == FirstFailure(o2, refs, fds, length)
      {
        FailureOf(o1, refs, fds, length);
        FailureOf(o2, refs, fds, length);
      }
    } else {
      var k, l :| k in refs && l in refs && Differ(Verdict(refs, fds, length, k), Verdict(refs, fds, length, l));
      var o1 := OrderStartingWith(refs, k);
      var o2 := OrderStartingWith(refs, l);
      assert FirstFailure(o1, refs, fds, length) == Verdict(refs, fds, length, k);
      assert FirstFailure(o2, refs, fds, length) == Verdict(refs, fds, length, l);
    }
  }

  /** Two failures, and not the same. */
  predicate Differ(v: Outcome, w: Outcome) {
    v != Done && w != Done && v != w
  }

  ghost predicate FailAlike(refs: map<int, string>, fds: map<string, int>, length: nat) {
    forall k, l :: k in refs && l in refs ==> !Differ(Verdict(refs, fds, length, k), Verdict(refs, fds, length, l))
  }

  /** A failure is that of some reference, and any failing reference makes one. */
  lemma {:induction false} FailureOf(order: seq<int>, refs: map<int, string>, fds: map<string, int>, length: nat)
    requires forall i :: 0 <= i < |order| ==> order[i] in refs
    ensures var v := FirstFailure(order, refs, fds, length);
      && (v != Done ==> exists k :: k in order && v == Verdict(refs, fds, length, k))
      && (v == Done ==> forall k :: k in order ==> Verdict(refs, fds, length, k) == Done)
  {
    if |order| > 0 {
      FailureOf(order[1..], refs, fds, length);
      assert order == [order[0]] + order[1..];
    }
  }

  /** A call can panic exactly when some reference with a known map has an offset that the
      bounds check misses. */
  lemma NeverPanicsIff(refs: map<int, string>, fds: map<string, int>, length: nat)
    ensures (forall o :: IsOrder(o, refs) ==> FirstFailure(o, refs, fds, length) != Panic)
      <==> forall k :: k in refs && refs[k] in fds ==> !Unguarded(OffsetOf(k))
  {
    hide OffsetOf;
    if k :| k in refs && refs[k] in fds && Unguarded(OffsetOf(k)) {
      var o := OrderStartingWith(refs, k);
      assert FirstFailure(o, refs, fds, length) == Verdict(refs, fds, length, k) == Panic;
    } else {
      forall o | IsOrder(o, refs) ensures FirstFailure(o, refs, fds, length) != Panic {
        FailureOf(o, refs, fds, length);
      }
    }
  }

  /** One known map at index -1 and one unknown map at index 0: the visiting order decides
      between a panic and an error. */
  lemma OrderDecidesPanic(refs: map<int, string>, fds: map<string, int>)
    requires refs == map[-1 := "m", 0 := "x"] && fds == map["m" := 3]
    ensures IsOrder([-1, 0], refs) && FirstFailure([-1, 0], refs, fds, 64) == Panic
    ensures IsOrder([0, -1], refs) && FirstFailure([0, -1], refs, fds, 64) == UnknownMap("x")
  {
    LoaderOffset(-1);
    LoaderOffset(0);
  }

  lemma OrderStartingWith(refs: map<int, string>, k: int) returns (order: seq<int>)
    requires k in refs
    ensures IsOrder(order, refs) && |order| > 0 && order[0] == k
  {
    var rest := Enumerated(refs.Keys - {k});
    order := [k] + rest;
    assert forall l :: l in order <==> l in rest || l == k;
    assert forall i :: 0 <= i < |order| ==> order[i] in order;
    assert forall i :: 0 <= i < |rest| ==> rest[i] in rest;
  }

  /** Indices that the object loader produces: a 64-bit offset divided by eight. */
  predicate FromLoader(k: int) {
    -0x1000_0000_0000_0000 <= k < 0x1000_0000_0000_0000
  }

  lemma LoaderOffset(k: int)
    requires FromLoader(k)
    ensures OffsetOf(k) == 8 * k
    ensures Unguarded(OffsetOf(k)) <==> k < 0 || k == 0x0fff_ffff_ffff_ffff
  {
  }

  /** They never collide, so for a loaded object the order is irrelevant. */
  lemma LoaderRefsUnambiguous(refs: map<int, string>, fds: map<string, int>)
    requires forall k :: k in refs ==> refs[k] in fds && FromLoader(k)
    ensures Unambiguous(refs, fds)
  {
    forall k, l | k in refs && l in refs && OffsetOf(k) == OffsetOf(l) ensures k == l {
      LoaderOffset(k);
      LoaderOffset(l);
    }
  }

  /** Other indices may: 2^61 is taken for instruction 0. */
  lemma IndicesCollide()
    ensures OffsetOf(0x2000_0000_0000_0000) == OffsetOf(0) == 0
  {
  }

  // ------------------------------------------------- what patching means

  /** A referenced instruction loads its descriptor: the immediate is the descriptor in 32
      bits, the source register is the pseudo-descriptor mark 1, and opcode, destination
      register and offset field are untouched. */
  lemma ReferencedInsn(insns: seq<Byte>, refs: map<int, string>, fds: map<string, int>, order: seq<int>, k: int)
    requires AllResolve(|insns|, refs, fds) && Unambiguous(refs, fds) && IsOrder(order, refs) && k in refs
    ensures var r, at := Patched(insns, Loads(order, refs, fds)), OffsetOf(k);
      && 0 <= at && at + INSN_SIZE <= |r|
      && Le32(r, at + 4) == fds[refs[k]] % TWO_32
      && r[at + 1] / 16 == 1 && r[at + 1] % 16 == insns[at + 1] % 16
      && r[at] == insns[at] && r[at + 2] == insns[at + 2] && r[at + 3] == insns[at + 3]
  {
    hide OffsetOf, Loads;
    var at := OffsetOf(k);
    assert Resolves(refs, fds, |insns|, k);
    OffsetAligned(k);
    LoadsOfOrder(|insns|, order, refs, fds);
    LoadedImmediate(insns, Loads(order, refs, fds), at);
    InsnOfByte(at, at);
    InsnOfByte(at + 1, at);
    InsnOfByte(at + 2, at);
    InsnOfByte(at + 3, at);
    NibbleTwice(insns[at + 1]);
  }

  /** Nothing else changes: a byte that differs afterwards belongs to a loaded instruction,
      and is its second byte, with the same lower half, or one of its last four. */
  lemma OtherBits(insns: seq<Byte>, loads: map<int, int>, i: nat)
    requires i < |insns| && Patched(insns, loads)[i] != insns[i]
    ensures i - i % INSN_SIZE in loads
    ensures i % INSN_SIZE >= 4 || (i % INSN_SIZE == 1 && Patched(insns, loads)[i] % 16 == insns[i] % 16)
  {
    NibbleTwice(insns[i]);
  }

  /** Relocating again, in any order, only counts for the second order; on unambiguous
      references it changes nothing. */
  lemma RelocationIdempotent(insns: seq<Byte>, refs: map<int, string>, fds: map<string, int>, o1: seq<int>,
    o2: seq<int>)
    requires AllResolve(|insns|, refs, fds) && IsOrder(o1, refs) && IsOrder(o2, refs)
    ensures var once := Patched(insns, Loads(o1, refs, fds));
      && Patched(once, Loads(o2, refs, fds)) == Patched(insns, Loads(o2, refs, fds))
      && (Unambiguous(refs, fds) ==> Patched(once, Loads(o2, refs, fds)) == once)
  {
    hide OffsetOf, Loads, Patched;
    LoadsOfOrder(|insns|, o1, refs, fds);
    LoadsOfOrder(|insns|, o2, refs, fds);
    PatchedTwice(insns, Loads(o1, refs, fds), Loads(o2, refs, fds));
    if Unambiguous(refs, fds) {
      OrdersAgree(insns, refs, fds, o1, o2);
    }
  }

  lemma PatchedTwice(insns: seq<Byte>, first: map<int, int>, second: map<int, int>)
    requires first.Keys == second.Keys
    ensures Patched(Patched(insns, first), second) == Patched(insns, second)
  {
    forall i | 0 <= i < |insns| ensures Patched(Patched(insns, first), second)[i] == Patched(insns, second)[i] {
      NibbleTwice(insns[i]);
    }
  }
}
