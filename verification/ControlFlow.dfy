/** In every run, the bytes of every prologue agree with the newest active
    detour of its function; hence calls go where the bookkeeping says. */
module ControlFlow {
  import opened Bytes
  import opened Errors
  import opened InsnCodec
  import opened X86
  import opened Engine
  import opened Layout

  /** Memory once the tool has carried out the queue. */
  function After(st: State): (m: seq<byte>)
    ensures |m| == |st.mem|
  {
    Replay(st.mem, st.pending)
  }

  ghost predicate QueueOk(w: World, st: State) {
    Laid(w, st.mem) && AllGood(w, st.pending) && (st.immediate ==> st.pending == [])
  }

  /** Roots belong to patchable functions and every detour leads to a real address. */
  ghost predicate RootsIn(w: World, roots: seq<Root>) {
    forall i :: 0 <= i < |roots| ==>
      && roots[i].addr in w.kinds && w.kinds[roots[i].addr] != Unpatchable
      && TargetsOk(roots[i].detours)
  }

  ghost predicate TargetsOk(ds: seq<Detour>) {
    forall k :: 0 <= k < |ds| ==> 0 < ds[k].target < U64
  }

  lemma {:induction false} FirstActiveOk(ds: seq<Detour>)
    requires TargetsOk(ds)
    ensures FirstActive(ds).Some? ==> 0 < FirstActive(ds).value < U64
  {
    if ds != [] {
      assert forall k :: 0 <= k < |ds[1..]| ==> ds[1..][k] == ds[k + 1];
      FirstActiveOk(ds[1..]);
    }
  }

  /** The invariant of a state without error. */
  ghost predicate Tracks(w: World, mem0: seq<byte>, st: State) {
    && QueueOk(w, st)
    && UniqueAddrs(st.roots)
    && RootsIn(w, st.roots)
    && InSync(w, After(st), st.roots)
    && BodiesKept(w, mem0, After(st), st.roots)
  }

  // ---------- requests that make sense in a world ----------

  ghost predicate UnitsOk(w: World, units: seq<Unit>) {
    forall i :: 0 <= i < |units| ==>
      && (units[i].oldFun.Some? ==> units[i].oldFun.value in w.kinds)
      && (units[i].newFun.Some? ==> 0 < units[i].newFun.value < U64)
  }

  ghost predicate RefsOk(w: World, bases: Bases, refs: seq<Ref>)
    requires bases.Bases?
  {
    forall i :: 0 <= i < |refs| && RefAddress(bases, refs[i]).Some? ==>
      SlotWrite(w, Write(RefAddress(bases, refs[i]).value, RefBytes(bases, refs[i])))
  }

  /** Lookups give functions of the process; references point into the slots. */
  ghost predicate MetaOk(w: World, m: Meta) {
    UnitsOk(w, m.units) && (m.bases.Bases? ==> RefsOk(w, m.bases, m.refs))
  }

  ghost predicate OpOk(w: World, op: Op) {
    op.Trigger? && op.parse.Parsed? ==> MetaOk(w, op.parse.meta)
  }

  ghost predicate OpsOk(w: World, ops: seq<Op>) {
    forall i :: 0 <= i < |ops| ==> OpOk(w, ops[i])
  }

  // ---------- one write ----------

  lemma EnqueueKeeps(w: World, cap: nat, st: State, i: Insn)
    requires QueueOk(w, st) && GoodWrite(w, i)
    ensures
      var r := Enqueue(cap, st, i);
      && r == st.(mem := r.mem, pending := r.pending, error := r.error)
      && QueueOk(w, r)
      && (r.error == st.error || r.error == EINSNQ)
      && (r.error == ENONE ==> After(r) == Execute(After(st), i))
  {
    hide Laid, GoodWrite, Execute;
    if st.immediate {
      LaidAfter(w, st.mem, i);
    } else {
      ReplayAppend(st.mem, st.pending, [i]);
      assert Replay(After(st), [i]) == Execute(After(st), i) by {
        assert [i][1..] == [];
      }
    }
  }

  /** ulp_patch_addr on root `i` re-establishes the invariant when only that root is out of sync. */
  lemma EmitTracks(w: World, mem0: seq<byte>, cap: nat, st: State, i: nat)
    requires QueueOk(w, st) && UniqueAddrs(st.roots) && i < |st.roots|
    requires st.roots[i].addr in w.kinds
    requires FirstActive(st.roots[i].detours).Some? ==> FirstActive(st.roots[i].detours).value < U64
    requires forall j :: 0 <= j < |st.roots| && j != i ==> RootInSync(w, After(st), st.roots[j])
    requires BodiesKept(w, mem0, After(st), st.roots)
    requires w.kinds[st.roots[i].addr] != Unpatchable ==> RootsIn(w, st.roots)
    ensures
      var r := Emit(cap, st, st.roots[i].addr, FirstActive(st.roots[i].detours));
      && r.0 == st.(mem := r.0.mem, pending := r.0.pending, error := r.0.error)
      && (r.0.error == st.error || r.0.error == EINSNQ)
      && QueueOk(w, r.0) && (r.1 == 0 || r.1 == ENOPATCHABLE)
      && (r.1 == 0 <==> w.kinds[st.roots[i].addr] != Unpatchable)
      && (r.0.error == ENONE && r.1 == 0 ==> Tracks(w, mem0, r.0))
  {
    var f, top := st.roots[i].addr, FirstActive(st.roots[i].detours);
    var k := w.kinds[f];
    hide KindOf, Execute, Prologue, FirstActive, RootInSync, TargetsOk;
    if k != Unpatchable {
      var insn := PatchWrite(k, f, top).value;
      assert PatchFor(w, insn, f, top);
      EnqueueKeeps(w, cap, st, insn);
      LaidAfterAll(w, st.mem, st.pending);
      SyncAfterPatch(w, After(st), st.roots, i, insn);
      PatchStaysInside(w, After(st), insn, f, top);
      var mem' := Execute(After(st), insn);
      forall a | 0 <= a < |mem0| && a !in w.slots && !Owned(w, st.roots, a) ensures mem'[a] == mem0[a] {
        assert !InArea(w.kinds[st.roots[i].addr], st.roots[i].addr, a);
      }
    }
  }

  // ---------- applying ----------

  lemma RootIndexUnique(roots: seq<Root>, i: nat)
    requires UniqueAddrs(roots) && i < |roots|
    ensures RootIndex(roots, roots[i].addr) == i
  {
  }

  lemma FirstActivePush(d: Detour, ds: seq<Detour>)
    requires d.active
    ensures FirstActive([d] + ds) == Some(d.target)
  {
  }

  /** A detour is pushed on an old root or on a new one; no root goes away. */
  lemma PushOwns(w: World, st: State, id: PatchId, f: Addr, target: Addr)
    ensures forall a :: Owned(w, st.roots, a) ==> Owned(w, PushDetour(st, id, f, target).roots, a)
  {
    var roots := PushDetour(st, id, f, target).roots;
    forall a | Owned(w, st.roots, a) ensures Owned(w, roots, a) {
      var j :| 0 <= j < |st.roots| && st.roots[j].addr in w.kinds
            && InArea(w.kinds[st.roots[j].addr], st.roots[j].addr, a);
      if RootIndex(st.roots, f) < |st.roots| {
        assert roots[j].addr == st.roots[j].addr;
      } else {
        assert roots[j + 1].addr == st.roots[j].addr;
      }
    }
  }

  /** Pushing a detour puts at most the root of `f` out of sync. */
  lemma PushKeeps(w: World, mem0: seq<byte>, st: State, id: PatchId, f: Addr, target: Addr)
    requires Tracks(w, mem0, st) && f in w.kinds && 0 < target < U64
    ensures
      var r := PushDetour(st, id, f, target);
      var i := RootIndex(r.roots, f);
      && r == st.(roots := r.roots, nextIndex := r.nextIndex)
      && UniqueAddrs(r.roots) && (w.kinds[f] != Unpatchable ==> RootsIn(w, r.roots))
      && i < |r.roots| && FirstActive(r.roots[i].detours) == Some(target)
      && (forall j :: 0 <= j < |r.roots| && j != i ==> RootInSync(w, After(r), r.roots[j]))
      && BodiesKept(w, mem0, After(r), r.roots)
  {
    hide RootInSync, Replay, QueueOk, Owned;
    var r := PushDetour(st, id, f, target);
    var d := Detour(id, st.universe, target, true);
    var i := RootIndex(st.roots, f);
    PushOwns(w, st, id, f, target);
    if i < |st.roots| {
      FirstActivePush(d, st.roots[i].detours);
      RootIndexUnique(r.roots, i);
    } else {
      FirstActivePush(d, []);
      assert [d] + [] == [d];
      forall j | 0 <= j < |r.roots| && j != 0 ensures RootInSync(w, After(r), r.roots[j]) {
        assert r.roots[j] == st.roots[j - 1];
      }
    }
  }

  /** One unit: push, then patch. */
  lemma UnitTracks(w: World, mem0: seq<byte>, cap: nat, st: State, id: PatchId, f: Addr, target: Addr)
    requires Tracks(w, mem0, st) && f in w.kinds && 0 < target < U64
    ensures
      var r := Emit(cap, PushDetour(st, id, f, target), f, Some(target));
      && QueueOk(w, r.0) && (r.0.error == st.error || r.0.error == EINSNQ)
      && (r.0.error == ENONE && r.1 == 0 ==> Tracks(w, mem0, r.0))
  {
    hide Tracks, Emit, QueueOk, RootInSync;
    assert QueueOk(w, st) by { TracksQueue(w, mem0, st); }
    PushKeeps(w, mem0, st, id, f, target);
    var st' := PushDetour(st, id, f, target);
    QueueSame(w, st, st');
    EmitTracks(w, mem0, cap, st', RootIndex(st'.roots, f));
  }

  lemma TracksQueue(w: World, mem0: seq<byte>, st: State)
    requires Tracks(w, mem0, st)
    ensures QueueOk(w, st)
  {
  }

  lemma QueueSame(w: World, st: State, st': State)
    requires QueueOk(w, st)
    requires st.mem == st'.mem && st.pending == st'.pending && st.immediate == st'.immediate
    ensures QueueOk(w, st')
  {
  }

  lemma {:induction false} ApplyUnitsTracks(w: World, mem0: seq<byte>, cap: nat, st: State, id: PatchId, units: seq<Unit>)
    requires UnitsOk(w, units) && QueueOk(w, st)
    requires st.error == ENONE ==> Tracks(w, mem0, st)
    ensures
      var r := ApplyUnits(cap, st, id, units);
      && QueueOk(w, r.0)
      && (r.0.error == ENONE && r.1 == 0 ==> st.error == ENONE && Tracks(w, mem0, r.0))
      && (r.0.error == ENONE ==> st.error == ENONE)
    decreases |units|
  {
    hide Tracks, QueueOk, Emit;
    if units != [] && units[0].oldFun.Some? && units[0].newFun.Some? {
      var f, target := units[0].oldFun.value, units[0].newFun.value;
      var st1 := PushDetour(st, id, f, target);
      var (st2, code) := Emit(cap, st1, f, Some(target));
      UnitQueue(w, cap, st, id, f, target);
      if st.error == ENONE {
        UnitTracks(w, mem0, cap, st, id, f, target);
      }
      assert UnitsOk(w, units[1..]) by {
        assert forall i :: 0 <= i < |units[1..]| ==> units[1..][i] == units[i + 1];
      }
      if code <= 0 {
        ApplyUnitsTracks(w, mem0, cap, st2, id, units[1..]);
      }
    }
  }

  /** Whatever the bookkeeping looks like, one unit keeps the queue good. */
  lemma UnitQueue(w: World, cap: nat, st: State, id: PatchId, f: Addr, target: Addr)
    requires QueueOk(w, st) && f in w.kinds && target < U64
    ensures
      var r := Emit(cap, PushDetour(st, id, f, target), f, Some(target));
      && QueueOk(w, r.0) && (r.0.error == st.error || r.0.error == EINSNQ)
      && (r.1 == 0 || r.1 == ENOPATCHABLE)
  {
    hide KindOf, Prologue, FirstActive;
    var st' := PushDetour(st, id, f, target);
    assert QueueOk(w, st');
    EmitQueue(w, cap, st', f, Some(target));
  }

  lemma EmitQueue(w: World, cap: nat, st: State, f: Addr, top: Option<Addr>)
    requires QueueOk(w, st) && f in w.kinds && (top.Some? ==> top.value < U64)
    ensures
      var r := Emit(cap, st, f, top);
      && QueueOk(w, r.0) && (r.0.error == st.error || r.0.error == EINSNQ)
      && (r.1 == 0 || r.1 == ENOPATCHABLE)
  {
    hide KindOf, Prologue, FirstActive;
    if w.kinds[f] != Unpatchable {
      var insn := PatchWrite(w.kinds[f], f, top).value;
      assert PatchFor(w, insn, f, top);
      EnqueueKeeps(w, cap, st, insn);
    }
  }

  lemma {:induction false} ApplyRefsTracks(w: World, mem0: seq<byte>, cap: nat, st: State, bases: Bases, refs: seq<Ref>)
    requires bases.Bases? && RefsOk(w, bases, refs) && QueueOk(w, st)
    requires st.error == ENONE ==> Tracks(w, mem0, st)
    ensures
      var r := ApplyRefs(cap, st, bases, refs);
      && QueueOk(w, r.0)
      && (r.0.error == ENONE ==> st.error == ENONE && Tracks(w, mem0, r.0))
    decreases |refs|
  {
    hide Tracks, QueueOk, Enqueue;
    if refs != [] && RefAddress(bases, refs[0]).Some? {
      var insn := Write(RefAddress(bases, refs[0]).value, RefBytes(bases, refs[0]));
      SlotTracks(w, mem0, cap, st, insn);
      assert RefsOk(w, bases, refs[1..]) by {
        assert forall i :: 0 <= i < |refs[1..]| ==> refs[1..][i] == refs[i + 1];
      }
      ApplyRefsTracks(w, mem0, cap, Enqueue(cap, st, insn), bases, refs[1..]);
    }
  }

  lemma SlotTracks(w: World, mem0: seq<byte>, cap: nat, st: State, insn: Insn)
    requires SlotWrite(w, insn) && QueueOk(w, st)
    requires st.error == ENONE ==> Tracks(w, mem0, st)
    ensures
      var r := Enqueue(cap, st, insn);
      && QueueOk(w, r)
      && (r.error == ENONE ==> st.error == ENONE && Tracks(w, mem0, r))
  {
    hide SlotWrite, RootsIn, RootInSync, Execute, Enqueue, KindOf;
    EnqueueKeeps(w, cap, st, insn);
    if Enqueue(cap, st, insn).error == ENONE {
      LaidAfterAll(w, st.mem, st.pending);
      SyncAfterSlot(w, After(st), st.roots, insn);
      SlotStaysInside(w, After(st), insn);
    }
  }

  lemma ApplyTracks(w: World, mem0: seq<byte>, cap: nat, st: State, m: Meta)
    requires MetaOk(w, m) && Tracks(w, mem0, st) && st.error == ENONE
    ensures
      var r := ApplyAllUnits(cap, st, m);
      QueueOk(w, r.0) && (r.0.error == ENONE && r.1 == 0 ==> Tracks(w, mem0, r.0))
  {
    var st0 := st.(universe := st.universe + 1);
    TracksIgnores(w, mem0, st, st0);
    assert UnitsOk(w, m.units) && (m.bases.Bases? ==> RefsOk(w, m.bases, m.refs));
    assert QueueOk(w, st0) by { TracksQueue(w, mem0, st0); }
    hide *;
    ApplyUnitsTracks(w, mem0, cap, st0, m.id, m.units);
    var (st', code) := ApplyUnits(cap, st0, m.id, m.units);
    if code == 0 && m.bases.Bases? {
      ApplyRefsTracks(w, mem0, cap, st', m.bases, m.refs);
    }
    ApplyAllIs(cap, st, m);
  }

  // ---------- reverting ----------

  lemma DeactivateKeeps(w: World, mem0: seq<byte>, st: State, i: nat, k: nat)
    requires Tracks(w, mem0, st) && i < |st.roots| && k < |st.roots[i].detours|
    ensures
      var r := st.(roots := Deactivate(st.roots, i, k));
      && UniqueAddrs(r.roots)
      && (forall j :: 0 <= j < |r.roots| && j != i ==> RootInSync(w, After(r), r.roots[j]))
      && BodiesKept(w, mem0, After(r), r.roots)
  {
    hide Replay, RootInSync, QueueOk, RootsIn;
    var r := st.(roots := Deactivate(st.roots, i, k));
    assert forall j :: 0 <= j < |r.roots| ==> r.roots[j].addr == st.roots[j].addr;
    forall a | Owned(w, st.roots, a) ensures Owned(w, r.roots, a) {
      var j :| 0 <= j < |st.roots| && st.roots[j].addr in w.kinds
            && InArea(w.kinds[st.roots[j].addr], st.roots[j].addr, a);
      assert r.roots[j].addr == st.roots[j].addr;
    }
  }

  lemma ApplyAllIs(cap: nat, st: State, m: Meta)
    ensures
      var (st', code) := ApplyUnits(cap, st.(universe := st.universe + 1), m.id, m.units);
      && (code != 0 ==> ApplyAllUnits(cap, st, m) == (st', code))
      && (code == 0 && !m.bases.Bases? ==> ApplyAllUnits(cap, st, m).0 == st' && ApplyAllUnits(cap, st, m).1 != 0)
      && (code == 0 && m.bases.Bases? ==> ApplyAllUnits(cap, st, m) == ApplyRefs(cap, st', m.bases, m.refs))
  {
    hide ApplyUnits, ApplyRefs;
  }

  /** One detour switched off: its root is rewritten for the newest one left. */
  lemma RevertStepTracks(w: World, mem0: seq<byte>, cap: nat, st: State, i: nat, k: nat)
    requires QueueOk(w, st) && RootsIn(w, st.roots) && i < |st.roots| && k < |st.roots[i].detours|
    requires st.error == ENONE ==> Tracks(w, mem0, st)
    ensures
      var r := RevertStep(cap, st, i, k);
      && QueueOk(w, r) && RootsIn(w, r.roots)
      && (r.error == ENONE ==> st.error == ENONE && Tracks(w, mem0, r))
  {
    var st' := st.(roots := Deactivate(st.roots, i, k));
    assert RootsIn(w, st'.roots);
    FirstActiveOk(st'.roots[i].detours);
    hide RootsIn, Tracks, QueueOk, Emit, RootInSync;
    QueueSame(w, st, st');
    var f := st'.roots[i].addr;
    assert f in w.kinds && w.kinds[f] != Unpatchable by { RootPlaced(w, st'.roots, i); }
    EmitQueue(w, cap, st', f, FirstActive(st'.roots[i].detours));
    if st.error == ENONE {
      DeactivateKeeps(w, mem0, st, i, k);
      EmitTracks(w, mem0, cap, st', i);
    }
  }

  lemma RootPlaced(w: World, roots: seq<Root>, i: nat)
    requires RootsIn(w, roots) && i < |roots|
    ensures roots[i].addr in w.kinds && w.kinds[roots[i].addr] != Unpatchable
  {
  }

  lemma {:induction false} RevertFromTracks(w: World, mem0: seq<byte>, cap: nat, st: State, id: PatchId, i: nat, k: nat)
    requires QueueOk(w, st) && RootsIn(w, st.roots)
    requires st.error == ENONE ==> Tracks(w, mem0, st)
    ensures
      var r := RevertFrom(cap, st, id, i, k);
      && QueueOk(w, r) && RootsIn(w, r.roots)
      && (r.error == ENONE ==> st.error == ENONE && Tracks(w, mem0, r))
    decreases |st.roots| - i, if i < |st.roots| then |st.roots[i].detours| - k else 0
  {
    hide Tracks, QueueOk, RootsIn, RevertStep;
    if i >= |st.roots| {
    } else if k >= |st.roots[i].detours| {
      RevertFromTracks(w, mem0, cap, st, id, i + 1, 0);
    } else if st.roots[i].detours[k].id != id {
      RevertFromTracks(w, mem0, cap, st, id, i, k + 1);
    } else {
      RevertStepTracks(w, mem0, cap, st, i, k);
      RevertFromTracks(w, mem0, cap, RevertStep(cap, st, i, k), id, i, k + 1);
    }
  }

  lemma RevertPatchTracks(w: World, mem0: seq<byte>, cap: nat, st: State, id: PatchId)
    requires QueueOk(w, st) && RootsIn(w, st.roots)
    requires st.error == ENONE ==> Tracks(w, mem0, st)
    ensures
      var r := RevertPatch(cap, st, id).0;
      && QueueOk(w, r) && RootsIn(w, r.roots)
      && (r.error == ENONE ==> st.error == ENONE && Tracks(w, mem0, r))
  {
    hide QueueOk, RootsIn, Tracks;
    var st0 := st.(universe := st.universe + 1);
    var st1 := RevertFrom(cap, st0, id, 0, 0);
    var r := RevertPatch(cap, st, id).0;
    TracksIgnores(w, mem0, st, st0);
    RevertFromTracks(w, mem0, cap, st0, id, 0, 0);
    TracksIgnores(w, mem0, st1, r);
  }

  /** The invariant does not look at the patch list, the counters or the hang mark. */
  lemma TracksIgnores(w: World, mem0: seq<byte>, st: State, st': State)
    requires st' == st.(patches := st'.patches, universe := st'.universe, hung := st'.hung, error := st'.error)
    ensures QueueOk(w, st) ==> QueueOk(w, st')
    ensures Tracks(w, mem0, st) ==> Tracks(w, mem0, st')
  {
    hide RootsIn, InSync, BodiesKept, Laid, AllGood;
  }

  ghost function WalkState(x: Walk): State {
    match x case Returned(st, _) => st case Stuck(st) => st
  }

  lemma {:induction false} RevertAllTracks(w: World, mem0: seq<byte>, cap: nat, st: State, k: nat, lib: string, ret: int)
    requires QueueOk(w, st) && RootsIn(w, st.roots)
    requires st.error == ENONE ==> Tracks(w, mem0, st)
    ensures
      var r := WalkState(RevertAllFrom(cap, st, k, lib, ret));
      QueueOk(w, r) && (r.error == ENONE ==> st.error == ENONE && Tracks(w, mem0, r))
    decreases |st.patches| - k
  {
    hide QueueOk, RootsIn, Tracks, RevertPatch, CanRevert;
    if k >= |st.patches| {
    } else if st.patches[k].lib != lib {
      RevertAllTracks(w, mem0, cap, st, k + 1, lib, ret);
    } else if CanRevert(st.patches, st.patches[k].id) == 0 {
      RevertPatchTracks(w, mem0, cap, st, st.patches[k].id);
      var (st', code) := RevertPatch(cap, st, st.patches[k].id);
      CanRevertApplied(st.patches, st.patches[k].id);
      if code == 0 {
        RevertAllTracks(w, mem0, cap, st', k, lib, code);
      }
    }
  }

  lemma CanRevertApplied(patches: seq<Patch>, id: PatchId)
    requires CanRevert(patches, id) == 0
    ensures IsApplied(patches, id)
  {
  }

  // ---------- whole sessions and runs ----------

  predicate Healthy(error: int) {
    error == ENONE || error == EUSRBLOCKED
  }

  ghost predicate Inv(w: World, mem0: seq<byte>, st: State) {
    QueueOk(w, st) && (Healthy(st.error) ==> Tracks(w, mem0, st))
  }

  lemma LoadPatchTracks(w: World, mem0: seq<byte>, cap: nat, st: State, parse: Parse)
    requires parse.Parsed? ==> MetaOk(w, parse.meta)
    requires st.error == ENONE && Tracks(w, mem0, st)
    ensures
      var r := LoadPatch(cap, st, parse).0;
      QueueOk(w, r) && (r.error == ENONE ==> Tracks(w, mem0, r))
      && (r.error == ENONE || r.error == EINSNQ || r.error == EUNKNOWN)
  {
    hide *;
    TracksQueue(w, mem0, st);
    TracksRoots(w, mem0, st);
    LoadPatchIs(cap, st, parse);
    if parse.Parsed? {
      var m := parse.meta;
      if StateUpdate(st, m).Some? {
        LoadApplyTracks(w, mem0, cap, st, m);
      }
      RevertPatchTracks(w, mem0, cap, st, m.id);
      RevertError(cap, st, m.id);
    }
  }

  lemma LoadPatchIs(cap: nat, st: State, parse: Parse)
    ensures
      var r := LoadPatch(cap, st, parse).0;
      || r == st
      || (parse.Parsed? && r == RevertPatch(cap, st, parse.meta.id).0)
      || (parse.Parsed? && StateUpdate(st, parse.meta).Some?
          && var (st', code) := ApplyAllUnits(cap, StateUpdate(st, parse.meta).value, parse.meta);
             r == if code != 0 then st'.(error := EUNKNOWN) else st')
  {
    hide ApplyAllUnits, RevertPatch, Sanity, CanRevert, StateUpdate;
  }

  /** The part of load_patch that applies. */
  lemma LoadApplyTracks(w: World, mem0: seq<byte>, cap: nat, st: State, m: Meta)
    requires MetaOk(w, m) && st.error == ENONE && Tracks(w, mem0, st) && StateUpdate(st, m).Some?
    ensures
      var (st', code) := ApplyAllUnits(cap, StateUpdate(st, m).value, m);
      var r := if code != 0 then st'.(error := EUNKNOWN) else st';
      QueueOk(w, r) && (r.error == ENONE ==> Tracks(w, mem0, r))
      && (r.error == ENONE || r.error == EINSNQ || r.error == EUNKNOWN)
  {
    var st1 := StateUpdate(st, m).value;
    assert st1 == st.(patches := st1.patches);
    hide Tracks, QueueOk, ApplyAllUnits, MetaOk, StateUpdate;
    TracksIgnores(w, mem0, st, st1);
    ApplyTracks(w, mem0, cap, st1, m);
    ApplyError(cap, st1, m);
    var (st2, code) := ApplyAllUnits(cap, st1, m);
    TracksIgnores(w, mem0, st2, st2.(error := EUNKNOWN));
  }

  lemma TracksRoots(w: World, mem0: seq<byte>, st: State)
    requires Tracks(w, mem0, st)
    ensures RootsIn(w, st.roots)
  {
  }

  /** The only error state a session sets on its own account is EINSNQ. */
  lemma {:induction false} ApplyUnitsError(cap: nat, st: State, id: PatchId, units: seq<Unit>)
    ensures
      var r := ApplyUnits(cap, st, id, units).0;
      (r.error == st.error || r.error == EINSNQ) && r.immediate == st.immediate && r.hung == st.hung
      && r.patches == st.patches && r.universe == st.universe
    decreases |units|
  {
    hide KindOf, PatchWrite;
    if units != [] && units[0].oldFun.Some? && units[0].newFun.Some? {
      var f, target := units[0].oldFun.value, units[0].newFun.value;
      var (st', code) := Emit(cap, PushDetour(st, id, f, target), f, Some(target));
      ApplyUnitsError(cap, st', id, units[1..]);
    }
  }

  lemma {:induction false} ApplyRefsError(cap: nat, st: State, bases: Bases, refs: seq<Ref>)
    requires bases.Bases?
    ensures
      var r := ApplyRefs(cap, st, bases, refs).0;
      (r.error == st.error || r.error == EINSNQ) && r == st.(mem := r.mem, pending := r.pending, error := r.error)
    decreases |refs|
  {
    if refs != [] && RefAddress(bases, refs[0]).Some? {
      var insn := Write(RefAddress(bases, refs[0]).value, RefBytes(bases, refs[0]));
      ApplyRefsError(cap, Enqueue(cap, st, insn), bases, refs[1..]);
    }
  }

  lemma ApplyError(cap: nat, st: State, m: Meta)
    ensures
      var r := ApplyAllUnits(cap, st, m).0;
      (r.error == st.error || r.error == EINSNQ) && r.immediate == st.immediate && r.hung == st.hung
      && r.patches == st.patches && r.universe == st.universe + 1
  {
    var st0 := st.(universe := st.universe + 1);
    ApplyUnitsError(cap, st0, m.id, m.units);
    if m.bases.Bases? {
      ApplyRefsError(cap, ApplyUnits(cap, st0, m.id, m.units).0, m.bases, m.refs);
    }
  }

  lemma {:induction false} RevertFromError(cap: nat, st: State, id: PatchId, i: nat, k: nat)
    ensures
      var r := RevertFrom(cap, st, id, i, k);
      r.error == st.error || r.error == EINSNQ
    decreases |st.roots| - i, if i < |st.roots| then |st.roots[i].detours| - k else 0
  {
    hide KindOf, PatchWrite, FirstActive;
    if i >= |st.roots| {
    } else if k >= |st.roots[i].detours| {
      RevertFromError(cap, st, id, i + 1, 0);
    } else if st.roots[i].detours[k].id != id {
      RevertFromError(cap, st, id, i, k + 1);
    } else {
      RevertFromError(cap, RevertStep(cap, st, i, k), id, i, k + 1);
    }
  }

  lemma RevertError(cap: nat, st: State, id: PatchId)
    ensures
      var r := RevertPatch(cap, st, id).0;
      (r.error == st.error || r.error == EINSNQ) && r.immediate == st.immediate && r.hung == st.hung
  {
    RevertFromError(cap, st.(universe := st.universe + 1), id, 0, 0);
    RevertFromKeeps(cap, st.(universe := st.universe + 1), id, 0, 0);
  }

  lemma {:induction false} RevertAllError(cap: nat, st: State, k: nat, lib: string, ret: int)
    ensures
      var r := WalkState(RevertAllFrom(cap, st, k, lib, ret));
      (r.error == st.error || r.error == EINSNQ) && r.immediate == st.immediate && r.hung == st.hung
    decreases |st.patches| - k
  {
    hide RevertPatch, CanRevert;
    if k >= |st.patches| {
    } else if st.patches[k].lib != lib {
      RevertAllError(cap, st, k + 1, lib, ret);
    } else if CanRevert(st.patches, st.patches[k].id) == 0 {
      RevertError(cap, st, st.patches[k].id);
      var (st', code) := RevertPatch(cap, st, st.patches[k].id);
      CanRevertApplied(st.patches, st.patches[k].id);
      if code == 0 {
        RevertAllError(cap, st', k, lib, code);
      }
    }
  }

  /** Every event keeps the invariant. */
  lemma NextKeeps(w: World, mem0: seq<byte>, cap: nat, st: State, op: Op)
    requires Inv(w, mem0, st) && OpOk(w, op)
    ensures Inv(w, mem0, Next(cap, st, op))
  {
    hide Tracks, QueueOk, MetaOk, LoadPatch, RevertAllFrom, RootsIn;
    if !st.hung {
      match op {
        case Toggle =>
          TracksIgnores(w, mem0, st, Next(cap, st, op));
        case Drain =>
          DrainKeeps(w, mem0, st);
        case Trigger(parse, busy) =>
          var (e, stop) := Gate(st, busy);
          if stop.Some? {
            TracksIgnores(w, mem0, st, st.(error := e));
          } else {
            LoadPatchTracks(w, mem0, cap, st, parse);
          }
        case RevertAll(path, loaded, busy) =>
          var (e, stop) := Gate(st, busy);
          if stop.Some? {
            TracksIgnores(w, mem0, st, st.(error := e));
          } else {
            TracksRoots(w, mem0, st);
            var lib := Clip(BaseName(path));
            RevertAllTracks(w, mem0, cap, st, 0, lib, ENOTARGETLIB);
            RevertAllError(cap, st, 0, lib, ENOTARGETLIB);
            var r := WalkState(RevertAllFrom(cap, st, 0, lib, ENOTARGETLIB));
            TracksIgnores(w, mem0, r, r.(hung := true));
          }
      }
    }
  }

  lemma DrainKeeps(w: World, mem0: seq<byte>, st: State)
    requires Inv(w, mem0, st)
    ensures Inv(w, mem0, st.(mem := Replay(st.mem, st.pending), pending := []))
  {
    hide Laid, InSync, BodiesKept, RootsIn;
    LaidAfterAll(w, st.mem, st.pending);
  }

  lemma {:induction false} RunKeeps(w: World, mem0: seq<byte>, cap: nat, st: State, ops: seq<Op>)
    requires Inv(w, mem0, st) && OpsOk(w, ops)
    ensures Inv(w, mem0, Run(cap, st, ops))
    decreases |ops|
  {
    hide Inv, OpOk, Next;
    if ops != [] {
      NextKeeps(w, mem0, cap, st, ops[0]);
      assert forall i :: 0 <= i < |ops[1..]| ==> ops[1..][i] == ops[i + 1];
      RunKeeps(w, mem0, cap, Next(cap, st, ops[0]), ops[1..]);
    }
  }

  lemma StartKeeps(w: World, mem0: seq<byte>, immediate: bool)
    requires Laid(w, mem0)
    ensures Inv(w, mem0, Start(mem0, immediate))
  {
    hide Laid;
  }

  // ---------- the theorem ----------

  /** Where a call to `f` should end up: in its newest active replacement, or in its
      own body. A function that has been patched has lost a jump of its own at
      its entry. */
  function Destination(w: World, mem0: seq<byte>, st: State, f: Addr): int
    requires f in w.kinds && |mem0| == w.size && WellPlaced(w)
  {
    var at := f + Bias(w.kinds[f]);
    match FirstActive(DetoursAt(st.roots, f))
    case Some(target) => target
    case None => if RootIndex(st.roots, f) < |st.roots| then at + 2 else OwnWay(mem0, at)
  }

  /** That is where it does end up, once all queued writes are done. */
  ghost predicate CallGoes(w: World, mem0: seq<byte>, st: State, f: Addr)
    requires f in w.kinds && |mem0| == w.size && WellPlaced(w)
  {
    && Reaches(After(st), f, Destination(w, mem0, st, f))
    && (FirstActive(DetoursAt(st.roots, f)).None? ==>
          Landing(After(st), f + Bias(w.kinds[f])) == Some(Destination(w, mem0, st, f)))
  }

  /** After any sequence of applies, reverts in any order, revert-alls, toggles
      and drains that has not ended in an error state: calling a patchable
      function runs its newest active replacement; if none is active the call
      passes its entry and runs the function's own body, which, like everything
      outside the prologues of patched functions and the reference slots, has
      never been changed. */
  lemma CallsGoToNewestActive(w: World, mem0: seq<byte>, cap: nat, ops: seq<Op>)
    requires Laid(w, mem0) && OpsOk(w, ops)
    ensures
      var st := Run(cap, Start(mem0, false), ops);
      Healthy(st.error) ==>
        && (forall f :: f in w.kinds && w.kinds[f] != Unpatchable ==> CallGoes(w, mem0, st, f))
        && BodiesKept(w, mem0, After(st), st.roots)
  {
    StartKeeps(w, mem0, false);
    RunKeeps(w, mem0, cap, Start(mem0, false), ops);
    var st := Run(cap, Start(mem0, false), ops);
    hide Laid, Tracks, Run;
    if Healthy(st.error) {
      forall f | f in w.kinds && w.kinds[f] != Unpatchable
        ensures WellPlaced(w) && |mem0| == w.size && CallGoes(w, mem0, st, f)
      {
        CallGoesInSync(w, mem0, st, f);
      }
      assert BodiesKept(w, mem0, After(st), st.roots) by { TracksBodies(w, mem0, st); }
    }
  }

  lemma TracksBodies(w: World, mem0: seq<byte>, st: State)
    requires Tracks(w, mem0, st)
    ensures BodiesKept(w, mem0, After(st), st.roots)
  {
  }

  lemma CallGoesInSync(w: World, mem0: seq<byte>, st: State, f: Addr)
    requires Laid(w, mem0) && Tracks(w, mem0, st)
    requires f in w.kinds && w.kinds[f] != Unpatchable
    ensures CallGoes(w, mem0, st, f)
  {
    hide Replay, Reaches, Redirects, FallsThrough, KindOf, QueueOk, RootsIn, Landing, OwnWay, FirstActive, RootInSync;
    var k, i := w.kinds[f], RootIndex(st.roots, f);
    if i < |st.roots| {
      RootGoes(w, After(st), st.roots[i]);
    } else {
      forall a | 0 <= a < |mem0| && InArea(k, f, a) ensures After(st)[a] == mem0[a] {
        UnownedArea(w, st.roots, f, a);
      }
      assert FirstActive(DetoursAt(st.roots, f)).None? by { NothingActive(); }
      KeepsItsWay(mem0, After(st), f);
    }
  }

  lemma NothingActive()
    ensures FirstActive([]) == None
  {
  }

  lemma RootGoes(w: World, mem: seq<byte>, r: Root)
    requires RootInSync(w, mem, r)
    ensures
      && r.addr in w.kinds
      && var at := r.addr + Bias(w.kinds[r.addr]);
         match FirstActive(r.detours)
         case Some(target) => Reaches(mem, r.addr, target)
         case None => Reaches(mem, r.addr, at + 2) && Landing(mem, at) == Some(at + 2)
  {
    hide Redirects, FallsThrough, Reaches, Landing;
    match FirstActive(r.detours) {
      case Some(target) => RedirectsReaches(mem, w.kinds[r.addr], r.addr, target);
      case None => FallsThroughReaches(mem, w.kinds[r.addr], r.addr);
    }
  }

  lemma KeepsItsWay(mem0: seq<byte>, mem: seq<byte>, f: Addr)
    requires PRE_NOPS_LEN <= f && f + 12 <= |mem0| == |mem| && KindOf(mem0, f) != Unpatchable
    requires forall a :: 0 <= a < |mem0| && InArea(KindOf(mem0, f), f, a) ==> mem[a] == mem0[a]
    ensures
      var at := f + Bias(KindOf(mem0, f));
      Reaches(mem, f, OwnWay(mem0, at)) && Landing(mem, at) == Some(OwnWay(mem0, at))
  {
    hide Reaches, Landing, KindOf, Redirects, FallsThrough;
    var k := KindOf(mem0, f);
    assert forall a :: InArea(k, f, a) ==> 0 <= a < |mem0|;
    AreaDecides(mem0, mem, f);
    assert InArea(k, f, f + Bias(k)) && InArea(k, f, f + Bias(k) + 1);
    UntouchedReaches(mem, f);
  }

  /** What reverting everything gives back: a function without an active
      replacement is entered as in the untouched process if and only if it was
      never patched or its entry was not a jump to somewhere else. */
  lemma RevertRestoresCalls(w: World, mem0: seq<byte>, cap: nat, ops: seq<Op>, f: Addr)
    requires Laid(w, mem0) && OpsOk(w, ops) && f in w.kinds && w.kinds[f] != Unpatchable
    ensures
      var st := Run(cap, Start(mem0, false), ops);
      var at := f + Bias(w.kinds[f]);
      Healthy(st.error) && FirstActive(DetoursAt(st.roots, f)).None? ==>
        && at + 1 < |mem0|
        && (Landing(After(st), at) == Landing(mem0, at)
            <==> RootIndex(st.roots, f) == |st.roots| || mem0[at] != 0xEB || mem0[at + 1] == 0)
  {
    CallsGoToNewestActive(w, mem0, cap, ops);
    var st := Run(cap, Start(mem0, false), ops);
    hide Run, OpsOk;
    if Healthy(st.error) {
      assert CallGoes(w, mem0, st, f);
      LandsOnce(w, mem0, st, f);
    }
  }

  lemma LandsOnce(w: World, mem0: seq<byte>, st: State, f: Addr)
    requires Laid(w, mem0) && f in w.kinds && w.kinds[f] != Unpatchable && CallGoes(w, mem0, st, f)
    ensures
      var at := f + Bias(w.kinds[f]);
      FirstActive(DetoursAt(st.roots, f)).None? ==>
        && at + 1 < |mem0|
        && (Landing(After(st), at) == Landing(mem0, at)
            <==> RootIndex(st.roots, f) == |st.roots| || mem0[at] != 0xEB || mem0[at + 1] == 0)
  {
    hide Landing, Reaches, KindOf, After;
    UntouchedReaches(mem0, f);
  }

  lemma UnownedArea(w: World, roots: seq<Root>, f: Addr, a: int)
    requires WellPlaced(w) && f in w.kinds && InArea(w.kinds[f], f, a) && w.kinds[f] != Unpatchable
    requires RootIndex(roots, f) == |roots|
    ensures a !in w.slots && !Owned(w, roots, a)
  {
    AreaOffSlots(w, f, a);
    forall i | 0 <= i < |roots| && roots[i].addr in w.kinds
      ensures !InArea(w.kinds[roots[i].addr], roots[i].addr, a)
    {
      if InArea(w.kinds[roots[i].addr], roots[i].addr, a) {
        AreasApart(w, f, roots[i].addr, a);
      }
    }
  }

  /** Draining makes the memory of the process the one the theorem speaks of. */
  lemma {:induction false} RunThenDrain(cap: nat, st: State, ops: seq<Op>)
    ensures
      var r := Run(cap, st, ops);
      Run(cap, st, ops + [Drain]) == if r.hung then r else r.(mem := After(r), pending := [])
    decreases |ops|
  {
    if ops == [] {
      assert ops + [Drain] == [Drain] && [Drain][1..] == [];
    } else {
      assert (ops + [Drain])[1..] == ops[1..] + [Drain];
      RunThenDrain(cap, Next(cap, st, ops[0]), ops[1..]);
    }
  }

  /** A real error state is never left, and it freezes patches and detours:
      only the tool's drain still changes anything. */
  lemma {:induction false} ErrorsAreFinal(cap: nat, st: State, ops: seq<Op>)
    requires !Healthy(st.error)
    ensures
      var r := Run(cap, st, ops);
      && r == st.(mem := r.mem, pending := r.pending)
      && ((r.mem == st.mem && r.pending == st.pending) || (r.mem == After(st) && r.pending == []))
    decreases |ops|
  {
    if ops != [] {
      var st' := Next(cap, st, ops[0]);
      assert st' == st || st' == st.(mem := After(st), pending := []);
      assert After(st') == After(st);
      ErrorsAreFinal(cap, st', ops[1..]);
    }
  }
}
