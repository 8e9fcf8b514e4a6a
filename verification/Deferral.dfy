/** Queueing writes for another process to carry out later is the same as
    carrying them out at once. */
module Deferral {
  import opened Bytes
  import opened Errors
  import opened InsnCodec
  import opened X86
  import opened Engine
  import opened Layout
  import opened ControlFlow

  /** `d` queues its writes and `i` does not; they agree on everything else, and
      on memory once the queue of `d` is drained. */
  ghost predicate Matches(d: State, i: State) {
    && !d.immediate && i.immediate && i.pending == []
    && i == d.(immediate := true, pending := [], mem := After(d))
  }

  ghost predicate Pair(w: World, d: State, i: State) {
    QueueOk(w, d) && QueueOk(w, i) && (d.error == ENONE ==> Matches(d, i))
  }

  /** One queued write. */
  lemma EnqueueSame(w: World, cap: nat, d: State, i: State, insn: Insn)
    requires Pair(w, d, i) && GoodWrite(w, insn)
    ensures Pair(w, Enqueue(cap, d, insn), Enqueue(cap, i, insn))
  {
    hide QueueOk, GoodWrite, Execute, After;
    EnqueueKeeps(w, cap, d, insn);
    EnqueueKeeps(w, cap, i, insn);
    if d.error == ENONE {
      assert After(i) == i.mem by { AfterNothing(i); }
    }
  }

  lemma AfterNothing(st: State)
    requires st.pending == []
    ensures After(st) == st.mem
  {
  }

  lemma KindSame(w: World, d: State, i: State, f: Addr)
    requires QueueOk(w, d) && QueueOk(w, i) && f in w.kinds
    ensures KindOf(d.mem, f) == KindOf(i.mem, f) == w.kinds[f]
  {
  }

  /** The tests made while building a write have the outcome they would have had
      after all earlier writes. */
  lemma EmitSame(w: World, cap: nat, d: State, i: State, f: Addr, top: Option<Addr>)
    requires Pair(w, d, i) && f in w.kinds && (top.Some? ==> top.value < U64)
    ensures
      var rd, ri := Emit(cap, d, f, top), Emit(cap, i, f, top);
      Pair(w, rd.0, ri.0) && rd.1 == ri.1
  {
    hide Pair, QueueOk, KindOf, Prologue;
    assert QueueOk(w, d) && QueueOk(w, i) by { PairQueues(w, d, i); }
    KindSame(w, d, i, f);
    if w.kinds[f] != Unpatchable && f >= PRE_NOPS_LEN {
      var insn := PatchWrite(w.kinds[f], f, top).value;
      assert PatchFor(w, insn, f, top);
      EnqueueSame(w, cap, d, i, insn);
    }
  }

  lemma PairQueues(w: World, d: State, i: State)
    requires Pair(w, d, i)
    ensures QueueOk(w, d) && QueueOk(w, i)
  {
  }

  /** Bookkeeping that looks at neither queue nor memory keeps the two in step. */
  lemma PairKept(w: World, d: State, i: State, d': State, i': State)
    requires Pair(w, d, i)
    requires d'.mem == d.mem && d'.pending == d.pending && d'.immediate == d.immediate
    requires i'.mem == i.mem && i'.pending == i.pending && i'.immediate == i.immediate
    requires d'.error == ENONE ==> d.error == ENONE
    requires d'.error == ENONE && Matches(d, i) ==> i' == d'.(immediate := true, pending := [], mem := i.mem)
    ensures Pair(w, d', i')
  {
    hide Laid, AllGood, Replay;
  }

  lemma {:induction false} ApplyUnitsSame(w: World, cap: nat, d: State, i: State, id: PatchId, units: seq<Unit>)
    requires Pair(w, d, i) && UnitsOk(w, units)
    ensures
      var rd, ri := ApplyUnits(cap, d, id, units), ApplyUnits(cap, i, id, units);
      && Pair(w, rd.0, ri.0)
      && (rd.0.error == ENONE ==> rd.1 == ri.1)
    decreases |units|
  {
    hide Pair, Emit, Matches;
    if units != [] && units[0].oldFun.Some? && units[0].newFun.Some? {
      var f, target := units[0].oldFun.value, units[0].newFun.value;
      var d1, i1 := PushDetour(d, id, f, target), PushDetour(i, id, f, target);
      assert Pair(w, d1, i1) by { PushSame(w, d, i, id, f, target); }
      EmitSame(w, cap, d1, i1, f, Some(target));
      assert UnitsOk(w, units[1..]) by {
        assert forall k :: 0 <= k < |units[1..]| ==> units[1..][k] == units[k + 1];
      }
      ApplyUnitsSame(w, cap, Emit(cap, d1, f, Some(target)).0, Emit(cap, i1, f, Some(target)).0, id, units[1..]);
    }
  }

  lemma PushSame(w: World, d: State, i: State, id: PatchId, f: Addr, target: Addr)
    requires Pair(w, d, i)
    ensures Pair(w, PushDetour(d, id, f, target), PushDetour(i, id, f, target))
  {
    hide Pair, RootIndex;
    PairKept(w, d, i, PushDetour(d, id, f, target), PushDetour(i, id, f, target));
  }

  lemma {:induction false} ApplyRefsSame(w: World, cap: nat, d: State, i: State, bases: Bases, refs: seq<Ref>)
    requires Pair(w, d, i) && bases.Bases? && RefsOk(w, bases, refs)
    ensures
      var rd, ri := ApplyRefs(cap, d, bases, refs), ApplyRefs(cap, i, bases, refs);
      Pair(w, rd.0, ri.0) && rd.1 == ri.1
    decreases |refs|
  {
    hide Pair, Enqueue, SlotWrite, RefBytes;
    if refs != [] && RefAddress(bases, refs[0]).Some? {
      var insn := Write(RefAddress(bases, refs[0]).value, RefBytes(bases, refs[0]));
      assert SlotWrite(w, insn);
      EnqueueSame(w, cap, d, i, insn);
      assert RefsOk(w, bases, refs[1..]) by {
        assert forall k :: 0 <= k < |refs[1..]| ==> refs[1..][k] == refs[k + 1];
      }
      ApplyRefsSame(w, cap, Enqueue(cap, d, insn), Enqueue(cap, i, insn), bases, refs[1..]);
    }
  }

  lemma ApplySame(w: World, cap: nat, d: State, i: State, m: Meta)
    requires Pair(w, d, i) && MetaOk(w, m)
    ensures
      var rd, ri := ApplyAllUnits(cap, d, m), ApplyAllUnits(cap, i, m);
      Pair(w, rd.0, ri.0) && (rd.0.error == ENONE ==> rd.1 == ri.1)
  {
    hide Pair, ApplyUnits, ApplyRefs, UnitsOk, RefsOk;
    var d0, i0 := d.(universe := d.universe + 1), i.(universe := i.universe + 1);
    PairKept(w, d, i, d0, i0);
    ApplyUnitsSame(w, cap, d0, i0, m.id, m.units);
    var rd, ri := ApplyUnits(cap, d0, m.id, m.units), ApplyUnits(cap, i0, m.id, m.units);
    if m.bases.Bases? {
      ApplyRefsSame(w, cap, rd.0, ri.0, m.bases, m.refs);
      ApplyRefsError(cap, rd.0, m.bases, m.refs);
      if rd.1 != ri.1 {
        LateApply(w, cap, rd.0, ri.0, m);
      }
    }
  }

  /** After an overflow the two may part; only the queue discipline is kept. */
  lemma LateApply(w: World, cap: nat, d: State, i: State, m: Meta)
    requires Pair(w, d, i) && d.error != ENONE && m.bases.Bases? && RefsOk(w, m.bases, m.refs)
    ensures Pair(w, ApplyRefs(cap, d, m.bases, m.refs).0, i)
    ensures Pair(w, d, ApplyRefs(cap, i, m.bases, m.refs).0)
  {
    hide RefsOk, Laid, AllGood;
    ApplyRefsError(cap, d, m.bases, m.refs);
    ApplyRefsSame(w, cap, d, i, m.bases, m.refs);
  }

  lemma {:induction false} RevertFromSame(w: World, cap: nat, d: State, i: State, id: PatchId, r: nat, k: nat)
    requires Pair(w, d, i) && RootsIn(w, d.roots) && d.roots == i.roots
    ensures
      var rd, ri := RevertFrom(cap, d, id, r, k), RevertFrom(cap, i, id, r, k);
      Pair(w, rd, ri) && rd.roots == ri.roots && RootsIn(w, rd.roots)
    decreases |d.roots| - r, if r < |d.roots| then |d.roots[r].detours| - k else 0
  {
    hide Pair, RootsIn, RevertStep;
    if r >= |d.roots| {
    } else if k >= |d.roots[r].detours| {
      RevertFromSame(w, cap, d, i, id, r + 1, 0);
    } else if d.roots[r].detours[k].id != id {
      RevertFromSame(w, cap, d, i, id, r, k + 1);
    } else {
      RevertStepSame(w, cap, d, i, r, k);
      RevertFromSame(w, cap, RevertStep(cap, d, r, k), RevertStep(cap, i, r, k), id, r, k + 1);
    }
  }

  lemma RevertStepSame(w: World, cap: nat, d: State, i: State, r: nat, k: nat)
    requires Pair(w, d, i) && RootsIn(w, d.roots) && d.roots == i.roots
    requires r < |d.roots| && k < |d.roots[r].detours|
    ensures
      var rd, ri := RevertStep(cap, d, r, k), RevertStep(cap, i, r, k);
      Pair(w, rd, ri) && rd.roots == ri.roots && RootsIn(w, rd.roots)
  {
    var roots := Deactivate(d.roots, r, k);
    assert RootsIn(w, roots);
    assert RootsIn(w, roots) ==> TargetsOk(roots[r].detours);
    FirstActiveOk(roots[r].detours);
    RootPlaced(w, roots, r);
    hide Pair, RootsIn, Emit, TargetsOk, FirstActive;
    var d1, i1 := d.(roots := roots), i.(roots := roots);
    PairKept(w, d, i, d1, i1);
    EmitSame(w, cap, d1, i1, roots[r].addr, FirstActive(roots[r].detours));
  }

  lemma RevertPatchSame(w: World, cap: nat, d: State, i: State, id: PatchId)
    requires Pair(w, d, i) && RootsIn(w, d.roots) && d.roots == i.roots && d.patches == i.patches
    ensures
      var rd, ri := RevertPatch(cap, d, id), RevertPatch(cap, i, id);
      && Pair(w, rd.0, ri.0) && rd.1 == ri.1
      && rd.0.roots == ri.0.roots && rd.0.patches == ri.0.patches && RootsIn(w, rd.0.roots)
  {
    hide Pair, RevertFrom, RootsIn, RemovePatch, IsApplied;
    var d0, i0 := d.(universe := d.universe + 1), i.(universe := i.universe + 1);
    PairKept(w, d, i, d0, i0);
    RevertFromSame(w, cap, d0, i0, id, 0, 0);
    RevertFromKeeps(cap, d0, id, 0, 0);
    RevertFromKeeps(cap, i0, id, 0, 0);
    var d1, i1 := RevertFrom(cap, d0, id, 0, 0), RevertFrom(cap, i0, id, 0, 0);
    PairKept(w, d1, i1, RevertPatch(cap, d, id).0, RevertPatch(cap, i, id).0);
  }

  lemma {:induction false} WalkSame(w: World, cap: nat, d: State, i: State, k: nat, lib: string, ret: int)
    requires Pair(w, d, i) && RootsIn(w, d.roots) && d.roots == i.roots && d.patches == i.patches
    ensures
      var rd, ri := RevertAllFrom(cap, d, k, lib, ret), RevertAllFrom(cap, i, k, lib, ret);
      && Pair(w, WalkState(rd), WalkState(ri))
      && (rd.Returned? <==> ri.Returned?) && (rd.Returned? ==> rd.code == ri.code)
    decreases |d.patches| - k
  {
    hide Pair, RevertPatch, CanRevert, RootsIn;
    if k >= |d.patches| {
    } else if d.patches[k].lib != lib {
      WalkSame(w, cap, d, i, k + 1, lib, ret);
    } else if CanRevert(d.patches, d.patches[k].id) == 0 {
      var id := d.patches[k].id;
      RevertPatchSame(w, cap, d, i, id);
      CanRevertApplied(d.patches, id);
      var (d', code) := RevertPatch(cap, d, id);
      if code == 0 {
        WalkSame(w, cap, d', RevertPatch(cap, i, id).0, k, lib, code);
      }
    }
  }

  lemma LoadPatchSame(w: World, cap: nat, d: State, i: State, parse: Parse)
    requires Pair(w, d, i) && d.error == ENONE && RootsIn(w, d.roots)
    requires parse.Parsed? ==> MetaOk(w, parse.meta)
    ensures Pair(w, LoadPatch(cap, d, parse).0, LoadPatch(cap, i, parse).0)
  {
    assert Matches(d, i);
    hide Pair, MetaOk, ApplyAllUnits, RevertPatch, CanRevert, Sanity, RootsIn, Resolve, After;
    if parse.Parsed? {
      var m := parse.meta;
      if m.kind == 1 && StateUpdate(d, m).Some? {
        var d1, i1 := StateUpdate(d, m).value, StateUpdate(i, m).value;
        PairKept(w, d, i, d1, i1);
        ApplySame(w, cap, d1, i1, m);
        var (d2, cd) := ApplyAllUnits(cap, d1, m);
        var (i2, ci) := ApplyAllUnits(cap, i1, m);
        PairKept(w, d2, i2, d2.(error := EUNKNOWN), i2.(error := EUNKNOWN));
        PairKept(w, d2, i2, d2.(error := EUNKNOWN), i2);
        if cd == 0 && ci != 0 {
          PairKept(w, d2, i2, d2, i2.(error := EUNKNOWN));
        }
      } else if m.kind == 2 && CanRevert(d.patches, m.id) == 0 {
        RevertPatchSame(w, cap, d, i, m.id);
      }
    }
  }

  /** One event, from matching states: matching states again, unless the queueing
      process has run into an error. */
  lemma NextSame(w: World, mem0: seq<byte>, cap: nat, d: State, i: State, op: Op)
    requires Inv(w, mem0, d) && Inv(w, mem0, i) && OpOk(w, op)
    requires Healthy(d.error) && Matches(d, i)
    ensures Healthy(Next(cap, d, op).error) ==> Matches(Next(cap, d, op), Next(cap, i, op))
  {
    hide Tracks, QueueOk, MetaOk, LoadPatch, RevertAllFrom, RootsIn;
    if !d.hung && Healthy(Next(cap, d, op).error) {
      match op {
        case Toggle =>
        case Drain =>
          AfterNothing(i);
        case Trigger(parse, busy) =>
          if d.error == ENONE && d.pending == [] && !busy {
            TracksRoots(w, mem0, d);
            LoadPatchSame(w, cap, d, i, parse);
            LoadPatchTracks(w, mem0, cap, d, parse);
          }
        case RevertAll(path, loaded, busy) =>
          if d.error == ENONE && d.pending == [] && !busy {
            TracksRoots(w, mem0, d);
            var lib := Clip(BaseName(path));
            WalkSame(w, cap, d, i, 0, lib, ENOTARGETLIB);
            RevertAllError(cap, d, 0, lib, ENOTARGETLIB);
          }
      }
    }
  }

  lemma {:induction false} RunSame(w: World, mem0: seq<byte>, cap: nat, d: State, i: State, ops: seq<Op>)
    requires Inv(w, mem0, d) && Inv(w, mem0, i) && OpsOk(w, ops)
    requires Healthy(d.error) ==> Matches(d, i)
    ensures Healthy(Run(cap, d, ops).error) ==> Matches(Run(cap, d, ops), Run(cap, i, ops))
    decreases |ops|
  {
    hide Inv, OpOk, Next, Matches;
    if ops != [] {
      NextKeeps(w, mem0, cap, d, ops[0]);
      NextKeeps(w, mem0, cap, i, ops[0]);
      assert forall k :: 0 <= k < |ops[1..]| ==> ops[1..][k] == ops[k + 1];
      if Healthy(d.error) {
        NextSame(w, mem0, cap, d, i, ops[0]);
      } else {
        ErrorsAreFinal(cap, d, [ops[0]]);
        assert [ops[0]][1..] == [];
        assert Run(cap, Next(cap, d, ops[0]), []) == Next(cap, d, ops[0]);
      }
      RunSame(w, mem0, cap, Next(cap, d, ops[0]), Next(cap, i, ops[0]), ops[1..]);
    }
  }

  /** For every run that does not end in an error state, carrying the writes out
      through the queue gives the patches, the detours and, once drained, the
      memory that writing at once would have given. */
  lemma DeferredIsImmediate(w: World, mem0: seq<byte>, cap: nat, ops: seq<Op>)
    requires Laid(w, mem0) && OpsOk(w, ops)
    ensures
      var d := Run(cap, Start(mem0, false), ops);
      var i := Run(cap, Start(mem0, true), ops);
      Healthy(d.error) ==> i == d.(immediate := true, pending := [], mem := Replay(d.mem, d.pending))
  {
    hide Laid, Inv, Run;
    StartKeeps(w, mem0, false);
    StartKeeps(w, mem0, true);
    AfterNothing(Start(mem0, false));
    RunSame(w, mem0, cap, Start(mem0, false), Start(mem0, true), ops);
  }
}
