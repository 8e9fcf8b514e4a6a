/** When one session goes well: what a request must be like, and how much room
    its writes need in the queue. */
module Sessions {
  import opened Bytes
  import opened Errors
  import opened InsnCodec
  import opened X86
  import opened Engine

  // ---------- outcome of a series of writes ----------

  /** `r` is `st` after trying to queue `writes`: all of them are queued and the
      error state is as before, or at least one did not fit and is lost. */
  ghost predicate Queued(cap: nat, st: State, r: State, writes: seq<Insn>) {
    && r.mem == st.mem && !r.immediate && TotalSize(r.pending) <= cap
    && (r.error == ENONE <==> st.error == ENONE && TotalSize(st.pending) + TotalSize(writes) <= cap)
    && (r.error == ENONE ==> r.pending == st.pending + writes)
    && (r.error == st.error || r.error == EINSNQ)
  }

  lemma {:induction false} SizesAdd(xs: seq<Insn>, ys: seq<Insn>)
    ensures TotalSize(xs + ys) == TotalSize(xs) + TotalSize(ys)
  {
    if xs == [] {
      assert xs + ys == ys;
    } else {
      assert (xs + ys)[1..] == xs[1..] + ys;
      SizesAdd(xs[1..], ys);
    }
  }

  lemma NoneQueued(cap: nat, st: State)
    requires !st.immediate && TotalSize(st.pending) <= cap
    ensures Queued(cap, st, st, [])
  {
  }

  lemma EnqueueQueued(cap: nat, st: State, w: Insn)
    requires !st.immediate && TotalSize(st.pending) <= cap
    ensures Queued(cap, st, Enqueue(cap, st, w), [w])
  {
    hide Size;
    SizesAdd(st.pending, [w]);
    assert [w][1..] == [];
    assert TotalSize([w]) == Size(w);
  }

  lemma QueuedThen(cap: nat, a: State, b: State, c: State, xs: seq<Insn>, ys: seq<Insn>)
    requires Queued(cap, a, b, xs) && Queued(cap, b, c, ys)
    ensures Queued(cap, a, c, xs + ys)
  {
    SizesAdd(a.pending, xs);
    SizesAdd(xs, ys);
    assert a.pending + xs + ys == a.pending + (xs + ys);
  }

  /** Fields other than these do not matter. */
  lemma QueuedFrom(cap: nat, a: State, a': State, b: State, b': State, xs: seq<Insn>)
    requires Queued(cap, a, b, xs)
    requires a'.mem == a.mem && a'.pending == a.pending && a'.error == a.error
    requires b'.mem == b.mem && b'.pending == b.pending && b'.error == b.error && b'.immediate == b.immediate
    ensures Queued(cap, a', b', xs)
  {
  }

  // ---------- applying ----------

  predicate Patchable(mem: seq<byte>, f: Addr) {
    KindOf(mem, f) != Unpatchable && PRE_NOPS_LEN <= f
  }

  /** Both lookups of every unit succeed, and every function to be replaced has a
      prologue that can be. */
  predicate UnitsApplicable(mem: seq<byte>, units: seq<Unit>) {
    forall i :: 0 <= i < |units| ==>
      units[i].oldFun.Some? && units[i].newFun.Some? && Patchable(mem, units[i].oldFun.value)
  }

  function UnitWrites(mem: seq<byte>, units: seq<Unit>): seq<Insn>
    requires UnitsApplicable(mem, units)
  {
    if units == [] then []
    else
      var f := units[0].oldFun.value;
      [PatchWrite(KindOf(mem, f), f, units[0].newFun).value] + UnitWrites(mem, units[1..])
  }

  predicate RefsResolved(bases: Bases, refs: seq<Ref>)
    requires bases.Bases?
  {
    forall i :: 0 <= i < |refs| ==> RefAddress(bases, refs[i]).Some?
  }

  function RefWrites(bases: Bases, refs: seq<Ref>): seq<Insn>
    requires bases.Bases? && RefsResolved(bases, refs)
  {
    if refs == [] then []
    else [Write(RefAddress(bases, refs[0]).value, RefBytes(bases, refs[0]))] + RefWrites(bases, refs[1..])
  }

  lemma {:induction false} UnitsQueued(cap: nat, st: State, id: PatchId, units: seq<Unit>)
    requires !st.immediate && TotalSize(st.pending) <= cap
    ensures
      var (r, code) := ApplyUnits(cap, st, id, units);
      && (code == 0 <==> UnitsApplicable(st.mem, units))
      && (code == 0 ==> Queued(cap, st, r, UnitWrites(st.mem, units)))
    decreases |units|
  {
    if units == [] {
      NoneQueued(cap, st);
    } else if units[0].oldFun.Some? && units[0].newFun.Some? {
      var f, target := units[0].oldFun.value, units[0].newFun.value;
      var pushed := PushDetour(st, id, f, target);
      PushKeepsQueue(st, id, f, target);
      hide KindOf, Queued, PushDetour, Prologue, Enqueue;
      if Patchable(st.mem, f) {
        var w := PatchWrite(KindOf(st.mem, f), f, Some(target)).value;
        var st' := Enqueue(cap, pushed, w);
        EnqueueQueued(cap, pushed, w);
        QueuedSame(cap, pushed, st', [w]);
        UnitsQueued(cap, st', id, units[1..]);
        UnitsApart(st.mem, units);
        if UnitsApplicable(st.mem, units) {
          QueuedFrom(cap, pushed, st, st', st', [w]);
          QueuedThen(cap, st, st', ApplyUnits(cap, st', id, units[1..]).0, [w], UnitWrites(st.mem, units[1..]));
        }
      }
    }
  }

  lemma PushKeepsQueue(st: State, id: PatchId, f: Addr, target: Addr)
    ensures
      var r := PushDetour(st, id, f, target);
      r == st.(roots := r.roots, nextIndex := r.nextIndex)
  {
  }

  lemma QueuedSame(cap: nat, st: State, r: State, writes: seq<Insn>)
    requires Queued(cap, st, r, writes)
    ensures r.mem == st.mem && !r.immediate && TotalSize(r.pending) <= cap
  {
  }

  lemma UnitsApart(mem: seq<byte>, units: seq<Unit>)
    requires units != []
    ensures UnitsApplicable(mem, units) <==>
      && units[0].oldFun.Some? && units[0].newFun.Some? && Patchable(mem, units[0].oldFun.value)
      && UnitsApplicable(mem, units[1..])
  {
    hide Patchable;
    assert forall i :: 0 < i < |units| ==> units[i] == units[1..][i - 1];
  }

  lemma {:induction false} RefsQueued(cap: nat, st: State, bases: Bases, refs: seq<Ref>)
    requires !st.immediate && TotalSize(st.pending) <= cap && bases.Bases?
    ensures
      var (r, code) := ApplyRefs(cap, st, bases, refs);
      && (code == 0 <==> RefsResolved(bases, refs))
      && (code == 0 ==> Queued(cap, st, r, RefWrites(bases, refs)))
    decreases |refs|
  {
    hide RefAddress, RefBytes, Queued, Enqueue;
    if refs == [] {
      NoneQueued(cap, st);
    } else if RefAddress(bases, refs[0]).Some? {
      var w := Write(RefAddress(bases, refs[0]).value, RefBytes(bases, refs[0]));
      var st' := Enqueue(cap, st, w);
      EnqueueQueued(cap, st, w);
      QueuedSame(cap, st, st', [w]);
      RefsQueued(cap, st', bases, refs[1..]);
      assert forall i :: 0 < i < |refs| ==> refs[i] == refs[1..][i - 1];
      if RefsResolved(bases, refs) {
        QueuedThen(cap, st, st', ApplyRefs(cap, st', bases, refs[1..]).0, [w], RefWrites(bases, refs[1..]));
      }
    }
  }

  /** The request can be carried out on this memory. */
  predicate Applicable(st: State, m: Meta) {
    && Sanity(st.patches, m) == ENONE && UnitsApplicable(st.mem, m.units)
    && m.bases.Bases? && RefsResolved(m.bases, m.refs)
  }

  function ApplyWrites(mem: seq<byte>, m: Meta): seq<Insn>
    requires UnitsApplicable(mem, m.units) && m.bases.Bases? && RefsResolved(m.bases, m.refs)
  {
    UnitWrites(mem, m.units) + RefWrites(m.bases, m.refs)
  }

  /** A session between drains that asks for a patch to be applied. Its return code
      is 0 exactly when the request can be carried out; nothing in it says that all
      writes were queued. They were, and the process stays healthy, exactly when
      they have room together; otherwise at least one redirection or reference is
      lost, and the error state is EINSNQ. */
  lemma ApplySession(cap: nat, st: State, m: Meta)
    requires st.error == ENONE && st.pending == [] && !st.immediate && m.kind == 1
    ensures
      var (r, code) := LoadPatch(cap, st, Parsed(m));
      && (code == 0 <==> Applicable(st, m))
      && (code == 0 ==>
            && (r.error == ENONE <==> TotalSize(ApplyWrites(st.mem, m)) <= cap)
            && r.error == (if TotalSize(ApplyWrites(st.mem, m)) <= cap then ENONE else EINSNQ)
            && (r.error == ENONE ==> r.pending == ApplyWrites(st.mem, m)))
  {
    hide Sanity, UnitsApplicable, RefsResolved, UnitWrites, RefWrites, ApplyUnits, ApplyRefs;
    if Sanity(st.patches, m) == ENONE {
      ResolvesIff(m.units, st.mem);
      if StateUpdate(st, m).Some? {
        var st1 := StateUpdate(st, m).value;
        var st2 := st1.(universe := st1.universe + 1);
        assert TotalSize(st.pending) == 0;
        UnitsQueued(cap, st2, m.id, m.units);
        var (st3, code) := ApplyUnits(cap, st2, m.id, m.units);
        if code == 0 && m.bases.Bases? {
          QueuedSame(cap, st2, st3, UnitWrites(st.mem, m.units));
          RefsQueued(cap, st3, m.bases, m.refs);
          if RefsResolved(m.bases, m.refs) {
            var r := ApplyRefs(cap, st3, m.bases, m.refs).0;
            QueuedThen(cap, st2, st3, r, UnitWrites(st.mem, m.units), RefWrites(m.bases, m.refs));
            assert st.pending + ApplyWrites(st.mem, m) == ApplyWrites(st.mem, m);
          }
        }
      }
    }
  }

  lemma {:induction false} ResolvesIff(units: seq<Unit>, mem: seq<byte>)
    ensures Resolve(units).Some? <==> forall i :: 0 <= i < |units| ==> units[i].oldFun.Some? && units[i].newFun.Some?
    ensures UnitsApplicable(mem, units) ==> Resolve(units).Some?
  {
    hide Patchable;
    if units != [] {
      assert forall i :: 0 < i < |units| ==> units[i] == units[1..][i - 1];
      ResolvesIff(units[1..], mem);
    }
  }

  // ---------- reverting ----------

  /** The writes of switching off, from root `i` and detour `k` on, every detour of
      a patch: one for each. */
  function RevertWrites(mem: seq<byte>, roots: seq<Root>, id: PatchId, i: nat, k: nat): seq<Insn>
    decreases |roots| - i, if i < |roots| then |roots[i].detours| - k else 0
  {
    if i >= |roots| then []
    else if k >= |roots[i].detours| then RevertWrites(mem, roots, id, i + 1, 0)
    else if roots[i].detours[k].id != id then RevertWrites(mem, roots, id, i, k + 1)
    else
      var roots' := Deactivate(roots, i, k);
      OneWrite(mem, roots'[i].addr, FirstActive(roots'[i].detours)) + RevertWrites(mem, roots', id, i, k + 1)
  }

  function OneWrite(mem: seq<byte>, f: Addr, top: Option<Addr>): seq<Insn> {
    match PatchWrite(KindOf(mem, f), f, top)
    case None => []
    case Some(w) => [w]
  }

  lemma EmitQueued(cap: nat, st: State, f: Addr, top: Option<Addr>)
    requires !st.immediate && TotalSize(st.pending) <= cap
    ensures
      var r := Emit(cap, st, f, top).0;
      Queued(cap, st, r, OneWrite(st.mem, f, top)) && r.roots == st.roots && r.patches == st.patches
  {
    hide KindOf, PatchWrite, Queued;
    match PatchWrite(KindOf(st.mem, f), f, top) {
      case None => NoneQueued(cap, st);
      case Some(w) => EnqueueQueued(cap, st, w);
    }
  }

  lemma {:induction false} RevertQueued(cap: nat, st: State, id: PatchId, i: nat, k: nat)
    requires !st.immediate && TotalSize(st.pending) <= cap
    ensures
      var r := RevertFrom(cap, st, id, i, k);
      Queued(cap, st, r, RevertWrites(st.mem, st.roots, id, i, k)) && r.patches == st.patches
    decreases |st.roots| - i, if i < |st.roots| then |st.roots[i].detours| - k else 0
  {
    hide Queued, Emit, OneWrite, FirstActive;
    if i >= |st.roots| {
      NoneQueued(cap, st);
    } else if k >= |st.roots[i].detours| {
      RevertQueued(cap, st, id, i + 1, 0);
    } else if st.roots[i].detours[k].id != id {
      RevertQueued(cap, st, id, i, k + 1);
    } else {
      var off := st.(roots := Deactivate(st.roots, i, k));
      var f, top := off.roots[i].addr, FirstActive(off.roots[i].detours);
      var st' := RevertStep(cap, st, i, k);
      EmitQueued(cap, off, f, top);
      QueuedSame(cap, off, st', OneWrite(st.mem, f, top));
      RevertQueued(cap, st', id, i, k + 1);
      QueuedFrom(cap, off, st, st', st', OneWrite(st.mem, f, top));
      QueuedThen(cap, st, st', RevertFrom(cap, st', id, i, k + 1), OneWrite(st.mem, f, top),
                 RevertWrites(st.mem, off.roots, id, i, k + 1));
    }
  }

  /** The same for a request to revert one patch. */
  lemma RevertSession(cap: nat, st: State, m: Meta)
    requires st.error == ENONE && st.pending == [] && !st.immediate && m.kind == 2
    ensures
      var (r, code) := LoadPatch(cap, st, Parsed(m));
      var writes := RevertWrites(st.mem, st.roots, m.id, 0, 0);
      && (code == 0 <==> IsApplied(st.patches, m.id) && !HasDependent(st.patches, m.id))
      && (code == 0 ==>
            && r.error == (if TotalSize(writes) <= cap then ENONE else EINSNQ)
            && (r.error == ENONE ==> r.pending == writes))
  {
    hide HasDependent, RevertFrom, RevertWrites, PatchIndex;
    var st1 := st.(universe := st.universe + 1);
    assert TotalSize(st.pending) == 0;
    RevertQueued(cap, st1, m.id, 0, 0);
    assert [] + RevertWrites(st.mem, st.roots, m.id, 0, 0) == RevertWrites(st.mem, st.roots, m.id, 0, 0);
  }

  /** All writes of reverting the patches of a library one after the other. */
  function WalkWrites(cap: nat, st: State, k: nat, lib: string): seq<Insn>
    decreases |st.patches| - k
  {
    if k >= |st.patches| then []
    else if st.patches[k].lib != lib then WalkWrites(cap, st, k + 1, lib)
    else
      var id := st.patches[k].id;
      if CanRevert(st.patches, id) != 0 || RevertPatch(cap, st, id).1 != 0 then []
      else RevertWrites(st.mem, st.roots, id, 0, 0) + WalkWrites(cap, RevertPatch(cap, st, id).0, k, lib)
  }

  lemma PatchQueued(cap: nat, st: State, id: PatchId)
    requires !st.immediate && TotalSize(st.pending) <= cap && IsApplied(st.patches, id)
    ensures
      var (r, code) := RevertPatch(cap, st, id);
      Queued(cap, st, r, RevertWrites(st.mem, st.roots, id, 0, 0)) && code == 0
  {
    hide Queued, RevertFrom, RevertWrites, PatchIndex;
    var st1 := st.(universe := st.universe + 1);
    RevertQueued(cap, st1, id, 0, 0);
    var r1 := RevertFrom(cap, st1, id, 0, 0);
    QueuedSame(cap, st1, r1, RevertWrites(st.mem, st.roots, id, 0, 0));
    QueuedFrom(cap, st1, st, r1, RevertPatch(cap, st, id).0, RevertWrites(st.mem, st.roots, id, 0, 0));
  }

  /** And for reverting all patches of a library. */
  lemma {:induction false} WalkSession(cap: nat, st: State, k: nat, lib: string, ret: int)
    requires !st.immediate && TotalSize(st.pending) <= cap
    ensures
      var r := RevertAllFrom(cap, st, k, lib, ret);
      r.Returned? ==> Queued(cap, st, r.st, WalkWrites(cap, st, k, lib))
    decreases |st.patches| - k
  {
    hide Queued, RevertWrites, RevertPatch, HasDependent;
    if k >= |st.patches| {
      NoneQueued(cap, st);
    } else if st.patches[k].lib != lib {
      WalkSession(cap, st, k + 1, lib, ret);
    } else if CanRevert(st.patches, st.patches[k].id) == 0 {
      var id := st.patches[k].id;
      PatchQueued(cap, st, id);
      var (st', code) := RevertPatch(cap, st, id);
      QueuedSame(cap, st, st', RevertWrites(st.mem, st.roots, id, 0, 0));
      WalkSession(cap, st', k, lib, code);
      var r := RevertAllFrom(cap, st', k, lib, code);
      if r.Returned? {
        QueuedThen(cap, st, st', r.st, RevertWrites(st.mem, st.roots, id, 0, 0), WalkWrites(cap, st', k, lib));
      }
    }
  }

  // ---------- an apply that says 0 and does nothing ----------

  /** However large the queue, there is a patch that does not fit: applying it
      returns 0, leaves EINSNQ and loses a redirection. */
  lemma OverflowIsSilent(cap: nat, st: State, f: Addr, target: Addr, id: PatchId) returns (m: Meta)
    requires st.error == ENONE && st.pending == [] && !st.immediate
    requires Patchable(st.mem, f) && !IsApplied(st.patches, id)
    ensures m.kind == 1 && Applicable(st, m)
    ensures LoadPatch(cap, st, Parsed(m)).1 == 0 && LoadPatch(cap, st, Parsed(m)).0.error == EINSNQ
    ensures TotalSize(LoadPatch(cap, st, Parsed(m)).0.pending) < TotalSize(ApplyWrites(st.mem, m))
  {
    var units := seq(cap + 1, _ => Unit(Some(f), Some(target)));
    m := Meta(1, id, "", [], units, [], Bases(0, 0, 0), true, true);
    assert Applicable(st, m);
    hide KindOf, Sanity, LoadPatch, PatchWrite;
    ApplySession(cap, st, m);
    ManyWrites(st.mem, units);
    assert RefWrites(m.bases, []) == [];
    assert UnitWrites(st.mem, units) + [] == UnitWrites(st.mem, units);
    assert ApplyWrites(st.mem, m) == UnitWrites(st.mem, units);
    StillFits(cap, st, m);
  }

  lemma {:induction false} ManyWrites(mem: seq<byte>, units: seq<Unit>)
    requires UnitsApplicable(mem, units)
    ensures TotalSize(UnitWrites(mem, units)) >= |units|
  {
    hide KindOf, Size, PatchWrite;
    if units != [] {
      UnitsApart(mem, units);
      ManyWrites(mem, units[1..]);
      var ws := UnitWrites(mem, units);
      assert ws[1..] == UnitWrites(mem, units[1..]);
      assert TotalSize(ws) == Size(ws[0]) + TotalSize(ws[1..]);
    }
  }

  lemma StillFits(cap: nat, st: State, m: Meta)
    requires st.error == ENONE && st.pending == [] && !st.immediate && m.kind == 1 && Applicable(st, m)
    ensures TotalSize(LoadPatch(cap, st, Parsed(m)).0.pending) <= cap
  {
    hide Sanity, UnitsApplicable, RefsResolved, UnitWrites, RefWrites, ApplyUnits, ApplyRefs;
    ResolvesIff(m.units, st.mem);
    var st1 := StateUpdate(st, m).value;
    var st2 := st1.(universe := st1.universe + 1);
    assert TotalSize(st.pending) == 0;
    UnitsQueued(cap, st2, m.id, m.units);
    var st3 := ApplyUnits(cap, st2, m.id, m.units).0;
    QueuedSame(cap, st2, st3, UnitWrites(st.mem, m.units));
    RefsQueued(cap, st3, m.bases, m.refs);
    QueuedSame(cap, st3, ApplyRefs(cap, st3, m.bases, m.refs).0, RefWrites(m.bases, m.refs));
  }
}
