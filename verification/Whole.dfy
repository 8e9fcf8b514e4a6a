/** No entry is ever torn: in every reachable state, errors included, each
    patchable function is entered in one of the ways somebody asked for. */
module Whole {
  import opened Bytes
  import opened Errors
  import opened InsnCodec
  import opened X86
  import opened Engine
  import opened Layout
  import opened ControlFlow

  ghost predicate Untouched(k: Kind, mem0: seq<byte>, mem: seq<byte>, f: Addr) {
    |mem| == |mem0| && forall a :: 0 <= a < |mem0| && InArea(k, f, a) ==> mem[a] == mem0[a]
  }

  ghost predicate LeadsTo(mem: seq<byte>, k: Kind, f: Addr, ds: seq<Detour>) {
    exists d :: d in ds && d.target < U64 && Redirects(mem, k, f, d.target)
  }

  /** The prologue of `f` is as at the start, or a whole template for a detour in
      its stack, active or not, or that of a reverted function. */
  ghost predicate EntryWhole(w: World, mem0: seq<byte>, mem: seq<byte>, roots: seq<Root>, f: Addr)
    requires f in w.kinds
  {
    || Untouched(w.kinds[f], mem0, mem, f)
    || LeadsTo(mem, w.kinds[f], f, DetoursAt(roots, f))
    || (RootIndex(roots, f) < |roots| && FallsThrough(mem, w.kinds[f], f))
  }

  ghost predicate AllWhole(w: World, mem0: seq<byte>, mem: seq<byte>, roots: seq<Root>) {
    forall f :: f in w.kinds && w.kinds[f] != Unpatchable ==> EntryWhole(w, mem0, mem, roots, f)
  }

  ghost predicate RootsKnown(w: World, roots: seq<Root>) {
    forall i :: 0 <= i < |roots| ==> roots[i].addr in w.kinds && TargetsOk(roots[i].detours)
  }

  /** The invariant of every state. */
  ghost predicate NoneTorn(w: World, mem0: seq<byte>, st: State) {
    && QueueOk(w, st) && UniqueAddrs(st.roots) && RootsKnown(w, st.roots)
    && AllWhole(w, mem0, After(st), st.roots)
  }

  // ---------- one write ----------

  lemma OthersStayWhole(w: World, mem0: seq<byte>, mem: seq<byte>, roots: seq<Root>, insn: Insn, g: Addr)
    requires Laid(w, mem) && g in w.kinds && w.kinds[g] != Unpatchable && EntryWhole(w, mem0, mem, roots, g)
    requires SlotWrite(w, insn) || exists f, target :: f != g && PatchFor(w, insn, f, target)
    ensures EntryWhole(w, mem0, Execute(mem, insn), roots, g)
  {
    hide Execute, KindOf, Redirects, FallsThrough, PatchFor, SlotWrite, DetoursAt;
    var mem' := Execute(mem, insn);
    AreaKept(w, mem, insn, g);
    AreaDecides(mem, mem', g);
    var k := w.kinds[g];
    if Untouched(k, mem0, mem, g) {
      assert Untouched(k, mem0, mem', g);
    } else if LeadsTo(mem, k, g, DetoursAt(roots, g)) {
      var d :| d in DetoursAt(roots, g) && d.target < U64 && Redirects(mem, k, g, d.target);
      assert Redirects(mem', k, g, d.target);
    }
  }

  /** What a prologue write may ask for. */
  ghost predicate Asked(roots: seq<Root>, f: Addr, target: Option<Addr>) {
    match target
    case Some(t) => exists d :: d in DetoursAt(roots, f) && d.target == t
    case None => RootIndex(roots, f) < |roots|
  }

  lemma PatchLeavesWhole(w: World, mem0: seq<byte>, mem: seq<byte>, roots: seq<Root>, insn: Insn,
                         f: Addr, target: Option<Addr>)
    requires Laid(w, mem) && AllWhole(w, mem0, mem, roots)
    requires PatchFor(w, insn, f, target) && Asked(roots, f, target)
    ensures AllWhole(w, mem0, Execute(mem, insn), roots)
  {
    hide Execute, KindOf, Redirects, FallsThrough, DetoursAt, PatchWrite, EntryWhole;
    var mem' := Execute(mem, insn);
    forall g | g in w.kinds && w.kinds[g] != Unpatchable ensures EntryWhole(w, mem0, mem', roots, g) {
      if g != f {
        OthersStayWhole(w, mem0, mem, roots, insn, g);
      } else {
        PatchTakesEffect(mem, f, target);
        AskedIsWhole(w, mem0, mem', roots, f, target);
      }
    }
  }

  lemma AskedIsWhole(w: World, mem0: seq<byte>, mem: seq<byte>, roots: seq<Root>, f: Addr, target: Option<Addr>)
    requires f in w.kinds && Asked(roots, f, target) && (target.Some? ==> target.value < U64)
    requires target.Some? ==> Redirects(mem, w.kinds[f], f, target.value)
    requires target.None? ==> FallsThrough(mem, w.kinds[f], f)
    ensures EntryWhole(w, mem0, mem, roots, f)
  {
    hide Redirects, FallsThrough, DetoursAt;
  }

  lemma SlotLeavesWhole(w: World, mem0: seq<byte>, mem: seq<byte>, roots: seq<Root>, insn: Insn)
    requires Laid(w, mem) && AllWhole(w, mem0, mem, roots) && SlotWrite(w, insn)
    ensures AllWhole(w, mem0, Execute(mem, insn), roots)
  {
    hide Execute, EntryWhole, SlotWrite, KindOf;
    forall g | g in w.kinds && w.kinds[g] != Unpatchable
      ensures EntryWhole(w, mem0, Execute(mem, insn), roots, g)
    {
      OthersStayWhole(w, mem0, mem, roots, insn, g);
    }
  }

  /** Queued or lost: memory after the drain has the write, or is as before. */
  lemma AfterEnqueue(w: World, cap: nat, st: State, insn: Insn)
    requires QueueOk(w, st)
    ensures
      var r := Enqueue(cap, st, insn);
      && r == st.(mem := r.mem, pending := r.pending, error := r.error)
      && (After(r) == Execute(After(st), insn) || After(r) == After(st))
  {
    hide Laid, AllGood, Execute;
    if !st.immediate {
      ReplayAppend(st.mem, st.pending, [insn]);
      assert [insn][1..] == [];
      assert Replay(After(st), [insn]) == Execute(After(st), insn);
    }
  }

  lemma EmitLeavesWhole(w: World, mem0: seq<byte>, cap: nat, st: State, f: Addr, target: Option<Addr>)
    requires NoneTorn(w, mem0, st) && f in w.kinds && (target.Some? ==> target.value < U64)
    requires Asked(st.roots, f, target)
    ensures NoneTorn(w, mem0, Emit(cap, st, f, target).0)
  {
    hide KindOf, Prologue, Asked, AllWhole, Execute, RootsKnown, UniqueAddrs, Enqueue, After;
    EmitQueue(w, cap, st, f, target);
    if w.kinds[f] != Unpatchable {
      var insn := PatchWrite(w.kinds[f], f, target).value;
      assert PatchFor(w, insn, f, target);
      AfterEnqueue(w, cap, st, insn);
      assert Laid(w, After(st)) by { AfterIsLaid(w, st); }
      PatchLeavesWhole(w, mem0, After(st), st.roots, insn, f, target);
    }
  }

  lemma AfterIsLaid(w: World, st: State)
    requires QueueOk(w, st)
    ensures Laid(w, After(st))
  {
    LaidAfterAll(w, st.mem, st.pending);
  }

  lemma RefLeavesWhole(w: World, mem0: seq<byte>, cap: nat, st: State, insn: Insn)
    requires NoneTorn(w, mem0, st) && SlotWrite(w, insn)
    ensures NoneTorn(w, mem0, Enqueue(cap, st, insn))
  {
    hide AllWhole, Execute, RootsKnown, UniqueAddrs, Enqueue, After, SlotWrite, KindOf;
    EnqueueKeeps(w, cap, st, insn);
    AfterEnqueue(w, cap, st, insn);
    AfterIsLaid(w, st);
    SlotLeavesWhole(w, mem0, After(st), st.roots, insn);
  }

  // ---------- stacks only grow ----------

  /** Every function has the detours it had, active or not, and maybe more. */
  ghost predicate Grown(roots: seq<Root>, more: seq<Root>) {
    forall f ::
      && (RootIndex(roots, f) < |roots| ==> RootIndex(more, f) < |more|)
      && forall d :: d in DetoursAt(roots, f) ==> exists e :: e in DetoursAt(more, f) && e.target == d.target
  }

  lemma GrownStaysWhole(w: World, mem0: seq<byte>, mem: seq<byte>, roots: seq<Root>, more: seq<Root>)
    requires AllWhole(w, mem0, mem, roots) && Grown(roots, more)
    ensures AllWhole(w, mem0, mem, more)
  {
    hide Redirects, FallsThrough, DetoursAt, RootIndex;
    forall f | f in w.kinds && w.kinds[f] != Unpatchable ensures EntryWhole(w, mem0, mem, more, f) {
      assert EntryWhole(w, mem0, mem, roots, f);
      if LeadsTo(mem, w.kinds[f], f, DetoursAt(roots, f)) {
        var d :| d in DetoursAt(roots, f) && d.target < U64 && Redirects(mem, w.kinds[f], f, d.target);
        var e :| e in DetoursAt(more, f) && e.target == d.target;
        assert Redirects(mem, w.kinds[f], f, e.target);
      }
    }
  }

  lemma PushGrows(st: State, id: PatchId, f: Addr, target: Addr)
    ensures
      var r := PushDetour(st, id, f, target);
      Grown(st.roots, r.roots) && Asked(r.roots, f, Some(target))
  {
    var r := PushDetour(st, id, f, target);
    var pushed := Detour(id, st.universe, target, true);
    var i := RootIndex(st.roots, f);
    assert DetoursAt(r.roots, f) == [pushed] + DetoursAt(st.roots, f) by { PushAt(st, id, f, target, f); }
    assert pushed in DetoursAt(r.roots, f);
    forall g
      ensures RootIndex(st.roots, g) < |st.roots| ==> RootIndex(r.roots, g) < |r.roots|
      ensures forall d :: d in DetoursAt(st.roots, g) ==> exists e :: e in DetoursAt(r.roots, g) && e.target == d.target
    {
      PushAt(st, id, f, target, g);
      forall d | d in DetoursAt(st.roots, g) ensures exists e :: e in DetoursAt(r.roots, g) && e.target == d.target {
        assert d in DetoursAt(r.roots, g);
      }
    }
  }

  lemma PushAt(st: State, id: PatchId, f: Addr, target: Addr, g: Addr)
    ensures
      var r := PushDetour(st, id, f, target);
      && DetoursAt(r.roots, g)
         == (if g == f then [Detour(id, st.universe, target, true)] else []) + DetoursAt(st.roots, g)
      && (RootIndex(st.roots, g) < |st.roots| ==> RootIndex(r.roots, g) < |r.roots|)
  {
    var r := PushDetour(st, id, f, target);
    var i := RootIndex(st.roots, f);
    if i < |st.roots| {
      SameAddrs(st.roots, r.roots, g);
    } else {
      assert r.roots[1..] == st.roots;
    }
  }

  lemma {:induction false} SameAddrs(a: seq<Root>, b: seq<Root>, f: Addr)
    requires |a| == |b| && forall i :: 0 <= i < |a| ==> a[i].addr == b[i].addr
    ensures RootIndex(a, f) == RootIndex(b, f)
  {
    if a != [] && a[0].addr != f {
      SameAddrs(a[1..], b[1..], f);
    }
  }

  lemma DeactivateGrows(roots: seq<Root>, i: nat, k: nat)
    requires i < |roots| && k < |roots[i].detours|
    ensures Grown(roots, Deactivate(roots, i, k))
  {
    var more := Deactivate(roots, i, k);
    forall f
      ensures RootIndex(roots, f) < |roots| ==> RootIndex(more, f) < |more|
      ensures forall d :: d in DetoursAt(roots, f) ==> exists e :: e in DetoursAt(more, f) && e.target == d.target
    {
      SameAddrs(roots, more, f);
      var ds, es := DetoursAt(roots, f), DetoursAt(more, f);
      forall d | d in ds ensures exists e :: e in es && e.target == d.target {
        var j :| 0 <= j < |ds| && ds[j] == d;
        assert es[j] in es && es[j].target == d.target;
      }
    }
  }

  // ---------- sessions ----------

  lemma PushLeavesWhole(w: World, mem0: seq<byte>, st: State, id: PatchId, f: Addr, target: Addr)
    requires NoneTorn(w, mem0, st) && f in w.kinds && 0 < target < U64
    ensures
      var r := PushDetour(st, id, f, target);
      NoneTorn(w, mem0, r) && Asked(r.roots, f, Some(target))
  {
    var r := PushDetour(st, id, f, target);
    PushGrows(st, id, f, target);
    PushKnown(w, st, id, f, target);
    hide PushDetour, Grown, AllWhole, Asked, RootsKnown, UniqueAddrs;
    GrownStaysWhole(w, mem0, After(st), st.roots, r.roots);
    QueueSame(w, st, r);
  }

  lemma PushKnown(w: World, st: State, id: PatchId, f: Addr, target: Addr)
    requires UniqueAddrs(st.roots) && RootsKnown(w, st.roots) && f in w.kinds && 0 < target < U64
    ensures
      var r := PushDetour(st, id, f, target);
      && UniqueAddrs(r.roots) && RootsKnown(w, r.roots)
      && r == st.(roots := r.roots, nextIndex := r.nextIndex)
  {
  }

  lemma {:induction false} UnitsLeaveWhole(w: World, mem0: seq<byte>, cap: nat, st: State, id: PatchId, units: seq<Unit>)
    requires NoneTorn(w, mem0, st) && UnitsOk(w, units)
    ensures NoneTorn(w, mem0, ApplyUnits(cap, st, id, units).0)
    decreases |units|
  {
    hide NoneTorn, Asked, Emit, PushDetour;
    if units != [] && units[0].oldFun.Some? && units[0].newFun.Some? {
      var f, target := units[0].oldFun.value, units[0].newFun.value;
      PushLeavesWhole(w, mem0, st, id, f, target);
      EmitLeavesWhole(w, mem0, cap, PushDetour(st, id, f, target), f, Some(target));
      assert forall i :: 0 <= i < |units[1..]| ==> units[1..][i] == units[i + 1];
      UnitsLeaveWhole(w, mem0, cap, Emit(cap, PushDetour(st, id, f, target), f, Some(target)).0, id, units[1..]);
    }
  }

  lemma {:induction false} RefsLeaveWhole(w: World, mem0: seq<byte>, cap: nat, st: State, bases: Bases, refs: seq<Ref>)
    requires NoneTorn(w, mem0, st) && bases.Bases? && RefsOk(w, bases, refs)
    ensures NoneTorn(w, mem0, ApplyRefs(cap, st, bases, refs).0)
    decreases |refs|
  {
    hide NoneTorn, Enqueue, RefAddress, RefBytes, SlotWrite;
    if refs != [] && RefAddress(bases, refs[0]).Some? {
      var insn := Write(RefAddress(bases, refs[0]).value, RefBytes(bases, refs[0]));
      RefLeavesWhole(w, mem0, cap, st, insn);
      assert forall i :: 0 <= i < |refs[1..]| ==> refs[1..][i] == refs[i + 1];
      RefsLeaveWhole(w, mem0, cap, Enqueue(cap, st, insn), bases, refs[1..]);
    }
  }

  lemma StepLeavesWhole(w: World, mem0: seq<byte>, cap: nat, st: State, i: nat, k: nat)
    requires NoneTorn(w, mem0, st) && i < |st.roots| && k < |st.roots[i].detours|
    ensures NoneTorn(w, mem0, RevertStep(cap, st, i, k))
  {
    hide Grown, AllWhole, Asked, RootsKnown, UniqueAddrs, Emit, Deactivate, FirstActive, After, QueueOk;
    var off := st.(roots := Deactivate(st.roots, i, k));
    DeactivateGrows(st.roots, i, k);
    OffKnown(w, st.roots, i, k);
    GrownStaysWhole(w, mem0, After(st), st.roots, off.roots);
    QueueSame(w, st, off);
    assert After(off) == After(st) by { SameAfter(st, off); }
    EmitLeavesWhole(w, mem0, cap, off, off.roots[i].addr, FirstActive(off.roots[i].detours));
  }

  lemma SameAfter(st: State, st': State)
    requires st.mem == st'.mem && st.pending == st'.pending
    ensures After(st) == After(st')
  {
  }

  lemma OffKnown(w: World, roots: seq<Root>, i: nat, k: nat)
    requires UniqueAddrs(roots) && RootsKnown(w, roots) && i < |roots| && k < |roots[i].detours|
    ensures
      var off := Deactivate(roots, i, k);
      var top := FirstActive(off[i].detours);
      && UniqueAddrs(off) && RootsKnown(w, off) && off[i].addr in w.kinds
      && (top.Some? ==> top.value < U64) && Asked(off, off[i].addr, top)
  {
    var off := Deactivate(roots, i, k);
    assert UniqueAddrs(off) && RootsKnown(w, off);
    hide Deactivate, RootsKnown;
    assert off[i].addr in w.kinds && TargetsOk(off[i].detours) by { KnownRoot(w, off, i); }
    RootIndexUnique(off, i);
    FirstActiveOk(off[i].detours);
    FirstActiveIn(off[i].detours);
  }

  lemma KnownRoot(w: World, roots: seq<Root>, i: nat)
    requires RootsKnown(w, roots) && i < |roots|
    ensures roots[i].addr in w.kinds && TargetsOk(roots[i].detours)
  {
  }

  lemma {:induction false} FirstActiveIn(ds: seq<Detour>)
    ensures FirstActive(ds).Some? ==> exists d :: d in ds && d.target == FirstActive(ds).value
  {
    if ds != [] {
      if ds[0].active {
        assert ds[0] in ds;
      } else {
        FirstActiveIn(ds[1..]);
      }
    }
  }

  lemma {:induction false} RevertLeavesWhole(w: World, mem0: seq<byte>, cap: nat, st: State, id: PatchId, i: nat, k: nat)
    requires NoneTorn(w, mem0, st)
    ensures NoneTorn(w, mem0, RevertFrom(cap, st, id, i, k))
    decreases |st.roots| - i, if i < |st.roots| then |st.roots[i].detours| - k else 0
  {
    hide NoneTorn, RevertStep;
    if i >= |st.roots| {
    } else if k >= |st.roots[i].detours| {
      RevertLeavesWhole(w, mem0, cap, st, id, i + 1, 0);
    } else if st.roots[i].detours[k].id != id {
      RevertLeavesWhole(w, mem0, cap, st, id, i, k + 1);
    } else {
      StepLeavesWhole(w, mem0, cap, st, i, k);
      RevertLeavesWhole(w, mem0, cap, RevertStep(cap, st, i, k), id, i, k + 1);
    }
  }

  /** Patches, counters and the error state do not matter. */
  lemma WholeIgnores(w: World, mem0: seq<byte>, st: State, st': State)
    requires NoneTorn(w, mem0, st)
    requires st'.roots == st.roots && st'.mem == st.mem && st'.pending == st.pending && st'.immediate == st.immediate
    ensures NoneTorn(w, mem0, st')
  {
    hide AllWhole, UniqueAddrs, RootsKnown, Laid;
  }

  lemma PatchRevertLeavesWhole(w: World, mem0: seq<byte>, cap: nat, st: State, id: PatchId)
    requires NoneTorn(w, mem0, st)
    ensures NoneTorn(w, mem0, RevertPatch(cap, st, id).0)
  {
    hide NoneTorn, RevertFrom;
    var st1 := st.(universe := st.universe + 1);
    WholeIgnores(w, mem0, st, st1);
    RevertLeavesWhole(w, mem0, cap, st1, id, 0, 0);
    WholeIgnores(w, mem0, RevertFrom(cap, st1, id, 0, 0), RevertPatch(cap, st, id).0);
  }

  lemma {:induction false} WalkLeavesWhole(w: World, mem0: seq<byte>, cap: nat, st: State, k: nat, lib: string, ret: int)
    requires NoneTorn(w, mem0, st)
    ensures NoneTorn(w, mem0, RevertAllFrom(cap, st, k, lib, ret).st)
    decreases |st.patches| - k
  {
    hide NoneTorn, RevertPatch, CanRevert;
    if k >= |st.patches| {
    } else if st.patches[k].lib != lib {
      WalkLeavesWhole(w, mem0, cap, st, k + 1, lib, ret);
    } else if CanRevert(st.patches, st.patches[k].id) == 0 {
      PatchRevertLeavesWhole(w, mem0, cap, st, st.patches[k].id);
      var (st', code) := RevertPatch(cap, st, st.patches[k].id);
      if code == 0 {
        Shorter(cap, st, k);
        WalkLeavesWhole(w, mem0, cap, st', k, lib, code);
      }
    }
  }

  lemma Shorter(cap: nat, st: State, k: nat)
    requires k < |st.patches|
    ensures |RevertPatch(cap, st, st.patches[k].id).0.patches| < |st.patches|
  {
    assert PatchIndex(st.patches, st.patches[k].id) <= k;
  }

  lemma LoadLeavesWhole(w: World, mem0: seq<byte>, cap: nat, st: State, parse: Parse)
    requires NoneTorn(w, mem0, st) && (parse.Parsed? ==> MetaOk(w, parse.meta))
    ensures NoneTorn(w, mem0, LoadPatch(cap, st, parse).0)
  {
    hide NoneTorn, Sanity, RevertPatch, CanRevert, ApplyUnits, ApplyRefs, RefsOk, UnitsOk;
    if parse.Parsed? {
      var m := parse.meta;
      PatchRevertLeavesWhole(w, mem0, cap, st, m.id);
      if StateUpdate(st, m).Some? {
        var st1 := StateUpdate(st, m).value;
        var st2 := st1.(universe := st1.universe + 1);
        WholeIgnores(w, mem0, st, st2);
        UnitsLeaveWhole(w, mem0, cap, st2, m.id, m.units);
        var st3 := ApplyUnits(cap, st2, m.id, m.units).0;
        WholeIgnores(w, mem0, st3, st3.(error := EUNKNOWN));
        if m.bases.Bases? {
          RefsLeaveWhole(w, mem0, cap, st3, m.bases, m.refs);
          var st4 := ApplyRefs(cap, st3, m.bases, m.refs).0;
          WholeIgnores(w, mem0, st4, st4.(error := EUNKNOWN));
        }
      }
    }
  }

  lemma DrainLeavesWhole(w: World, mem0: seq<byte>, st: State)
    requires NoneTorn(w, mem0, st)
    ensures NoneTorn(w, mem0, st.(mem := After(st), pending := []))
  {
    hide AllWhole, UniqueAddrs, RootsKnown, Laid;
    AfterIsLaid(w, st);
    assert Replay(After(st), []) == After(st);
  }

  lemma NextLeavesWhole(w: World, mem0: seq<byte>, cap: nat, st: State, op: Op)
    requires NoneTorn(w, mem0, st) && OpOk(w, op)
    ensures NoneTorn(w, mem0, Next(cap, st, op))
  {
    hide NoneTorn, LoadPatch, RevertAllFrom, MetaOk, BaseName, Clip, BasenameOffset;
    match op {
      case Toggle => WholeIgnores(w, mem0, st, Next(cap, st, op));
      case Drain => DrainLeavesWhole(w, mem0, st);
      case Trigger(parse, busy) =>
        LoadLeavesWhole(w, mem0, cap, st, parse);
        WholeIgnores(w, mem0, st, st.(error := Gate(st, busy).0));
      case RevertAll(path, loaded, busy) =>
        WholeIgnores(w, mem0, st, st.(error := Gate(st, busy).0));
        WalkLeavesWhole(w, mem0, cap, st, 0, Clip(BaseName(path)), ENOTARGETLIB);
        var r := RevertAllFrom(cap, st, 0, Clip(BaseName(path)), ENOTARGETLIB).st;
        WholeIgnores(w, mem0, r, r.(hung := true));
    }
  }

  lemma {:induction false} RunLeavesWhole(w: World, mem0: seq<byte>, cap: nat, st: State, ops: seq<Op>)
    requires NoneTorn(w, mem0, st) && OpsOk(w, ops)
    ensures NoneTorn(w, mem0, Run(cap, st, ops))
    decreases |ops|
  {
    hide NoneTorn, Next, OpOk;
    if ops != [] {
      NextLeavesWhole(w, mem0, cap, st, ops[0]);
      assert forall i :: 0 <= i < |ops[1..]| ==> ops[1..][i] == ops[i + 1];
      RunLeavesWhole(w, mem0, cap, Next(cap, st, ops[0]), ops[1..]);
    }
  }

  /** A call to `f` gets to one of its detours, or to its body, or where its entry
      led before anything was patched. */
  ghost predicate CallArrives(w: World, mem0: seq<byte>, st: State, f: Addr)
    requires f in w.kinds && f + Bias(w.kinds[f]) + 1 < |mem0|
  {
    var at := f + Bias(w.kinds[f]);
    || (exists d :: d in DetoursAt(st.roots, f) && Reaches(After(st), f, d.target))
    || (RootIndex(st.roots, f) < |st.roots| && Reaches(After(st), f, at + 2))
    || Reaches(After(st), f, OwnWay(mem0, at))
  }

  /** In every reachable state, whatever went wrong on the way: once the queued
      writes are done, no entry is torn. */
  lemma CallsArrive(w: World, mem0: seq<byte>, cap: nat, immediate: bool, ops: seq<Op>, f: Addr)
    requires Laid(w, mem0) && OpsOk(w, ops) && f in w.kinds && w.kinds[f] != Unpatchable
    ensures f + Bias(w.kinds[f]) + 1 < |mem0|
    ensures CallArrives(w, mem0, Run(cap, Start(mem0, immediate), ops), f)
  {
    hide Run, OpsOk, KindOf;
    var st0 := Start(mem0, immediate);
    StartWhole(w, mem0, immediate);
    RunLeavesWhole(w, mem0, cap, st0, ops);
    WholeArrives(w, mem0, Run(cap, st0, ops), f);
  }

  lemma StartWhole(w: World, mem0: seq<byte>, immediate: bool)
    requires Laid(w, mem0)
    ensures NoneTorn(w, mem0, Start(mem0, immediate))
  {
    hide KindOf, Redirects, FallsThrough;
  }

  lemma WholeArrives(w: World, mem0: seq<byte>, st: State, f: Addr)
    requires Laid(w, mem0) && NoneTorn(w, mem0, st) && f in w.kinds && w.kinds[f] != Unpatchable
    ensures f + Bias(w.kinds[f]) + 1 < |mem0| && CallArrives(w, mem0, st, f)
  {
    hide KindOf, Redirects, FallsThrough, DetoursAt, Reaches, Replay, OwnWay, QueueOk;
    var k, mem := w.kinds[f], After(st);
    assert EntryWhole(w, mem0, mem, st.roots, f);
    if Untouched(k, mem0, mem, f) {
      KeepsItsWay(mem0, mem, f);
    } else if LeadsTo(mem, k, f, DetoursAt(st.roots, f)) {
      var d :| d in DetoursAt(st.roots, f) && d.target < U64 && Redirects(mem, k, f, d.target);
      RedirectsReaches(mem, k, f, d.target);
    } else {
      FallsThroughReaches(mem, k, f);
    }
  }
}
