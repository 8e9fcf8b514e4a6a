/** Runs that show where the engine does not do what one expects of it. */
module Witnesses {
  import opened Bytes
  import opened Errors
  import opened InsnCodec
  import opened X86
  import opened Engine
  import opened Layout
  import opened ControlFlow
  import opened History

  /** A patch that replaces one function, and the request that reverts it. */
  function ApplyOne(id: PatchId, lib: string, deps: seq<PatchId>, f: Addr, target: Addr): Op {
    Trigger(Parsed(Meta(1, id, lib, deps, [Unit(Some(f), Some(target))], [], Bases(0, 0, 0), true, true)), false)
  }

  function RevertOne(id: PatchId): Op {
    Trigger(Parsed(Meta(2, id, "", [], [], [], NoTargetLib, true, true)), false)
  }

  /** Between two sessions, the queue drained. */
  ghost predicate Ready(w: World, mem0: seq<byte>, st: State) {
    Inv(w, mem0, st) && st.error == ENONE && !st.hung && st.pending == [] && !st.immediate
  }

  /** Room for the largest prologue. */
  const ROOM: nat := 40

  lemma EmitFits(w: World, mem0: seq<byte>, cap: nat, st: State, f: Addr, top: Option<Addr>)
    requires ROOM <= cap && QueueOk(w, st) && st.pending == [] && !st.immediate
    requires f in w.kinds && w.kinds[f] != Unpatchable && (top.Some? ==> top.value < U64)
    ensures
      var (r, code) := Emit(cap, st, f, top);
      code == 0 && r == st.(pending := r.pending)
  {
    hide Prologue, KindOf;
    assert KindOf(st.mem, f) == w.kinds[f];
    assert TotalSize([]) == 0;
  }

  lemma AppliedOne(w: World, mem0: seq<byte>, cap: nat, st: State, id: PatchId, lib: string, deps: seq<PatchId>,
                   f: Addr, target: Addr)
    requires ROOM <= cap && Ready(w, mem0, st)
    requires f in w.kinds && w.kinds[f] != Unpatchable && 0 < target < U64
    requires !IsApplied(st.patches, id) && DependenciesMet(st.patches, deps)
    ensures
      var r := Next(cap, Next(cap, st, ApplyOne(id, lib, deps, f, target)), Drain);
      && Ready(w, mem0, r)
      && r.patches == [Patch(id, Clip(BaseName(lib)), Reverse(deps), [AppliedUnit(f, target)])] + st.patches
      && r.roots == PushDetour(st.(universe := st.universe + 1), id, f, target).roots
  {
    hide Inv, QueueOk, Emit, PushDetour, Sanity;
    var op := ApplyOne(id, lib, deps, f, target);
    var m := op.parse.meta;
    assert QueueOk(w, st) by { InvQueue(w, mem0, st); }
    assert Sanity(st.patches, m) == ENONE by { SaneMeta(st.patches, m); }
    ResolveOne(m.units, f, target);
    StateUpdateIs(st, m, [AppliedUnit(f, target)]);
    var st1 := StateUpdate(st, m).value;
    var st2 := st1.(universe := st1.universe + 1);
    PushOnly(st2, id, f, target);
    var pushed := PushDetour(st2, id, f, target);
    assert QueueOk(w, pushed) by { QueueSame(w, st, pushed); }
    EmitFits(w, mem0, cap, pushed, f, Some(target));
    var r := Emit(cap, pushed, f, Some(target)).0;
    UnitAlone(cap, st2, id, f, target);
    NoRefs(cap, st1, m);
    NextApplies(cap, st, m, r);
    assert OpOk(w, op) by { OneIsOk(w, id, lib, deps, f, target); }
    NextKeeps(w, mem0, cap, st, op);
    NextKeeps(w, mem0, cap, r, Drain);
    SamePush(st.(universe := st.universe + 1), st2, id, f, target);
  }

  lemma SaneMeta(patches: seq<Patch>, m: Meta)
    requires m.buildIdOk && m.soLoads && DependenciesMet(patches, m.deps) && !IsApplied(patches, m.id)
    ensures Sanity(patches, m) == ENONE
  {
  }

  lemma ResolveOne(units: seq<Unit>, f: Addr, target: Addr)
    requires units == [Unit(Some(f), Some(target))]
    ensures Resolve(units) == Some([AppliedUnit(f, target)])
  {
    assert units[1..] == [];
    assert [AppliedUnit(f, target)] + [] == [AppliedUnit(f, target)];
  }

  lemma PushOnly(st: State, id: PatchId, f: Addr, target: Addr)
    ensures
      var r := PushDetour(st, id, f, target);
      r == st.(roots := r.roots, nextIndex := r.nextIndex)
  {
  }

  lemma SamePush(a: State, b: State, id: PatchId, f: Addr, target: Addr)
    requires a.roots == b.roots && a.universe == b.universe && a.nextIndex == b.nextIndex
    ensures PushDetour(a, id, f, target).roots == PushDetour(b, id, f, target).roots
  {
  }

  lemma UnitAlone(cap: nat, st: State, id: PatchId, f: Addr, target: Addr)
    requires Emit(cap, PushDetour(st, id, f, target), f, Some(target)).1 == 0
    ensures ApplyUnits(cap, st, id, [Unit(Some(f), Some(target))])
         == Emit(cap, PushDetour(st, id, f, target), f, Some(target))
  {
    hide Emit, PushDetour;
    var units := [Unit(Some(f), Some(target))];
    assert units[1..] == [];
    var r := Emit(cap, PushDetour(st, id, f, target), f, Some(target)).0;
    assert ApplyUnits(cap, r, id, []) == (r, 0);
  }

  lemma OneIsOk(w: World, id: PatchId, lib: string, deps: seq<PatchId>, f: Addr, target: Addr)
    requires f in w.kinds && 0 < target < U64
    ensures OpOk(w, ApplyOne(id, lib, deps, f, target))
  {
  }

  // ---------- the revert-all loop ----------

  function TwoPatches(f: Addr, g: Addr, s: Addr, t: Addr): seq<Op> {
    [ApplyOne([1], "/usr/lib/liba.so", [], f, s), Drain, ApplyOne([2], "/usr/lib/libb.so", [[1]], g, t), Drain]
  }

  lemma RunTwo(cap: nat, st: State, a: Op, b: Op, rest: seq<Op>)
    ensures Run(cap, st, [a, b] + rest) == Run(cap, Next(cap, Next(cap, st, a), b), rest)
  {
    hide Next;
    var ops := [a, b] + rest;
    assert ops[1..] == [b] + rest && ops[1..][1..] == rest;
  }

  lemma BaseNames()
    ensures Clip(BaseName("/usr/lib/liba.so")) == "liba.so"
    ensures Clip(BaseName("/usr/lib/libb.so")) == "libb.so"
    ensures Clip(BaseName("liba.so")) == "liba.so" && BasenameOffset("liba.so") == 0
  {
    hide BaseName, BasenameOffset;
    NameAfter("/usr/lib/", "liba.so");
    NameAfter("/usr/lib/", "libb.so");
    NameAfter("", "liba.so");
    assert "/usr/lib/" + "liba.so" == "/usr/lib/liba.so" && "/usr/lib/" + "libb.so" == "/usr/lib/libb.so";
    assert "" + "liba.so" == "liba.so";
  }

  lemma {:induction false} NameAfter(dir: string, name: string)
    requires '/' !in name && (dir == "" || dir[|dir| - 1] == '/')
    ensures BasenameOffset(dir + name) == |dir| && BaseName(dir + name) == name
    decreases |name|
  {
    var path := dir + name;
    if name != "" {
      var short := name[..|name| - 1];
      assert path[..|path| - 1] == dir + short;
      assert path[|path| - 1] == name[|name| - 1];
      NameAfter(dir, short);
    } else {
      assert path == dir;
    }
    assert path[|dir|..] == name;
  }

  lemma FirstApplied(w: World, mem0: seq<byte>, cap: nat, f: Addr, s: Addr)
    requires Laid(w, mem0) && ROOM <= cap && 0 < s < U64 && f in w.kinds && w.kinds[f] != Unpatchable
    ensures
      var st := Run(cap, Start(mem0, false), [ApplyOne([1], "/usr/lib/liba.so", [], f, s), Drain]);
      Ready(w, mem0, st) && st.patches == [Patch([1], "liba.so", [], [AppliedUnit(f, s)])]
  {
    hide Inv, Run, Next, PushDetour, BaseName, Clip, BasenameOffset, ApplyOne;
    var st0, op := Start(mem0, false), ApplyOne([1], "/usr/lib/liba.so", [], f, s);
    StartKeeps(w, mem0, false);
    AppliedOne(w, mem0, cap, st0, [1], "/usr/lib/liba.so", [], f, s);
    BaseNames();
    RunTwo(cap, st0, op, Drain, []);
    assert [op, Drain] + [] == [op, Drain];
    RunOne(cap, Next(cap, Next(cap, st0, op), Drain), op);
  }

  lemma SecondApplied(w: World, mem0: seq<byte>, cap: nat, st: State, f: Addr, g: Addr, s: Addr, t: Addr)
    requires Ready(w, mem0, st) && ROOM <= cap && 0 < t < U64 && g in w.kinds && w.kinds[g] != Unpatchable
    requires st.patches == [Patch([1], "liba.so", [], [AppliedUnit(f, s)])]
    ensures
      var r := Run(cap, st, [ApplyOne([2], "/usr/lib/libb.so", [[1]], g, t), Drain]);
      Ready(w, mem0, r) && r.patches == [Patch([2], "libb.so", [[1]], [AppliedUnit(g, t)])] + st.patches
  {
    hide Inv, Run, Next, PushDetour, BaseName, Clip, BasenameOffset, ApplyOne;
    var op := ApplyOne([2], "/usr/lib/libb.so", [[1]], g, t);
    AppliedOne(w, mem0, cap, st, [2], "/usr/lib/libb.so", [[1]], g, t);
    BaseNames();
    ReverseOne([1]);
    RunTwo(cap, st, op, Drain, []);
    assert [op, Drain] + [] == [op, Drain];
    RunOne(cap, Next(cap, Next(cap, st, op), Drain), op);
  }

  /** In every process: patch liba, patch libb with a patch that depends on the
      first one, and revert all patches of liba. The session never returns. */
  lemma RevertAllHangs(w: World, mem0: seq<byte>, cap: nat, f: Addr, g: Addr, s: Addr, t: Addr)
    requires Laid(w, mem0) && ROOM <= cap && 0 < s < U64 && 0 < t < U64
    requires f in w.kinds && w.kinds[f] != Unpatchable && g in w.kinds && w.kinds[g] != Unpatchable
    ensures !Run(cap, Start(mem0, false), TwoPatches(f, g, s, t)).hung
    ensures Run(cap, Start(mem0, false), TwoPatches(f, g, s, t) + [RevertAll("liba.so", true, false)]).hung
  {
    hide Inv, Run, Next, BaseName, Clip, BasenameOffset, ApplyOne;
    var ops, last := TwoPatches(f, g, s, t), RevertAll("liba.so", true, false);
    var st0 := Start(mem0, false);
    FirstApplied(w, mem0, cap, f, s);
    var st1 := Run(cap, st0, ops[..2]);
    assert ops[..2] == [ApplyOne([1], "/usr/lib/liba.so", [], f, s), Drain];
    assert ops[2..] == [ApplyOne([2], "/usr/lib/libb.so", [[1]], g, t), Drain];
    SecondApplied(w, mem0, cap, st1, f, g, s, t);
    assert ops == ops[..2] + ops[2..];
    RunAppend(cap, st0, ops[..2], ops[2..]);
    RunAppend(cap, st0, ops, [last]);
    var st2 := Run(cap, st0, ops);
    RunOne(cap, st2, last);
    BaseNames();
    Sticks(cap, st2);
  }

  lemma RunOne(cap: nat, st: State, op: Op)
    ensures Run(cap, st, [op]) == Next(cap, st, op) && Run(cap, st, []) == st
  {
    assert [op][1..] == [];
  }

  lemma ReverseOne(d: PatchId)
    ensures Reverse([d]) == [d]
  {
    assert [d][1..] == [];
    assert Reverse<PatchId>([]) == [];
  }

  lemma Sticks(cap: nat, st: State)
    requires |st.patches| == 2 && st.error == ENONE && !st.hung && st.pending == []
    requires st.patches[0].lib == "libb.so" && st.patches[0].id == [2] && st.patches[0].deps == [[1]]
    requires st.patches[1].lib == "liba.so" && st.patches[1].id == [1]
    requires Clip(BaseName("liba.so")) == "liba.so" && BasenameOffset("liba.so") == 0
    ensures Next(cap, st, RevertAll("liba.so", true, false)).hung
  {
    hide BaseName, Clip, BasenameOffset, RevertPatch;
    assert st.patches[0] in st.patches && [1] in st.patches[0].deps;
    assert CanRevert(st.patches, [1]) != 0;
    assert "libb.so"[3] != "liba.so"[3];
    assert RevertAllFrom(cap, st, 1, "liba.so", ENOTARGETLIB) == Stuck(st);
  }

  // ---------- one function patched and reverted ----------

  function OneAndBack(f: Addr, target: Addr): seq<Op> {
    [ApplyOne([1], "/usr/lib/liba.so", [], f, target), Drain, RevertOne([1]), Drain]
  }

  lemma RevertedOne(w: World, mem0: seq<byte>, cap: nat, st: State, id: PatchId, f: Addr, d: Detour)
    requires ROOM <= cap && Ready(w, mem0, st) && f in w.kinds && w.kinds[f] != Unpatchable
    requires |st.patches| == 1 && st.patches[0].id == id && st.patches[0].deps == []
    requires st.roots == [Root(0, f, [d])] && d.id == id
    ensures
      var r := Next(cap, Next(cap, st, RevertOne(id)), Drain);
      && Ready(w, mem0, r) && r.patches == []
      && r.roots == [Root(0, f, [d.(active := false)])]
  {
    hide Inv, QueueOk, Emit, Sanity;
    assert QueueOk(w, st) by { InvQueue(w, mem0, st); }
    var st1 := st.(universe := st.universe + 1);
    var st2 := st1.(roots := [Root(0, f, [d.(active := false)])]);
    assert [d][0 := d.(active := false)] == [d.(active := false)];
    assert st1.roots[0 := Root(0, f, [d.(active := false)])] == st2.roots;
    assert QueueOk(w, st2) by { QueueSame(w, st, st2); }
    EmitFits(w, mem0, cap, st2, f, None);
    var r := Emit(cap, st2, f, None).0;
    assert FirstActive(st2.roots[0].detours) == None by { assert st2.roots[0].detours[1..] == []; }
    assert RevertStep(cap, st1, 0, 0) == r;
    assert RevertFrom(cap, r, id, 0, 1) == RevertFrom(cap, r, id, 1, 0) == r;
    assert RevertFrom(cap, st1, id, 0, 0) == r;
    assert CanRevert(st.patches, id) == 0;
    assert RemovePatch(r.patches, id) == [];
    var op := RevertOne(id);
    var st' := r.(patches := []);
    assert Next(cap, st, op) == st';
    assert OpOk(w, op);
    NextKeeps(w, mem0, cap, st, op);
    NextKeeps(w, mem0, cap, st', Drain);
  }

  lemma PatchedAndReverted(w: World, mem0: seq<byte>, cap: nat, f: Addr, target: Addr)
    requires Laid(w, mem0) && ROOM <= cap && 0 < target < U64 && f in w.kinds && w.kinds[f] != Unpatchable
    ensures
      var st := Run(cap, Start(mem0, false), OneAndBack(f, target));
      Ready(w, mem0, st) && st.patches == [] && st.roots == [Root(0, f, [Detour([1], 1, target, false)])]
  {
    hide Inv, Run, Next, BaseName, Clip, BasenameOffset, ApplyOne, RevertOne;
    var ops, st0 := OneAndBack(f, target), Start(mem0, false);
    StartKeeps(w, mem0, false);
    AppliedOne(w, mem0, cap, st0, [1], "/usr/lib/liba.so", [], f, target);
    var st1 := Next(cap, Next(cap, st0, ops[0]), Drain);
    RevertedOne(w, mem0, cap, st1, [1], f, Detour([1], 1, target, true));
    RunTwo(cap, st0, ops[0], Drain, ops[2..]);
    assert ops == [ops[0], Drain] + ops[2..] && ops[2..] == [ops[2], Drain] + [];
    RunTwo(cap, st1, ops[2], Drain, []);
    RunOne(cap, Next(cap, Next(cap, st1, ops[2]), Drain), Drain);
  }

  lemma OffGoes(w: World, mem0: seq<byte>, st: State, f: Addr, d: Detour)
    requires Laid(w, mem0) && Ready(w, mem0, st) && f in w.kinds && w.kinds[f] != Unpatchable
    requires st.roots == [Root(0, f, [d])] && !d.active
    ensures RootIndex(st.roots, f) == 0 && FirstActive(DetoursAt(st.roots, f)) == None && CallGoes(w, mem0, st, f)
  {
    assert Tracks(w, mem0, st);
    CallGoesInSync(w, mem0, st, f);
    hide Laid, Tracks, CallGoes, Inv;
    assert [d][1..] == [];
  }

  /** Behind an endbr64 the search by index gives an address inside that
      instruction, four bytes before where the call goes. */
  lemma EndbrFallbackIsWrong(w: World, mem0: seq<byte>, cap: nat, f: Addr, target: Addr)
    requires Laid(w, mem0) && ROOM <= cap && 0 < target < U64 && f in w.kinds && w.kinds[f] == Endbr
    ensures
      var st := Run(cap, Start(mem0, false), OneAndBack(f, target));
      && st.error == ENONE && RootIndex(st.roots, f) == 0 && st.roots != []
      && ManagedTarget(st.roots, st.roots[0].index) == Some(f + 2)
      && CallGoes(w, mem0, st, f) && Destination(w, mem0, st, f) == f + 6
  {
    hide Run, OneAndBack, CallGoes, Inv;
    PatchedAndReverted(w, mem0, cap, f, target);
    var st := Run(cap, Start(mem0, false), OneAndBack(f, target));
    OffGoes(w, mem0, st, f, Detour([1], 1, target, false));
    ManagedIsRoot(st.roots, 0);
    hide KindOf;
  }

  /** An entry that begins with a short jump of its own does not get it back. */
  lemma OwnJumpIsLost(w: World, mem0: seq<byte>, cap: nat, f: Addr, target: Addr)
    requires Laid(w, mem0) && ROOM <= cap && 0 < target < U64 && f in w.kinds && w.kinds[f] != Unpatchable
    requires f + Bias(w.kinds[f]) + 1 < |mem0|
    requires mem0[f + Bias(w.kinds[f])] == 0xEB && mem0[f + Bias(w.kinds[f]) + 1] != 0
    ensures
      var st := Run(cap, Start(mem0, false), OneAndBack(f, target));
      var at := f + Bias(w.kinds[f]);
      && st.error == ENONE && st.patches == []
      && Landing(After(st), at) == Some(at + 2) && Landing(mem0, at) != Some(at + 2)
  {
    hide Run, OneAndBack, After, KindOf, Inv, Landing, Reaches;
    PatchedAndReverted(w, mem0, cap, f, target);
    var st := Run(cap, Start(mem0, false), OneAndBack(f, target));
    OffGoes(w, mem0, st, f, Detour([1], 1, target, false));
    UntouchedReaches(mem0, f);
  }

  /** Processes with such a function. */
  function Image(entry: seq<byte>): seq<byte> {
    seq(PRE_NOPS_LEN, _ => 0x90) + entry + Zeros(16)
  }

  lemma SuchProcessesExist()
    ensures Laid(World(map[14 := Endbr], {}, 36), Image(ENDBR64 + NOP2))
    ensures Laid(World(map[14 := Plain], {}, 32), Image([0xEB, 0x02])) && Image([0xEB, 0x02])[14..16] == [0xEB, 0x02]
  {
    ImageKind(ENDBR64 + NOP2);
    ImageKind([0xEB, 0x02]);
  }

  lemma ImageKind(entry: seq<byte>)
    requires entry == ENDBR64 + NOP2 || entry == [0xEB, 0x02]
    ensures KindOf(Image(entry), 14) == (if entry == [0xEB, 0x02] then Plain else Endbr)
    ensures Image(entry)[14..14 + |entry|] == entry
  {
    var m := Image(entry);
    assert m[14] == entry[0] && m[15] == entry[1];
    if entry == [0xEB, 0x02] {
      assert m[14..18][0] == 0xEB;
    } else {
      assert m[14..18] == entry[..4] == ENDBR64;
      assert m[18] == entry[4] && m[19] == entry[5];
    }
  }
}
