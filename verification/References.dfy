/** What a fixed static-data reference holds once the session that fixed it has
    been drained. */
module References {
  import opened Bytes
  import opened Errors
  import opened InsnCodec
  import opened X86
  import opened Engine
  import opened Layout
  import opened ControlFlow
  import opened Sessions

  /** Address of the slot of a reference: what the lookup of its name gave, or an
      offset into the patch object. */
  function SlotOf(bases: Bases, r: Ref): Addr
    requires bases.Bases? && (r.patchOffset == 0 ==> r.symbol.Some?)
  {
    if r.patchOffset == 0 then r.symbol.value else (bases.patch + r.patchOffset) % 0x1_0000_0000_0000_0000
  }

  /** Bytes of the slot: a module index and an offset, or an address. */
  function SlotSize(r: Ref): nat {
    if r.tls then 16 else 8
  }

  /** In `mem` the slot at `a` holds what reference `r` stands for: the address of
      the datum in the target library, or its module and its offset there. */
  ghost predicate Holds(mem: seq<byte>, bases: Bases, r: Ref, a: Addr)
    requires bases.Bases?
  {
    && a + SlotSize(r) <= |mem|
    && if r.tls then
         && FromLe(mem[a..a + 8]) == bases.tlsIndex % 0x1_0000_0000_0000_0000
         && FromLe(mem[a + 8..a + 16]) == r.targetOffset % 0x1_0000_0000_0000_0000
       else FromLe(mem[a..a + 8]) == (bases.target + r.targetOffset) % 0x1_0000_0000_0000_0000
  }

  ghost predicate Disjoint(a: Addr, n: nat, b: Addr, k: nat) {
    a + n <= b || b + k <= a
  }

  /** No reference behind the i-th one is stored over it. */
  ghost predicate LastWord(bases: Bases, refs: seq<Ref>, i: nat)
    requires bases.Bases? && i < |refs| && forall j :: 0 <= j < |refs| && refs[j].patchOffset == 0 ==> refs[j].symbol.Some?
  {
    forall j :: i < j < |refs| ==>
      Disjoint(SlotOf(bases, refs[i]), SlotSize(refs[i]), SlotOf(bases, refs[j]), SlotSize(refs[j]))
  }

  lemma Word64(v: nat)
    ensures FromLe(Le(v, 8)) == v % 0x1_0000_0000_0000_0000
  {
    LeModulo(v, 8);
    Pow256Values();
  }

  // ---------- one reference ----------

  /** The write of a reference puts there what it stands for. */
  lemma WriteHolds(mem: seq<byte>, bases: Bases, r: Ref)
    requires bases.Bases? && (r.patchOffset == 0 ==> r.symbol.Some?) && SlotOf(bases, r) + SlotSize(r) <= |mem|
    ensures RefAddress(bases, r) == Some(SlotOf(bases, r)) && |RefBytes(bases, r)| == SlotSize(r)
    ensures Holds(Execute(mem, Write(SlotOf(bases, r), RefBytes(bases, r))), bases, r, SlotOf(bases, r))
  {
    var a, data, n := SlotOf(bases, r), RefBytes(bases, r), SlotSize(r);
    RefIs(bases, r);
    hide RefBytes, RefAddress, SlotOf, SlotSize, Store, FromLe, Holds;
    var mem' := Execute(mem, Write(a, data));
    StoreHere(mem, a, data);
    SubSlice(mem', a, a + n, 0, 8);
    if r.tls {
      SubSlice(mem', a, a + n, 8, 16);
    }
    HoldsIf(mem', bases, r, a);
  }

  /** Address and bytes of the write, in parts. */
  lemma RefIs(bases: Bases, r: Ref)
    requires bases.Bases? && (r.patchOffset == 0 ==> r.symbol.Some?)
    ensures RefAddress(bases, r) == Some(SlotOf(bases, r)) && |RefBytes(bases, r)| == SlotSize(r)
    ensures SlotSize(r) == if r.tls then 16 else 8
    ensures
      var d := RefBytes(bases, r);
      if r.tls then
        && FromLe(d[0..8]) == bases.tlsIndex % 0x1_0000_0000_0000_0000
        && FromLe(d[8..16]) == r.targetOffset % 0x1_0000_0000_0000_0000
      else FromLe(d[0..8]) == (bases.target + r.targetOffset) % 0x1_0000_0000_0000_0000
  {
    hide FromLe, Le;
    var d := RefBytes(bases, r);
    if r.tls {
      Word64(bases.tlsIndex);
      Word64(r.targetOffset);
      assert d[0..8] == Le(bases.tlsIndex, 8) && d[8..16] == Le(r.targetOffset, 8);
    } else {
      var v := (bases.target + r.targetOffset) % 0x1_0000_0000_0000_0000;
      Word64(v);
      assert d[0..8] == d == Le(v, 8);
    }
  }

  lemma HoldsIf(mem: seq<byte>, bases: Bases, r: Ref, a: Addr)
    requires bases.Bases? && a + SlotSize(r) <= |mem|
    requires
      if r.tls then
        && FromLe(mem[a..a + 8]) == bases.tlsIndex % 0x1_0000_0000_0000_0000
        && FromLe(mem[a + 8..a + 16]) == r.targetOffset % 0x1_0000_0000_0000_0000
      else FromLe(mem[a..a + 8]) == (bases.target + r.targetOffset) % 0x1_0000_0000_0000_0000
    ensures Holds(mem, bases, r, a)
  {
  }

  ghost predicate Resolved(refs: seq<Ref>) {
    forall j :: 0 <= j < |refs| && refs[j].patchOffset == 0 ==> refs[j].symbol.Some?
  }

  ghost predicate Inside(size: nat, bases: Bases, refs: seq<Ref>)
    requires bases.Bases? && Resolved(refs)
  {
    forall j :: 0 <= j < |refs| ==> SlotOf(bases, refs[j]) + SlotSize(refs[j]) <= size
  }

  lemma ResolvedSame(bases: Bases, refs: seq<Ref>)
    requires bases.Bases?
    ensures RefsResolved(bases, refs) <==> Resolved(refs)
  {
  }

  /** Writes that keep off a range leave it alone. */
  lemma {:induction false} OthersKeepOff(mem: seq<byte>, bases: Bases, refs: seq<Ref>, a: nat, n: nat)
    requires bases.Bases? && Resolved(refs) && RefsResolved(bases, refs) && Inside(|mem|, bases, refs) && a + n <= |mem|
    requires forall j :: 0 <= j < |refs| ==> Disjoint(a, n, SlotOf(bases, refs[j]), SlotSize(refs[j]))
    ensures Replay(mem, RefWrites(bases, refs))[a..a + n] == mem[a..a + n]
    decreases |refs|
  {
    hide RefAddress, RefBytes, SlotOf, SlotSize, Store;
    if refs != [] {
      var r, rest := refs[0], refs[1..];
      WriteHolds(mem, bases, r);
      var w := Write(SlotOf(bases, r), RefBytes(bases, r));
      StoreElsewhere(mem, w.addr, w.data, a, a + n);
      assert forall j :: 0 <= j < |rest| ==> rest[j] == refs[j + 1];
      assert RefWrites(bases, refs)[1..] == RefWrites(bases, rest);
      OthersKeepOff(Execute(mem, w), bases, rest, a, n);
    }
  }

  /** After all of them, every reference not stored over holds what it stands for. */
  lemma {:induction false} WritesHold(mem: seq<byte>, bases: Bases, refs: seq<Ref>, i: nat)
    requires bases.Bases? && Resolved(refs) && RefsResolved(bases, refs) && Inside(|mem|, bases, refs)
    requires i < |refs| && LastWord(bases, refs, i)
    ensures Holds(Replay(mem, RefWrites(bases, refs)), bases, refs[i], SlotOf(bases, refs[i]))
    decreases |refs|
  {
    hide RefAddress, RefBytes, SlotOf, SlotSize, Store, Holds;
    var r, rest := refs[0], refs[1..];
    WriteHolds(mem, bases, r);
    var w := Write(SlotOf(bases, r), RefBytes(bases, r));
    var mem' := Execute(mem, w);
    assert forall j :: 0 <= j < |rest| ==> rest[j] == refs[j + 1];
    assert RefWrites(bases, refs)[1..] == RefWrites(bases, rest);
    if i == 0 {
      OthersKeepOff(mem', bases, rest, SlotOf(bases, r), SlotSize(r));
      SameSlot(mem', Replay(mem', RefWrites(bases, rest)), bases, r, SlotOf(bases, r));
    } else {
      WritesHold(mem', bases, rest, i - 1);
    }
  }

  lemma SameSlot(mem: seq<byte>, mem': seq<byte>, bases: Bases, r: Ref, a: Addr)
    requires bases.Bases? && |mem| == |mem'| && Holds(mem, bases, r, a)
    requires mem'[a..a + SlotSize(r)] == mem[a..a + SlotSize(r)]
    ensures Holds(mem', bases, r, a)
  {
    var n := SlotSize(r);
    SubSlice(mem, a, a + n, 0, 8);
    SubSlice(mem', a, a + n, 0, 8);
    if r.tls {
      SubSlice(mem, a, a + n, 8, 16);
      SubSlice(mem', a, a + n, 8, 16);
    }
  }

  // ---------- the session ----------

  lemma SlotsInside(w: World, m: Meta)
    requires MetaOk(w, m) && m.bases.Bases? && Resolved(m.refs)
    ensures Inside(w.size, m.bases, m.refs)
  {
    forall j | 0 <= j < |m.refs| ensures SlotOf(m.bases, m.refs[j]) + SlotSize(m.refs[j]) <= w.size {
      var r := m.refs[j];
      assert SlotWrite(w, Write(RefAddress(m.bases, r).value, RefBytes(m.bases, r)));
      assert |RefBytes(m.bases, r)| == SlotSize(r);
    }
  }

  /** A healthy apply, drained: every static-data reference of the patch that no
      later one is stored over holds the address of its datum in the target library,
      or, for a thread-local one, the library's module index and the offset. */
  lemma ReferencesHold(w: World, mem0: seq<byte>, cap: nat, st: State, m: Meta, i: nat)
    requires Inv(w, mem0, st) && st.error == ENONE && st.pending == [] && !st.immediate && !st.hung
    requires m.kind == 1 && MetaOk(w, m) && i < |m.refs|
    requires LoadPatch(cap, st, Parsed(m)).1 == 0 && LoadPatch(cap, st, Parsed(m)).0.error == ENONE
    ensures m.bases.Bases? && Resolved(m.refs)
    ensures LastWord(m.bases, m.refs, i) ==>
      Holds(Next(cap, Next(cap, st, Trigger(Parsed(m), false)), Drain).mem, m.bases, m.refs[i], SlotOf(m.bases, m.refs[i]))
  {
    ApplySession(cap, st, m);
    assert m.bases.Bases? && RefsResolved(m.bases, m.refs);
    ResolvedSame(m.bases, m.refs);
    SlotsInside(w, m);
    MemoryIs(w, mem0, st);
    DrainedApply(cap, st, m);
    hide LoadPatch, Inv, MetaOk, Next, Inside, Resolved, RefsResolved, Holds, UnitWrites, RefWrites, SlotOf;
    if LastWord(m.bases, m.refs, i) {
      WritesHold(Replay(st.mem, UnitWrites(st.mem, m.units)), m.bases, m.refs, i);
    }
  }

  lemma MemoryIs(w: World, mem0: seq<byte>, st: State)
    requires Inv(w, mem0, st)
    ensures |st.mem| == w.size
  {
  }

  lemma DrainedApply(cap: nat, st: State, m: Meta)
    requires st.error == ENONE && st.pending == [] && !st.immediate && !st.hung && m.kind == 1
    requires LoadPatch(cap, st, Parsed(m)).1 == 0 && LoadPatch(cap, st, Parsed(m)).0.error == ENONE
    ensures UnitsApplicable(st.mem, m.units) && m.bases.Bases? && RefsResolved(m.bases, m.refs)
    ensures Next(cap, Next(cap, st, Trigger(Parsed(m), false)), Drain).mem
         == Replay(Replay(st.mem, UnitWrites(st.mem, m.units)), RefWrites(m.bases, m.refs))
  {
    ApplySession(cap, st, m);
    var r := LoadPatch(cap, st, Parsed(m)).0;
    LoadKeepsMemory(cap, st, m);
    LoadNeverHangs(cap, st, m);
    hide LoadPatch, UnitWrites, RefWrites, Replay, UnitsApplicable, RefsResolved, Sanity, TotalSize;
    assert Next(cap, st, Trigger(Parsed(m), false)) == r;
    ReplayAppend(st.mem, UnitWrites(st.mem, m.units), RefWrites(m.bases, m.refs));
  }

  lemma LoadNeverHangs(cap: nat, st: State, m: Meta)
    requires m.kind == 1
    ensures LoadPatch(cap, st, Parsed(m)).0.hung == st.hung
  {
    hide Sanity, StateUpdate, ApplyAllUnits;
    if StateUpdate(st, m).Some? {
      ApplyError(cap, StateUpdate(st, m).value, m);
      assert StateUpdate(st, m).value.hung == st.hung by { UpdateKeeps(st, m); }
    }
  }

  lemma UpdateKeeps(st: State, m: Meta)
    requires StateUpdate(st, m).Some?
    ensures StateUpdate(st, m).value == st.(patches := StateUpdate(st, m).value.patches)
  {
  }

  /** In a session nothing is written to memory: it is only queued. */
  lemma LoadKeepsMemory(cap: nat, st: State, m: Meta)
    requires m.kind == 1 && !st.immediate && st.pending == [] && st.error == ENONE
    requires LoadPatch(cap, st, Parsed(m)).1 == 0
    ensures LoadPatch(cap, st, Parsed(m)).0.mem == st.mem
  {
    hide Sanity, UnitsApplicable, RefsResolved, UnitWrites, RefWrites, ApplyUnits, ApplyRefs, StateUpdate;
    UpdateKeeps(st, m);
    var st1 := StateUpdate(st, m).value;
    var st2 := st1.(universe := st1.universe + 1);
    assert TotalSize(st.pending) == 0;
    UnitsQueued(cap, st2, m.id, m.units);
    var st3 := ApplyUnits(cap, st2, m.id, m.units).0;
    QueuedSame(cap, st2, st3, UnitWrites(st.mem, m.units));
    RefsQueued(cap, st3, m.bases, m.refs);
    QueuedSame(cap, st3, ApplyRefs(cap, st3, m.bases, m.refs).0, RefWrites(m.bases, m.refs));
  }
}
