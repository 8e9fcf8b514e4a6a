/** The library driven through a whole run. */
module LibraryRuns {
  import opened Bytes
  import opened Errors
  import opened InsnCodec
  import opened InsnQueues
  import opened Engine
  import opened Layout
  import opened ControlFlow
  import opened History
  import opened Libpulp

  /** What the program's functions ask of a request holds for every request that
      makes sense in the process. */
  lemma RequestsAreMapped(w: World, op: Op)
    requires WellPlaced(w) && w.size < U64 && OpOk(w, op)
    ensures op.Trigger? && op.parse.Parsed? ==>
      UnitsMapped(w.size, op.parse.meta.units) && RefsAddressed(op.parse.meta)
  {
    hide RefAddress, RefBytes;
    if op.Trigger? && op.parse.Parsed? {
      var m := op.parse.meta;
      assert UnitsOk(w, m.units);
      if m.bases.Bases? {
        forall i | 0 <= i < |m.refs| && RefAddress(m.bases, m.refs[i]).Some?
          ensures RefAddress(m.bases, m.refs[i]).value < U64
        {
          assert SlotWrite(w, Write(RefAddress(m.bases, m.refs[i]).value, RefBytes(m.bases, m.refs[i])));
        }
      }
    }
  }

  lemma {:induction false} HungStays(cap: nat, st: State, ops: seq<Op>)
    requires st.hung
    ensures Run(cap, st, ops) == st
    decreases |ops|
  {
    if ops != [] {
      HungStays(cap, st, ops[1..]);
    }
  }

  /** One operation more, and none of them hung. */
  lemma RunMore(cap: nat, st: State, ops: seq<Op>, i: nat)
    requires i < |ops| && !Run(cap, st, ops).hung
    ensures Run(cap, st, ops[..i + 1]) == Next(cap, Run(cap, st, ops[..i]), ops[i])
    ensures !Next(cap, Run(cap, st, ops[..i]), ops[i]).hung
  {
    hide Next;
    var op := ops[i];
    assert ops[..i + 1] == ops[..i] + [op];
    RunAppend(cap, st, ops[..i], [op]);
    assert [op][1..] == [];
    assert Run(cap, Run(cap, st, ops[..i]), [op]) == Next(cap, Run(cap, st, ops[..i]), op);
    assert ops == ops[..i + 1] + ops[i + 1..];
    RunAppend(cap, st, ops[..i + 1], ops[i + 1..]);
    if Next(cap, Run(cap, st, ops[..i]), op).hung {
      HungStays(cap, Next(cap, Run(cap, st, ops[..i]), op), ops[i + 1..]);
    }
  }

  lemma ReturnsUnlessHung(cap: nat, st: State, path: string, loaded: bool, busy: bool)
    requires !st.hung && !Next(cap, st, RevertAll(path, loaded, busy)).hung
    ensures Gate(st, busy).1.None? && BasenameOffset(path) < ULP_PATH_LEN ==>
      RevertAllFrom(cap, st, 0, Clip(BaseName(path)), ENOTARGETLIB).Returned?
  {
    hide RevertAllFrom, BaseName, BasenameOffset, Clip;
  }

  /** One operation, carried out by the library or, for the drain, by the tool. */
  method Perform(lib: Library, op: Op, ghost w: World, ghost mem0: seq<byte>)
    requires lib.Valid() && Inv(w, mem0, lib.Abs()) && OpOk(w, op)
    requires w.size < U64 && lib.queue.version <= INSNQ_CURR_VERSION
    requires !Next(lib.Cap(), lib.Abs(), op).hung
    modifies lib, lib.queue, lib.queue.buffer, lib.error, lib.mem
    ensures lib.Valid() && lib.Abs() == Next(lib.Cap(), old(lib.Abs()), op)
    ensures Inv(w, mem0, lib.Abs()) && lib.queue.version == old(lib.queue.version)
  {
    ghost var st := lib.Abs();
    NextKeeps(w, mem0, lib.Cap(), st, op);
    QueueGives(w, mem0, st);
    RequestsAreMapped(w, op);
    hide Inv, Next, Represents, TargetsOk, UnitsMapped, RefsAddressed, WellPlaced, AllGood;
    match op {
      case Toggle =>
        var state := lib.EnableOrDisablePatching();
      case Drain =>
        var ret, printed := DrainQueue(lib, w);
      case Trigger(parse, busy) =>
        var code := lib.TriggerPatch(parse, busy);
      case RevertAll(path, loaded, busy) =>
        ReturnsUnlessHung(lib.Cap(), st, path, loaded, busy);
        var code := lib.RevertPatchesFromLib(path, loaded, busy);
    }
  }

  lemma QueueGives(w: World, mem0: seq<byte>, st: State)
    requires Inv(w, mem0, st)
    ensures WellPlaced(w) && |st.mem| == w.size && AllGood(w, st.pending)
  {
  }

  /** A process that loads the library and goes through the operations ends in the
      state the engine's run ends in. */
  method RunLibrary(mem: array<byte>, capacity: nat, ops: seq<Op>, ghost w: World) returns (lib: Library)
    requires capacity < SIZE_LIMIT && w.size < U64 && Laid(w, mem[..]) && OpsOk(w, ops)
    requires !Run(capacity, Start(mem[..], false), ops).hung
    modifies mem
    ensures lib.Valid() && lib.mem == mem && lib.Cap() == capacity
    ensures lib.Abs() == Run(capacity, Start(old(mem[..]), false), ops)
  {
    hide Inv, Next, Run, Laid, OpOk;
    ghost var mem0 := mem[..];
    ghost var st0 := Start(mem0, false);
    StartKeeps(w, mem0, false);
    lib := new Library(capacity, mem);
    assert Run(capacity, st0, ops[..0]) == st0 by { RunNothing(capacity, st0, ops[..0]); }
    for i := 0 to |ops|
      invariant lib.Valid() && lib.mem == mem && lib.Cap() == capacity && lib.queue.version <= INSNQ_CURR_VERSION
      invariant fresh(lib) && fresh(lib.error) && fresh(lib.queue) && fresh(lib.queue.buffer)
      invariant lib.Abs() == Run(capacity, st0, ops[..i]) && Inv(w, mem0, lib.Abs())
    {
      RunMore(capacity, st0, ops, i);
      Perform(lib, ops[i], w, mem0);
    }
    assert ops[..|ops|] == ops;
  }

  lemma RunNothing(cap: nat, st: State, ops: seq<Op>)
    requires ops == []
    ensures Run(cap, st, ops) == st
  {
  }
}
