/** What the entry points promise their callers: when a session is entered, which
    code a refusal gives, and what the written patch types mean to them. */
module EntryPoints {
  import opened Bytes
  import opened Errors
  import opened InsnCodec
  import opened X86
  import opened Engine
  import opened ControlFlow
  import opened Sessions
  import Metadata

  // ---------- entering a session ----------

  /** Both entry points: in an error state, with writes still queued, or while the
      process is busy in an allocator or loader function nothing happens, but for
      EINSNQ being set in the second case. */
  lemma EnteredIff(cap: nat, st: State, parse: Parse, path: string, loaded: bool, busy: bool)
    requires !st.hung
    ensures
      var r := Next(cap, st, Trigger(parse, busy));
      var s := Next(cap, st, RevertAll(path, loaded, busy));
      if st.error != ENONE then r == st && s == st
      else if st.pending != [] then r == st.(error := EINSNQ) && s == st.(error := EINSNQ)
      else if busy then r == st && s == st
      else
        && r == LoadPatch(cap, st, parse).0
        && (s.hung <==> RevertAllFromLib(cap, st, path, loaded).Stuck?)
        && s == RevertAllFromLib(cap, st, path, loaded).st.(hung := s.hung)
  {
    hide LoadPatch;
    RevertAllKeepsHung(cap, st, path, loaded);
    hide RevertAllFromLib;
  }

  lemma RevertAllKeepsHung(cap: nat, st: State, path: string, loaded: bool)
    ensures RevertAllFromLib(cap, st, path, loaded).st.hung == st.hung
  {
    hide BaseName, BasenameOffset, Clip, RevertAllFrom;
    RevertAllError(cap, st, 0, Clip(BaseName(path)), ENOTARGETLIB);
  }

  /** A busy process is left alone. */
  lemma BusyIsLeftAlone(cap: nat, st: State, op: Op)
    requires !st.hung && ((op.Trigger? && op.busy) || (op.RevertAll? && op.busy))
    ensures
      var r := Next(cap, st, op);
      r == st.(error := if st.error == ENONE && st.pending != [] then EINSNQ else st.error)
  {
  }

  // ---------- blocking by the user ----------

  lemma TogglesCancel(cap: nat, st: State)
    requires !st.hung
    ensures st.error == ENONE ==> Next(cap, st, Toggle) == st.(error := EUSRBLOCKED)
    ensures st.error == EUSRBLOCKED ==> Next(cap, st, Toggle) == st.(error := ENONE)
    ensures Healthy(st.error) ==> Next(cap, Next(cap, st, Toggle), Toggle) == st
    ensures !Healthy(st.error) ==> Next(cap, st, Toggle) == st
  {
  }

  /** A blocked process stays as it is until the next toggle; only queued writes are
      still carried out. */
  lemma {:induction false} BlockedStays(cap: nat, st: State, ops: seq<Op>)
    requires st.error == EUSRBLOCKED && forall i :: 0 <= i < |ops| ==> !ops[i].Toggle?
    ensures
      var r := Run(cap, st, ops);
      r == st || r == st.(mem := Replay(st.mem, st.pending), pending := [])
    decreases |ops|
  {
    if ops != [] {
      var st' := Next(cap, st, ops[0]);
      assert st' == st || st' == st.(mem := Replay(st.mem, st.pending), pending := []);
      assert Replay(st'.mem, []) == st'.mem;
      BlockedStays(cap, st', ops[1..]);
    }
  }

  // ---------- return codes ----------

  ghost predicate Known(patches: seq<Patch>, id: PatchId) {
    exists p :: p in patches && p.id == id
  }

  lemma {:induction false} AppliedIsKnown(patches: seq<Patch>, id: PatchId)
    ensures IsApplied(patches, id) <==> Known(patches, id)
  {
    var i := PatchIndex(patches, id);
    if i < |patches| {
      assert patches[i] in patches;
    }
    if p :| p in patches && p.id == id {
      var j :| 0 <= j < |patches| && patches[j] == p;
      assert i <= j;
    }
  }

  ghost predicate LookupsSucceed(units: seq<Unit>) {
    forall i :: 0 <= i < |units| ==> units[i].oldFun.Some? && units[i].newFun.Some?
  }

  /** Admission: build id, dependencies, id, loading, in this order. */
  ghost function AdmissionCode(patches: seq<Patch>, m: Meta): int {
    if !m.buildIdOk then EBUILDID
    else if exists d :: d in m.deps && !Known(patches, d) then EDEPEND
    else if Known(patches, m.id) then EAPPLIED
    else if !m.soLoads then EDLOPEN
    else ENONE
  }

  lemma SanityIs(patches: seq<Patch>, m: Meta)
    ensures Sanity(patches, m) == AdmissionCode(patches, m)
  {
    hide Known, IsApplied;
    AppliedIsKnown(patches, m.id);
    forall d ensures IsApplied(patches, d) <==> Known(patches, d) {
      AppliedIsKnown(patches, d);
    }
    if DependenciesMet(patches, m.deps) {
      forall d | d in m.deps ensures Known(patches, d) {
        var i :| 0 <= i < |m.deps| && m.deps[i] == d;
        assert IsApplied(patches, m.deps[i]);
      }
    }
  }

  lemma {:induction false} UnitsCode(cap: nat, st: State, id: PatchId, units: seq<Unit>)
    requires !st.immediate && LookupsSucceed(units)
    ensures
      var (r, code) := ApplyUnits(cap, st, id, units);
      code == if forall i :: 0 <= i < |units| ==> Patchable(st.mem, units[i].oldFun.value) then 0 else ENOPATCHABLE
    decreases |units|
  {
    if units != [] {
      var f, target := units[0].oldFun.value, units[0].newFun.value;
      PushKeepsQueue(st, id, f, target);
      hide KindOf, PushDetour, Prologue, Size, TotalSize;
      var (st', code) := Emit(cap, PushDetour(st, id, f, target), f, Some(target));
      assert st'.mem == st.mem && !st'.immediate;
      assert forall i :: 0 <= i < |units[1..]| ==> units[1..][i] == units[i + 1];
      assert code == if Patchable(st.mem, f) then 0 else ENOPATCHABLE;
      if code == 0 {
        UnitsCode(cap, st', id, units[1..]);
        assert forall i :: 0 < i < |units| ==> units[i] == units[1..][i - 1];
      }
    }
  }

  lemma {:induction false} RefsCode(cap: nat, st: State, bases: Bases, refs: seq<Ref>)
    requires bases.Bases?
    ensures ApplyRefs(cap, st, bases, refs).1
         == if forall i :: 0 <= i < |refs| ==> refs[i].patchOffset != 0 || refs[i].symbol.Some? then 0 else ENONEWFUNC
    decreases |refs|
  {
    hide Enqueue, RefBytes;
    if refs != [] && RefAddress(bases, refs[0]).Some? {
      RefsCode(cap, Enqueue(cap, st, Write(RefAddress(bases, refs[0]).value, RefBytes(bases, refs[0]))), bases, refs[1..]);
      assert forall i :: 0 < i < |refs| ==> refs[i] == refs[1..][i - 1];
    }
  }

  /** The code of every request to apply a patch, from what it asks for. Up to the
      look-ups nothing has happened; later failures leave the error state EUNKNOWN. */
  lemma ApplyCodes(cap: nat, st: State, m: Meta)
    requires m.kind == 1 && !st.immediate
    ensures
      var (r, code) := LoadPatch(cap, st, Parsed(m));
      if AdmissionCode(st.patches, m) != ENONE then r == st && code == AdmissionCode(st.patches, m)
      else if !LookupsSucceed(m.units) then r == st && code == ESTATE
      else
        && code == (if exists i :: 0 <= i < |m.units| && !Patchable(st.mem, m.units[i].oldFun.value) then ENOPATCHABLE
                    else match m.bases
                         case NoTargetLib => ENOADDRESS
                         case NoLinkMap => EUNKNOWN
                         case NoPatchBase => ENOADDRESS
                         case Bases(_, _, _) =>
                           if exists i :: 0 <= i < |m.refs| && m.refs[i].patchOffset == 0 && m.refs[i].symbol.None? then ENONEWFUNC
                           else 0)
        && (code != 0 ==> r.error == EUNKNOWN)
  {
    SanityIs(st.patches, m);
    hide Sanity, AdmissionCode, ApplyUnits, ApplyRefs, Patchable;
    if Sanity(st.patches, m) == ENONE {
      ResolvesIff(m.units, st.mem);
      if StateUpdate(st, m).Some? {
        var st1 := StateUpdate(st, m).value;
        var st2 := st1.(universe := st1.universe + 1);
        UnitsCode(cap, st2, m.id, m.units);
        if m.bases.Bases? {
          RefsCode(cap, ApplyUnits(cap, st2, m.id, m.units).0, m.bases, m.refs);
        }
      }
    }
  }

  /** The code of every request to revert a patch; a refused one changes nothing. */
  lemma RevertCodes(cap: nat, st: State, m: Meta)
    requires m.kind == 2
    ensures
      var (r, code) := LoadPatch(cap, st, Parsed(m));
      && code == (if !Known(st.patches, m.id) then ENOTAPPLIED
                  else if exists p :: p in st.patches && m.id in p.deps then EDEPEND
                  else 0)
      && (code != 0 ==> r == st)
  {
    AppliedIsKnown(st.patches, m.id);
    RevertFromKeeps(cap, st.(universe := st.universe + 1), m.id, 0, 0);
    hide RevertFrom, PatchIndex, Known;
  }

  /** Metadata that does not parse is refused with the parser's code. */
  lemma ParseCodes(cap: nat, st: State, code: int)
    ensures LoadPatch(cap, st, ParseError(code)) == (st, code)
  {
  }

  /** Any other type is refused, after the admission checks. */
  lemma OtherCodes(cap: nat, st: State, m: Meta)
    requires m.kind != 1 && m.kind != 2
    ensures
      LoadPatch(cap, st, Parsed(m))
      == (st, if AdmissionCode(st.patches, m) != ENONE then AdmissionCode(st.patches, m)
              else if m.kind == 0 then ENOMETA else EUNKNOWN)
  {
    SanityIs(st.patches, m);
    hide Sanity, AdmissionCode;
  }

  // ---------- patch types ----------

  /** What the packer writes as a patch, and a session is given with its path, is of
      the type a session applies. */
  lemma WrittenPatchIsApplied(p: Metadata.Meta, tail: seq<byte>, cap: nat, st: State, m: Meta)
    requires Metadata.Writable(p) && p.kind == Metadata.PATCH && Metadata.CString(p.path) && p.path != []
    ensures Metadata.Parse(Metadata.Splice(Metadata.Section(p), p.path) + tail).Ok?
    ensures
      var read := Metadata.Parse(Metadata.Splice(Metadata.Section(p), p.path) + tail).value;
      m.kind == read.kind && m.id == read.id && st.error == ENONE && st.pending == [] && !st.immediate && Applicable(st, m) ==>
        var (r, code) := LoadPatch(cap, st, Parsed(m));
        code == 0 && |r.patches| == |st.patches| + 1 && r.patches[0].id == p.id && r.patches[1..] == st.patches
  {
    Metadata.PatchRoundTrip(p, tail);
    assert Metadata.PATCH == 1;
    if m.kind == 1 && m.id == p.id && st.error == ENONE && st.pending == [] && !st.immediate && Applicable(st, m) {
      ApplySession(cap, st, m);
      AppliedOnTop(cap, st, m);
    }
  }

  lemma AppliedOnTop(cap: nat, st: State, m: Meta)
    requires m.kind == 1 && LoadPatch(cap, st, Parsed(m)).1 == 0
    ensures
      var r := LoadPatch(cap, st, Parsed(m)).0;
      |r.patches| == |st.patches| + 1 && r.patches[0].id == m.id && r.patches[1..] == st.patches
  {
    hide Sanity, ApplyAllUnits, Resolve, BaseName, Clip;
    if StateUpdate(st, m).Some? {
      ApplyError(cap, StateUpdate(st, m).value, m);
    }
  }

  /** And what it writes as a reverse patch is of the type a session reverts. */
  lemma WrittenReverseIsReverted(p: Metadata.Meta, tail: seq<byte>, cap: nat, st: State, m: Meta)
    requires Metadata.Writable(p) && Metadata.CString(p.path) && p.path != []
    ensures Metadata.Parse(Metadata.Splice(Metadata.ReverseSection(p), p.path) + tail).Ok?
    ensures
      var read := Metadata.Parse(Metadata.Splice(Metadata.ReverseSection(p), p.path) + tail).value;
      m.kind == read.kind && m.id == read.id && CanRevert(st.patches, p.id) == 0 ==>
        var (r, code) := LoadPatch(cap, st, Parsed(m));
        code == 0 && r.patches == RemovePatch(st.patches, p.id)
  {
    Metadata.ReverseRoundTrip(p, tail);
    assert Metadata.REVERSE == 2;
    hide Metadata.Section, Metadata.ReverseSection, Metadata.Splice, Metadata.Parse, Metadata.Writable, CanRevert, LoadPatch, RemovePatch;
    if m.kind == 2 && m.id == p.id && CanRevert(st.patches, p.id) == 0 {
      RevertLoads(cap, st, m);
    }
  }

  lemma RevertLoads(cap: nat, st: State, m: Meta)
    requires m.kind == 2 && CanRevert(st.patches, m.id) == 0
    ensures LoadPatch(cap, st, Parsed(m)).1 == 0
    ensures LoadPatch(cap, st, Parsed(m)).0.patches == RemovePatch(st.patches, m.id)
  {
    RevertFromKeeps(cap, st.(universe := st.universe + 1), m.id, 0, 0);
    hide RevertFrom, HasDependent;
  }
}
