/** The library's global state and the functions that update it in place. Each
    of them computes the transition of the same name in module Engine. */
module Libpulp {
  import opened Bytes
  import opened Errors
  import opened InsnCodec
  import opened InsnQueues
  import opened QueueDrain
  import opened X86
  import opened Engine
  import opened Layout
  import opened ControlFlow

  const ULP_DATA_OFFSET := 6
  const ULP_PROLOGUE: seq<byte> :=
    [0xFF, 0x25, 0, 0, 0, 0, 0, 0, 0, 0, 0, 0, 0, 0, 0xEB, 0xF0]
  const ULP_PROLOGUE_ENDBR64: seq<byte> :=
    [0xFF, 0x25, 0, 0, 0, 0, 0, 0, 0, 0, 0, 0, 0, 0, 0xF3, 0x0F, 0x1E, 0xFA, 0xEB, 0xEC]

  /** Room in front of and behind a function entry that must be mapped. */
  predicate EntryMapped(memLen: nat, f: Addr) {
    PRE_NOPS_LEN <= f && f + 12 <= memLen && f + 12 < U64
  }

  ghost predicate RootsMapped(memLen: nat, roots: seq<Root>) {
    forall i :: 0 <= i < |roots| ==>
      EntryMapped(memLen, roots[i].addr) && TargetsOk(roots[i].detours)
  }

  /** Lookups of a request give mapped entries and addresses. */
  ghost predicate UnitsMapped(memLen: nat, units: seq<Unit>) {
    forall i :: 0 <= i < |units| ==>
      && (units[i].oldFun.Some? ==> EntryMapped(memLen, units[i].oldFun.value))
      && (units[i].newFun.Some? ==> 0 < units[i].newFun.value < U64)
  }

  ghost predicate RefsAddressed(m: Meta) {
    m.bases.Bases? ==>
      forall i :: 0 <= i < |m.refs| && RefAddress(m.bases, m.refs[i]).Some? ==>
        RefAddress(m.bases, m.refs[i]).value < U64
  }

  class Library {
    var patches: seq<Patch>
    var roots: seq<Root>
    var rootIndexCounter: nat
    var globalUniverse: nat
    const error: ErrorState
    const queue: InsnQueue
    const mem: array<byte>

    ghost predicate Valid()
      reads this, queue, queue.buffer
    {
      && queue.Valid() && queue.error == error && mem != queue.buffer
      && RootsMapped(mem.Length, roots)
    }

    ghost function Abs(): State
      reads this, error, queue, mem
    {
      State(patches, roots, rootIndexCounter, globalUniverse, error.state, mem[..], queue.insns, false, false)
    }

    ghost function Cap(): nat
      reads this
    {
      queue.buffer.Length
    }

    constructor (capacity: nat, mem: array<byte>)
      requires capacity < SIZE_LIMIT
      ensures Valid() && Abs() == Start(mem[..], false)
      ensures fresh(error) && fresh(queue) && fresh(queue.buffer) && this.mem == mem
      ensures Cap() == capacity && queue.version == INSNQ_CURR_VERSION
    {
      var e := new ErrorState();
      var q := new InsnQueue(capacity, e);
      error := e;
      queue := q;
      this.mem := mem;
      patches, roots, rootIndexCounter, globalUniverse := [], [], 0, 0;
    }

    // ---------- patching one address ----------

    method MemWrite(dest: nat, src: seq<byte>)
      requires Valid() && dest < U64 && |src| <= 24
      modifies queue, queue.buffer, error
      ensures Valid() && Abs() == Enqueue(Cap(), old(Abs()), Write(dest, src))
      ensures queue.version == old(queue.version)
    {
      hide Represents, IsChunk;
      RepresentsSize(queue.buffer[..], 0, queue.size, queue.insns);
      var e := queue.InsertWrite(dest, src);
    }

    method SkipPrologue(fentry: Addr)
      requires Valid() && EntryMapped(mem.Length, fentry)
      modifies queue, queue.buffer, error
      ensures Valid() && queue.version == old(queue.version)
      ensures
        Abs() == Enqueue(Cap(), old(Abs()), Write(fentry + if HasEndbr(mem[..], fentry) then 4 else 0, NOP2))
    {
      hide Represents, TargetsOk, Enqueue, Execute;
      assert mem[..][fentry..fentry + 4] == mem[fentry..fentry + 4];
      var bias := 0;
      if mem[fentry..fentry + 4] == ENDBR64 {
        bias := bias + 4;
      }
      MemWrite(fentry + bias, NOP2);
    }

    /** Decide how `oldFun` can be patched and queue the write that does it. */
    method PatchAddr(oldFun: Addr, newFun: Option<Addr>) returns (code: int)
      requires Valid() && EntryMapped(mem.Length, oldFun) && (newFun.Some? ==> newFun.value < U64)
      modifies queue, queue.buffer, error
      ensures Valid() && (Abs(), code) == Emit(Cap(), old(Abs()), oldFun, newFun)
      ensures queue.version == old(queue.version)
    {
      hide Represents, TargetsOk, Enqueue, Prologue, Le;
      var prologue, asBytes;
      assert mem[..][oldFun..oldFun + 4] == mem[oldFun..oldFun + 4];
      if mem[oldFun..oldFun + 4] == ENDBR64 {
        prologue := ULP_PROLOGUE_ENDBR64;
        asBytes := oldFun + 4;
      } else {
        prologue := ULP_PROLOGUE;
        asBytes := oldFun;
      }
      if !(mem[asBytes] == 0xEB
           || (mem[asBytes + 1] == 0x90 && (mem[asBytes] == 0x90 || mem[asBytes] == 0x66))) {
        return ENOPATCHABLE;
      }
      var addr := oldFun - PRE_NOPS_LEN;
      if newFun.Some? {
        var patched := prologue[..ULP_DATA_OFFSET] + Le(newFun.value, 8) + prologue[ULP_DATA_OFFSET + 8..];
        assert patched == Prologue(KindOf(mem[..], oldFun), newFun.value) by {
          TemplateIsPrologue(KindOf(mem[..], oldFun), newFun.value);
        }
        MemWrite(addr, patched);
      } else {
        SkipPrologue(oldFun);
      }
      return 0;
    }

    // ---------- detours ----------

    method GetDetourRootByAddress(f: Addr) returns (i: nat)
      ensures i == RootIndex(roots, f)
    {
      i := 0;
      while i < |roots| && roots[i].addr != f
        invariant 0 <= i <= |roots|
        invariant RootIndex(roots, f) == i + RootIndex(roots[i..], f)
      {
        assert roots[i..][1..] == roots[i + 1..];
        i := i + 1;
      }
    }

    method PushNewDetour(id: PatchId, f: Addr, newFun: Addr)
      requires Valid() && EntryMapped(mem.Length, f) && 0 < newFun < U64
      modifies this`roots, this`rootIndexCounter
      ensures Valid() && Abs() == PushDetour(old(Abs()), id, f, newFun)
    {
      var i := GetDetourRootByAddress(f);
      if i == |roots| {
        roots := [Root(rootIndexCounter, f, [])] + roots;
        rootIndexCounter := rootIndexCounter + 1;
        i := 0;
      }
      var detour := Detour(id, globalUniverse, newFun, true);
      roots := roots[i := roots[i].(detours := [detour] + roots[i].detours)];
      assert [detour] + [] == [detour];
    }

    /** The newest detour that is still active. */
    method FindActive(ds: seq<Detour>) returns (active: Option<Addr>)
      ensures active == FirstActive(ds)
    {
      var k := 0;
      while k < |ds|
        invariant 0 <= k <= |ds|
        invariant FirstActive(ds) == FirstActive(ds[k..])
      {
        if ds[k].active {
          return Some(ds[k].target);
        }
        assert ds[k..][1..] == ds[k + 1..];
        k := k + 1;
      }
      active := None;
    }

    // ---------- applying ----------

    method ApplyUnits(id: PatchId, units: seq<Unit>) returns (code: int)
      requires Valid() && UnitsMapped(mem.Length, units)
      modifies this`roots, this`rootIndexCounter, queue, queue.buffer, error
      ensures Valid() && (Abs(), code) == Engine.ApplyUnits(Cap(), old(Abs()), id, units)
      ensures queue.version == old(queue.version)
    {
      hide Emit, PushDetour, Represents, TargetsOk;
      var i := 0;
      while i < |units|
        invariant 0 <= i <= |units| && Valid() && queue.version == old(queue.version)
        invariant Engine.ApplyUnits(Cap(), Abs(), id, units[i..])
               == Engine.ApplyUnits(Cap(), old(Abs()), id, units)
      {
        var u := units[i];
        assert units[i..][0] == u && units[i..][1..] == units[i + 1..];
        if u.oldFun.None? {
          return ENOOLDFUNC;
        }
        if u.newFun.None? {
          return ENONEWFUNC;
        }
        PushNewDetour(id, u.oldFun.value, u.newFun.value);
        code := PatchAddr(u.oldFun.value, Some(u.newFun.value));
        if code > 0 {
          return;
        }
        i := i + 1;
      }
      return 0;
    }

    method ApplyRefs(bases: Bases, refs: seq<Ref>) returns (code: int)
      requires Valid() && bases.Bases?
      requires forall i :: 0 <= i < |refs| && RefAddress(bases, refs[i]).Some? ==>
        RefAddress(bases, refs[i]).value < U64
      modifies queue, queue.buffer, error
      ensures Valid() && (Abs(), code) == Engine.ApplyRefs(Cap(), old(Abs()), bases, refs)
      ensures queue.version == old(queue.version)
    {
      hide Enqueue, Represents, TargetsOk, Le;
      var i := 0;
      while i < |refs|
        invariant 0 <= i <= |refs| && Valid() && queue.version == old(queue.version)
        invariant Engine.ApplyRefs(Cap(), Abs(), bases, refs[i..])
               == Engine.ApplyRefs(Cap(), old(Abs()), bases, refs)
      {
        var r := refs[i];
        assert refs[i..][0] == r && refs[i..][1..] == refs[i + 1..];
        var patchAddress;
        if r.patchOffset == 0 {
          if r.symbol.None? {
            return ENONEWFUNC;
          }
          patchAddress := r.symbol.value;
        } else {
          patchAddress := (bases.patch + r.patchOffset) % U64;
        }
        if r.tls {
          MemWrite(patchAddress, Le(bases.tlsIndex, 8) + Le(r.targetOffset, 8));
        } else {
          MemWrite(patchAddress, Le((bases.target + r.targetOffset) % U64, 8));
        }
        i := i + 1;
      }
      return 0;
    }

    method ApplyAllUnits(m: Meta) returns (code: int)
      requires Valid() && UnitsMapped(mem.Length, m.units) && RefsAddressed(m)
      modifies this`roots, this`rootIndexCounter, this`globalUniverse, queue, queue.buffer, error
      ensures Valid() && (Abs(), code) == Engine.ApplyAllUnits(Cap(), old(Abs()), m)
      ensures queue.version == old(queue.version)
    {
      hide Engine.ApplyUnits, Engine.ApplyRefs, UnitsMapped, Represents, TargetsOk;
      globalUniverse := globalUniverse + 1;
      code := ApplyUnits(m.id, m.units);
      if code != 0 {
        return;
      }
      match m.bases {
        case NoTargetLib => return ENOADDRESS;
        case NoLinkMap => return EUNKNOWN;
        case NoPatchBase => return ENOADDRESS;
        case Bases(_, _, _) => code := ApplyRefs(m.bases, m.refs);
      }
    }

    /** Record the patch on top of the list, unless a lookup fails. */
    method StateUpdate(m: Meta) returns (ok: bool)
      requires Valid()
      modifies this`patches
      ensures Valid()
      ensures ok <==> Engine.StateUpdate(old(Abs()), m).Some?
      ensures Abs() == if ok then Engine.StateUpdate(old(Abs()), m).value else old(Abs())
    {
      hide Represents, TargetsOk, Clip, BaseName;
      var deps := [];
      var d := 0;
      while d < |m.deps|
        invariant 0 <= d <= |m.deps|
        invariant Reverse(m.deps) == Reverse(m.deps[d..]) + deps
      {
        assert m.deps[d..][1..] == m.deps[d + 1..];
        assert Reverse(m.deps[d + 1..]) + ([m.deps[d]] + deps)
            == (Reverse(m.deps[d + 1..]) + [m.deps[d]]) + deps;
        deps := [m.deps[d]] + deps;
        d := d + 1;
      }
      assert [] + deps == deps;
      var units := [];
      assert m.units[0..] == m.units && forall rest: seq<AppliedUnit> :: [] + rest == rest;
      var i := 0;
      while i < |m.units|
        invariant 0 <= i <= |m.units|
        invariant Resolve(m.units)
               == match Resolve(m.units[i..]) case None => None case Some(rest) => Some(units + rest)
      {
        var u := m.units[i];
        assert m.units[i..][0] == u && m.units[i..][1..] == m.units[i + 1..];
        if u.oldFun.None? {
          return false;
        }
        if u.newFun.None? {
          return false;
        }
        var unit := AppliedUnit(u.oldFun.value, u.newFun.value);
        assert forall rest: seq<AppliedUnit> :: units + ([unit] + rest) == (units + [unit]) + rest;
        units := units + [unit];
        i := i + 1;
      }
      assert units + [] == units;
      patches := [Patch(m.id, Clip(BaseName(m.lib)), deps, units)] + patches;
      ok := true;
    }

    // ---------- admission ----------

    method GetAppliedPatch(id: PatchId) returns (i: nat)
      ensures i == PatchIndex(patches, id)
    {
      i := 0;
      while i < |patches|
        invariant 0 <= i <= |patches|
        invariant PatchIndex(patches, id) == i + PatchIndex(patches[i..], id)
      {
        if patches[i].id == id {
          return;
        }
        assert patches[i..][1..] == patches[i + 1..];
        i := i + 1;
      }
    }

    method CheckPatchDependencies(deps: seq<PatchId>) returns (code: int)
      ensures code == if DependenciesMet(patches, deps) then 0 else EDEPEND
    {
      hide IsApplied;
      var checked: seq<bool> := [];
      var d := 0;
      while d < |deps|
        invariant 0 <= d == |checked| <= |deps|
        invariant forall j :: 0 <= j < d ==> checked[j] == IsApplied(patches, deps[j])
      {
        var i := GetAppliedPatch(deps[d]);
        checked := checked + [i < |patches|];
        assert IsApplied(patches, deps[d]) == (i < |patches|) by { AppliedIs(patches, deps[d]); }
        d := d + 1;
      }
      d := 0;
      while d < |deps|
        invariant 0 <= d <= |deps|
        invariant forall j :: 0 <= j < d ==> IsApplied(patches, deps[j])
      {
        if !checked[d] {
          return EDEPEND;
        }
        d := d + 1;
      }
      return 0;
    }

    method CheckPatchSanity(m: Meta) returns (code: int)
      ensures code == Sanity(patches, m)
    {
      if !m.buildIdOk {
        return EBUILDID;
      }
      code := CheckPatchDependencies(m.deps);
      if code != 0 {
        return;
      }
      var i := GetAppliedPatch(m.id);
      if i < |patches| {
        return EAPPLIED;
      }
      if !m.soLoads {
        return EDLOPEN;
      }
      return ENONE;
    }

    method CanRevertPatch(id: PatchId) returns (code: int)
      ensures code == CanRevert(patches, id)
    {
      var at := GetAppliedPatch(id);
      if at == |patches| {
        return ENOTAPPLIED;
      }
      var i := 0;
      while i < |patches|
        invariant 0 <= i <= |patches|
        invariant forall j :: 0 <= j < i ==> id !in patches[j].deps
      {
        var deps := patches[i].deps;
        var d := 0;
        while d < |deps|
          invariant 0 <= d <= |deps|
          invariant forall e :: 0 <= e < d ==> deps[e] != id
        {
          if deps[d] == id {
            assert patches[i] in patches;
            return EDEPEND;
          }
          d := d + 1;
        }
        i := i + 1;
      }
      return 0;
    }

    // ---------- reverting ----------

    method RevertAllUnits(id: PatchId)
      requires Valid()
      modifies this`roots, queue, queue.buffer, error
      ensures Valid() && Abs() == RevertFrom(Cap(), old(Abs()), id, 0, 0)
      ensures queue.version == old(queue.version)
    {
      hide Emit, FirstActive, Represents;
      var i := 0;
      while i < |roots|
        invariant Valid() && queue.version == old(queue.version)
        invariant 0 <= i <= |roots| == |old(roots)|
        invariant RevertFrom(Cap(), Abs(), id, i, 0) == RevertFrom(Cap(), old(Abs()), id, 0, 0)
      {
        var k := 0;
        while k < |roots[i].detours|
          invariant Valid() && queue.version == old(queue.version)
          invariant i < |roots| == |old(roots)| && 0 <= k <= |roots[i].detours|
          invariant RevertFrom(Cap(), Abs(), id, i, k) == RevertFrom(Cap(), old(Abs()), id, 0, 0)
          decreases |roots[i].detours| - k
        {
          if roots[i].detours[k].id == id {
            SwitchOffOne(i, k);
          }
          k := k + 1;
        }
        i := i + 1;
      }
    }

    /** Deactivate one detour and update the function prologue. */
    method SwitchOffOne(i: nat, k: nat)
      requires Valid() && i < |roots| && k < |roots[i].detours|
      modifies this`roots, queue, queue.buffer, error
      ensures Valid() && Abs() == RevertStep(Cap(), old(Abs()), i, k)
      ensures queue.version == old(queue.version)
    {
      hide Emit, FirstActive, Represents;
      var r := roots[i];
      assert EntryMapped(mem.Length, r.addr) && TargetsOk(r.detours);
      roots := roots[i := r.(detours := r.detours[k := r.detours[k].(active := false)])];
      FirstActiveOk(roots[i].detours);
      var active := FindActive(roots[i].detours);
      var ignored := PatchAddr(r.addr, active);
    }

    /** Take the first patch with this id out of the list. */
    method StateRemove(id: PatchId) returns (found: bool)
      modifies this`patches
      ensures found == IsApplied(old(patches), id)
      ensures patches == RemovePatch(old(patches), id)
    {
      var i := GetAppliedPatch(id);
      if i < |patches| {
        patches := patches[..i] + patches[i + 1..];
        return true;
      }
      return false;
    }

    method RevertPatch(id: PatchId) returns (code: int)
      requires Valid()
      modifies this`patches, this`roots, this`globalUniverse, queue, queue.buffer, error
      ensures Valid() && (Abs(), code) == Engine.RevertPatch(Cap(), old(Abs()), id)
      ensures queue.version == old(queue.version)
    {
      hide RevertFrom, Represents, TargetsOk, RemovePatch, IsApplied;
      globalUniverse := globalUniverse + 1;
      RevertAllUnits(id);
      RevertFromKeeps(Cap(), old(Abs()).(universe := old(globalUniverse) + 1), id, 0, 0);
      var found := StateRemove(id);
      if !found {
        return ESTATE;
      }
      return 0;
    }

    // ---------- sessions ----------

    method LoadPatch(parse: Parse) returns (code: int)
      requires Valid()
      requires parse.Parsed? ==> UnitsMapped(mem.Length, parse.meta.units) && RefsAddressed(parse.meta)
      modifies this, queue, queue.buffer, error
      ensures Valid() && (Abs(), code) == Engine.LoadPatch(Cap(), old(Abs()), parse)
      ensures queue.version == old(queue.version)
    {
      hide Represents, TargetsOk, UnitsMapped, RefsAddressed, Sanity, CanRevert, Engine.StateUpdate, Engine.ApplyAllUnits, Engine.RevertPatch;
      match parse {
        case ParseError(e) => return e;
        case Parsed(m) =>
          if m.kind != 2 {
            code := CheckPatchSanity(m);
            if code != ENONE {
              return;
            }
          }
          if m.kind == 1 {
            var ok := StateUpdate(m);
            if !ok {
              return ESTATE;
            }
            code := ApplyAllUnits(m);
            if code != 0 {
              error.Set(EUNKNOWN);
            }
            return;
          } else if m.kind == 2 {
            code := CanRevertPatch(m.id);
            if code != 0 {
              return;
            }
            code := RevertPatch(m.id);
            return;
          } else if m.kind == 0 {
            return ENOMETA;
          } else {
            return EUNKNOWN;
          }
      }
    }

    /** The checks both entry points start with; `busy` is the outcome of the
        try-lock on the interposed allocator and loader functions. */
    method EntryChecks(busy: bool) returns (stop: Option<int>)
      requires Valid()
      modifies error
      ensures Valid() && (error.state, stop) == Gate(old(Abs()), busy)
      ensures stop == if old(error.state) != ENONE then Some(old(error.state))
                      else if queue.insns != [] then Some(EINSNQ)
                      else if busy then Some(EAGAIN) else None
      ensures error.state == if old(error.state) == ENONE && queue.insns != [] then EINSNQ else old(error.state)
    {
      hide Represents, TargetsOk;
      if error.IsInErrorState() {
        return Some(error.state);
      }
      var notEmpty := queue.EnsureEmptiness();
      if notEmpty {
        return Some(error.state);
      }
      if busy {
        return Some(EAGAIN);
      }
      return None;
    }

    /** Entry point: apply or revert the patch in the metadata buffer. */
    method TriggerPatch(parse: Parse, busy: bool) returns (code: int)
      requires Valid()
      requires parse.Parsed? ==> UnitsMapped(mem.Length, parse.meta.units) && RefsAddressed(parse.meta)
      modifies this, queue, queue.buffer, error
      ensures Valid() && Abs() == Next(Cap(), old(Abs()), Trigger(parse, busy))
      ensures code == if old(error.state) != ENONE then old(error.state)
                      else if old(queue.insns) != [] then EINSNQ
                      else if busy then EAGAIN
                      else Engine.LoadPatch(Cap(), old(Abs()), parse).1
      ensures queue.version == old(queue.version)
    {
      hide Represents, TargetsOk, UnitsMapped, RefsAddressed, Engine.LoadPatch;
      var stop := EntryChecks(busy);
      if stop.Some? {
        return stop.value;
      }
      code := LoadPatch(parse);
    }

    /** Entry point: revert every patch of the library at `path`. */
    method RevertPatchesFromLib(path: string, loaded: bool, busy: bool) returns (code: int)
      requires Valid()
      requires Gate(Abs(), busy).1.None? && BasenameOffset(path) < ULP_PATH_LEN ==>
        RevertAllFrom(Cap(), Abs(), 0, Clip(BaseName(path)), ENOTARGETLIB).Returned?
      modifies this, queue, queue.buffer, error
      ensures Valid() && Abs() == Next(Cap(), old(Abs()), RevertAll(path, loaded, busy))
      ensures code == if old(error.state) != ENONE then old(error.state)
                      else if old(queue.insns) != [] then EINSNQ
                      else if busy then EAGAIN
                      else RevertAllFromLib(Cap(), old(Abs()), path, loaded).code
      ensures queue.version == old(queue.version)
    {
      hide Represents, TargetsOk, RevertAllFrom;
      var stop := EntryChecks(busy);
      if stop.Some? {
        return stop.value;
      }
      if BasenameOffset(path) >= ULP_PATH_LEN {
        return EOVERFLOW;
      }
      code := RevertAllPatchesFromLib(Clip(BaseName(path)));
      if code == ENOTARGETLIB && loaded {
        return ENOPATCH;
      }
    }

    /** The walk over the patch list. It returns because every patch it meets
        can be reverted; otherwise it would retry the same patch for ever. */
    method RevertAllPatchesFromLib(lib: string) returns (ret: int)
      requires Valid() && RevertAllFrom(Cap(), Abs(), 0, lib, ENOTARGETLIB).Returned?
      modifies this, queue, queue.buffer, error
      ensures Valid() && Returned(Abs(), ret) == RevertAllFrom(Cap(), old(Abs()), 0, lib, ENOTARGETLIB)
      ensures queue.version == old(queue.version)
    {
      hide Represents, TargetsOk, Engine.RevertPatch, CanRevert;
      ret := ENOTARGETLIB;
      var k := 0;
      while k < |patches|
        invariant Valid() && queue.version == old(queue.version) && 0 <= k <= |patches|
        invariant RevertAllFrom(Cap(), Abs(), k, lib, ret)
               == RevertAllFrom(Cap(), old(Abs()), 0, lib, ENOTARGETLIB)
        decreases |patches| - k
      {
        if patches[k].lib == lib {
          ghost var st := Abs();
          ret := CanRevertPatch(patches[k].id);
          if ret != 0 {
            assert false;
          }
          CanRevertApplied(patches, patches[k].id);
          ret := RevertPatch(patches[k].id);
          if ret != 0 {
            return;
          }
        } else {
          k := k + 1;
        }
      }
    }

    method EnableOrDisablePatching() returns (state: int)
      requires Valid()
      modifies error
      ensures Valid() && Abs() == Next(Cap(), old(Abs()), Toggle) && state == error.state
    {
      hide Represents, TargetsOk;
      if error.state == ENONE {
        error.Set(EUSRBLOCKED);
      } else if error.state == EUSRBLOCKED {
        error.Set(ENONE);
      }
      state := error.state;
    }
  }

  lemma AppliedIs(patches: seq<Patch>, id: PatchId)
    ensures IsApplied(patches, id) == (PatchIndex(patches, id) < |patches|)
  {
  }

  /** The template with the new function's address in its data slot. */
  lemma TemplateIsPrologue(k: Kind, target: Addr)
    ensures
      var t := if k == Endbr then ULP_PROLOGUE_ENDBR64 else ULP_PROLOGUE;
      t[..ULP_DATA_OFFSET] + Le(target, 8) + t[ULP_DATA_OFFSET + 8..] == Prologue(k, target)
  {
    hide Le;
    var t := if k == Endbr then ULP_PROLOGUE_ENDBR64 else ULP_PROLOGUE;
    assert t[..6] == [0xFF, 0x25, 0, 0, 0, 0];
    if k == Endbr {
      assert t[14..] == ENDBR64 + [0xEB, 0xEC];
    } else {
      assert t[14..] == [0xEB, 0xF0];
    }
  }

  // ---------- the tool's side ----------

  lemma GoodIsMapped(w: World, i: Insn)
    requires WellPlaced(w) && GoodWrite(w, i)
    ensures i.Write? && Mapped(w.size, i.addr, |i.data|)
  {
    hide Prologue;
  }

  /** The tool drains the queue of a library whose pending writes are all good
      ones: the process memory becomes what the engine calls After. */
  method DrainQueue(lib: Library, ghost w: World) returns (ret: int, printed: seq<seq<byte>>)
    requires lib.Valid() && lib.mem.Length == w.size && WellPlaced(w) && AllGood(w, lib.queue.insns)
    requires lib.queue.version <= INSNQ_CURR_VERSION
    modifies lib.queue, lib.mem
    ensures lib.Valid() && ret == 0 && printed == [] && lib.queue.version == old(lib.queue.version)
    ensures lib.Abs() == Next(lib.Cap(), old(lib.Abs()), Drain)
  {
    hide Represents, TargetsOk, GoodWrite, Mapped, Replay, Texts, WellPlaced;
    forall i | 0 <= i < |lib.queue.insns|
      ensures lib.queue.insns[i].Write? && Mapped(w.size, lib.queue.insns[i].addr, |lib.queue.insns[i].data|)
    {
      GoodIsMapped(w, lib.queue.insns[i]);
    }
    WritesPrintNothing(lib.queue.insns);
    ret, printed := InterpretFromProcess(lib.queue, lib.mem);
  }

  lemma {:induction false} WritesPrintNothing(insns: seq<Insn>)
    requires forall i :: 0 <= i < |insns| ==> insns[i].Write?
    ensures Texts(insns) == []
  {
    if insns != [] {
      WritesPrintNothing(insns[1..]);
    }
  }
}
