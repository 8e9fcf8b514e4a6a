/** The live-patching engine as a transition system on values. The class in
    Libpulp.dfy computes exactly these functions; the theorems about runs are
    proved here and in the modules that follow. */
module Engine {
  import opened Bytes
  import opened Errors
  import opened InsnCodec
  import opened X86

  type PatchId = seq<byte>

  // ---------- state ----------

  /** A replacement of one function by one patch; the newest comes first in its list. */
  datatype Detour = Detour(id: PatchId, universe: nat, target: Addr, active: bool)

  /** A function that has been patched at least once. */
  datatype Root = Root(index: nat, addr: Addr, detours: seq<Detour>)

  datatype AppliedUnit = AppliedUnit(oldFun: Addr, newFun: Addr)

  datatype Patch = Patch(id: PatchId, lib: string, deps: seq<PatchId>, units: seq<AppliedUnit>)

  /** The library's globals, the process memory it reads, and the queue of writes
      the tool has not carried out yet. With `immediate` set, writes reach memory
      at once and the queue stays empty. `hung`: a session that never returns. */
  datatype State = State(
    patches: seq<Patch>,
    roots: seq<Root>,
    nextIndex: nat,
    universe: nat,
    error: int,
    mem: seq<byte>,
    pending: seq<Insn>,
    immediate: bool,
    hung: bool)

  function Start(mem: seq<byte>, immediate: bool): State {
    State([], [], 0, 0, ENONE, mem, [], immediate, false)
  }

  // ---------- requests ----------

  /** A function replacement, with the outcome of both symbol lookups. */
  datatype Unit = Unit(oldFun: Option<Addr>, newFun: Option<Addr>)

  /** A static-data reference; `symbol` is the lookup of its name in the patch. */
  datatype Ref = Ref(targetOffset: nat, patchOffset: nat, symbol: Option<Addr>, tls: bool)

  /** Where the target library and the patch object are loaded. */
  datatype Bases =
    | NoTargetLib
    | NoLinkMap
    | NoPatchBase
    | Bases(target: nat, tlsIndex: nat, patch: nat)

  datatype Meta = Meta(
    kind: nat, id: PatchId, lib: string, deps: seq<PatchId>,
    units: seq<Unit>, refs: seq<Ref>, bases: Bases,
    buildIdOk: bool, soLoads: bool)

  datatype Parse = ParseError(code: int) | Parsed(meta: Meta)

  datatype Op =
    | Trigger(parse: Parse, busy: bool)
    | RevertAll(path: string, loaded: bool, busy: bool)
    | Toggle
    | Drain

  // ---------- queueing writes ----------

  function Enqueue(cap: nat, st: State, w: Insn): State {
    if st.immediate then st.(mem := Execute(st.mem, w))
    else if TotalSize(st.pending) + Size(w) <= cap then st.(pending := st.pending + [w])
    else st.(error := EINSNQ)
  }

  /** ulp_patch_addr: redirect `f` to `top`, or let it run its own body. */
  function Emit(cap: nat, st: State, f: Addr, top: Option<Addr>): (State, int) {
    match PatchWrite(KindOf(st.mem, f), f, top)
    case None => (st, ENOPATCHABLE)
    case Some(w) => (Enqueue(cap, st, w), 0)
  }

  // ---------- detours ----------

  /** Position of the first root for `f`, or |roots|. */
  function RootIndex(roots: seq<Root>, f: Addr): (i: nat)
    ensures i <= |roots| && (i < |roots| ==> roots[i].addr == f)
    ensures forall j :: 0 <= j < i ==> roots[j].addr != f
  {
    if roots == [] || roots[0].addr == f then 0 else 1 + RootIndex(roots[1..], f)
  }

  function DetoursAt(roots: seq<Root>, f: Addr): seq<Detour> {
    var i := RootIndex(roots, f);
    if i < |roots| then roots[i].detours else []
  }

  /** Target of the newest detour that is still active. */
  function FirstActive(ds: seq<Detour>): Option<Addr> {
    if ds == [] then None
    else if ds[0].active then Some(ds[0].target)
    else FirstActive(ds[1..])
  }

  function PushDetour(st: State, id: PatchId, f: Addr, target: Addr): State {
    var d := Detour(id, st.universe, target, true);
    var i := RootIndex(st.roots, f);
    if i < |st.roots| then
      st.(roots := st.roots[i := st.roots[i].(detours := [d] + st.roots[i].detours)])
    else
      st.(roots := [Root(st.nextIndex, f, [d])] + st.roots, nextIndex := st.nextIndex + 1)
  }

  // ---------- applying ----------

  function ApplyUnits(cap: nat, st: State, id: PatchId, units: seq<Unit>): (State, int)
    decreases |units|
  {
    if units == [] then (st, 0)
    else if units[0].oldFun.None? then (st, ENOOLDFUNC)
    else if units[0].newFun.None? then (st, ENONEWFUNC)
    else
      var f, target := units[0].oldFun.value, units[0].newFun.value;
      var (st', code) := Emit(cap, PushDetour(st, id, f, target), f, Some(target));
      if code > 0 then (st', code) else ApplyUnits(cap, st', id, units[1..])
  }

  function RefAddress(bases: Bases, r: Ref): Option<Addr>
    requires bases.Bases?
  {
    if r.patchOffset == 0 then r.symbol else Some((bases.patch + r.patchOffset) % U64)
  }

  function RefBytes(bases: Bases, r: Ref): seq<byte>
    requires bases.Bases?
  {
    if r.tls then Le(bases.tlsIndex, 8) + Le(r.targetOffset, 8)
    else Le((bases.target + r.targetOffset) % U64, 8)
  }

  function ApplyRefs(cap: nat, st: State, bases: Bases, refs: seq<Ref>): (State, int)
    requires bases.Bases?
    decreases |refs|
  {
    if refs == [] then (st, 0)
    else
      match RefAddress(bases, refs[0])
      case None => (st, ENONEWFUNC)
      case Some(a) =>
        ApplyRefs(cap, Enqueue(cap, st, Write(a, RefBytes(bases, refs[0]))), bases, refs[1..])
  }

  function ApplyAllUnits(cap: nat, st: State, m: Meta): (State, int) {
    var (st', code) := ApplyUnits(cap, st.(universe := st.universe + 1), m.id, m.units);
    if code != 0 then (st', code)
    else
      match m.bases
      case NoTargetLib => (st', ENOADDRESS)
      case NoLinkMap => (st', EUNKNOWN)
      case NoPatchBase => (st', ENOADDRESS)
      case Bases(_, _, _) => ApplyRefs(cap, st', m.bases, m.refs)
  }

  /** The units of a patch once every lookup has succeeded. */
  function Resolve(units: seq<Unit>): Option<seq<AppliedUnit>> {
    if units == [] then Some([])
    else if units[0].oldFun.None? || units[0].newFun.None? then None
    else
      match Resolve(units[1..])
      case None => None
      case Some(rest) => Some([AppliedUnit(units[0].oldFun.value, units[0].newFun.value)] + rest)
  }

  function Reverse<T(!new)>(s: seq<T>): (r: seq<T>)
    ensures |r| == |s| && forall x :: x in r <==> x in s
  {
    if s == [] then [] else Reverse(s[1..]) + [s[0]]
  }

  const ULP_PATH_LEN: nat := 256

  /** Offset of the base name: one past the last '/'. */
  function BasenameOffset(path: string): (n: nat)
    ensures n <= |path| && '/' !in path[n..]
    ensures n > 0 ==> path[n - 1] == '/'
  {
    if path == [] then 0
    else if path[|path| - 1] == '/' then |path|
    else BasenameOffset(path[..|path| - 1])
  }

  /** What strncmp over ULP_PATH_LEN characters sees of a name. */
  function Clip(s: string): string {
    if |s| <= ULP_PATH_LEN then s else s[..ULP_PATH_LEN]
  }

  function BaseName(path: string): string {
    path[BasenameOffset(path)..]
  }

  /** ulp_state_update: record the patch on top of the list. */
  function StateUpdate(st: State, m: Meta): Option<State> {
    match Resolve(m.units)
    case None => None
    case Some(units) => Some(st.(patches := [Patch(m.id, Clip(BaseName(m.lib)), Reverse(m.deps), units)] + st.patches))
  }

  /** Position of the applied patch `id`, or |patches|. */
  function PatchIndex(patches: seq<Patch>, id: PatchId): (i: nat)
    ensures i <= |patches| && (i < |patches| ==> patches[i].id == id)
    ensures forall j :: 0 <= j < i ==> patches[j].id != id
  {
    if patches == [] || patches[0].id == id then 0 else 1 + PatchIndex(patches[1..], id)
  }

  predicate IsApplied(patches: seq<Patch>, id: PatchId) {
    PatchIndex(patches, id) < |patches|
  }

  predicate DependenciesMet(patches: seq<Patch>, deps: seq<PatchId>) {
    forall i :: 0 <= i < |deps| ==> IsApplied(patches, deps[i])
  }

  function Sanity(patches: seq<Patch>, m: Meta): int {
    if !m.buildIdOk then EBUILDID
    else if !DependenciesMet(patches, m.deps) then EDEPEND
    else if IsApplied(patches, m.id) then EAPPLIED
    else if !m.soLoads then EDLOPEN
    else ENONE
  }

  // ---------- reverting ----------

  predicate HasDependent(patches: seq<Patch>, id: PatchId) {
    exists p :: p in patches && id in p.deps
  }

  function CanRevert(patches: seq<Patch>, id: PatchId): int {
    if !IsApplied(patches, id) then ENOTAPPLIED
    else if HasDependent(patches, id) then EDEPEND
    else 0
  }

  function Deactivate(roots: seq<Root>, i: nat, k: nat): (r: seq<Root>)
    requires i < |roots| && k < |roots[i].detours|
    ensures |r| == |roots| && forall j :: 0 <= j < |r| ==> |r[j].detours| == |roots[j].detours|
  {
    var ds := roots[i].detours;
    roots[i := roots[i].(detours := ds[k := ds[k].(active := false)])]
  }

  /** The nested loops of ulp_revert_all_units from root `i`, detour `k` on. */
  function RevertFrom(cap: nat, st: State, id: PatchId, i: nat, k: nat): State
    decreases |st.roots| - i, if i < |st.roots| then |st.roots[i].detours| - k else 0
  {
    if i >= |st.roots| then st
    else if k >= |st.roots[i].detours| then RevertFrom(cap, st, id, i + 1, 0)
    else if st.roots[i].detours[k].id != id then RevertFrom(cap, st, id, i, k + 1)
    else RevertFrom(cap, RevertStep(cap, st, i, k), id, i, k + 1)
  }

  /** Switch one detour off and rewrite the prologue for the newest one left. */
  function RevertStep(cap: nat, st: State, i: nat, k: nat): (r: State)
    requires i < |st.roots| && k < |st.roots[i].detours|
    ensures r.roots == Deactivate(st.roots, i, k)
  {
    var st' := st.(roots := Deactivate(st.roots, i, k));
    Emit(cap, st', st'.roots[i].addr, FirstActive(st'.roots[i].detours)).0
  }

  function RemovePatch(patches: seq<Patch>, id: PatchId): (r: seq<Patch>)
    ensures |r| == if IsApplied(patches, id) then |patches| - 1 else |patches|
  {
    var i := PatchIndex(patches, id);
    if i < |patches| then patches[..i] + patches[i + 1..] else patches
  }

  /** ulp_revert_patch. */
  function RevertPatch(cap: nat, st: State, id: PatchId): (r: (State, int))
    ensures |r.0.patches| <= |st.patches|
    ensures IsApplied(st.patches, id) ==> |r.0.patches| == |st.patches| - 1
  {
    var st' := RevertFrom(cap, st.(universe := st.universe + 1), id, 0, 0);
    RevertFromKeeps(cap, st.(universe := st.universe + 1), id, 0, 0);
    (st'.(patches := RemovePatch(st'.patches, id)), if IsApplied(st'.patches, id) then 0 else ESTATE)
  }

  /** Reverting units touches roots, queue, memory and error state only. */
  lemma {:induction false} RevertFromKeeps(cap: nat, st: State, id: PatchId, i: nat, k: nat)
    ensures
      var r := RevertFrom(cap, st, id, i, k);
      && r == st.(roots := r.roots, pending := r.pending, mem := r.mem, error := r.error)
      && |r.mem| == |st.mem|
    decreases |st.roots| - i, if i < |st.roots| then |st.roots[i].detours| - k else 0
  {
    if i >= |st.roots| {
    } else if k >= |st.roots[i].detours| {
      RevertFromKeeps(cap, st, id, i + 1, 0);
    } else if st.roots[i].detours[k].id != id {
      RevertFromKeeps(cap, st, id, i, k + 1);
    } else {
      RevertFromKeeps(cap, RevertStep(cap, st, i, k), id, i, k + 1);
    }
  }

  // ---------- sessions ----------

  /** load_patch. */
  function LoadPatch(cap: nat, st: State, parse: Parse): (State, int) {
    match parse
    case ParseError(code) => (st, code)
    case Parsed(m) =>
      var sane := if m.kind == 2 then ENONE else Sanity(st.patches, m);
      if sane != ENONE then (st, sane)
      else if m.kind == 1 then
        match StateUpdate(st, m)
        case None => (st, ESTATE)
        case Some(st') =>
          var (st'', code) := ApplyAllUnits(cap, st', m);
          (if code != 0 then st''.(error := EUNKNOWN) else st'', code)
      else if m.kind == 2 then
        var code := CanRevert(st.patches, m.id);
        if code != 0 then (st, code) else RevertPatch(cap, st, m.id)
      else if m.kind == 0 then (st, ENOMETA)
      else (st, EUNKNOWN)
  }

  datatype Walk = Returned(st: State, code: int) | Stuck(st: State)

  /** The list walk of revert_all_patches_from_lib from position `k` on. A patch
      that cannot be reverted is tried again for ever: the cursor does not move. */
  function RevertAllFrom(cap: nat, st: State, k: nat, lib: string, ret: int): Walk
    decreases |st.patches| - k
  {
    if k >= |st.patches| then Returned(st, ret)
    else if st.patches[k].lib != lib then RevertAllFrom(cap, st, k + 1, lib, ret)
    else if CanRevert(st.patches, st.patches[k].id) != 0 then Stuck(st)
    else
      var (st', code) := RevertPatch(cap, st, st.patches[k].id);
      assert IsApplied(st.patches, st.patches[k].id) by {
        assert PatchIndex(st.patches, st.patches[k].id) <= k;
      }
      if code != 0 then Returned(st', code) else RevertAllFrom(cap, st', k, lib, code)
  }

  function RevertAllFromLib(cap: nat, st: State, path: string, loaded: bool): Walk {
    if BasenameOffset(path) >= ULP_PATH_LEN then Returned(st, EOVERFLOW)
    else
      match RevertAllFrom(cap, st, 0, Clip(BaseName(path)), ENOTARGETLIB)
      case Stuck(st') => Stuck(st')
      case Returned(st', ret) => Returned(st', if ret == ENOTARGETLIB && loaded then ENOPATCH else ret)
  }

  /** What both entry points check first: the new error state and the code to
      return with, or None to go on. */
  function Gate(st: State, busy: bool): (int, Option<int>) {
    if st.error != ENONE then (st.error, Some(st.error))
    else if st.pending != [] then (EINSNQ, Some(EINSNQ))
    else (st.error, if busy then Some(EAGAIN) else None)
  }

  function ToggleError(e: int): int {
    if e == ENONE then EUSRBLOCKED else if e == EUSRBLOCKED then ENONE else e
  }

  /** One event in the life of a process. */
  function Next(cap: nat, st: State, op: Op): State {
    if st.hung then st
    else
      match op
      case Toggle => st.(error := ToggleError(st.error))
      case Drain => st.(mem := Replay(st.mem, st.pending), pending := [])
      case Trigger(parse, busy) =>
        var (e, stop) := Gate(st, busy);
        if stop.Some? then st.(error := e) else LoadPatch(cap, st, parse).0
      case RevertAll(path, loaded, busy) =>
        var (e, stop) := Gate(st, busy);
        if stop.Some? then st.(error := e)
        else
          match RevertAllFromLib(cap, st, path, loaded)
          case Returned(st', _) => st'
          case Stuck(st') => st'.(hung := true)
  }

  function Run(cap: nat, st: State, ops: seq<Op>): State
    decreases |ops|
  {
    if ops == [] then st else Run(cap, Next(cap, st, ops[0]), ops[1..])
  }
}
