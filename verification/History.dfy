/** What holds of the records in every run, and that reverts leave no trace. */
module History {
  import opened Bytes
  import opened Errors
  import opened X86
  import opened Engine
  import opened Layout
  import opened ControlFlow
  import opened Records

  // ---------- every run keeps the records straight ----------

  lemma {:induction false} WalkRecords(cap: nat, st: State, k: nat, lib: string, ret: int)
    requires RecordsOk(st)
    ensures RecordsOk(WalkState(RevertAllFrom(cap, st, k, lib, ret)))
    decreases |st.patches| - k
  {
    hide RecordsOk, RevertPatch, CanRevert;
    if k >= |st.patches| {
    } else if st.patches[k].lib != lib {
      WalkRecords(cap, st, k + 1, lib, ret);
    } else if CanRevert(st.patches, st.patches[k].id) == 0 {
      RevertRecords(cap, st, st.patches[k].id);
      CanRevertApplied(st.patches, st.patches[k].id);
      WalkRecords(cap, RevertPatch(cap, st, st.patches[k].id).0, k, lib, 0);
    }
  }

  lemma RecordsIgnore(st: State, st': State)
    requires st' == st.(mem := st'.mem, pending := st'.pending, error := st'.error, hung := st'.hung)
    requires RecordsOk(st)
    ensures RecordsOk(st')
  {
    hide DetoursAt, Actives, Claims, UniqueIds, DepsBelow, RootsShaped;
  }

  lemma NextRecords(cap: nat, st: State, op: Op)
    requires Healthy(st.error) ==> RecordsOk(st)
    ensures Healthy(Next(cap, st, op).error) ==> RecordsOk(Next(cap, st, op))
  {
    hide RecordsOk, LoadPatch, RevertAllFrom;
    if !st.hung && Healthy(st.error) {
      var r := Next(cap, st, op);
      match op {
        case Toggle => RecordsIgnore(st, r);
        case Drain => RecordsIgnore(st, r);
        case Trigger(parse, busy) =>
          var (e, stop) := Gate(st, busy);
          if stop.Some? {
            RecordsIgnore(st, r);
          } else if Healthy(r.error) {
            LoadPatchRecords(cap, st, parse);
          }
        case RevertAll(path, loaded, busy) =>
          var (e, stop) := Gate(st, busy);
          if stop.Some? {
            RecordsIgnore(st, r);
          } else {
            var lib := Clip(BaseName(path));
            var walk := WalkState(RevertAllFrom(cap, st, 0, lib, ENOTARGETLIB));
            WalkRecords(cap, st, 0, lib, ENOTARGETLIB);
            RecordsIgnore(walk, walk.(hung := true));
          }
      }
    }
  }

  lemma LoadPatchRecords(cap: nat, st: State, parse: Parse)
    requires RecordsOk(st) && Healthy(LoadPatch(cap, st, parse).0.error)
    ensures RecordsOk(LoadPatch(cap, st, parse).0)
  {
    hide RecordsOk, ApplyAllUnits, RevertPatch, CanRevert, Sanity, StateUpdate;
    if parse.Parsed? {
      var m := parse.meta;
      var sane := if m.kind == 2 then ENONE else Sanity(st.patches, m);
      if sane == ENONE && m.kind == 1 && StateUpdate(st, m).Some? {
        if ApplyAllUnits(cap, StateUpdate(st, m).value, m).1 == 0 {
          ApplyRecords(cap, st, m);
        }
      } else if m.kind == 2 && CanRevert(st.patches, m.id) == 0 {
        RevertRecords(cap, st, m.id);
      }
    }
  }

  lemma {:induction false} RunRecords(cap: nat, st: State, ops: seq<Op>)
    requires Healthy(st.error) ==> RecordsOk(st)
    ensures Healthy(Run(cap, st, ops).error) ==> RecordsOk(Run(cap, st, ops))
    decreases |ops|
  {
    hide RecordsOk, Next;
    if ops != [] {
      NextRecords(cap, st, ops[0]);
      RunRecords(cap, Next(cap, st, ops[0]), ops[1..]);
    }
  }

  /** In every state a run can reach without error: patch ids are unique, every
      dependency of an applied patch is applied and older, the active detours of
      each function are exactly the replacements the applied patches make, newest
      first, and detour lists are ordered by age under the global counter. */
  lemma ReachableRecords(cap: nat, mem0: seq<byte>, immediate: bool, ops: seq<Op>)
    ensures
      var st := Run(cap, Start(mem0, immediate), ops);
      Healthy(st.error) ==> RecordsOk(st)
  {
    var s := Start(mem0, immediate);
    assert RecordsOk(s);
    hide RecordsOk;
    RunRecords(cap, s, ops);
  }

  // ---------- units and detours ----------

  lemma {:induction false} ClaimOfUnit(id: PatchId, units: seq<AppliedUnit>, u: nat)
    requires u < |units|
    ensures Claim(id, units[u].newFun) in ClaimsOf(id, units, units[u].oldFun)
  {
    if u > 0 {
      assert units[1..][u - 1] == units[u];
      ClaimOfUnit(id, units[1..], u - 1);
    }
  }

  lemma {:induction false} ClaimOfPatch(patches: seq<Patch>, i: nat, u: nat)
    requires i < |patches| && u < |patches[i].units|
    ensures Claim(patches[i].id, patches[i].units[u].newFun) in Claims(patches, patches[i].units[u].oldFun)
  {
    if i == 0 {
      ClaimOfUnit(patches[0].id, patches[0].units, u);
    } else {
      assert patches[1..][i - 1] == patches[i];
      ClaimOfPatch(patches[1..], i - 1, u);
    }
  }

  lemma {:induction false} ClaimHasDetour(ds: seq<Detour>, c: Claim)
    ensures c in Actives(ds) <==> exists k :: 0 <= k < |ds| && Makes(ds[k], c)
  {
    if ds != [] {
      var rest := ds[1..];
      ClaimHasDetour(rest, c);
      assert c in Actives(ds) <==> Makes(ds[0], c) || c in Actives(rest);
      hide Actives, Makes;
      assert forall k :: 0 <= k < |rest| ==> rest[k] == ds[k + 1];
      if k :| 0 <= k < |rest| && Makes(rest[k], c) {
        assert Makes(ds[k + 1], c);
      }
      if k :| 1 <= k < |ds| && Makes(ds[k], c) {
        assert Makes(rest[k - 1], c);
      }
    }
  }

  ghost predicate Makes(d: Detour, c: Claim) {
    d.active && c == Claim(d.id, d.target)
  }

  lemma {:induction false} ClaimHasOwner(id: PatchId, units: seq<AppliedUnit>, f: Addr, c: Claim)
    requires c in ClaimsOf(id, units, f)
    ensures c.id == id && AppliedUnit(f, c.target) in units
  {
    if c in ClaimsOf(id, units[1..], f) {
      ClaimHasOwner(id, units[1..], f, c);
    }
  }

  lemma {:induction false} ClaimHasPatch(patches: seq<Patch>, f: Addr, c: Claim)
    requires c in Claims(patches, f)
    ensures exists p :: p in patches && p.id == c.id && AppliedUnit(f, c.target) in p.units
  {
    if c in ClaimsOf(patches[0].id, patches[0].units, f) {
      ClaimHasOwner(patches[0].id, patches[0].units, f, c);
    } else {
      ClaimHasPatch(patches[1..], f, c);
    }
  }

  /** Every unit of an applied patch has an active detour, and every active
      detour is a unit of an applied patch. */
  lemma DetoursAreUnits(st: State, f: Addr, id: PatchId, target: Addr)
    requires RecordsOk(st)
    ensures
      (exists p :: p in st.patches && p.id == id && AppliedUnit(f, target) in p.units)
      <==>
      (exists d :: d in DetoursAt(st.roots, f) && d.active && d.id == id && d.target == target)
  {
    hide DetoursAt, Actives, Claims, UniqueIds, DepsBelow, RootsShaped;
    var ds := DetoursAt(st.roots, f);
    assert Actives(ds) == Claims(st.patches, f);
    ClaimHasDetour(ds, Claim(id, target));
    if p :| p in st.patches && p.id == id && AppliedUnit(f, target) in p.units {
      var i :| 0 <= i < |st.patches| && st.patches[i] == p;
      var u :| 0 <= u < |p.units| && p.units[u] == AppliedUnit(f, target);
      ClaimOfPatch(st.patches, i, u);
    }
    if d :| d in ds && d.active && d.id == id && d.target == target {
      var k :| 0 <= k < |ds| && ds[k] == d;
      ClaimHasPatch(st.patches, f, Claim(id, target));
    }
  }

  // ---------- the top-down search ----------

  /** The search by root index of __ulp_manage_universes; patched_addr + 2 stands
      for the original function. */
  function ManagedTarget(roots: seq<Root>, index: nat): Option<Addr> {
    if roots == [] then None
    else if roots[0].index == index then
      match FirstActive(roots[0].detours)
      case Some(t) => Some(if t == 0 then roots[0].addr + 2 else t)
      case None => Some(roots[0].addr + 2)
    else ManagedTarget(roots[1..], index)
  }

  lemma {:induction false} ManagedIsRoot(roots: seq<Root>, i: nat)
    requires i < |roots| && forall a, b :: 0 <= a < b < |roots| ==> roots[a].index != roots[b].index
    ensures ManagedTarget(roots, roots[i].index)
         == Some(match FirstActive(roots[i].detours)
                 case Some(t) => if t == 0 then roots[i].addr + 2 else t
                 case None => roots[i].addr + 2)
  {
    if i > 0 {
      assert roots[1..][i - 1] == roots[i];
      ManagedIsRoot(roots[1..], i - 1);
    }
  }

  lemma {:induction false} FirstActiveIsNewest(ds: seq<Detour>, universe: nat)
    requires Ordered(ds, universe)
    ensures FirstActive(ds).None? <==> forall k :: 0 <= k < |ds| ==> !ds[k].active
    ensures FirstActive(ds).Some? ==>
      exists k :: 0 <= k < |ds| && ds[k].active && ds[k].target == FirstActive(ds).value
        && forall j :: 0 <= j < |ds| && ds[j].active ==> ds[j].universe <= ds[k].universe
  {
    if ds == [] {
    } else if ds[0].active {
      assert forall j :: 0 <= j < |ds| && ds[j].active ==> ds[j].universe <= ds[0].universe;
    } else {
      FirstActiveIsNewest(ds[1..], universe);
      if FirstActive(ds).Some? {
        var k :| 0 <= k < |ds[1..]| && ds[1..][k].active && ds[1..][k].target == FirstActive(ds).value
              && forall j :: 0 <= j < |ds[1..]| && ds[1..][j].active ==> ds[1..][j].universe <= ds[1..][k].universe;
        assert ds[k + 1] == ds[1..][k];
        forall j | 0 <= j < |ds| && ds[j].active ensures ds[j].universe <= ds[k + 1].universe {
          assert ds[1..][j - 1] == ds[j];
        }
      } else {
        forall j | 1 <= j < |ds| ensures !ds[j].active {
          assert ds[1..][j - 1] == ds[j];
        }
      }
    }
  }

  /** The address the search finds is where calls really go, except when nothing
      is active and the function starts with endbr64: then it names the middle
      of that instruction instead of the byte behind the entry. */
  lemma ManagedAgrees(w: World, mem0: seq<byte>, st: State, i: nat)
    requires Tracks(w, mem0, st) && RecordsOk(st) && i < |st.roots|
    ensures
      var r := st.roots[i];
      r.addr in w.kinds &&
      var k := w.kinds[r.addr];
      var goes := match FirstActive(r.detours) case Some(t) => t case None => r.addr + Bias(k) + 2;
      && Reaches(After(st), r.addr, goes)
      && (ManagedTarget(st.roots, r.index) == Some(goes) <==> (FirstActive(r.detours).Some? || k == Plain))
  {
    hide InSync, QueueOk, BodiesKept, UniqueAddrs, UniqueIds, DepsBelow, Ledger, Ordered, TargetsOk;
    ManagedIsRoot(st.roots, i);
    FirstActiveOk(st.roots[i].detours);
    SyncedReaches(w, mem0, st, i);
  }

  lemma SyncedReaches(w: World, mem0: seq<byte>, st: State, i: nat)
    requires Tracks(w, mem0, st) && i < |st.roots|
    ensures
      var r := st.roots[i];
      && r.addr in w.kinds && w.kinds[r.addr] != Unpatchable
      && Reaches(After(st), r.addr,
                 match FirstActive(r.detours) case Some(t) => t case None => r.addr + Bias(w.kinds[r.addr]) + 2)
  {
    hide QueueOk, BodiesKept, RootsIn, UniqueAddrs, Redirects, FallsThrough, Reaches, After, FirstActive;
    var r := st.roots[i];
    assert RootInSync(w, After(st), r);
    match FirstActive(r.detours) {
      case Some(t) => RedirectsReaches(After(st), w.kinds[r.addr], r.addr, t);
      case None => FallsThroughReaches(After(st), w.kinds[r.addr], r.addr);
    }
  }

  // ---------- replaying only what survived ----------

  function UnitsOf(units: seq<AppliedUnit>): (r: seq<Unit>)
    ensures |r| == |units|
    ensures forall i :: 0 <= i < |units| ==> r[i] == Unit(Some(units[i].oldFun), Some(units[i].newFun))
  {
    if units == [] then []
    else [Unit(Some(units[0].oldFun), Some(units[0].newFun))] + UnitsOf(units[1..])
  }

  /** The request that applies `p` again, without its static-data references. */
  function Reapply(p: Patch): Op {
    Trigger(Parsed(Meta(1, p.id, p.lib, Reverse(p.deps), UnitsOf(p.units), [], Bases(0, 0, 0), true, true)), false)
  }

  /** Applying the given patches, and nothing else, oldest first. */
  function Replayed(patches: seq<Patch>): seq<Op> {
    if patches == [] then [] else Replayed(patches[1..]) + [Reapply(patches[0])]
  }

  ghost predicate SameUnits(ps: seq<Patch>, qs: seq<Patch>) {
    |ps| == |qs| && forall i :: 0 <= i < |ps| ==> ps[i].id == qs[i].id && ps[i].units == qs[i].units
  }

  ghost predicate PatchesPlaced(w: World, patches: seq<Patch>) {
    forall i, u :: 0 <= i < |patches| && 0 <= u < |patches[i].units| ==>
      UnitPlaced(w, patches[i].units[u])
  }

  ghost predicate UnitPlaced(w: World, u: AppliedUnit) {
    u.oldFun in w.kinds && w.kinds[u.oldFun] != Unpatchable && 0 < u.newFun < U64
  }

  lemma {:induction false} SameIndexOf(ps: seq<Patch>, qs: seq<Patch>, id: PatchId)
    requires SameUnits(ps, qs)
    ensures PatchIndex(ps, id) == PatchIndex(qs, id)
  {
    if ps != [] && ps[0].id != id {
      SameIndexOf(ps[1..], qs[1..], id);
    }
  }

  lemma {:induction false} SameClaims(ps: seq<Patch>, qs: seq<Patch>, f: Addr)
    requires SameUnits(ps, qs)
    ensures Claims(ps, f) == Claims(qs, f)
  {
    if ps != [] {
      SameClaims(ps[1..], qs[1..], f);
    }
  }

  lemma {:induction false} ResolveUnits(units: seq<AppliedUnit>)
    ensures Resolve(UnitsOf(units)) == Some(units)
  {
    if units != [] {
      assert UnitsOf(units)[1..] == UnitsOf(units[1..]);
      ResolveUnits(units[1..]);
      assert [units[0]] + units[1..] == units;
    }
  }

  /** Without a queue to overflow, units of patchable functions always apply. */
  lemma {:induction false} UnitsApply(w: World, cap: nat, st: State, id: PatchId, units: seq<AppliedUnit>)
    requires st.immediate && QueueOk(w, st)
    requires forall u :: 0 <= u < |units| ==> UnitPlaced(w, units[u])
    ensures
      var r := ApplyUnits(cap, st, id, UnitsOf(units));
      r.1 == 0 && r.0.error == st.error && r.0.pending == []
    decreases |units|
  {
    if units != [] {
      var f, target := units[0].oldFun, units[0].newFun;
      assert UnitsOf(units)[1..] == UnitsOf(units[1..]);
      assert UnitPlaced(w, units[0]);
      UnitQueue(w, cap, st, id, f, target);
      var r := Emit(cap, PushDetour(st, id, f, target), f, Some(target));
      hide QueueOk, PushDetour;
      assert r.1 == 0 && r.0.error == st.error && r.0.immediate by { UnitApplies(w, cap, st, id, f, target); }
      UnitsApply(w, cap, r.0, id, units[1..]);
    } else {
      assert UnitsOf(units) == [];
    }
  }

  lemma UnitApplies(w: World, cap: nat, st: State, id: PatchId, f: Addr, target: Addr)
    requires st.immediate && QueueOk(w, st) && UnitPlaced(w, AppliedUnit(f, target))
    ensures
      var r := Emit(cap, PushDetour(st, id, f, target), f, Some(target));
      r.1 == 0 && r.0.error == st.error && r.0.immediate
  {
    hide KindOf, Prologue;
  }

  /** A surviving patch is still admissible on top of the surviving ones below it. */
  lemma ReapplySane(st: State, patches: seq<Patch>)
    requires patches != [] && UniqueIds(patches) && DepsBelow(patches)
    requires SameUnits(st.patches, patches[1..])
    ensures Sanity(st.patches, Reapply(patches[0]).parse.meta) == ENONE
  {
    hide UnitsOf, PatchIndex;
    var m := Reapply(patches[0]).parse.meta;
    forall d | d in m.deps ensures IsApplied(st.patches, d) {
      assert d in patches[0].deps;
      SameIndexOf(st.patches, patches[1..], d);
    }
    SameIndexOf(st.patches, patches[1..], m.id);
    forall i | 0 <= i < |st.patches| ensures st.patches[i].id != m.id {
      assert patches[1..][i] == patches[i + 1];
    }
  }

  /** Every function that has been patched is patched now. */
  ghost predicate AllLive(roots: seq<Root>) {
    forall i :: 0 <= i < |roots| ==> FirstActive(roots[i].detours).Some?
  }

  /** Applying never switches anything off. */
  lemma {:induction false} UnitsKeepLive(cap: nat, st: State, id: PatchId, units: seq<Unit>)
    requires AllLive(st.roots)
    ensures AllLive(ApplyUnits(cap, st, id, units).0.roots)
    decreases |units|
  {
    if units != [] && units[0].oldFun.Some? && units[0].newFun.Some? {
      var f, target := units[0].oldFun.value, units[0].newFun.value;
      PushKeepsLive(st, id, f, target);
      EmitRoots(cap, PushDetour(st, id, f, target), f, Some(target));
      hide Emit, PushDetour, AllLive;
      var (st', code) := Emit(cap, PushDetour(st, id, f, target), f, Some(target));
      assert AllLive(st'.roots);
      if code <= 0 {
        UnitsKeepLive(cap, st', id, units[1..]);
      }
    }
  }

  lemma PushKeepsLive(st: State, id: PatchId, f: Addr, target: Addr)
    requires AllLive(st.roots)
    ensures AllLive(PushDetour(st, id, f, target).roots)
  {
    var roots := PushDetour(st, id, f, target).roots;
    var i := RootIndex(st.roots, f);
    forall j | 0 <= j < |roots| ensures FirstActive(roots[j].detours).Some? {
      if i == |st.roots| && j > 0 {
        assert roots[j] == st.roots[j - 1];
      }
    }
  }

  /** Re-applying one surviving patch on top of the surviving ones below it. */
  lemma ReapplyWorks(w: World, mem0: seq<byte>, cap: nat, st: State, patches: seq<Patch>)
    requires Inv(w, mem0, st) && st.immediate && st.error == ENONE && !st.hung
    requires patches != [] && UniqueIds(patches) && DepsBelow(patches) && PatchesPlaced(w, patches)
    requires SameUnits(st.patches, patches[1..]) && AllLive(st.roots)
    ensures
      var r := Next(cap, st, Reapply(patches[0]));
      && r.immediate && r.error == ENONE && !r.hung && Inv(w, mem0, r)
      && SameUnits(r.patches, patches) && AllLive(r.roots)
  {
    hide *;
    var p := patches[0];
    var m := Meta(1, p.id, p.lib, Reverse(p.deps), UnitsOf(p.units), [], Bases(0, 0, 0), true, true);
    ReapplyIs(p);
    ReapplyMetaOk(w, patches);
    ResolveUnits(p.units);
    ReapplySane(st, patches);
    assert QueueOk(w, st) by { InvQueue(w, mem0, st); }
    StateUpdateIs(st, m, p.units);
    var st1 := StateUpdate(st, m).value;
    var st2 := st1.(universe := st1.universe + 1);
    QueueSame(w, st, st2);
    UnitsApply(w, cap, st2, m.id, p.units);
    ApplyUnitsError(cap, st2, m.id, m.units);
    NextKeeps(w, mem0, cap, st, Reapply(p));
    var r := ApplyUnits(cap, st2, m.id, m.units).0;
    UnitsKeepLive(cap, st2, m.id, m.units);
    NoRefs(cap, st1, m);
    QueueEmpty(w, st);
    NextApplies(cap, st, m, r);
    TopUnits(st.patches, r.patches, patches);
  }

  lemma ReapplyIs(p: Patch)
    ensures Reapply(p) == Trigger(Parsed(
      Meta(1, p.id, p.lib, Reverse(p.deps), UnitsOf(p.units), [], Bases(0, 0, 0), true, true)), false)
  {
  }

  lemma ReapplyMetaOk(w: World, patches: seq<Patch>)
    requires patches != [] && PatchesPlaced(w, patches)
    ensures OpOk(w, Reapply(patches[0]))
    ensures forall u :: 0 <= u < |patches[0].units| ==> UnitPlaced(w, patches[0].units[u])
  {
    var units := patches[0].units;
    forall u | 0 <= u < |units| ensures UnitPlaced(w, units[u]) {
      assert UnitPlaced(w, patches[0].units[u]);
    }
  }

  lemma StateUpdateIs(st: State, m: Meta, units: seq<AppliedUnit>)
    requires Resolve(m.units) == Some(units)
    ensures StateUpdate(st, m)
         == Some(st.(patches := [Patch(m.id, Clip(BaseName(m.lib)), Reverse(m.deps), units)] + st.patches))
  {
  }

  lemma TopUnits(below: seq<Patch>, ps: seq<Patch>, qs: seq<Patch>)
    requires qs != [] && |ps| == |below| + 1 && ps[1..] == below && SameUnits(below, qs[1..])
    requires ps[0].id == qs[0].id && ps[0].units == qs[0].units
    ensures SameUnits(ps, qs)
  {
    forall i | 0 <= i < |ps| ensures ps[i].id == qs[i].id && ps[i].units == qs[i].units {
      if i > 0 {
        assert below[i - 1] == ps[i] && qs[1..][i - 1] == qs[i];
      }
    }
  }

  lemma InvQueue(w: World, mem0: seq<byte>, st: State)
    requires Inv(w, mem0, st)
    ensures QueueOk(w, st)
  {
  }

  lemma NextApplies(cap: nat, st: State, m: Meta, r: State)
    requires st.error == ENONE && !st.hung && st.pending == []
    requires m.kind == 1 && Sanity(st.patches, m) == ENONE && StateUpdate(st, m).Some?
    requires ApplyAllUnits(cap, StateUpdate(st, m).value, m) == (r, 0)
    ensures Next(cap, st, Trigger(Parsed(m), false)) == r
  {
    hide Sanity, StateUpdate, ApplyAllUnits;
  }

  lemma NoRefs(cap: nat, st: State, m: Meta)
    requires m.bases.Bases? && m.refs == []
    requires ApplyUnits(cap, st.(universe := st.universe + 1), m.id, m.units).1 == 0
    ensures ApplyAllUnits(cap, st, m) == ApplyUnits(cap, st.(universe := st.universe + 1), m.id, m.units)
  {
    hide ApplyUnits;
  }

  lemma QueueEmpty(w: World, st: State)
    requires QueueOk(w, st) && st.immediate
    ensures st.pending == []
  {
  }

  lemma {:induction false} RunAppend(cap: nat, st: State, xs: seq<Op>, ys: seq<Op>)
    ensures Run(cap, st, xs + ys) == Run(cap, Run(cap, st, xs), ys)
    decreases |xs|
  {
    if xs == [] {
      assert xs + ys == ys;
    } else {
      assert (xs + ys)[1..] == xs[1..] + ys;
      RunAppend(cap, Next(cap, st, xs[0]), xs[1..], ys);
    }
  }

  lemma {:induction false} ReplayWorks(w: World, mem0: seq<byte>, cap: nat, patches: seq<Patch>)
    requires Laid(w, mem0) && UniqueIds(patches) && DepsBelow(patches) && PatchesPlaced(w, patches)
    ensures
      var r := Run(cap, Start(mem0, true), Replayed(patches));
      && r.immediate && r.error == ENONE && !r.hung && Inv(w, mem0, r)
      && SameUnits(r.patches, patches) && AllLive(r.roots)
  {
    hide Laid, Inv, Reapply, Next;
    if patches == [] {
      StartKeeps(w, mem0, true);
    } else {
      BelowTop(w, patches);
      ReplayWorks(w, mem0, cap, patches[1..]);
      var st := Run(cap, Start(mem0, true), Replayed(patches[1..]));
      ReapplyWorks(w, mem0, cap, st, patches);
      RunAppend(cap, Start(mem0, true), Replayed(patches[1..]), [Reapply(patches[0])]);
      var last := [Reapply(patches[0])];
      assert last[1..] == [];
      assert Run(cap, Next(cap, st, last[0]), last[1..]) == Next(cap, st, last[0]);
    }
  }

  lemma BelowTop(w: World, patches: seq<Patch>)
    requires patches != [] && UniqueIds(patches) && DepsBelow(patches) && PatchesPlaced(w, patches)
    ensures UniqueIds(patches[1..]) && DepsBelow(patches[1..]) && PatchesPlaced(w, patches[1..])
  {
    hide IsApplied;
    forall i, d | 0 <= i < |patches[1..]| && d in patches[1..][i].deps ensures IsApplied(patches[1..][i + 1..], d) {
      assert patches[1..][i] == patches[i + 1] && patches[1..][i + 1..] == patches[i + 2..];
    }
  }

  lemma SurvivorsPlaced(w: World, mem0: seq<byte>, st: State)
    requires Tracks(w, mem0, st) && RecordsOk(st)
    ensures PatchesPlaced(w, st.patches)
  {
    forall i, u | 0 <= i < |st.patches| && 0 <= u < |st.patches[i].units|
      ensures UnitPlaced(w, st.patches[i].units[u])
    {
      SurvivorPlaced(w, mem0, st, i, u);
    }
  }

  lemma SurvivorPlaced(w: World, mem0: seq<byte>, st: State, i: nat, u: nat)
    requires Tracks(w, mem0, st) && RecordsOk(st)
    requires i < |st.patches| && u < |st.patches[i].units|
    ensures UnitPlaced(w, st.patches[i].units[u])
  {
    var p := st.patches[i];
    var unit := p.units[u];
    var f, t := unit.oldFun, unit.newFun;
    assert RootsIn(w, st.roots);
    hide *;
    assert unit == AppliedUnit(f, t) && p in st.patches;
    DetoursAreUnits(st, f, p.id, t);
    var d :| d in DetoursAt(st.roots, f) && d.active && d.id == p.id && d.target == t;
    PlacedDetour(w, st.roots, f, d);
    UnitIsPlaced(w, unit);
  }

  lemma UnitIsPlaced(w: World, u: AppliedUnit)
    requires u.oldFun in w.kinds && w.kinds[u.oldFun] != Unpatchable && 0 < u.newFun < U64
    ensures UnitPlaced(w, u)
  {
  }

  lemma PlacedDetour(w: World, roots: seq<Root>, f: Addr, d: Detour)
    requires RootsIn(w, roots) && d in DetoursAt(roots, f)
    ensures f in w.kinds && w.kinds[f] != Unpatchable && 0 < d.target < U64
  {
  }

  /** History erasure. Whatever has been applied and reverted, in whatever order,
      every function is replaced exactly as if only the patches that are still
      applied had ever been applied, in their order, to a fresh process. In both
      processes calls go to their destinations, and these are the same exactly
      where it does not show that the function was patched once: it has an active
      replacement, or it never was patched, or its entry was not a jump to
      somewhere else. Memory is the same outside the reference slots and the
      prologues of functions that were patched and no longer are. */
  lemma RevertsLeaveNoTrace(w: World, mem0: seq<byte>, cap: nat, ops: seq<Op>)
    requires Laid(w, mem0) && OpsOk(w, ops)
    ensures
      var st := Run(cap, Start(mem0, false), ops);
      var scratch := Run(cap, Start(mem0, true), Replayed(st.patches));
      Healthy(st.error) ==>
        && scratch.error == ENONE
        && (forall f :: FirstActive(DetoursAt(st.roots, f)) == FirstActive(DetoursAt(scratch.roots, f)))
        && (forall f :: Actives(DetoursAt(st.roots, f)) == Actives(DetoursAt(scratch.roots, f)))
        && (forall f :: f in w.kinds && w.kinds[f] != Unpatchable ==> CallsAgree(w, mem0, st, scratch, f))
        && MemoryAgrees(w, st, scratch)
  {
    var st := Run(cap, Start(mem0, false), ops);
    if Healthy(st.error) {
      StartKeeps(w, mem0, false);
      RunKeeps(w, mem0, cap, Start(mem0, false), ops);
      ReachableRecords(cap, mem0, false, ops);
      SurvivorsPlaced(w, mem0, st);
      ReplayWorks(w, mem0, cap, st.patches);
      var scratch := Run(cap, Start(mem0, true), Replayed(st.patches));
      ReachableRecords(cap, mem0, true, Replayed(st.patches));
      hide Run, Tracks, QueueOk, DetoursAt, Actives, Claims, CallsAgree, MemoryAgrees, SameUnits, Laid, UniqueIds, DepsBelow, RootsShaped, FirstActive, AllLive;
      forall f
        ensures FirstActive(DetoursAt(st.roots, f)) == FirstActive(DetoursAt(scratch.roots, f))
        ensures Actives(DetoursAt(st.roots, f)) == Actives(DetoursAt(scratch.roots, f))
      {
        SameClaims(scratch.patches, st.patches, f);
        FirstActiveIsFirstClaim(DetoursAt(st.roots, f));
        FirstActiveIsFirstClaim(DetoursAt(scratch.roots, f));
      }
      assert WellPlaced(w) && |mem0| == w.size by { LaidGives(w, mem0); }
      forall f | f in w.kinds && w.kinds[f] != Unpatchable ensures CallsAgree(w, mem0, st, scratch, f) {
        SameDestination(w, mem0, st, scratch, f);
      }
      SameMemory(w, mem0, st, scratch);
    }
    assert Laid(w, mem0);
  }

  /** It does not show at the entry of `f` whether it was ever patched. */
  ghost predicate Unspoilt(w: World, mem0: seq<byte>, st: State, f: Addr)
    requires f in w.kinds && |mem0| == w.size && WellPlaced(w)
  {
    var at := f + Bias(w.kinds[f]);
    FirstActive(DetoursAt(st.roots, f)).Some? || RootIndex(st.roots, f) == |st.roots|
    || mem0[at] != 0xEB || mem0[at + 1] == 0
  }

  ghost predicate CallsAgree(w: World, mem0: seq<byte>, st: State, scratch: State, f: Addr)
    requires f in w.kinds && |mem0| == w.size && WellPlaced(w)
  {
    && CallGoes(w, mem0, st, f) && CallGoes(w, mem0, scratch, f)
    && (Destination(w, mem0, st, f) == Destination(w, mem0, scratch, f) <==> Unspoilt(w, mem0, st, f))
  }

  lemma SameDestination(w: World, mem0: seq<byte>, st: State, scratch: State, f: Addr)
    requires Laid(w, mem0) && Tracks(w, mem0, st) && Tracks(w, mem0, scratch) && AllLive(scratch.roots)
    requires f in w.kinds && w.kinds[f] != Unpatchable
    requires FirstActive(DetoursAt(st.roots, f)) == FirstActive(DetoursAt(scratch.roots, f))
    ensures CallsAgree(w, mem0, st, scratch, f)
  {
    CallGoesInSync(w, mem0, st, f);
    CallGoesInSync(w, mem0, scratch, f);
    hide Tracks, CallGoes, Run, FirstActive;
  }

  /** `a` lies in the prologue of a function that was patched and no longer is. */
  ghost predicate Dead(w: World, roots: seq<Root>, a: int) {
    exists i :: 0 <= i < |roots| && roots[i].addr in w.kinds && InArea(w.kinds[roots[i].addr], roots[i].addr, a)
             && FirstActive(roots[i].detours).None?
  }

  ghost predicate MemoryAgrees(w: World, st: State, scratch: State) {
    && |After(st)| == |After(scratch)|
    && forall a :: 0 <= a < |After(st)| && a !in w.slots && !Dead(w, st.roots, a) ==>
         After(st)[a] == After(scratch)[a]
  }

  lemma SameMemory(w: World, mem0: seq<byte>, st: State, scratch: State)
    requires Tracks(w, mem0, st) && Tracks(w, mem0, scratch) && AllLive(scratch.roots)
    requires forall f :: FirstActive(DetoursAt(st.roots, f)) == FirstActive(DetoursAt(scratch.roots, f))
    ensures MemoryAgrees(w, st, scratch)
  {
    hide QueueOk, RootsIn, RootInSync, FirstActive, After, KindOf, AllLive, UniqueAddrs, InSync;
    forall a | 0 <= a < |After(st)| && a !in w.slots && !Dead(w, st.roots, a)
      ensures After(st)[a] == After(scratch)[a]
    {
      if Owned(w, st.roots, a) {
        var i :| 0 <= i < |st.roots| && st.roots[i].addr in w.kinds
              && InArea(w.kinds[st.roots[i].addr], st.roots[i].addr, a);
        SameLiveEntry(w, mem0, st, scratch, i, a);
      } else if Owned(w, scratch.roots, a) {
        var j :| 0 <= j < |scratch.roots| && scratch.roots[j].addr in w.kinds
              && InArea(w.kinds[scratch.roots[j].addr], scratch.roots[j].addr, a);
        LiveIsRoot(st, scratch, j);
      }
    }
  }

  lemma LiveIsRoot(st: State, scratch: State, j: nat)
    requires UniqueAddrs(scratch.roots) && AllLive(scratch.roots) && j < |scratch.roots|
    requires forall f :: FirstActive(DetoursAt(st.roots, f)) == FirstActive(DetoursAt(scratch.roots, f))
    ensures RootIndex(st.roots, scratch.roots[j].addr) < |st.roots|
  {
    var f := scratch.roots[j].addr;
    RootIndexUnique(scratch.roots, j);
    assert FirstActive(DetoursAt(st.roots, f)).Some?;
    NothingActive();
  }

  lemma SameLiveEntry(w: World, mem0: seq<byte>, st: State, scratch: State, i: nat, a: int)
    requires Tracks(w, mem0, st) && Tracks(w, mem0, scratch) && i < |st.roots|
    requires forall f :: FirstActive(DetoursAt(st.roots, f)) == FirstActive(DetoursAt(scratch.roots, f))
    requires FirstActive(st.roots[i].detours).Some? && st.roots[i].addr in w.kinds
    requires InArea(w.kinds[st.roots[i].addr], st.roots[i].addr, a) && 0 <= a < |After(st)|
    ensures a < |After(scratch)| && After(st)[a] == After(scratch)[a]
  {
    hide QueueOk, RootsIn, BodiesKept, FirstActive, After, KindOf, Redirects, FallsThrough, InArea;
    var f := st.roots[i].addr;
    RootIndexUnique(st.roots, i);
    var j := RootIndex(scratch.roots, f);
    var t := FirstActive(st.roots[i].detours).value;
    assert FirstActive(DetoursAt(scratch.roots, f)) == Some(t);
    assert j < |scratch.roots| by { NothingActive(); }
    assert RootInSync(w, After(st), st.roots[i]) && RootInSync(w, After(scratch), scratch.roots[j]);
    RedirectsSame(After(st), After(scratch), w.kinds[f], f, t, a);
  }

  lemma RedirectsSame(mem: seq<byte>, mem': seq<byte>, k: Kind, f: Addr, target: Addr, a: nat)
    requires k != Unpatchable && Redirects(mem, k, f, target) && Redirects(mem', k, f, target) && InArea(k, f, a)
    ensures a < |mem| && a < |mem'| && mem[a] == mem'[a]
  {
    hide Prologue;
    var lo, hi := f - PRE_NOPS_LEN, f + Bias(k) + 2;
    assert mem[lo..hi][a - lo] == mem[a] && mem'[lo..hi][a - lo] == mem'[a];
  }

  lemma LaidGives(w: World, mem: seq<byte>)
    requires Laid(w, mem)
    ensures WellPlaced(w) && |mem| == w.size
  {
  }
}
