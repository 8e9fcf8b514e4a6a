/** The patch list and the detours always tell the same story: what every
    reachable state's records look like, and what a revert erases. */
module Records {
  import opened Bytes
  import opened Errors
  import opened X86
  import opened Engine
  import opened Layout
  import opened ControlFlow

  /** "Patch `id` replaces this function by `target`." */
  datatype Claim = Claim(id: PatchId, target: Addr)

  /** The claims of the active detours, newest first. */
  function Actives(ds: seq<Detour>): seq<Claim> {
    if ds == [] then []
    else (if ds[0].active then [Claim(ds[0].id, ds[0].target)] else []) + Actives(ds[1..])
  }

  /** The claims one patch makes on `f`: its last unit for `f` wins. */
  function ClaimsOf(id: PatchId, units: seq<AppliedUnit>, f: Addr): seq<Claim> {
    if units == [] then []
    else ClaimsOf(id, units[1..], f) + if units[0].oldFun == f then [Claim(id, units[0].newFun)] else []
  }

  /** The claims all applied patches make on `f`, newest patch first. */
  function Claims(patches: seq<Patch>, f: Addr): seq<Claim> {
    if patches == [] then []
    else ClaimsOf(patches[0].id, patches[0].units, f) + Claims(patches[1..], f)
  }

  ghost predicate Ledger(st: State) {
    forall f: Addr :: Actives(DetoursAt(st.roots, f)) == Claims(st.patches, f)
  }

  ghost predicate UniqueIds(patches: seq<Patch>) {
    forall i, j :: 0 <= i < j < |patches| ==> patches[i].id != patches[j].id
  }

  /** Every dependency of an applied patch is applied, and older. */
  ghost predicate DepsBelow(patches: seq<Patch>) {
    forall i, d :: 0 <= i < |patches| && d in patches[i].deps ==> IsApplied(patches[i + 1..], d)
  }

  /** Newest first, none newer than the global counter. */
  ghost predicate Ordered(ds: seq<Detour>, universe: nat) {
    && (forall a, b :: 0 <= a < b < |ds| ==> ds[a].universe >= ds[b].universe)
    && forall a :: 0 <= a < |ds| ==> ds[a].universe <= universe
  }

  ghost predicate RootsShaped(roots: seq<Root>, nextIndex: nat, universe: nat) {
    && UniqueAddrs(roots)
    && (forall i, j :: 0 <= i < j < |roots| ==> roots[i].index != roots[j].index)
    && forall i :: 0 <= i < |roots| ==>
         roots[i].index < nextIndex && roots[i].detours != [] && Ordered(roots[i].detours, universe)
  }

  ghost predicate RecordsOk(st: State) {
    && UniqueIds(st.patches)
    && DepsBelow(st.patches)
    && Ledger(st)
    && RootsShaped(st.roots, st.nextIndex, st.universe)
  }

  // ---------- lists ----------

  lemma {:induction false} ActivesAppend(a: seq<Detour>, b: seq<Detour>)
    ensures Actives(a + b) == Actives(a) + Actives(b)
  {
    if a == [] {
      assert a + b == b;
    } else {
      ActivesAppend(a[1..], b);
      var own := if a[0].active then [Claim(a[0].id, a[0].target)] else [];
      assert (a + b)[0] == a[0] && (a + b)[1..] == a[1..] + b;
      assert own + (Actives(a[1..]) + Actives(b)) == (own + Actives(a[1..])) + Actives(b);
    }
  }

  lemma {:induction false} FirstActiveIsFirstClaim(ds: seq<Detour>)
    ensures FirstActive(ds) == if Actives(ds) == [] then None else Some(Actives(ds)[0].target)
  {
    if ds != [] {
      FirstActiveIsFirstClaim(ds[1..]);
    }
  }

  ghost predicate Names(units: seq<AppliedUnit>, f: Addr) {
    exists u :: 0 <= u < |units| && units[u].oldFun == f
  }

  /** The newest patch that names `f`, and its last unit that does. */
  ghost predicate Newest(patches: seq<Patch>, f: Addr, i: nat, u: nat) {
    && i < |patches| && u < |patches[i].units| && patches[i].units[u].oldFun == f
    && (forall v :: u < v < |patches[i].units| ==> patches[i].units[v].oldFun != f)
    && forall j :: 0 <= j < i ==> !Names(patches[j].units, f)
  }

  lemma {:induction false} NoClaims(id: PatchId, units: seq<AppliedUnit>, f: Addr)
    requires !Names(units, f)
    ensures ClaimsOf(id, units, f) == []
  {
    if units != [] {
      assert forall v :: 0 <= v < |units[1..]| ==> units[1..][v] == units[v + 1];
      NoClaims(id, units[1..], f);
    }
  }

  lemma {:induction false} LastUnitWins(id: PatchId, units: seq<AppliedUnit>, f: Addr, u: nat)
    requires u < |units| && units[u].oldFun == f && forall v :: u < v < |units| ==> units[v].oldFun != f
    ensures ClaimsOf(id, units, f) != [] && ClaimsOf(id, units, f)[0] == Claim(id, units[u].newFun)
  {
    var rest := units[1..];
    assert forall v :: 0 <= v < |rest| ==> rest[v] == units[v + 1];
    if u == 0 {
      NoClaims(id, rest, f);
    } else {
      LastUnitWins(id, rest, f, u - 1);
    }
  }

  lemma {:induction false} NewestClaims(patches: seq<Patch>, f: Addr, i: nat, u: nat)
    requires Newest(patches, f, i, u)
    ensures Claims(patches, f) != [] && Claims(patches, f)[0] == Claim(patches[i].id, patches[i].units[u].newFun)
  {
    hide ClaimsOf;
    if i == 0 {
      LastUnitWins(patches[0].id, patches[0].units, f, u);
    } else {
      NoClaims(patches[0].id, patches[0].units, f);
      assert forall j :: 0 <= j < |patches[1..]| ==> patches[1..][j] == patches[j + 1];
      assert Newest(patches[1..], f, i - 1, u);
      NewestClaims(patches[1..], f, i - 1, u);
    }
  }

  lemma {:induction false} NobodyClaims(patches: seq<Patch>, f: Addr)
    requires forall i :: 0 <= i < |patches| ==> !Names(patches[i].units, f)
    ensures Claims(patches, f) == []
  {
    if patches != [] {
      NoClaims(patches[0].id, patches[0].units, f);
      assert forall j :: 0 <= j < |patches[1..]| ==> patches[1..][j] == patches[j + 1];
      NobodyClaims(patches[1..], f);
    }
  }

  /** What is installed for `f` is what the last matching unit of the newest applied
      patch that names `f` says, and nothing if no applied patch names it. */
  lemma InstalledIsNewest(st: State, f: Addr)
    requires RecordsOk(st)
    ensures forall i: nat, u: nat :: Newest(st.patches, f, i, u) ==>
      FirstActive(DetoursAt(st.roots, f)) == Some(st.patches[i].units[u].newFun)
    ensures (forall i :: 0 <= i < |st.patches| ==> !Names(st.patches[i].units, f)) ==>
      FirstActive(DetoursAt(st.roots, f)) == None
  {
    hide Claims, Actives, FirstActive, DetoursAt, Names, UniqueIds, DepsBelow, RootsShaped;
    FirstActiveIsFirstClaim(DetoursAt(st.roots, f));
    forall i: nat, u: nat | Newest(st.patches, f, i, u)
      ensures FirstActive(DetoursAt(st.roots, f)) == Some(st.patches[i].units[u].newFun)
    {
      NewestClaims(st.patches, f, i, u);
    }
    if forall i :: 0 <= i < |st.patches| ==> !Names(st.patches[i].units, f) {
      NobodyClaims(st.patches, f);
    }
  }

  function DropId(cs: seq<Claim>, id: PatchId): seq<Claim> {
    if cs == [] then []
    else (if cs[0].id == id then [] else [cs[0]]) + DropId(cs[1..], id)
  }

  lemma {:induction false} DropIdAppend(a: seq<Claim>, b: seq<Claim>, id: PatchId)
    ensures DropId(a + b, id) == DropId(a, id) + DropId(b, id)
  {
    if a == [] {
      assert a + b == b;
    } else {
      assert (a + b)[1..] == a[1..] + b;
      DropIdAppend(a[1..], b, id);
    }
  }

  lemma {:induction false} DropIdOwn(id: PatchId, units: seq<AppliedUnit>, f: Addr, gone: PatchId)
    ensures DropId(ClaimsOf(id, units, f), gone) == if id == gone then [] else ClaimsOf(id, units, f)
  {
    if units != [] {
      var own := if units[0].oldFun == f then [Claim(id, units[0].newFun)] else [];
      DropIdAppend(ClaimsOf(id, units[1..], f), own, gone);
      DropIdOwn(id, units[1..], f, gone);
      if own != [] {
        assert own[1..] == [];
      }
    }
  }

  lemma {:induction false} DropIdAbsent(patches: seq<Patch>, f: Addr, gone: PatchId)
    requires forall i :: 0 <= i < |patches| ==> patches[i].id != gone
    ensures DropId(Claims(patches, f), gone) == Claims(patches, f)
  {
    if patches != [] {
      DropIdAppend(ClaimsOf(patches[0].id, patches[0].units, f), Claims(patches[1..], f), gone);
      DropIdOwn(patches[0].id, patches[0].units, f, gone);
      DropIdAbsent(patches[1..], f, gone);
    }
  }

  lemma RemoveLater(patches: seq<Patch>, gone: PatchId)
    requires patches != [] && patches[0].id != gone
    ensures RemovePatch(patches, gone) == [patches[0]] + RemovePatch(patches[1..], gone)
  {
    hide PatchIndex;
    var n, rest := PatchIndex(patches, gone), patches[1..];
    assert n == 1 + PatchIndex(rest, gone) by { IndexLater(patches, gone); }
    assert patches[..n] == [patches[0]] + rest[..n - 1];
    assert patches == [patches[0]] + rest;
    assert n < |patches| ==> patches[n + 1..] == rest[n..];
  }

  lemma IndexLater(patches: seq<Patch>, id: PatchId)
    requires patches != [] && patches[0].id != id
    ensures PatchIndex(patches, id) == 1 + PatchIndex(patches[1..], id)
  {
  }

  /** Removing a patch from the list erases exactly its claims. */
  lemma {:induction false} RemovedClaims(patches: seq<Patch>, f: Addr, gone: PatchId)
    requires UniqueIds(patches)
    ensures Claims(RemovePatch(patches, gone), f) == DropId(Claims(patches, f), gone)
  {
    if patches != [] {
      DropIdAppend(ClaimsOf(patches[0].id, patches[0].units, f), Claims(patches[1..], f), gone);
      DropIdOwn(patches[0].id, patches[0].units, f, gone);
      if patches[0].id == gone {
        assert RemovePatch(patches, gone) == patches[1..];
        DropIdAbsent(patches[1..], f, gone);
      } else {
        RemovedClaims(patches[1..], f, gone);
        RemoveLater(patches, gone);
      }
    }
  }

  // ---------- applying ----------

  /** The detours the units of one patch add to the list of `f`. */
  function UnitDetours(id: PatchId, universe: nat, units: seq<AppliedUnit>, f: Addr): seq<Detour> {
    if units == [] then []
    else
      UnitDetours(id, universe, units[1..], f)
      + if units[0].oldFun == f then [Detour(id, universe, units[0].newFun, true)] else []
  }

  lemma {:induction false} UnitDetoursClaims(id: PatchId, universe: nat, units: seq<AppliedUnit>, f: Addr)
    ensures Actives(UnitDetours(id, universe, units, f)) == ClaimsOf(id, units, f)
  {
    if units != [] {
      var own := if units[0].oldFun == f then [Detour(id, universe, units[0].newFun, true)] else [];
      ActivesAppend(UnitDetours(id, universe, units[1..], f), own);
      UnitDetoursClaims(id, universe, units[1..], f);
      if own != [] {
        assert own[1..] == [];
      }
    }
  }

  lemma PushedDetours(st: State, id: PatchId, f: Addr, target: Addr, g: Addr)
    ensures
      var d := Detour(id, st.universe, target, true);
      DetoursAt(PushDetour(st, id, f, target).roots, g)
      == (if g == f then [d] else []) + DetoursAt(st.roots, g)
    ensures PushDetour(st, id, f, target).universe == st.universe
  {
    var r := PushDetour(st, id, f, target).roots;
    var i := RootIndex(st.roots, f);
    if i < |st.roots| {
      SameIndex(st.roots, r, g);
    } else {
      assert r[1..] == st.roots;
    }
  }

  lemma SameIndex(roots: seq<Root>, roots': seq<Root>, f: Addr)
    requires |roots| == |roots'|
    requires forall j :: 0 <= j < |roots| ==> roots[j].addr == roots'[j].addr
    ensures RootIndex(roots, f) == RootIndex(roots', f)
  {
  }

  lemma PushedShape(st: State, id: PatchId, f: Addr, target: Addr)
    requires RootsShaped(st.roots, st.nextIndex, st.universe)
    ensures
      var r := PushDetour(st, id, f, target);
      RootsShaped(r.roots, r.nextIndex, r.universe)
  {
    hide Ordered;
    var r := PushDetour(st, id, f, target);
    var d := Detour(id, st.universe, target, true);
    var i := RootIndex(st.roots, f);
    if i < |st.roots| {
      PushedOrdered(d, st.roots[i].detours);
      assert forall j :: 0 <= j < |r.roots| ==>
        r.roots[j].addr == st.roots[j].addr && r.roots[j].index == st.roots[j].index;
    } else {
      PushedOrdered(d, []);
      assert [d] + [] == [d];
      assert forall j :: 1 <= j < |r.roots| ==> r.roots[j] == st.roots[j - 1];
    }
  }

  lemma PushedOrdered(d: Detour, ds: seq<Detour>)
    requires Ordered(ds, d.universe)
    ensures Ordered([d] + ds, d.universe)
  {
  }

  lemma {:induction false} AppliedShape(cap: nat, st: State, id: PatchId, units: seq<Unit>)
    requires RootsShaped(st.roots, st.nextIndex, st.universe)
    ensures
      var r := ApplyUnits(cap, st, id, units).0;
      RootsShaped(r.roots, r.nextIndex, st.universe)
    decreases |units|
  {
    hide RootsShaped, KindOf, PatchWrite;
    if units != [] && units[0].oldFun.Some? && units[0].newFun.Some? {
      var f, target := units[0].oldFun.value, units[0].newFun.value;
      var st1 := PushDetour(st, id, f, target);
      var (st2, code) := Emit(cap, st1, f, Some(target));
      assert st2.roots == st1.roots && st2.universe == st1.universe && st2.nextIndex == st1.nextIndex;
      PushedShape(st, id, f, target);
      AppliedShape(cap, st2, id, units[1..]);
    }
  }

  lemma {:induction false} AppliedDetours(cap: nat, st: State, id: PatchId, units: seq<Unit>, g: Addr)
    requires ApplyUnits(cap, st, id, units).1 == 0
    ensures Resolve(units).Some?
    ensures DetoursAt(ApplyUnits(cap, st, id, units).0.roots, g)
         == UnitDetours(id, st.universe, Resolve(units).value, g) + DetoursAt(st.roots, g)
    decreases |units|
  {
    hide DetoursAt, Emit, PushDetour, UnitDetours;
    if units == [] {
      assert UnitDetours(id, st.universe, [], g) == [] by { NoUnitDetours(id, st.universe, g); }
    } else {
      var f, target := units[0].oldFun.value, units[0].newFun.value;
      var st1 := PushDetour(st, id, f, target);
      var (st2, code) := Emit(cap, st1, f, Some(target));
      EmitRoots(cap, st1, f, Some(target));
      PushedDetours(st, id, f, target, g);
      AppliedDetours(cap, st2, id, units[1..], g);
      var rest := Resolve(units[1..]).value;
      var more := UnitDetours(id, st.universe, rest, g);
      var own := if g == f then [Detour(id, st.universe, target, true)] else [];
      MoreUnitDetours(id, st.universe, AppliedUnit(f, target), rest, g);
      assert more + (own + DetoursAt(st.roots, g)) == (more + own) + DetoursAt(st.roots, g);
    }
  }

  lemma NoUnitDetours(id: PatchId, universe: nat, f: Addr)
    ensures UnitDetours(id, universe, [], f) == []
  {
  }

  lemma MoreUnitDetours(id: PatchId, universe: nat, u: AppliedUnit, rest: seq<AppliedUnit>, f: Addr)
    ensures UnitDetours(id, universe, [u] + rest, f)
         == UnitDetours(id, universe, rest, f) + if u.oldFun == f then [Detour(id, universe, u.newFun, true)] else []
  {
    assert ([u] + rest)[1..] == rest;
  }

  lemma EmitRoots(cap: nat, st: State, f: Addr, top: Option<Addr>)
    ensures
      var r := Emit(cap, st, f, top).0;
      r == st.(mem := r.mem, pending := r.pending, error := r.error)
  {
  }

  lemma ApplyRecords(cap: nat, st: State, m: Meta)
    requires RecordsOk(st)
    requires Sanity(st.patches, m) == ENONE && StateUpdate(st, m).Some?
    requires ApplyAllUnits(cap, StateUpdate(st, m).value, m).1 == 0
    ensures RecordsOk(ApplyAllUnits(cap, StateUpdate(st, m).value, m).0)
  {
    var st1 := StateUpdate(st, m).value;
    var st2 := st1.(universe := st1.universe + 1);
    var r := ApplyAllUnits(cap, st1, m).0;
    var units := Resolve(m.units).value;
    AppliedRoots(cap, st1, m);
    assert r.patches == [Patch(m.id, Clip(BaseName(m.lib)), Reverse(m.deps), units)] + st.patches;
    assert RootsShaped(st2.roots, st2.nextIndex, st2.universe);
    NewPatchOnTop(st.patches, r.patches[0], m);
    hide Sanity, StateUpdate, ApplyAllUnits, ApplyUnits, RootsShaped, DetoursAt, Actives, UniqueIds, DepsBelow, Claims, Resolve;
    AppliedShape(cap, st2, m.id, m.units);
    forall f ensures Actives(DetoursAt(r.roots, f)) == Claims(r.patches, f) {
      AppliedDetours(cap, st2, m.id, m.units, f);
      UnitDetoursClaims(m.id, st2.universe, units, f);
      ActivesAppend(UnitDetours(m.id, st2.universe, units, f), DetoursAt(st.roots, f));
      ClaimsOnTop(st.patches, r.patches[0], f);
    }
  }

  lemma ClaimsOnTop(patches: seq<Patch>, p: Patch, f: Addr)
    ensures Claims([p] + patches, f) == ClaimsOf(p.id, p.units, f) + Claims(patches, f)
  {
    assert ([p] + patches)[1..] == patches;
  }

  /** The roots after a whole apply are those after its units. */
  lemma AppliedRoots(cap: nat, st: State, m: Meta)
    requires ApplyAllUnits(cap, st, m).1 == 0
    ensures
      var r := ApplyAllUnits(cap, st, m).0;
      var (u, code) := ApplyUnits(cap, st.(universe := st.universe + 1), m.id, m.units);
      && code == 0 && r.roots == u.roots && r.nextIndex == u.nextIndex
      && r.patches == st.patches && r.universe == st.universe + 1 && u.universe == st.universe + 1
  {
    ApplyUnitsError(cap, st.(universe := st.universe + 1), m.id, m.units);
    hide ApplyUnits, ApplyRefs;
    if m.bases.Bases? {
      ApplyRefsError(cap, ApplyUnits(cap, st.(universe := st.universe + 1), m.id, m.units).0, m.bases, m.refs);
    }
  }

  lemma NewPatchOnTop(patches: seq<Patch>, p: Patch, m: Meta)
    requires UniqueIds(patches) && DepsBelow(patches)
    requires Sanity(patches, m) == ENONE && p.id == m.id && p.deps == Reverse(m.deps)
    ensures UniqueIds([p] + patches) && DepsBelow([p] + patches)
  {
    var ps := [p] + patches;
    forall i, d | 0 <= i < |ps| && d in ps[i].deps ensures IsApplied(ps[i + 1..], d) {
      if i == 0 {
        assert ps[1..] == patches;
        assert d in m.deps;
      } else {
        assert ps[i] == patches[i - 1] && ps[i + 1..] == patches[i..];
      }
    }
  }

  // ---------- reverting ----------

  function Off(d: Detour, id: PatchId): Detour {
    if d.id == id then d.(active := false) else d
  }

  /** `ds` with the detours of `id` switched off from position `k` on. */
  function SwitchOff(ds: seq<Detour>, id: PatchId, k: nat): (r: seq<Detour>)
    ensures |r| == |ds|
  {
    seq(|ds|, m requires 0 <= m < |ds| => if m >= k then Off(ds[m], id) else ds[m])
  }

  lemma {:induction false} SwitchedClaims(ds: seq<Detour>, id: PatchId)
    ensures Actives(SwitchOff(ds, id, 0)) == DropId(Actives(ds), id)
  {
    if ds != [] {
      assert SwitchOff(ds, id, 0)[1..] == SwitchOff(ds[1..], id, 0);
      SwitchedClaims(ds[1..], id);
      var own := if ds[0].active then [Claim(ds[0].id, ds[0].target)] else [];
      DropIdAppend(own, Actives(ds[1..]), id);
      if own != [] {
        assert own[1..] == [];
      }
    }
  }

  /** The loops of ulp_revert_all_units switch off exactly the detours of `id`. */
  lemma {:induction false} RevertedRoots(cap: nat, st: State, id: PatchId, i: nat, k: nat)
    ensures
      var r := RevertFrom(cap, st, id, i, k).roots;
      && |r| == |st.roots|
      && (forall j :: 0 <= j < i && j < |r| ==> r[j] == st.roots[j])
      && (i < |r| ==> r[i] == st.roots[i].(detours := SwitchOff(st.roots[i].detours, id, k)))
      && forall j :: i < j < |r| ==> r[j] == st.roots[j].(detours := SwitchOff(st.roots[j].detours, id, 0))
    decreases |st.roots| - i, if i < |st.roots| then |st.roots[i].detours| - k else 0
  {
    hide Emit, FirstActive;
    if i >= |st.roots| {
    } else if k >= |st.roots[i].detours| {
      assert SwitchOff(st.roots[i].detours, id, k) == st.roots[i].detours;
      RevertedRoots(cap, st, id, i + 1, 0);
    } else {
      var ds := st.roots[i].detours;
      if ds[k].id != id {
        RevertedRoots(cap, st, id, i, k + 1);
        assert SwitchOff(ds, id, k) == SwitchOff(ds, id, k + 1);
      } else {
        var st' := RevertStep(cap, st, i, k);
        RevertedRoots(cap, st', id, i, k + 1);
        assert SwitchOff(ds, id, k) == SwitchOff(st'.roots[i].detours, id, k + 1);
      }
    }
  }

  lemma AppliedAt(patches: seq<Patch>, id: PatchId, i: nat)
    requires i < |patches| && patches[i].id == id
    ensures IsApplied(patches, id)
  {
  }

  /** Taking one patch out leaves the others applied, and in their order. */
  lemma StillAbove(patches: seq<Patch>, m: nat, n: nat, d: PatchId)
    requires m < |patches| && n < |patches| && n != m
    requires IsApplied(patches[n + 1..], d) && patches[m].id != d
    ensures
      var ps := patches[..m] + patches[m + 1..];
      var i := if n < m then n else n - 1;
      i < |ps| && IsApplied(ps[i + 1..], d)
  {
    var ps := patches[..m] + patches[m + 1..];
    var i := if n < m then n else n - 1;
    var at := n + 1 + PatchIndex(patches[n + 1..], d);
    assert patches[at].id == d;
    var at' := if at < m then at else at - 1;
    assert ps[at'] == patches[at];
    AppliedAt(ps[i + 1..], d, at' - (i + 1));
  }

  lemma RemovedPatchList(patches: seq<Patch>, id: PatchId)
    requires UniqueIds(patches) && DepsBelow(patches) && !HasDependent(patches, id)
    ensures UniqueIds(RemovePatch(patches, id)) && DepsBelow(RemovePatch(patches, id))
  {
    hide IsApplied;
    var ps := RemovePatch(patches, id);
    var m := PatchIndex(patches, id);
    if m < |patches| {
      forall i, d | 0 <= i < |ps| && d in ps[i].deps ensures IsApplied(ps[i + 1..], d) {
        var n := if i < m then i else i + 1;
        assert ps[i] == patches[n] && patches[n] in patches;
        StillAbove(patches, m, n, d);
      }
    }
  }

  lemma SwitchedOrdered(ds: seq<Detour>, id: PatchId, universe: nat, universe': nat)
    requires Ordered(ds, universe) && universe <= universe'
    ensures Ordered(SwitchOff(ds, id, 0), universe')
  {
  }

  /** Reverting keeps the records straight, whether or not the queue overflows. */
  lemma RevertRecords(cap: nat, st: State, id: PatchId)
    requires RecordsOk(st) && CanRevert(st.patches, id) == 0
    ensures RecordsOk(RevertPatch(cap, st, id).0)
    ensures RevertPatch(cap, st, id).0.patches == RemovePatch(st.patches, id)
    ensures forall f :: Actives(DetoursAt(RevertPatch(cap, st, id).0.roots, f))
                     == DropId(Actives(DetoursAt(st.roots, f)), id)
    ensures RevertPatch(cap, st, id).1 == 0
  {
    var st0 := st.(universe := st.universe + 1);
    var r := RevertPatch(cap, st, id).0;
    RevertedRoots(cap, st0, id, 0, 0);
    RevertFromKeeps(cap, st0, id, 0, 0);
    hide Ordered, Actives, DropId, SwitchOff, RevertFrom, IsApplied, PatchIndex;
    forall i | 0 <= i < |r.roots|
      ensures r.roots[i] == st.roots[i].(detours := SwitchOff(st.roots[i].detours, id, 0))
      ensures Ordered(r.roots[i].detours, r.universe)
    {
      SwitchedOrdered(st.roots[i].detours, id, st.universe, r.universe);
    }
    forall f
      ensures Actives(DetoursAt(r.roots, f)) == DropId(Actives(DetoursAt(st.roots, f)), id)
      ensures Actives(DetoursAt(r.roots, f)) == Claims(r.patches, f)
    {
      SameIndex(st.roots, r.roots, f);
      SwitchedClaims(DetoursAt(st.roots, f), id);
      EmptySwitched(id);
      RemovedClaims(st.patches, f, id);
    }
    RemovedPatchList(st.patches, id);
  }

  lemma EmptySwitched(id: PatchId)
    ensures SwitchOff([], id, 0) == []
  {
  }
}
