/** Universes: every session that applies a patch has one of its own. */
module Universes {
  import opened Bytes
  import opened Errors
  import opened X86
  import opened Engine
  import opened ControlFlow

  ghost predicate At(roots: seq<Root>, i: int, k: int) {
    0 <= i < |roots| && 0 <= k < |roots[i].detours|
  }

  /** No detour is of a later universe than the current one, and detours of one
      universe, in any stacks, belong to one patch. */
  ghost predicate Stamped(roots: seq<Root>, universe: nat) {
    && (forall i, k :: At(roots, i, k) ==> roots[i].detours[k].universe <= universe)
    && forall i, k, j, l ::
         (At(roots, i, k) && At(roots, j, l) && roots[i].detours[k].universe == roots[j].detours[l].universe)
         ==> roots[i].detours[k].id == roots[j].detours[l].id
  }

  /** The current universe is that of `id`. */
  ghost predicate Owns(roots: seq<Root>, universe: nat, id: PatchId) {
    forall i, k :: At(roots, i, k) && roots[i].detours[k].universe == universe ==> roots[i].detours[k].id == id
  }

  /** The same detours, but for their flags. */
  ghost predicate SameStamps(a: seq<Root>, b: seq<Root>) {
    && |a| == |b|
    && (forall i :: 0 <= i < |a| ==> |a[i].detours| == |b[i].detours|)
    && forall i, k :: At(a, i, k) ==>
         a[i].detours[k].universe == b[i].detours[k].universe && a[i].detours[k].id == b[i].detours[k].id
  }

  lemma SameIsStamped(a: seq<Root>, b: seq<Root>, universe: nat)
    requires SameStamps(a, b) && Stamped(a, universe)
    ensures Stamped(b, universe)
  {
    assert forall i, k :: At(b, i, k) ==> At(a, i, k);
  }

  lemma SameTwice(a: seq<Root>, b: seq<Root>, c: seq<Root>)
    requires SameStamps(a, b) && SameStamps(b, c)
    ensures SameStamps(a, c)
  {
    assert forall i, k :: At(a, i, k) ==> At(b, i, k);
  }

  /** Where each detour of the pushed list was before. */
  lemma PushedFrom(st: State, id: PatchId, f: Addr, target: Addr, i: int, k: int)
    requires At(PushDetour(st, id, f, target).roots, i, k)
    ensures
      var d := PushDetour(st, id, f, target).roots[i].detours[k];
      || (d.universe == st.universe && d.id == id)
      || exists j, l :: At(st.roots, j, l) && st.roots[j].detours[l] == d
  {
    var r := PushDetour(st, id, f, target).roots;
    var n := RootIndex(st.roots, f);
    if n < |st.roots| {
      if i != n {
        assert At(st.roots, i, k) && st.roots[i].detours[k] == r[i].detours[k];
      } else if k > 0 {
        assert At(st.roots, i, k - 1) && st.roots[i].detours[k - 1] == r[i].detours[k];
      }
    } else if i > 0 {
      assert r[i] == st.roots[i - 1];
      assert At(st.roots, i - 1, k) && st.roots[i - 1].detours[k] == r[i].detours[k];
    }
  }

  lemma PushStamps(st: State, id: PatchId, f: Addr, target: Addr)
    requires Stamped(st.roots, st.universe) && Owns(st.roots, st.universe, id)
    ensures
      var r := PushDetour(st, id, f, target).roots;
      Stamped(r, st.universe) && Owns(r, st.universe, id)
  {
    var r := PushDetour(st, id, f, target).roots;
    hide PushDetour;
    forall i, k | At(r, i, k)
      ensures r[i].detours[k].universe <= st.universe
      ensures r[i].detours[k].universe == st.universe ==> r[i].detours[k].id == id
    {
      PushedFrom(st, id, f, target, i, k);
    }
    forall i, k, j, l | At(r, i, k) && At(r, j, l) && r[i].detours[k].universe == r[j].detours[l].universe
      ensures r[i].detours[k].id == r[j].detours[l].id
    {
      PushedFrom(st, id, f, target, i, k);
      PushedFrom(st, id, f, target, j, l);
    }
  }

  lemma {:induction false} UnitsStamp(cap: nat, st: State, id: PatchId, units: seq<Unit>)
    requires Stamped(st.roots, st.universe) && Owns(st.roots, st.universe, id)
    ensures
      var r := ApplyUnits(cap, st, id, units).0;
      Stamped(r.roots, st.universe) && r.universe == st.universe
    decreases |units|
  {
    hide Stamped, Owns, KindOf, PatchWrite;
    if units != [] && units[0].oldFun.Some? && units[0].newFun.Some? {
      var f, target := units[0].oldFun.value, units[0].newFun.value;
      PushStamps(st, id, f, target);
      var st1 := PushDetour(st, id, f, target);
      var (st2, code) := Emit(cap, st1, f, Some(target));
      assert st2.roots == st1.roots && st2.universe == st.universe;
      hide Emit, PushDetour;
      if code <= 0 {
        UnitsStamp(cap, st2, id, units[1..]);
      }
    }
  }

  lemma NewUniverse(roots: seq<Root>, universe: nat, id: PatchId)
    requires Stamped(roots, universe)
    ensures Stamped(roots, universe + 1) && Owns(roots, universe + 1, id)
  {
  }

  lemma ApplyStamps(cap: nat, st: State, m: Meta)
    requires Stamped(st.roots, st.universe)
    ensures
      var r := ApplyAllUnits(cap, st, m).0;
      Stamped(r.roots, r.universe)
  {
    var st1 := st.(universe := st.universe + 1);
    NewUniverse(st.roots, st.universe, m.id);
    UnitsStamp(cap, st1, m.id, m.units);
    hide Stamped, Owns, ApplyUnits, ApplyRefs;
    if m.bases.Bases? {
      ApplyRefsError(cap, ApplyUnits(cap, st1, m.id, m.units).0, m.bases, m.refs);
    }
  }

  lemma DeactivateSame(roots: seq<Root>, i: nat, k: nat)
    requires i < |roots| && k < |roots[i].detours|
    ensures SameStamps(roots, Deactivate(roots, i, k))
  {
  }

  lemma {:induction false} RevertSame(cap: nat, st: State, id: PatchId, i: nat, k: nat)
    ensures SameStamps(st.roots, RevertFrom(cap, st, id, i, k).roots)
    decreases |st.roots| - i, if i < |st.roots| then |st.roots[i].detours| - k else 0
  {
    hide SameStamps, Emit, FirstActive, Deactivate;
    if i >= |st.roots| {
      SameItself(st.roots);
    } else if k >= |st.roots[i].detours| {
      RevertSame(cap, st, id, i + 1, 0);
    } else if st.roots[i].detours[k].id != id {
      RevertSame(cap, st, id, i, k + 1);
    } else {
      var st' := RevertStep(cap, st, i, k);
      DeactivateSame(st.roots, i, k);
      RevertSame(cap, st', id, i, k + 1);
      SameTwice(st.roots, st'.roots, RevertFrom(cap, st', id, i, k + 1).roots);
    }
  }

  lemma SameItself(roots: seq<Root>)
    ensures SameStamps(roots, roots)
  {
  }

  lemma RevertStamps(cap: nat, st: State, id: PatchId)
    requires Stamped(st.roots, st.universe)
    ensures
      var r := RevertPatch(cap, st, id).0;
      Stamped(r.roots, r.universe)
  {
    var st1 := st.(universe := st.universe + 1);
    RevertSame(cap, st1, id, 0, 0);
    RevertFromKeeps(cap, st1, id, 0, 0);
    NewUniverse(st.roots, st.universe, id);
    hide Stamped, SameStamps, RevertFrom, Owns, PatchIndex;
    SameIsStamped(st.roots, RevertFrom(cap, st1, id, 0, 0).roots, st1.universe);
  }

  lemma {:induction false} WalkStamps(cap: nat, st: State, k: nat, lib: string, ret: int)
    requires Stamped(st.roots, st.universe)
    ensures
      var r := RevertAllFrom(cap, st, k, lib, ret).st;
      Stamped(r.roots, r.universe)
    decreases |st.patches| - k
  {
    hide Stamped, RevertPatch, HasDependent;
    if k >= |st.patches| {
    } else if st.patches[k].lib != lib {
      WalkStamps(cap, st, k + 1, lib, ret);
    } else if CanRevert(st.patches, st.patches[k].id) == 0 {
      RevertStamps(cap, st, st.patches[k].id);
      var (st', code) := RevertPatch(cap, st, st.patches[k].id);
      if code == 0 {
        WalkStamps(cap, st', k, lib, code);
      }
    }
  }

  lemma LoadStamps(cap: nat, st: State, parse: Parse)
    requires Stamped(st.roots, st.universe)
    ensures
      var r := LoadPatch(cap, st, parse).0;
      Stamped(r.roots, r.universe)
  {
    LoadPatchIs(cap, st, parse);
    hide LoadPatch, ApplyAllUnits, RevertPatch, Stamped, Resolve;
    if parse.Parsed? {
      RevertStamps(cap, st, parse.meta.id);
      if StateUpdate(st, parse.meta).Some? {
        ApplyStamps(cap, StateUpdate(st, parse.meta).value, parse.meta);
      }
    }
  }

  lemma NextStamps(cap: nat, st: State, op: Op)
    requires Stamped(st.roots, st.universe)
    ensures Stamped(Next(cap, st, op).roots, Next(cap, st, op).universe)
  {
    hide Stamped, LoadPatch, RevertAllFrom, BaseName, Clip, BasenameOffset;
    match op {
      case Toggle =>
      case Drain =>
      case Trigger(parse, busy) => LoadStamps(cap, st, parse);
      case RevertAll(path, loaded, busy) => WalkStamps(cap, st, 0, Clip(BaseName(path)), ENOTARGETLIB);
    }
  }

  /** In every reachable state, errors included: two detours of one universe come from
      one patch, and none is of a universe still to come. */
  lemma {:induction false} RunStamps(cap: nat, st: State, ops: seq<Op>)
    requires Stamped(st.roots, st.universe)
    ensures Stamped(Run(cap, st, ops).roots, Run(cap, st, ops).universe)
    decreases |ops|
  {
    hide Stamped, Next;
    if ops != [] {
      NextStamps(cap, st, ops[0]);
      RunStamps(cap, Next(cap, st, ops[0]), ops[1..]);
    }
  }

  lemma UniversesTell(cap: nat, mem0: seq<byte>, immediate: bool, ops: seq<Op>)
    ensures
      var st := Run(cap, Start(mem0, immediate), ops);
      Stamped(st.roots, st.universe)
  {
    assert Stamped([], 0);
    RunStamps(cap, Start(mem0, immediate), ops);
  }
}
