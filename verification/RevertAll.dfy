/** Reverting every patch of one library: when the walk over the patch list
    comes to an end, and what is left then. */
module RevertAll {
  import opened Bytes
  import opened Errors
  import opened Engine
  import opened Records

  // ---------- the loop, one iteration at a time ----------

  datatype Cursor = At(st: State, k: nat, ret: int) | Done(st: State, code: int)

  /** One turn of the while loop. When the patch under the cursor cannot be
      reverted the loop starts over without having moved the cursor. */
  function Turn(cap: nat, c: Cursor, lib: string): Cursor {
    match c
    case Done(_, _) => c
    case At(st, k, ret) =>
      if k >= |st.patches| then Done(st, ret)
      else if st.patches[k].lib != lib then At(st, k + 1, ret)
      else
        var can := CanRevert(st.patches, st.patches[k].id);
        if can != 0 then At(st, k, can)
        else
          var (st', code) := RevertPatch(cap, st, st.patches[k].id);
          if code != 0 then Done(st', code) else At(st', k, code)
  }

  function Turns(cap: nat, c: Cursor, lib: string, n: nat): Cursor
    decreases n
  {
    if n == 0 then c else Turns(cap, Turn(cap, c, lib), lib, n - 1)
  }

  ghost predicate Ends(cap: nat, c: Cursor, lib: string) {
    exists n :: Turns(cap, c, lib, n).Done?
  }

  lemma {:induction false} StaysStuck(cap: nat, st: State, k: nat, ret: int, lib: string, n: nat)
    requires k < |st.patches| && st.patches[k].lib == lib
    requires CanRevert(st.patches, st.patches[k].id) != 0
    ensures !Turns(cap, At(st, k, ret), lib, n).Done?
    decreases n
  {
    if n > 0 {
      StaysStuck(cap, st, k, CanRevert(st.patches, st.patches[k].id), lib, n - 1);
    }
  }

  lemma TurnFirst(cap: nat, c: Cursor, lib: string)
    requires c.At?
    ensures Ends(cap, c, lib) <==> Ends(cap, Turn(cap, c, lib), lib)
  {
    hide Turn;
    if n: nat :| Turns(cap, c, lib, n).Done? {
      assert n > 0;
      assert Turns(cap, Turn(cap, c, lib), lib, n - 1).Done?;
    }
    if n: nat :| Turns(cap, Turn(cap, c, lib), lib, n).Done? {
      assert Turns(cap, c, lib, n + 1).Done?;
    }
  }

  /** The recursive walk returns exactly when the loop ends. */
  lemma {:induction false} WalkIsLoop(cap: nat, st: State, k: nat, lib: string, ret: int)
    ensures RevertAllFrom(cap, st, k, lib, ret).Returned? <==> Ends(cap, At(st, k, ret), lib)
    decreases |st.patches| - k
  {
    hide CanRevert, RevertPatch, Turn, Turns;
    TurnFirst(cap, At(st, k, ret), lib);
    if k >= |st.patches| {
      assert Turn(cap, At(st, k, ret), lib) == Done(st, ret) by { TurnDone(cap, st, k, ret, lib); }
      DoneEnds(cap, st, ret, lib);
    } else if st.patches[k].lib != lib {
      TurnCases(cap, st, k, ret, lib);
      WalkIsLoop(cap, st, k + 1, lib, ret);
    } else if CanRevert(st.patches, st.patches[k].id) != 0 {
      forall n: nat ensures !Turns(cap, At(st, k, ret), lib, n).Done? {
        StaysStuck(cap, st, k, ret, lib, n);
      }
    } else {
      TurnCases(cap, st, k, ret, lib);
      AppliedAt(st.patches, st.patches[k].id, k);
      var (st', code) := RevertPatch(cap, st, st.patches[k].id);
      if code != 0 {
        DoneEnds(cap, st', code, lib);
      } else {
        WalkIsLoop(cap, st', k, lib, code);
      }
    }
  }

  lemma TurnDone(cap: nat, st: State, k: nat, ret: int, lib: string)
    requires k >= |st.patches|
    ensures Turn(cap, At(st, k, ret), lib) == Done(st, ret)
  {
  }

  lemma TurnCases(cap: nat, st: State, k: nat, ret: int, lib: string)
    requires k < |st.patches|
    ensures st.patches[k].lib != lib ==> Turn(cap, At(st, k, ret), lib) == At(st, k + 1, ret)
    ensures st.patches[k].lib == lib && CanRevert(st.patches, st.patches[k].id) == 0 ==>
      var (st', code) := RevertPatch(cap, st, st.patches[k].id);
      Turn(cap, At(st, k, ret), lib) == if code != 0 then Done(st', code) else At(st', k, code)
  {
  }

  lemma DoneEnds(cap: nat, st: State, code: int, lib: string)
    ensures Ends(cap, Done(st, code), lib)
  {
    assert Turns(cap, Done(st, code), lib, 0).Done?;
  }

  // ---------- when it ends, and with what ----------

  /** A patch of another library depends on a patch of `lib`. */
  ghost predicate ForeignDependent(patches: seq<Patch>, lib: string) {
    exists p, q :: p in patches && q in patches && p.lib == lib && q.lib != lib && p.id in q.deps
  }

  /** The patches of all other libraries, in order. */
  function Others(patches: seq<Patch>, lib: string): (r: seq<Patch>)
    ensures forall p :: p in r <==> p in patches && p.lib != lib
  {
    if patches == [] then []
    else (if patches[0].lib == lib then [] else [patches[0]]) + Others(patches[1..], lib)
  }

  /** With dependencies older than their dependents, and no foreign ones, every
      patch of the library the cursor comes to can be reverted. */
  lemma CanRevertNext(patches: seq<Patch>, k: nat, lib: string)
    requires UniqueIds(patches) && DepsBelow(patches) && !ForeignDependent(patches, lib)
    requires k < |patches| && patches[k].lib == lib
    requires forall i :: 0 <= i < k ==> patches[i].lib != lib
    ensures CanRevert(patches, patches[k].id) == 0
    ensures RemovePatch(patches, patches[k].id) == patches[..k] + patches[k + 1..]
  {
    var id := patches[k].id;
    AppliedAt(patches, id, k);
    assert PatchIndex(patches, id) == k;
    forall i | 0 <= i < |patches| ensures id !in patches[i].deps {
      NotBelowItself(patches, i, k, lib);
    }
  }

  lemma NotBelowItself(patches: seq<Patch>, i: nat, k: nat, lib: string)
    requires UniqueIds(patches) && DepsBelow(patches) && !ForeignDependent(patches, lib)
    requires k < |patches| && patches[k].lib == lib && i < |patches|
    requires i < k ==> patches[i].lib != lib
    ensures patches[k].id !in patches[i].deps
  {
    assert patches[k] in patches && patches[i] in patches;
    if i >= k {
      NotAppliedAbove(patches, i, k);
    }
  }

  lemma NotAppliedAbove(patches: seq<Patch>, i: nat, k: nat)
    requires UniqueIds(patches) && k <= i < |patches|
    ensures !IsApplied(patches[i + 1..], patches[k].id)
  {
    var above := patches[i + 1..];
    forall j | 0 <= j < |above| ensures above[j].id != patches[k].id {
      assert above[j] == patches[i + 1 + j];
    }
  }

  lemma {:induction false} WalkReturns(cap: nat, st: State, k: nat, lib: string, ret: int)
    requires RecordsOk(st) && !ForeignDependent(st.patches, lib)
    requires k <= |st.patches| && forall i :: 0 <= i < k ==> st.patches[i].lib != lib
    ensures
      var r := RevertAllFrom(cap, st, k, lib, ret);
      && r.Returned? && RecordsOk(r.st)
      && r.st.patches == st.patches[..k] + Others(st.patches[k..], lib)
      && r.code == if (exists i :: k <= i < |st.patches| && st.patches[i].lib == lib) then 0 else ret
    decreases |st.patches| - k
  {
    hide RecordsOk, ForeignDependent, RevertPatch, CanRevert, RemovePatch, Others, UniqueIds, DepsBelow, RevertAllFrom;
    var ps := st.patches;
    WalkUnfolds(cap, st, k, lib, ret);
    if k >= |ps| {
      assert ps[..k] + Others(ps[k..], lib) == ps by { NoOthers(ps[k..], lib); }
    } else if ps[k].lib != lib {
      WalkReturns(cap, st, k + 1, lib, ret);
      OthersKeeps(ps, k, lib);
    } else {
      var id := ps[k].id;
      assert UniqueIds(ps) && DepsBelow(ps) by { RecordsList(st); }
      CanRevertNext(ps, k, lib);
      RevertRecords(cap, st, id);
      var (st', code) := RevertPatch(cap, st, id);
      FewerForeign(ps, st'.patches, lib);
      WalkReturns(cap, st', k, lib, code);
      OthersDrops(ps, k, lib);
    }
  }

  /** One turn of the walk. */
  lemma WalkUnfolds(cap: nat, st: State, k: nat, lib: string, ret: int)
    ensures k >= |st.patches| ==> RevertAllFrom(cap, st, k, lib, ret) == Returned(st, ret)
    ensures k < |st.patches| && st.patches[k].lib != lib ==>
      RevertAllFrom(cap, st, k, lib, ret) == RevertAllFrom(cap, st, k + 1, lib, ret)
    ensures k < |st.patches| && st.patches[k].lib == lib && CanRevert(st.patches, st.patches[k].id) == 0 ==>
      var (st', code) := RevertPatch(cap, st, st.patches[k].id);
      RevertAllFrom(cap, st, k, lib, ret)
        == if code != 0 then Returned(st', code) else RevertAllFrom(cap, st', k, lib, code)
  {
    hide RevertPatch, CanRevert;
  }

  lemma NoOthers(patches: seq<Patch>, lib: string)
    requires patches == []
    ensures Others(patches, lib) == []
  {
  }

  lemma OthersKeeps(ps: seq<Patch>, k: nat, lib: string)
    requires k < |ps| && ps[k].lib != lib
    ensures ps[..k + 1] + Others(ps[k + 1..], lib) == ps[..k] + Others(ps[k..], lib)
  {
    assert ps[k..][1..] == ps[k + 1..];
  }

  lemma OthersDrops(ps: seq<Patch>, k: nat, lib: string)
    requires k < |ps| && ps[k].lib == lib
    ensures
      var fewer := ps[..k] + ps[k + 1..];
      fewer[..k] + Others(fewer[k..], lib) == ps[..k] + Others(ps[k..], lib)
  {
    OthersHead(ps[k..], lib);
    hide Others;
    var fewer := ps[..k] + ps[k + 1..];
    assert fewer[..k] == ps[..k] && fewer[k..] == ps[k + 1..] == ps[k..][1..];
  }

  lemma OthersHead(ps: seq<Patch>, lib: string)
    requires ps != [] && ps[0].lib == lib
    ensures Others(ps, lib) == Others(ps[1..], lib)
  {
    assert [] + Others(ps[1..], lib) == Others(ps[1..], lib);
  }

  lemma RecordsList(st: State)
    requires RecordsOk(st)
    ensures UniqueIds(st.patches) && DepsBelow(st.patches)
  {
  }

  lemma FewerForeign(patches: seq<Patch>, fewer: seq<Patch>, lib: string)
    requires forall p :: p in fewer ==> p in patches
    requires !ForeignDependent(patches, lib)
    ensures !ForeignDependent(fewer, lib)
  {
  }

  /** A foreign dependent stops the walk at the latest at the patch it depends on. */
  lemma {:induction false} WalkSticks(cap: nat, st: State, k: nat, lib: string, ret: int, a: nat, b: nat)
    requires RecordsOk(st) && k <= a < |st.patches| && b < |st.patches|
    requires st.patches[a].lib == lib && st.patches[b].lib != lib
    requires st.patches[a].id in st.patches[b].deps
    ensures RevertAllFrom(cap, st, k, lib, ret).Stuck?
    decreases |st.patches| - k
  {
    hide RecordsOk, RevertPatch, RemovePatch;
    if st.patches[k].lib != lib {
      WalkSticks(cap, st, k + 1, lib, ret, a, b);
    } else if CanRevert(st.patches, st.patches[k].id) == 0 {
      assert st.patches[b] in st.patches && k != a;
      var id := st.patches[k].id;
      RevertRecords(cap, st, id);
      var (st', code) := RevertPatch(cap, st, id);
      assert UniqueIds(st.patches) by { RecordsList(st); }
      RemovedIs(st.patches, k);
      var b' := if b < k then b else b - 1;
      assert st'.patches[a - 1] == st.patches[a] && st'.patches[b'] == st.patches[b];
      WalkSticks(cap, st', k, lib, code, a - 1, b');
    }
  }

  lemma RemovedIs(patches: seq<Patch>, k: nat)
    requires UniqueIds(patches) && k < |patches|
    ensures RemovePatch(patches, patches[k].id) == patches[..k] + patches[k + 1..]
  {
    AppliedAt(patches, patches[k].id, k);
    assert PatchIndex(patches, patches[k].id) == k;
  }

  // ---------- the theorem ----------

  /** Revert-all comes to an end exactly when no patch of another library
      depends on a patch of the given one. */
  lemma EndsIffNoForeignDependent(cap: nat, st: State, lib: string, ret: int)
    requires RecordsOk(st)
    ensures Ends(cap, At(st, 0, ret), lib) <==> !ForeignDependent(st.patches, lib)
  {
    hide RecordsOk;
    WalkIsLoop(cap, st, 0, lib, ret);
    if ForeignDependent(st.patches, lib) {
      var p, q :| p in st.patches && q in st.patches && p.lib == lib && q.lib != lib && p.id in q.deps;
      var a :| 0 <= a < |st.patches| && st.patches[a] == p;
      var b :| 0 <= b < |st.patches| && st.patches[b] == q;
      WalkSticks(cap, st, 0, lib, ret, a, b);
    } else {
      WalkReturns(cap, st, 0, lib, ret);
    }
  }

  /** What is left: the other libraries' patches in their order, and for every
      function no active replacement but theirs. */
  lemma LeavesTheOthers(cap: nat, st: State, path: string, loaded: bool)
    requires RecordsOk(st) && BasenameOffset(path) < ULP_PATH_LEN
    requires !ForeignDependent(st.patches, Clip(BaseName(path)))
    ensures
      var lib := Clip(BaseName(path));
      var r := RevertAllFromLib(cap, st, path, loaded);
      && r.Returned? && RecordsOk(r.st)
      && r.st.patches == Others(st.patches, lib)
      && (forall f :: Actives(DetoursAt(r.st.roots, f)) == Claims(Others(st.patches, lib), f))
      && (forall f :: Claims(Others(st.patches, lib), f) == [] ==> FirstActive(DetoursAt(r.st.roots, f)) == None)
      && (r.code == 0 <==> exists p :: p in st.patches && p.lib == lib)
      && (r.code != 0 ==> r.code == if loaded then ENOPATCH else ENOTARGETLIB)
  {
    var lib := Clip(BaseName(path));
    WalkReturns(cap, st, 0, lib, ENOTARGETLIB);
    var walk := RevertAllFrom(cap, st, 0, lib, ENOTARGETLIB);
    var r := RevertAllFromLib(cap, st, path, loaded);
    assert r.Returned? && r.st == walk.st;
    FromTheStart(st.patches, lib);
    hide RevertAllFrom, UniqueIds, DepsBelow, RootsShaped, Clip, BaseName, BasenameOffset, Actives, DetoursAt, Claims, Others;
    LedgerIs(r.st);
    forall f | Claims(Others(st.patches, lib), f) == [] ensures FirstActive(DetoursAt(r.st.roots, f)) == None {
      FirstActiveIsFirstClaim(DetoursAt(r.st.roots, f));
    }
  }

  lemma FromTheStart(patches: seq<Patch>, lib: string)
    ensures patches[..0] + Others(patches[0..], lib) == Others(patches, lib)
    ensures (exists i :: 0 <= i < |patches| && patches[i].lib == lib) <==> exists p :: p in patches && p.lib == lib
  {
    hide Others;
    assert patches[0..] == patches;
    if p :| p in patches && p.lib == lib {
      var i :| 0 <= i < |patches| && patches[i] == p;
    }
  }

  lemma LedgerIs(st: State)
    requires RecordsOk(st)
    ensures forall f :: Actives(DetoursAt(st.roots, f)) == Claims(st.patches, f)
  {
    hide Actives, DetoursAt, Claims;
  }
}
