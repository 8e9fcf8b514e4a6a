/** Which patches a request to revert all patches of a library is about: names,
    from the description of the patch to the path in the request. */
module LibraryNames {
  import opened Bytes
  import opened Errors
  import opened Engine
  import opened ControlFlow
  import opened Records
  import opened RevertAll
  import opened History

  /** Character i of a C string; behind its end, NUL. */
  function CharAt(s: string, i: nat): char {
    if i < |s| then s[i] else '\0'
  }

  /** Two names count as the same library exactly when their first 256 characters,
      the NUL at the end included, are the same. */
  lemma SameLibraryIff(a: string, b: string)
    requires '\0' !in a && '\0' !in b
    ensures Clip(a) == Clip(b) <==> forall i :: 0 <= i < 256 ==> CharAt(a, i) == CharAt(b, i)
  {
    if Clip(a) == Clip(b) {
      SameLength(a, b);
      forall i | 0 <= i < 256 ensures CharAt(a, i) == CharAt(b, i) {
        if i < |a| {
          assert Clip(a)[i] == a[i] && Clip(b)[i] == b[i];
        }
      }
    }
    if forall i :: 0 <= i < 256 ==> CharAt(a, i) == CharAt(b, i) {
      CharsDecide(a, b);
    }
  }

  lemma SameLength(a: string, b: string)
    requires Clip(a) == Clip(b)
    ensures |a| == |b| || (|a| >= 256 && |b| >= 256)
  {
    assert |Clip(a)| == if |a| <= 256 then |a| else 256;
    assert |Clip(b)| == if |b| <= 256 then |b| else 256;
  }

  lemma CharsDecide(a: string, b: string)
    requires '\0' !in a && '\0' !in b && forall i :: 0 <= i < 256 ==> CharAt(a, i) == CharAt(b, i)
    ensures Clip(a) == Clip(b)
  {
    assert |a| < 256 ==> CharAt(b, |a|) == '\0';
    assert |b| < 256 ==> CharAt(a, |b|) == '\0';
    var x, y := Clip(a), Clip(b);
    assert |x| == |y|;
    forall i | 0 <= i < |x| ensures x[i] == y[i] {
      assert CharAt(a, i) == CharAt(b, i);
    }
  }

  /** Names of ordinary length are told apart. */
  lemma ShortNames(a: string, b: string)
    requires |a| < 256 || (|a| <= 256 && |b| <= 256)
    ensures Clip(a) == Clip(b) <==> a == b
  {
    if Clip(a) == Clip(b) {
      SameLength(a, b);
    }
  }

  /** A path whose directory part fills 256 characters or more is refused. */
  lemma LongPathsOverflow(cap: nat, st: State, dir: string, name: string, loaded: bool)
    requires |dir| >= 256 && dir[|dir| - 1] == '/' && '/' !in name
    ensures RevertAllFromLib(cap, st, dir + name, loaded) == Returned(st, EOVERFLOW)
  {
    var path := dir + name;
    var n := BasenameOffset(path);
    assert path[|dir| - 1] == '/';
  }

  // ---------- where the recorded name comes from ----------

  /** The request that recorded `p`. */
  ghost predicate Recorded(op: Op, p: Patch) {
    && op.Trigger? && op.parse.Parsed? && op.parse.meta.kind == 1
    && op.parse.meta.id == p.id && p.lib == Clip(BaseName(op.parse.meta.lib))
  }

  lemma LoadRecords(cap: nat, st: State, parse: Parse, p: Patch)
    requires p in LoadPatch(cap, st, parse).0.patches
    ensures p in st.patches || Recorded(Trigger(parse, false), p)
  {
    hide Sanity, ApplyAllUnits, Resolve, RevertFrom, BaseName, Clip;
    if parse.Parsed? {
      var m := parse.meta;
      RevertFromKeeps(cap, st.(universe := st.universe + 1), m.id, 0, 0);
      if StateUpdate(st, m).Some? {
        ApplyError(cap, StateUpdate(st, m).value, m);
      }
    }
  }

  lemma {:induction false} WalkOnlyRemoves(cap: nat, st: State, k: nat, lib: string, ret: int, p: Patch)
    requires p in RevertAllFrom(cap, st, k, lib, ret).st.patches
    ensures p in st.patches
    decreases |st.patches| - k
  {
    hide RevertFrom, HasDependent;
    if k >= |st.patches| {
    } else if st.patches[k].lib != lib {
      WalkOnlyRemoves(cap, st, k + 1, lib, ret, p);
    } else if CanRevert(st.patches, st.patches[k].id) == 0 {
      var id := st.patches[k].id;
      RevertFromKeeps(cap, st.(universe := st.universe + 1), id, 0, 0);
      var (st', code) := RevertPatch(cap, st, id);
      assert st'.patches == RemovePatch(st.patches, id);
      if code == 0 {
        WalkOnlyRemoves(cap, st', k, lib, code, p);
      }
    }
  }

  lemma NextRecordsOne(cap: nat, st: State, op: Op, p: Patch)
    requires p in Next(cap, st, op).patches
    ensures p in st.patches || Recorded(op, p)
  {
    hide LoadPatch, RevertAllFrom, BaseName, Clip, BasenameOffset;
    match op {
      case Toggle =>
      case Drain =>
      case Trigger(parse, busy) =>
        if p !in st.patches {
          LoadRecords(cap, st, parse, p);
        }
      case RevertAll(path, loaded, busy) =>
        if p !in st.patches {
          WalkOnlyRemoves(cap, st, 0, Clip(BaseName(path)), ENOTARGETLIB, p);
        }
    }
  }

  lemma {:induction false} RunRecordsOne(cap: nat, st: State, ops: seq<Op>, p: Patch) returns (i: nat)
    requires p in Run(cap, st, ops).patches && p !in st.patches
    ensures i < |ops| && Recorded(ops[i], p)
    decreases |ops|
  {
    hide Next, Recorded;
    if p in Next(cap, st, ops[0]).patches {
      NextRecordsOne(cap, st, ops[0], p);
      i := 0;
    } else {
      var j := RunRecordsOne(cap, Next(cap, st, ops[0]), ops[1..], p);
      i := j + 1;
    }
  }

  /** After every healthy run: reverting all patches of a library takes away exactly
      the applied patches whose request named that library. */
  lemma RevertAllByName(cap: nat, mem0: seq<byte>, ops: seq<Op>, path: string, loaded: bool, p: Patch) returns (i: nat)
    requires Healthy(Run(cap, Start(mem0, false), ops).error) && p in Run(cap, Start(mem0, false), ops).patches
    requires BasenameOffset(path) < ULP_PATH_LEN
    requires !ForeignDependent(Run(cap, Start(mem0, false), ops).patches, Clip(BaseName(path)))
    ensures i < |ops| && ops[i].Trigger? && ops[i].parse.Parsed?
    ensures ops[i].parse.meta.kind == 1 && ops[i].parse.meta.id == p.id
    ensures
      var st := Run(cap, Start(mem0, false), ops);
      var r := RevertAllFromLib(cap, st, path, loaded);
      var a, b := BaseName(ops[i].parse.meta.lib), BaseName(path);
      && r.Returned?
      && (|a| < 256 || (|a| <= 256 && |b| <= 256) ==> (p !in r.st.patches <==> a == b))
  {
    var st := Run(cap, Start(mem0, false), ops);
    i := RunRecordsOne(cap, Start(mem0, false), ops, p);
    ReachableRecords(cap, mem0, false, ops);
    LeavesTheOthers(cap, st, path, loaded);
    var a, b := BaseName(ops[i].parse.meta.lib), BaseName(path);
    hide Run, RevertAllFromLib, BaseName, BasenameOffset, Clip, Claims, Actives, DetoursAt, RecordsOk, ForeignDependent;
    if |a| < 256 || (|a| <= 256 && |b| <= 256) {
      ShortNames(a, b);
    }
  }
}
