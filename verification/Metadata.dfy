/** The metadata of a live patch: its byte layout, the splice that adds the path
    of the container, and what the parser makes of a buffer. */
module Metadata {
  import opened Bytes
  import opened Errors

  datatype FunUnit = FunUnit(oldName: seq<byte>, newName: seq<byte>, oldAddr: nat)

  datatype DataRef = DataRef(targetName: seq<byte>, referenceName: seq<byte>,
                             targetOffset: nat, patchOffset: nat, tls: bool)

  datatype Meta = Meta(kind: byte, id: seq<byte>, path: seq<byte>, buildId: seq<byte>, name: seq<byte>,
                       units: seq<FunUnit>, deps: seq<seq<byte>>, refs: seq<DataRef>)

  const ID_LEN: nat := 32
  const PREFIX: nat := 33
  const PATCH: byte := 1
  const REVERSE: byte := 2

  // ---------- the writer ----------

  /** A C string with its length in front; the length counts the NUL. */
  function Str(s: seq<byte>): seq<byte> {
    Le(|s| + 1, 4) + (s + [0])
  }

  function UnitBytes(u: FunUnit): seq<byte> {
    Str(u.oldName) + (Str(u.newName) + Le(u.oldAddr, 8))
  }

  function UnitsBytes(us: seq<FunUnit>): seq<byte> {
    if us == [] then [] else UnitBytes(us[0]) + UnitsBytes(us[1..])
  }

  function DepsBytes(ds: seq<seq<byte>>): seq<byte> {
    if ds == [] then [] else ds[0] + DepsBytes(ds[1..])
  }

  function RefBytes(r: DataRef): seq<byte> {
    Str(r.targetName) + (Str(r.referenceName)
    + (Le(r.targetOffset, 8) + (Le(r.patchOffset, 8) + [if r.tls then 1 else 0])))
  }

  function RefsBytes(rs: seq<DataRef>): seq<byte> {
    if rs == [] then [] else RefBytes(rs[0]) + RefsBytes(rs[1..])
  }

  /** What follows type, id and path. */
  function Body(m: Meta): seq<byte> {
    Le(|m.buildId|, 4) + (m.buildId + (Str(m.name)
    + (Le(|m.units|, 4) + (UnitsBytes(m.units)
    + (Le(|m.deps|, 4) + (DepsBytes(m.deps)
    + (Le(|m.refs|, 4) + RefsBytes(m.refs))))))))
  }

  /** The .ulp section. */
  function Section(m: Meta): seq<byte> {
    [PATCH] + m.id + Body(m)
  }

  /** The .ulp.rev section: no units, and the name goes without its NUL. */
  function ReverseBody(m: Meta): seq<byte> {
    Le(|m.buildId|, 4) + (m.buildId + (Le(|m.name|, 4) + m.name))
  }

  function ReverseSection(m: Meta): seq<byte> {
    [REVERSE] + m.id + ReverseBody(m)
  }

  /** The path of the container goes behind type and id. */
  function Splice(section: seq<byte>, path: seq<byte>): seq<byte>
    requires PREFIX <= |section|
  {
    section[..PREFIX] + (Str(path) + section[PREFIX..])
  }

  ghost predicate CString(s: seq<byte>) {
    0 !in s && |s| + 1 < U32
  }

  ghost predicate UnitFits(u: FunUnit) {
    CString(u.oldName) && CString(u.newName) && u.oldAddr < U64
  }

  ghost predicate RefFits(r: DataRef) {
    CString(r.targetName) && CString(r.referenceName) && r.targetOffset < U64 && r.patchOffset < U64
  }

  /** What the description parser guarantees of a patch about to be written. */
  ghost predicate Writable(m: Meta) {
    && |m.id| == ID_LEN && |m.buildId| < U32 && CString(m.name)
    && |m.units| < U32 && |m.deps| < U32 && |m.refs| < U32
    && (forall i :: 0 <= i < |m.units| ==> UnitFits(m.units[i]))
    && (forall i :: 0 <= i < |m.deps| ==> |m.deps[i]| == ID_LEN)
    && forall i :: 0 <= i < |m.refs| ==> RefFits(m.refs[i])
  }

  // ---------- the parser ----------

  datatype Result<+T> = Ok(value: T) | Err(code: int) {
    predicate IsFailure() {
      Err?
    }

    function PropagateFailure<U>(): Result<U>
      requires Err?
    {
      Err(code)
    }

    function Extract(): T
      requires Ok?
    {
      value
    }
  }

  /** At most `count` bytes from `cur` on, as many as are left. */
  function Take(src: seq<byte>, cur: nat, count: nat): (s: seq<byte>)
    requires cur <= |src|
    ensures cur + |s| <= |src| && |s| <= count
  {
    if count > |src| - cur then src[cur..] else src[cur..cur + count]
  }

  /** An n-byte variable after the first |s| of its bytes have been overwritten. */
  function Overlay(before: nat, s: seq<byte>, n: nat): nat
    requires |s| <= n
  {
    FromLe(s + Le(before, n)[|s|..])
  }

  /** A 4-byte count read into a variable that held `before`; the source accepts
      any read of at least `least` bytes. */
  function ReadCount(src: seq<byte>, cur: nat, before: nat, least: nat, code: int): (r: Result<(nat, nat)>)
    requires cur <= |src|
    ensures r.Ok? ==> cur <= r.value.1 <= |src|
  {
    var s := Take(src, cur, 4);
    if |s| < least then Err(code) else Ok((Overlay(before, s, 4), cur + |s|))
  }

  function ReadBytes(src: seq<byte>, cur: nat, count: nat): (r: Result<(seq<byte>, nat)>)
    requires cur <= |src|
    ensures r.Ok? ==> cur <= r.value.1 <= |src|
  {
    var s := Take(src, cur, count);
    if |s| < count then Err(EINVALIDULP) else Ok((s, cur + |s|))
  }

  function ReadWord(src: seq<byte>, cur: nat, least: nat): (r: Result<(nat, nat)>)
    requires cur <= |src|
    ensures r.Ok? ==> cur <= r.value.1 <= |src|
  {
    var s := Take(src, cur, 8);
    if |s| < least then Err(EINVALIDULP) else Ok((Overlay(0, s, 8), cur + |s|))
  }

  /** A buffer read as a C string. */
  function CStr(s: seq<byte>): seq<byte> {
    s[..StrEnd(s, 0, 0)]
  }

  /** A counted string; `c` is the source's count variable, which lives on. */
  function ReadStr(src: seq<byte>, cur: nat, c: nat, least: nat): (r: Result<(seq<byte>, nat, nat)>)
    requires cur <= |src|
    ensures r.Ok? ==> cur <= r.value.1 <= |src|
  {
    var (n, cur1) :- ReadCount(src, cur, c, least, EINVALIDULP);
    var (s, cur2) :- ReadBytes(src, cur1, n);
    Ok((CStr(s), cur2, n))
  }

  function ReadUnit(src: seq<byte>, cur: nat, c: nat): (r: Result<(FunUnit, nat, nat)>)
    requires cur <= |src|
    ensures r.Ok? ==> cur <= r.value.1 <= |src|
  {
    var (oldName, cur1, c1) :- ReadStr(src, cur, c, 1);
    var (newName, cur2, c2) :- ReadStr(src, cur1, c1, 1);
    var (addr, cur3) :- ReadWord(src, cur2, 1);
    Ok((FunUnit(oldName, newName, addr), cur3, c2))
  }

  function ReadUnits(src: seq<byte>, cur: nat, c: nat, count: nat): (r: Result<(seq<FunUnit>, nat, nat)>)
    requires cur <= |src|
    ensures r.Ok? ==> cur <= r.value.1 <= |src|
    decreases count
  {
    if count == 0 then Ok(([], cur, c))
    else
      var (u, cur1, c1) :- ReadUnit(src, cur, c);
      var (us, cur2, c2) :- ReadUnits(src, cur1, c1, count - 1);
      Ok(([u] + us, cur2, c2))
  }

  function ReadDeps(src: seq<byte>, cur: nat, count: nat): (r: Result<(seq<seq<byte>>, nat)>)
    requires cur <= |src|
    ensures r.Ok? ==> cur <= r.value.1 <= |src|
    decreases count
  {
    if count == 0 then Ok(([], cur))
    else
      var (d, cur1) :- ReadBytes(src, cur, ID_LEN);
      var (ds, cur2) :- ReadDeps(src, cur1, count - 1);
      Ok(([d] + ds, cur2))
  }

  function ReadRef(src: seq<byte>, cur: nat, c: nat): (r: Result<(DataRef, nat, nat)>)
    requires cur <= |src|
    ensures r.Ok? ==> cur <= r.value.1 <= |src|
  {
    var (target, cur1, c1) :- ReadStr(src, cur, c, 4);
    var (reference, cur2, c2) :- ReadStr(src, cur1, c1, 4);
    var (targetOffset, cur3) :- ReadWord(src, cur2, 8);
    var (patchOffset, cur4) :- ReadWord(src, cur3, 8);
    var (tls, cur5) :- ReadBytes(src, cur4, 1);
    Ok((DataRef(target, reference, targetOffset, patchOffset, tls[0] != 0), cur5, c2))
  }

  function ReadRefs(src: seq<byte>, cur: nat, c: nat, count: nat): (r: Result<(seq<DataRef>, nat)>)
    requires cur <= |src|
    ensures r.Ok? ==> cur <= r.value.1 <= |src|
    decreases count
  {
    if count == 0 then Ok(([], cur))
    else
      var (x, cur1, c1) :- ReadRef(src, cur, c);
      var (xs, cur2) :- ReadRefs(src, cur1, c1, count - 1);
      Ok(([x] + xs, cur2))
  }

  /** Type, id, container path, build id and library name. */
  function ReadHeader(src: seq<byte>): (r: Result<(Meta, nat, nat)>)
    ensures r.Ok? ==> r.value.1 <= |src|
  {
    var (kind, cur1) :- ReadBytes(src, 0, 1);
    var (id, cur2) :- ReadBytes(src, cur1, ID_LEN);
    var (path, cur3, c3) :- ReadStr(src, cur2, 0, 1);
    if path == [] then Err(EINVALIDULP)
    else
      var (n, cur4) :- ReadCount(src, cur3, c3, 1, EINVALIDULP);
      var (buildId, cur5) :- ReadBytes(src, cur4, n);
      var (name, cur6, c6) :- ReadStr(src, cur5, n, 1);
      Ok((Meta(kind[0], id, path, buildId, name, [], [], []), cur6, c6))
  }

  function ReadRest(src: seq<byte>, cur: nat, c: nat): (r: Result<(seq<FunUnit>, seq<seq<byte>>, seq<DataRef>, nat)>)
    requires cur <= |src|
    ensures r.Ok? ==> cur <= r.value.3 <= |src|
  {
    var (nunits, cur1) :- ReadCount(src, cur, 0, 1, 1);
    var (units, cur2, c2) :- ReadUnits(src, cur1, c, nunits);
    var (ndeps, cur3) :- ReadCount(src, cur2, c2, 1, EINVALIDULP);
    var (deps, cur4) :- ReadDeps(src, cur3, ndeps);
    var (nrefs, cur5) :- ReadCount(src, cur4, 0, 4, EINVALIDULP);
    var (refs, cur6) :- ReadRefs(src, cur5, ndeps, nrefs);
    Ok((units, deps, refs, cur6))
  }

  /** parse_metadata_from_mem. */
  function Parse(src: seq<byte>): Result<Meta> {
    var (m, cur, c) :- ReadHeader(src);
    if m.kind == REVERSE then Ok(m)
    else
      var (units, deps, refs, _) :- ReadRest(src, cur, c);
      Ok(m.(units := units, deps := deps, refs := refs))
  }

  /** A count read where only some of its bytes are left: these are the low ones, and
      the high ones are those of the count read before. */
  lemma CutCount(src: seq<byte>, cur: nat, before: nat, code: int)
    requires cur < |src| < cur + 4
    ensures ReadCount(src, cur, before, 4, code) == Err(code)
    ensures
      var r := ReadCount(src, cur, before, 1, code);
      && r.Ok? && r.value.1 == |src|
      && Le(r.value.0, 4) == src[cur..] + Le(before, 4)[|src| - cur..]
  {
    hide Le, FromLe;
    var all := src[cur..] + Le(before, 4)[|src| - cur..];
    LeOfFromLe(all);
  }

  /** Where no byte is left, nothing is read. */
  lemma NoCount(src: seq<byte>, before: nat, least: nat, code: int)
    requires least > 0
    ensures ReadCount(src, |src|, before, least, code) == Err(code)
  {
  }

  // ---------- reading back what was written ----------

  ghost predicate At(src: seq<byte>, cur: nat, s: seq<byte>) {
    cur + |s| <= |src| && src[cur..cur + |s|] == s
  }

  lemma AtSplit(src: seq<byte>, cur: nat, a: seq<byte>, b: seq<byte>)
    requires At(src, cur, a + b)
    ensures At(src, cur, a) && At(src, cur + |a|, b)
  {
    SubSlice(src, cur, cur + |a| + |b|, 0, |a|);
    SubSlice(src, cur, cur + |a| + |b|, |a|, |a| + |b|);
    assert (a + b)[..|a|] == a && (a + b)[|a|..] == b;
  }

  lemma OverlayAll(before: nat, s: seq<byte>)
    ensures Overlay(before, s, |s|) == FromLe(s)
  {
    assert s + Le(before, |s|)[|s|..] == s;
  }

  lemma CountAt(src: seq<byte>, cur: nat, v: nat, before: nat, least: nat, code: int)
    requires At(src, cur, Le(v, 4)) && v < U32 && least <= 4
    ensures ReadCount(src, cur, before, least, code) == Ok((v, cur + 4))
  {
    hide Overlay, Le, FromLe;
    OverlayAll(before, Le(v, 4));
    Le32(v);
  }

  lemma WordAt(src: seq<byte>, cur: nat, v: nat, least: nat)
    requires At(src, cur, Le(v, 8)) && v < U64 && least <= 8
    ensures ReadWord(src, cur, least) == Ok((v, cur + 8))
  {
    hide Overlay, Le, FromLe;
    OverlayAll(0, Le(v, 8));
    Le64(v);
  }

  lemma BytesAt(src: seq<byte>, cur: nat, s: seq<byte>)
    requires At(src, cur, s)
    ensures ReadBytes(src, cur, |s|) == Ok((s, cur + |s|))
  {
  }

  /** A counted string reads back whether or not its NUL was written. */
  lemma StrAt(src: seq<byte>, cur: nat, s: seq<byte>, end: seq<byte>, c: nat, least: nat)
    requires CString(s) && (end == [] || end == [0]) && least <= 4
    requires At(src, cur, Le(|s| + |end|, 4) + (s + end))
    ensures ReadStr(src, cur, c, least) == Ok((s, cur + 4 + |s| + |end|, |s| + |end|))
  {
    hide ReadCount, ReadBytes, Le, At, CStr;
    AtSplit(src, cur, Le(|s| + |end|, 4), s + end);
    CountAt(src, cur, |s| + |end|, c, least, EINVALIDULP);
    BytesAt(src, cur + 4, s + end);
    CStrIs(s, end);
  }

  lemma CStrIs(s: seq<byte>, end: seq<byte>)
    requires 0 !in s && (end == [] || end == [0])
    ensures CStr(s + end) == s
  {
    if end == [] {
      assert s + end == s;
      assert StrEnd(s, 0, 0) == |s|;
    } else {
      StrEndIs(s + end, 0, |s|, 0);
    }
  }

  lemma UnitAt(src: seq<byte>, cur: nat, u: FunUnit, c: nat)
    requires UnitFits(u) && At(src, cur, UnitBytes(u))
    ensures ReadUnit(src, cur, c) == Ok((u, cur + |UnitBytes(u)|, |u.newName| + 1))
  {
    hide ReadStr, ReadWord, At, Le;
    AtSplit(src, cur, Str(u.oldName), Str(u.newName) + Le(u.oldAddr, 8));
    var cur1 := cur + |Str(u.oldName)|;
    AtSplit(src, cur1, Str(u.newName), Le(u.oldAddr, 8));
    StrAt(src, cur, u.oldName, [0], c, 1);
    StrAt(src, cur1, u.newName, [0], |u.oldName| + 1, 1);
    WordAt(src, cur1 + |Str(u.newName)|, u.oldAddr, 1);
  }

  function LastCount(us: seq<FunUnit>, c: nat): nat {
    if us == [] then c else |us[|us| - 1].newName| + 1
  }

  lemma {:induction false} UnitsAt(src: seq<byte>, cur: nat, us: seq<FunUnit>, c: nat)
    requires At(src, cur, UnitsBytes(us)) && forall i :: 0 <= i < |us| ==> UnitFits(us[i])
    ensures ReadUnits(src, cur, c, |us|) == Ok((us, cur + |UnitsBytes(us)|, LastCount(us, c)))
    decreases |us|
  {
    hide ReadUnit, UnitBytes, UnitFits, At, UnitsBytes;
    UnitsSplit(us);
    if us == [] {
      AtEmpty(src, cur);
    } else {
      var u, rest := us[0], us[1..];
      AtSplit(src, cur, UnitBytes(u), UnitsBytes(rest));
      UnitAt(src, cur, u, c);
      UnitsAt(src, cur + |UnitBytes(u)|, rest, |u.newName| + 1);
      assert [u] + rest == us;
    }
  }

  lemma UnitsSplit(us: seq<FunUnit>)
    ensures UnitsBytes(us) == if us == [] then [] else UnitBytes(us[0]) + UnitsBytes(us[1..])
  {
    hide UnitBytes;
  }

  lemma AtEmpty(src: seq<byte>, cur: nat)
    requires At(src, cur, [])
    ensures cur <= |src|
  {
  }

  lemma {:induction false} DepsAt(src: seq<byte>, cur: nat, ds: seq<seq<byte>>)
    requires At(src, cur, DepsBytes(ds)) && forall i :: 0 <= i < |ds| ==> |ds[i]| == ID_LEN
    ensures ReadDeps(src, cur, |ds|) == Ok((ds, cur + |DepsBytes(ds)|))
    decreases |ds|
  {
    hide ReadBytes, At;
    if ds == [] {
      AtEmpty(src, cur);
    } else {
      AtSplit(src, cur, ds[0], DepsBytes(ds[1..]));
      BytesAt(src, cur, ds[0]);
      DepsAt(src, cur + |ds[0]|, ds[1..]);
      assert [ds[0]] + ds[1..] == ds;
    }
  }

  lemma RefAt(src: seq<byte>, cur: nat, r: DataRef, c: nat)
    requires RefFits(r) && At(src, cur, RefBytes(r))
    ensures ReadRef(src, cur, c) == Ok((r, cur + |RefBytes(r)|, |r.referenceName| + 1))
  {
    hide ReadStr, ReadWord, ReadBytes, At, Le;
    var flag := [if r.tls then 1 else 0];
    var after4 := Le(r.patchOffset, 8) + flag;
    var after3 := Le(r.targetOffset, 8) + after4;
    AtSplit(src, cur, Str(r.targetName), Str(r.referenceName) + after3);
    var cur1 := cur + |Str(r.targetName)|;
    AtSplit(src, cur1, Str(r.referenceName), after3);
    var cur2 := cur1 + |Str(r.referenceName)|;
    AtSplit(src, cur2, Le(r.targetOffset, 8), after4);
    AtSplit(src, cur2 + 8, Le(r.patchOffset, 8), flag);
    StrAt(src, cur, r.targetName, [0], c, 4);
    StrAt(src, cur1, r.referenceName, [0], |r.targetName| + 1, 4);
    WordAt(src, cur2, r.targetOffset, 8);
    WordAt(src, cur2 + 8, r.patchOffset, 8);
    BytesAt(src, cur2 + 16, flag);
  }

  lemma {:induction false} RefsAt(src: seq<byte>, cur: nat, rs: seq<DataRef>, c: nat)
    requires At(src, cur, RefsBytes(rs)) && forall i :: 0 <= i < |rs| ==> RefFits(rs[i])
    ensures ReadRefs(src, cur, c, |rs|) == Ok((rs, cur + |RefsBytes(rs)|))
    decreases |rs|
  {
    hide ReadRef, RefBytes, RefFits, At;
    if rs == [] {
      AtEmpty(src, cur);
    } else {
      AtSplit(src, cur, RefBytes(rs[0]), RefsBytes(rs[1..]));
      RefAt(src, cur, rs[0], c);
      RefsAt(src, cur + |RefBytes(rs[0])|, rs[1..], |rs[0].referenceName| + 1);
      assert [rs[0]] + rs[1..] == rs;
    }
  }

  /** What the header of a spliced section reads back as; `end` is the NUL of the
      library name or nothing. */
  lemma HeaderAt(src: seq<byte>, kind: byte, m: Meta, end: seq<byte>, rest: seq<byte>)
    requires Writable(m) && CString(m.path) && m.path != [] && (end == [] || end == [0])
    requires At(src, 0, [kind] + (m.id + (Str(m.path) + (Le(|m.buildId|, 4) + (m.buildId
                        + ((Le(|m.name| + |end|, 4) + (m.name + end)) + rest))))))
    ensures
      var cur6 := 33 + (4 + |m.path| + 1) + 4 + |m.buildId| + 4 + |m.name| + |end|;
      && ReadHeader(src) == Ok((Meta(kind, m.id, m.path, m.buildId, m.name, [], [], []), cur6, |m.name| + |end|))
      && At(src, cur6, rest)
  {
    hide *;
    var more := Le(|m.buildId|, 4) + (m.buildId + ((Le(|m.name| + |end|, 4) + (m.name + end)) + rest));
    WritableHeader(m);
    PathAt(src, kind, m.id, m.path, more);
    var cur3 := 33 + (4 + |m.path| + 1);
    AtLength(src, cur3, more);
    NameAt(src, cur3, m.buildId, m.name, end, rest, |m.path| + 1);
    HeaderSteps(src, kind, m, cur3, |m.path| + 1, |m.name| + |end|);
  }

  lemma PathAt(src: seq<byte>, kind: byte, id: seq<byte>, path: seq<byte>, more: seq<byte>)
    requires |id| == 32 == ID_LEN && CString(path)
    requires At(src, 0, [kind] + (id + (Str(path) + more)))
    ensures
      var cur3 := 33 + (4 + |path| + 1);
      && 33 <= |src|
      && ReadBytes(src, 0, 1) == Ok(([kind], 1)) && ReadBytes(src, 1, ID_LEN) == Ok((id, 33))
      && ReadStr(src, 33, 0, 1) == Ok((path, cur3, |path| + 1))
      && At(src, cur3, more)
  {
    hide *;
    StrIs(path);
    AtSplit(src, 0, [kind], id + (Str(path) + more));
    AtSplit(src, 1, id, Str(path) + more);
    AtSplit(src, 33, Str(path), more);
    BytesAt(src, 0, [kind]);
    BytesAt(src, 1, id);
    AtLength(src, 33, Str(path));
    StrAt(src, 33, path, [0], 0, 1);
  }

  lemma AtLength(src: seq<byte>, cur: nat, s: seq<byte>)
    requires At(src, cur, s)
    ensures cur + |s| <= |src|
  {
  }

  lemma NameAt(src: seq<byte>, cur: nat, buildId: seq<byte>, name: seq<byte>, end: seq<byte>, rest: seq<byte>, c: nat)
    requires |buildId| < U32 && CString(name) && (end == [] || end == [0])
    requires At(src, cur, Le(|buildId|, 4) + (buildId + ((Le(|name| + |end|, 4) + (name + end)) + rest)))
    ensures
      var cur5 := cur + 4 + |buildId|;
      var cur6 := cur5 + 4 + |name| + |end|;
      && ReadCount(src, cur, c, 1, EINVALIDULP) == Ok((|buildId|, cur + 4))
      && ReadBytes(src, cur + 4, |buildId|) == Ok((buildId, cur5))
      && ReadStr(src, cur5, |buildId|, 1) == Ok((name, cur6, |name| + |end|))
      && At(src, cur6, rest)
  {
    hide *;
    var text := Le(|name| + |end|, 4) + (name + end);
    AtSplit(src, cur, Le(|buildId|, 4), buildId + (text + rest));
    AtSplit(src, cur + 4, buildId, text + rest);
    AtSplit(src, cur + 4 + |buildId|, text, rest);
    CountAt(src, cur, |buildId|, c, 1, EINVALIDULP);
    BytesAt(src, cur + 4, buildId);
    StrAt(src, cur + 4 + |buildId|, name, end, |buildId|, 1);
  }

  lemma StrIs(s: seq<byte>)
    ensures Str(s) == Le(|s| + 1, 4) + (s + [0])
  {
  }

  lemma WritableHeader(m: Meta)
    requires Writable(m)
    ensures |m.id| == ID_LEN == 32 && |m.buildId| < U32 && CString(m.name)
  {
  }

  lemma HeaderSteps(src: seq<byte>, kind: byte, m: Meta, cur3: nat, c3: nat, c6: nat)
    requires 33 <= cur3 && cur3 + 4 + |m.buildId| <= |src| && m.path != []
    requires ReadBytes(src, 0, 1) == Ok(([kind], 1)) && ReadBytes(src, 1, ID_LEN) == Ok((m.id, 33))
    requires ReadStr(src, 33, 0, 1) == Ok((m.path, cur3, c3))
    requires ReadCount(src, cur3, c3, 1, EINVALIDULP) == Ok((|m.buildId|, cur3 + 4))
    requires
      var cur5 := cur3 + 4 + |m.buildId|;
      && ReadBytes(src, cur3 + 4, |m.buildId|) == Ok((m.buildId, cur5))
      && ReadStr(src, cur5, |m.buildId|, 1) == Ok((m.name, cur5 + 4 + c6, c6))
    ensures ReadHeader(src)
         == Ok((Meta(kind, m.id, m.path, m.buildId, m.name, [], [], []), cur3 + 4 + |m.buildId| + 4 + c6, c6))
  {
    hide ReadBytes, ReadCount, ReadStr;
  }

  lemma RestAt(src: seq<byte>, cur: nat, m: Meta, c: nat)
    requires Writable(m)
    requires At(src, cur, Le(|m.units|, 4) + (UnitsBytes(m.units) + (Le(|m.deps|, 4) + (DepsBytes(m.deps)
                          + (Le(|m.refs|, 4) + RefsBytes(m.refs))))))
    ensures
      var r := ReadRest(src, cur, c);
      r.Ok? && r.value.0 == m.units && r.value.1 == m.deps && r.value.2 == m.refs
  {
    hide *;
    var us, ds, rs := UnitsBytes(m.units), DepsBytes(m.deps), RefsBytes(m.refs);
    var r5 := Le(|m.refs|, 4) + rs;
    var r4 := ds + r5;
    var r3 := Le(|m.deps|, 4) + r4;
    WritableRest(m);
    AtSplit(src, cur, Le(|m.units|, 4), us + r3);
    AtSplit(src, cur + 4, us, r3);
    var cur2 := cur + 4 + |us|;
    AtSplit(src, cur2, Le(|m.deps|, 4), r4);
    AtSplit(src, cur2 + 4, ds, r5);
    var cur4 := cur2 + 4 + |ds|;
    AtSplit(src, cur4, Le(|m.refs|, 4), rs);
    CountAt(src, cur, |m.units|, 0, 1, 1);
    UnitsAt(src, cur + 4, m.units, c);
    CountAt(src, cur2, |m.deps|, LastCount(m.units, c), 1, EINVALIDULP);
    DepsAt(src, cur2 + 4, m.deps);
    CountAt(src, cur4, |m.refs|, 0, 4, EINVALIDULP);
    RefsAt(src, cur4 + 4, m.refs, |m.deps|);
    RestSteps(src, cur, m, c, cur2, LastCount(m.units, c), cur4, cur4 + 4 + |rs|);
  }

  lemma WritableRest(m: Meta)
    requires Writable(m)
    ensures |m.units| < U32 && |m.deps| < U32 && |m.refs| < U32
    ensures forall i :: 0 <= i < |m.units| ==> UnitFits(m.units[i])
    ensures forall i :: 0 <= i < |m.deps| ==> |m.deps[i]| == ID_LEN
    ensures forall i :: 0 <= i < |m.refs| ==> RefFits(m.refs[i])
  {
  }

  lemma RestSteps(src: seq<byte>, cur: nat, m: Meta, c: nat, cur2: nat, c2: nat, cur4: nat, cur6: nat)
    requires cur + 4 <= cur2 && cur2 + 4 <= cur4 && cur4 + 4 <= |src|
    requires ReadCount(src, cur, 0, 1, 1) == Ok((|m.units|, cur + 4))
    requires ReadUnits(src, cur + 4, c, |m.units|) == Ok((m.units, cur2, c2))
    requires ReadCount(src, cur2, c2, 1, EINVALIDULP) == Ok((|m.deps|, cur2 + 4))
    requires ReadDeps(src, cur2 + 4, |m.deps|) == Ok((m.deps, cur4))
    requires ReadCount(src, cur4, 0, 4, EINVALIDULP) == Ok((|m.refs|, cur4 + 4))
    requires ReadRefs(src, cur4 + 4, |m.deps|, |m.refs|) == Ok((m.refs, cur6))
    ensures ReadRest(src, cur, c) == Ok((m.units, m.deps, m.refs, cur6))
  {
    hide ReadCount, ReadUnits, ReadDeps, ReadRefs;
  }

  lemma SectionSpliced(m: Meta)
    requires Writable(m)
    ensures |Section(m)| >= PREFIX && |ReverseSection(m)| >= PREFIX
    ensures Splice(Section(m), m.path) == [PATCH] + (m.id + (Str(m.path) + Body(m)))
    ensures Splice(ReverseSection(m), m.path) == [REVERSE] + (m.id + (Str(m.path) + ReverseBody(m)))
  {
    hide Body, ReverseBody, Str;
    DropOfAppend([PATCH] + m.id, Body(m), 33);
    DropOfAppend([REVERSE] + m.id, ReverseBody(m), 33);
    assert ([PATCH] + m.id)[..33] == [PATCH] + m.id && ([PATCH] + m.id)[33..] == [];
    assert ([REVERSE] + m.id)[..33] == [REVERSE] + m.id && ([REVERSE] + m.id)[33..] == [];
  }

  /** Round trip of a patch: written, given its path, and parsed, whatever follows
      it in the buffer it is parsed from. */
  lemma PatchRoundTrip(m: Meta, tail: seq<byte>)
    requires Writable(m) && m.kind == PATCH && CString(m.path) && m.path != []
    ensures |Section(m)| >= PREFIX && Parse(Splice(Section(m), m.path) + tail) == Ok(m)
  {
    hide UnitsBytes, DepsBytes, RefsBytes, Writable, ReadHeader, ReadRest, Le;
    SectionSpliced(m);
    var src := Splice(Section(m), m.path) + tail;
    var rest := Le(|m.units|, 4) + (UnitsBytes(m.units) + (Le(|m.deps|, 4) + (DepsBytes(m.deps)
                + (Le(|m.refs|, 4) + RefsBytes(m.refs)))));
    assert At(src, 0, Splice(Section(m), m.path));
    assert Body(m) == Le(|m.buildId|, 4) + (m.buildId + ((Le(|m.name| + 1, 4) + (m.name + [0])) + rest));
    HeaderAt(src, PATCH, m, [0], rest);
    var h := ReadHeader(src).value;
    RestAt(src, h.1, m, h.2);
  }

  /** Round trip of the reverse form: all it carries comes back. */
  lemma ReverseRoundTrip(m: Meta, tail: seq<byte>)
    requires Writable(m) && CString(m.path) && m.path != []
    ensures |ReverseSection(m)| >= PREFIX
    ensures Parse(Splice(ReverseSection(m), m.path) + tail)
         == Ok(Meta(REVERSE, m.id, m.path, m.buildId, m.name, [], [], []))
  {
    hide Writable, ReadHeader, Le;
    SectionSpliced(m);
    var src := Splice(ReverseSection(m), m.path) + tail;
    assert At(src, 0, Splice(ReverseSection(m), m.path));
    assert m.name + [] == m.name;
    assert ReverseBody(m) == Le(|m.buildId|, 4) + (m.buildId + ((Le(|m.name| + 0, 4) + (m.name + [])) + []));
    HeaderAt(src, REVERSE, m, [], []);
  }

  // ---------- one section, byte by byte ----------

  /** A replacement and a thread-local reference: every field where the file has it. */
  lemma OneUnitWritten()
    ensures UnitBytes(FunUnit([0x61], [0x62], 0x34))
         == ([2, 0, 0, 0] + [0x61, 0]) + (([2, 0, 0, 0] + [0x62, 0]) + [0x34, 0, 0, 0, 0, 0, 0, 0])
  {
    ShortStr(0x61);
    ShortStr(0x62);
    SmallWord(0x34);
    hide Le, Str;
  }

  lemma OneRefWritten()
    ensures RefBytes(DataRef([0x63], [0x64], 0x20, 0x30, true))
         == ([2, 0, 0, 0] + [0x63, 0]) + (([2, 0, 0, 0] + [0x64, 0])
            + ([0x20, 0, 0, 0, 0, 0, 0, 0] + ([0x30, 0, 0, 0, 0, 0, 0, 0] + [1])))
  {
    ShortStr(0x63);
    ShortStr(0x64);
    SmallWord(0x20);
    SmallWord(0x30);
    hide Le, Str;
  }

  /** And a section with one of each, and one dependency. */
  lemma OnePatchWritten(id: seq<byte>, dep: seq<byte>, u: FunUnit, r: DataRef)
    ensures
      var m := Meta(PATCH, id, [], [0xAB, 0xCD], [0x6C], [u], [dep], [r]);
      Section(m)
      == [1] + id + ([2, 0, 0, 0] + ([0xAB, 0xCD] + (([2, 0, 0, 0] + [0x6C, 0]) + ([1, 0, 0, 0] + (UnitBytes(u)
       + ([1, 0, 0, 0] + (dep + ([1, 0, 0, 0] + RefBytes(r)))))))))
  {
    SmallCount(1);
    SmallCount(2);
    ShortStr(0x6C);
    OneOfEach(u, dep, r);
    hide Le, Str, UnitsBytes, DepsBytes, RefsBytes, UnitBytes, RefBytes;
  }

  lemma {:induction false} NullBytes(k: nat)
    ensures Le(0, k) == Zeros(k)
  {
    if k > 0 {
      NullBytes(k - 1);
      assert [0] + Zeros(k - 1) == Zeros(k);
    }
  }

  lemma SmallCount(v: nat)
    requires v < 256
    ensures Le(v, 4) == [v, 0, 0, 0]
  {
    NullBytes(3);
    assert Le(v, 4) == [v] + Le(0, 3);
  }

  lemma SmallWord(v: nat)
    requires v < 256
    ensures Le(v, 8) == [v, 0, 0, 0, 0, 0, 0, 0]
  {
    NullBytes(7);
    assert Le(v, 8) == [v] + Le(0, 7);
  }

  lemma ShortStr(c: byte)
    ensures Str([c]) == [2, 0, 0, 0] + [c, 0]
  {
    SmallCount(2);
    hide Le;
    assert [c] + [0] == [c, 0];
  }

  lemma OneOfEach(u: FunUnit, dep: seq<byte>, r: DataRef)
    ensures UnitsBytes([u]) == UnitBytes(u) && DepsBytes([dep]) == dep && RefsBytes([r]) == RefBytes(r)
  {
    hide UnitBytes, RefBytes;
    assert [u][1..] == [] && UnitBytes(u) + [] == UnitBytes(u);
    assert [r][1..] == [] && RefBytes(r) + [] == RefBytes(r);
    assert [dep][1..] == [] && dep + [] == dep;
  }

  // ---------- what lies behind a section ----------

  /** Where the parser's cursor ends. */
  function End(src: seq<byte>): (r: Result<nat>)
    ensures r.Ok? ==> r.value <= |src|
  {
    var (m, cur, c) :- ReadHeader(src);
    if m.kind == REVERSE then Ok(cur)
    else
      var (_, _, _, end) :- ReadRest(src, cur, c);
      Ok(end)
  }

  /** A read that ends inside `p`, with something behind `p`, was not cut short: it
      does not depend on what that is. */
  lemma TakeStays(p: seq<byte>, a: seq<byte>, b: seq<byte>, cur: nat, count: nat)
    requires cur <= |p| && a != [] && cur + |Take(p + a, cur, count)| <= |p|
    ensures Take(p + b, cur, count) == Take(p + a, cur, count) && |Take(p + a, cur, count)| == count
  {
    assert (p + a)[cur..cur + count] == p[cur..cur + count] == (p + b)[cur..cur + count];
  }

  lemma CountStays(p: seq<byte>, a: seq<byte>, b: seq<byte>, cur: nat, before: nat, least: nat, code: int)
    requires cur <= |p| && a != []
    ensures var r := ReadCount(p + a, cur, before, least, code);
      r.Ok? && r.value.1 <= |p| ==> ReadCount(p + b, cur, before, least, code) == r
  {
    hide Overlay, Take;
    if ReadCount(p + a, cur, before, least, code).Ok? && cur + |Take(p + a, cur, 4)| <= |p| {
      TakeStays(p, a, b, cur, 4);
    }
  }

  lemma BytesStay(p: seq<byte>, a: seq<byte>, b: seq<byte>, cur: nat, count: nat)
    requires cur <= |p| && a != []
    ensures var r := ReadBytes(p + a, cur, count);
      r.Ok? && r.value.1 <= |p| ==> ReadBytes(p + b, cur, count) == r
  {
    hide Take;
    if cur + |Take(p + a, cur, count)| <= |p| {
      TakeStays(p, a, b, cur, count);
    }
  }

  lemma WordStays(p: seq<byte>, a: seq<byte>, b: seq<byte>, cur: nat, least: nat)
    requires cur <= |p| && a != []
    ensures var r := ReadWord(p + a, cur, least);
      r.Ok? && r.value.1 <= |p| ==> ReadWord(p + b, cur, least) == r
  {
    hide Overlay, Take;
    if cur + |Take(p + a, cur, 8)| <= |p| {
      TakeStays(p, a, b, cur, 8);
    }
  }

  lemma StrStays(p: seq<byte>, a: seq<byte>, b: seq<byte>, cur: nat, c: nat, least: nat)
    requires cur <= |p| && a != []
    ensures var r := ReadStr(p + a, cur, c, least);
      r.Ok? && r.value.1 <= |p| ==> ReadStr(p + b, cur, c, least) == r
  {
    hide ReadCount, ReadBytes, CStr;
    CountStays(p, a, b, cur, c, least, EINVALIDULP);
    var n := ReadCount(p + a, cur, c, least, EINVALIDULP);
    if n.Ok? && n.value.1 <= |p| {
      BytesStay(p, a, b, n.value.1, n.value.0);
    }
  }

  lemma UnitStays(p: seq<byte>, a: seq<byte>, b: seq<byte>, cur: nat, c: nat)
    requires cur <= |p| && a != []
    ensures var r := ReadUnit(p + a, cur, c);
      r.Ok? && r.value.1 <= |p| ==> ReadUnit(p + b, cur, c) == r
  {
    hide ReadStr, ReadWord;
    StrStays(p, a, b, cur, c, 1);
    var s := ReadStr(p + a, cur, c, 1);
    if s.Ok? && s.value.1 <= |p| {
      StrStays(p, a, b, s.value.1, s.value.2, 1);
      var t := ReadStr(p + a, s.value.1, s.value.2, 1);
      if t.Ok? && t.value.1 <= |p| {
        WordStays(p, a, b, t.value.1, 1);
      }
    }
  }

  lemma {:induction false} UnitsStay(p: seq<byte>, a: seq<byte>, b: seq<byte>, cur: nat, c: nat, count: nat)
    requires cur <= |p| && a != []
    ensures var r := ReadUnits(p + a, cur, c, count);
      r.Ok? && r.value.1 <= |p| ==> ReadUnits(p + b, cur, c, count) == r
    decreases count
  {
    hide ReadUnit;
    if count > 0 {
      UnitStays(p, a, b, cur, c);
      var u := ReadUnit(p + a, cur, c);
      if u.Ok? && u.value.1 <= |p| {
        UnitsStay(p, a, b, u.value.1, u.value.2, count - 1);
      }
    }
  }

  lemma {:induction false} DepsStay(p: seq<byte>, a: seq<byte>, b: seq<byte>, cur: nat, count: nat)
    requires cur <= |p| && a != []
    ensures var r := ReadDeps(p + a, cur, count);
      r.Ok? && r.value.1 <= |p| ==> ReadDeps(p + b, cur, count) == r
    decreases count
  {
    hide ReadBytes;
    if count > 0 {
      BytesStay(p, a, b, cur, ID_LEN);
      var d := ReadBytes(p + a, cur, ID_LEN);
      if d.Ok? && d.value.1 <= |p| {
        DepsStay(p, a, b, d.value.1, count - 1);
      }
    }
  }

  lemma RefStays(p: seq<byte>, a: seq<byte>, b: seq<byte>, cur: nat, c: nat)
    requires cur <= |p| && a != []
    ensures var r := ReadRef(p + a, cur, c);
      r.Ok? && r.value.1 <= |p| ==> ReadRef(p + b, cur, c) == r
  {
    hide ReadStr, ReadWord;
    var r := ReadRef(p + a, cur, c);
    if r.Ok? && r.value.1 <= |p| {
      StrStays(p, a, b, cur, c, 4);
      var s := ReadStr(p + a, cur, c, 4);
      StrStays(p, a, b, s.value.1, s.value.2, 4);
      var t := ReadStr(p + a, s.value.1, s.value.2, 4);
      WordStays(p, a, b, t.value.1, 8);
      var x := ReadWord(p + a, t.value.1, 8);
      WordStays(p, a, b, x.value.1, 8);
      var y := ReadWord(p + a, x.value.1, 8);
      BytesStay(p, a, b, y.value.1, 1);
    }
  }

  lemma {:induction false} RefsStay(p: seq<byte>, a: seq<byte>, b: seq<byte>, cur: nat, c: nat, count: nat)
    requires cur <= |p| && a != []
    ensures var r := ReadRefs(p + a, cur, c, count);
      r.Ok? && r.value.1 <= |p| ==> ReadRefs(p + b, cur, c, count) == r
    decreases count
  {
    hide ReadRef;
    if count > 0 {
      RefStays(p, a, b, cur, c);
      var x := ReadRef(p + a, cur, c);
      if x.Ok? && x.value.1 <= |p| {
        RefsStay(p, a, b, x.value.1, x.value.2, count - 1);
      }
    }
  }

  lemma HeaderStays(p: seq<byte>, a: seq<byte>, b: seq<byte>)
    requires a != []
    ensures var r := ReadHeader(p + a);
      r.Ok? && r.value.1 <= |p| ==> ReadHeader(p + b) == r
  {
    hide ReadStr, ReadBytes, ReadCount;
    var r := ReadHeader(p + a);
    if r.Ok? && r.value.1 <= |p| {
      BytesStay(p, a, b, 0, 1);
      var kind := ReadBytes(p + a, 0, 1);
      BytesStay(p, a, b, kind.value.1, ID_LEN);
      var id := ReadBytes(p + a, kind.value.1, ID_LEN);
      StrStays(p, a, b, id.value.1, 0, 1);
      var path := ReadStr(p + a, id.value.1, 0, 1);
      CountStays(p, a, b, path.value.1, path.value.2, 1, EINVALIDULP);
      var n := ReadCount(p + a, path.value.1, path.value.2, 1, EINVALIDULP);
      BytesStay(p, a, b, n.value.1, n.value.0);
      var buildId := ReadBytes(p + a, n.value.1, n.value.0);
      StrStays(p, a, b, buildId.value.1, n.value.0, 1);
    }
  }

  lemma RestStays(p: seq<byte>, a: seq<byte>, b: seq<byte>, cur: nat, c: nat)
    requires cur <= |p| && a != []
    ensures var r := ReadRest(p + a, cur, c);
      r.Ok? && r.value.3 <= |p| ==> ReadRest(p + b, cur, c) == r
  {
    hide ReadCount, ReadUnits, ReadDeps, ReadRefs;
    var r := ReadRest(p + a, cur, c);
    if r.Ok? && r.value.3 <= |p| {
      CountStays(p, a, b, cur, 0, 1, 1);
      var nunits := ReadCount(p + a, cur, 0, 1, 1);
      UnitsStay(p, a, b, nunits.value.1, c, nunits.value.0);
      var units := ReadUnits(p + a, nunits.value.1, c, nunits.value.0);
      CountStays(p, a, b, units.value.1, units.value.2, 1, EINVALIDULP);
      var ndeps := ReadCount(p + a, units.value.1, units.value.2, 1, EINVALIDULP);
      DepsStay(p, a, b, ndeps.value.1, ndeps.value.0);
      var deps := ReadDeps(p + a, ndeps.value.1, ndeps.value.0);
      CountStays(p, a, b, deps.value.1, 0, 4, EINVALIDULP);
      var nrefs := ReadCount(p + a, deps.value.1, 0, 4, EINVALIDULP);
      RefsStay(p, a, b, nrefs.value.1, ndeps.value.0, nrefs.value.0);
    }
  }

  /** Whatever bytes these are, written by anyone: where the reads all end inside
      `src`, none of them cut short, parsing the exact-size buffer and parsing a
      buffer padded with anything agree. */
  lemma PaddingIsNotRead(src: seq<byte>, next: byte, padding: seq<byte>)
    requires End(src + [next]).Ok? && End(src + [next]).value <= |src|
    ensures Parse(src + padding) == Parse(src) == Parse(src + [next])
    ensures Parse(src).Ok? && End(src) == End(src + [next])
  {
    hide ReadHeader, ReadRest;
    var a := [next];
    var h := ReadHeader(src + a);
    HeaderStays(src, a, padding);
    HeaderStays(src, a, []);
    assert src + [] == src;
    if h.Ok? && h.value.1 <= |src| {
      RestStays(src, a, padding, h.value.1, h.value.2);
      RestStays(src, a, [], h.value.1, h.value.2);
    }
  }
}
