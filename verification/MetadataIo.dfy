/** The programs around the metadata format: the packer's writer, the two ways of
    adding the container path, and the parser with its cursor. */
module MetadataIo {
  import opened Bytes
  import opened Errors
  import opened Metadata

  // ---------- packer ----------

  class Stream {
    var written: seq<byte>

    constructor ()
      ensures written == []
    {
      written := [];
    }

    method Write(data: seq<byte>)
      modifies this
      ensures written == old(written) + data
    {
      written := written + data;
    }

    method WriteCounted(s: seq<byte>)
      modifies this
      ensures written == old(written) + Str(s)
    {
      Write(Le(|s| + 1, 4));
      Write(s + [0]);
      assert old(written) + Le(|s| + 1, 4) + (s + [0]) == old(written) + (Le(|s| + 1, 4) + (s + [0]));
    }

    method WriteUnits(us: seq<FunUnit>)
      modifies this
      ensures written == old(written) + UnitsBytes(us)
    {
      hide Str, Le;
      var i := 0;
      while i < |us|
        invariant 0 <= i <= |us|
        invariant written + UnitsBytes(us[i..]) == old(written) + UnitsBytes(us)
      {
        var u := us[i];
        ghost var before := written;
        assert us[i..][0] == u && us[i..][1..] == us[i + 1..];
        WriteCounted(u.oldName);
        WriteCounted(u.newName);
        Write(Le(u.oldAddr, 8));
        assert written == before + UnitBytes(u);
        assert before + UnitsBytes(us[i..]) == before + UnitBytes(u) + UnitsBytes(us[i + 1..]);
        i := i + 1;
      }
      assert written + [] == written;
    }

    method WriteDeps(ds: seq<seq<byte>>)
      modifies this
      ensures written == old(written) + DepsBytes(ds)
    {
      var i := 0;
      while i < |ds|
        invariant 0 <= i <= |ds|
        invariant written + DepsBytes(ds[i..]) == old(written) + DepsBytes(ds)
      {
        ghost var before := written;
        assert ds[i..][0] == ds[i] && ds[i..][1..] == ds[i + 1..];
        Write(ds[i]);
        assert before + DepsBytes(ds[i..]) == before + ds[i] + DepsBytes(ds[i + 1..]);
        i := i + 1;
      }
      assert written + [] == written;
    }

    method WriteRef(r: DataRef)
      modifies this
      ensures written == old(written) + RefBytes(r)
    {
      hide Str, Le;
      WriteCounted(r.targetName);
      WriteCounted(r.referenceName);
      Write(Le(r.targetOffset, 8));
      Write(Le(r.patchOffset, 8));
      Write([if r.tls then 1 else 0]);
      RefJoined(old(written), Str(r.targetName), Str(r.referenceName), Le(r.targetOffset, 8), Le(r.patchOffset, 8),
                [if r.tls then 1 else 0]);
    }

    method WriteRefs(rs: seq<DataRef>)
      modifies this
      ensures written == old(written) + RefsBytes(rs)
    {
      hide Str, Le, RefBytes, RefsBytes;
      var i := 0;
      assert rs[0..] == rs;
      while i < |rs|
        invariant 0 <= i <= |rs|
        invariant written + RefsBytes(rs[i..]) == old(written) + RefsBytes(rs)
      {
        var r := rs[i];
        ghost var before := written;
        WriteRef(r);
        RefsStep(rs, i);
        Associates(before, RefBytes(r), RefsBytes(rs[i + 1..]));
        i := i + 1;
      }
      RefsEnd(rs[i..]);
      assert written + [] == written;
    }

    /** create_patch_metadata_file. */
    method WriteMetadata(m: Meta)
      modifies this
      ensures written == old(written) + Section(m)
    {
      hide Str, Le, UnitsBytes, DepsBytes, RefsBytes, Section;
      Write([PATCH]);
      Write(m.id);
      Write(Le(|m.buildId|, 4));
      Write(m.buildId);
      WriteCounted(m.name);
      Write(Le(|m.units|, 4));
      WriteUnits(m.units);
      Write(Le(|m.deps|, 4));
      WriteDeps(m.deps);
      Write(Le(|m.refs|, 4));
      WriteRefs(m.refs);
      SectionJoined(old(written), m);
    }

    /** write_reverse_patch. */
    method WriteReverse(m: Meta)
      modifies this
      ensures written == old(written) + ReverseSection(m)
    {
      hide Le;
      Write([REVERSE]);
      Write(m.id);
      Write(Le(|m.buildId|, 4));
      Write(m.buildId);
      Write(Le(|m.name|, 4));
      Write(m.name);
    }
  }

  // ---------- adding the path ----------

  /** The tool's copy into a new buffer; None when the result would not leave
      room in a metadata buffer of `limit` bytes. */
  method ExtractToMem(section: seq<byte>, path: seq<byte>, limit: nat) returns (out: Option<seq<byte>>)
    requires PREFIX <= |section|
    ensures out == if |section| + |path| + 1 + 4 >= limit then None else Some(Splice(section, path))
  {
    var pathSize := |path| + 1;
    var metaSize := |section| + pathSize + 4;
    if metaSize >= limit {
      return None;
    }
    var finalMeta := section[..PREFIX];
    finalMeta := finalMeta + Le(pathSize, 4);
    finalMeta := finalMeta + (path + [0]);
    finalMeta := finalMeta + section[PREFIX..];
    assert finalMeta == Splice(section, path) by { hide Le; }
    out := Some(finalMeta);
  }

  /** memmove: the ranges may overlap. */
  method MoveBytes(buffer: array<byte>, to: nat, from: nat, n: nat)
    requires to + n <= buffer.Length && from + n <= buffer.Length
    modifies buffer
    ensures buffer[..] == Store(old(buffer[..]), to, old(buffer[from..from + n]))
  {
    ghost var b := buffer[..];
    forall i | 0 <= i < n {
      buffer[to + i] := buffer[from + i];
    }
    MovedIs(b, buffer[..], to, b[from..from + n]);
  }

  lemma MovedIs(b: seq<byte>, b': seq<byte>, to: nat, data: seq<byte>)
    requires |b| == |b'| && to + |data| <= |b|
    requires forall i :: 0 <= i < |b| ==> b'[i] == if to <= i < to + |data| then data[i - to] else b[i]
    ensures b' == Store(b, to, data)
  {
  }

  method CopyBytes(buffer: array<byte>, to: nat, data: seq<byte>)
    requires to + |data| <= buffer.Length
    modifies buffer
    ensures buffer[..] == Store(old(buffer[..]), to, data)
  {
    forall i | 0 <= i < |data| {
      buffer[to + i] := data[i];
    }
  }

  /** The library's own splice, inside the metadata buffer: shift right, then fill
      the gap. The shifted range overlaps itself. */
  method InjectPath(buffer: array<byte>, path: seq<byte>, size: nat) returns (code: int)
    requires PREFIX <= size <= buffer.Length
    modifies buffer
    ensures code == if size + 4 + |path| + 1 > buffer.Length then ENOMEM else 0
    ensures code != 0 ==> buffer[..] == old(buffer[..])
    ensures code == 0 ==>
      buffer[..] == Splice(old(buffer[..size]), path) + old(buffer[size + 4 + |path| + 1..])
  {
    hide Le, Store;
    var right := size - PREFIX;
    var pathSize := |path| + 1;
    var objectSize := 4 + pathSize;
    if size + objectSize > buffer.Length {
      return ENOMEM;
    }
    ghost var b, rest := buffer[..], buffer[PREFIX..size];
    MoveBytes(buffer, PREFIX + objectSize, PREFIX, right);
    CopyBytes(buffer, PREFIX, Le(pathSize, 4));
    CopyBytes(buffer, PREFIX + 4, path + [0]);
    GapFilled(b, PREFIX, Le(pathSize, 4), path + [0], rest);
    SpliceIs(b, path, size);
    assert b[PREFIX..size] == rest && PREFIX + 4 + |path + [0]| + |rest| == size + objectSize;
    assert b[..size] == old(buffer[..size]) && b[size + objectSize..] == old(buffer[size + objectSize..]);
    code := 0;
  }

  lemma GapFilled(b: seq<byte>, at: nat, count: seq<byte>, text: seq<byte>, rest: seq<byte>)
    requires at + |count| + |text| + |rest| <= |b|
    ensures
      var p := at + |count|;
      var q := p + |text|;
      Store(Store(Store(b, q, rest), at, count), p, text) == b[..at] + ((count + text) + rest) + b[q + |rest|..]
  {
    hide Store;
    var p := at + |count|;
    var q := p + |text|;
    var end := q + |rest|;
    var b1 := Store(b, q, rest);
    var b2 := Store(b1, at, count);
    var b3 := Store(b2, p, text);
    StoreHere(b, q, rest);
    StoreHere(b1, at, count);
    StoreHere(b2, p, text);
    StoreElsewhere(b, q, rest, 0, at);
    StoreElsewhere(b1, at, count, 0, at);
    StoreElsewhere(b2, p, text, 0, at);
    StoreElsewhere(b2, p, text, at, p);
    StoreElsewhere(b1, at, count, q, end);
    StoreElsewhere(b2, p, text, q, end);
    StoreElsewhere(b, q, rest, end, |b|);
    StoreElsewhere(b1, at, count, end, |b|);
    StoreElsewhere(b2, p, text, end, |b|);
    FiveParts(b3, at, p, q, end);
    assert b[0..at] == b[..at] && b[end..|b|] == b[end..];
  }

  lemma SpliceIs(b: seq<byte>, path: seq<byte>, size: nat)
    requires PREFIX <= size <= |b|
    ensures Splice(b[..size], path) == b[..PREFIX] + ((Le(|path| + 1, 4) + (path + [0])) + b[PREFIX..size])
  {
    hide Le;
    assert b[..size][..PREFIX] == b[..PREFIX] && b[..size][PREFIX..] == b[PREFIX..size];
  }

  lemma Associates(x: seq<byte>, y: seq<byte>, z: seq<byte>)
    ensures x + y + z == x + (y + z)
  {
  }

  lemma RefJoined(w: seq<byte>, a: seq<byte>, b: seq<byte>, c: seq<byte>, d: seq<byte>, e: seq<byte>)
    ensures w + a + b + c + d + e == w + (a + (b + (c + (d + e))))
  {
    Associates(w + a + b + c, d, e);
    Associates(w + a + b, c, d + e);
    Associates(w + a, b, c + (d + e));
    Associates(w, a, b + (c + (d + e)));
  }

  lemma RefsStep(rs: seq<DataRef>, i: nat)
    requires i < |rs|
    ensures RefsBytes(rs[i..]) == RefBytes(rs[i]) + RefsBytes(rs[i + 1..])
  {
    hide RefBytes;
    assert rs[i..][0] == rs[i] && rs[i..][1..] == rs[i + 1..];
  }

  lemma RefsEnd(rs: seq<DataRef>)
    requires rs == []
    ensures RefsBytes(rs) == []
  {
  }

  lemma SectionJoined(w: seq<byte>, m: Meta)
    ensures w + [PATCH] + m.id + Le(|m.buildId|, 4) + m.buildId + Str(m.name) + Le(|m.units|, 4) + UnitsBytes(m.units)
            + Le(|m.deps|, 4) + DepsBytes(m.deps) + Le(|m.refs|, 4) + RefsBytes(m.refs)
         == w + Section(m)
  {
    hide Str, Le, UnitsBytes, DepsBytes, RefsBytes;
    var head := w + [PATCH] + m.id;
    var a, b, c := head + Le(|m.buildId|, 4), m.buildId, Str(m.name);
    var u, us, d, ds := Le(|m.units|, 4), UnitsBytes(m.units), Le(|m.deps|, 4), DepsBytes(m.deps);
    var r, rs := Le(|m.refs|, 4), RefsBytes(m.refs);
    BodyJoined(a, b, c, u, us, d, ds, r, rs);
    Associates(head, Le(|m.buildId|, 4), b + (c + (u + (us + (d + (ds + (r + rs)))))));
    Associates(w, [PATCH], m.id);
    Associates(w, [PATCH] + m.id, Body(m));
  }

  lemma BodyJoined(a: seq<byte>, b: seq<byte>, c: seq<byte>, u: seq<byte>, us: seq<byte>, d: seq<byte>, ds: seq<byte>,
                   r: seq<byte>, rs: seq<byte>)
    ensures a + b + c + u + us + d + ds + r + rs == a + (b + (c + (u + (us + (d + (ds + (r + rs)))))))
  {
    Associates(a + b + c + u + us + d + ds, r, rs);
    Associates(a + b + c + u + us + d, ds, r + rs);
    Associates(a + b + c + u + us, d, ds + (r + rs));
    Associates(a + b + c + u, us, d + (ds + (r + rs)));
    Associates(a + b + c, u, us + (d + (ds + (r + rs))));
    Associates(a + b, c, u + (us + (d + (ds + (r + rs)))));
    Associates(a, b, c + (u + (us + (d + (ds + (r + rs))))));
  }

  lemma FiveParts(s: seq<byte>, i: nat, j: nat, k: nat, l: nat)
    requires i <= j <= k <= l <= |s|
    ensures s == s[0..i] + ((s[i..j] + s[j..k]) + s[k..l]) + s[l..|s|]
  {
  }

  // ---------- parser ----------

  class MetaReader {
    const src: array<byte>
    const metaLen: nat
    /** Bytes consumed so far; never beyond metaLen. */
    var cur: nat

    predicate Valid()
      reads this
    {
      cur <= metaLen <= src.Length
    }

    ghost function Buf(): seq<byte>
      reads this, src
      requires metaLen <= src.Length
    {
      src[..metaLen]
    }

    constructor (src: array<byte>, metaLen: nat)
      requires metaLen <= src.Length
      ensures Valid() && cur == 0 && this.src == src && this.metaLen == metaLen
    {
      this.src := src;
      this.metaLen := metaLen;
      cur := 0;
    }

    method ReadFromMem(count: nat) returns (s: seq<byte>)
      requires Valid()
      modifies this
      ensures Valid() && s == Take(Buf(), old(cur), count) && cur == old(cur) + |s|
    {
      var final := count;
      if final > metaLen - cur {
        final := metaLen - cur;
      }
      s := src[cur..cur + final];
      assert src[..metaLen][cur..cur + final] == s;
      assert src[..metaLen][cur..] == src[cur..metaLen];
      cur := cur + final;
    }

    method NextCount(before: nat, least: nat, code: int) returns (r: Result<nat>)
      requires Valid()
      modifies this
      ensures Valid()
      ensures ReadCount(Buf(), old(cur), before, least, code)
           == match r case Ok(n) => Ok((n, cur)) case Err(e) => Err(e)
    {
      var s := ReadFromMem(4);
      if |s| < least {
        return Err(code);
      }
      r := Ok(Overlay(before, s, 4));
    }

    method NextBytes(count: nat) returns (r: Result<seq<byte>>)
      requires Valid()
      modifies this
      ensures Valid()
      ensures ReadBytes(Buf(), old(cur), count)
           == match r case Ok(s) => Ok((s, cur)) case Err(e) => Err(e)
    {
      var s := ReadFromMem(count);
      if |s| < count {
        return Err(EINVALIDULP);
      }
      r := Ok(s);
    }

    method NextWord(least: nat) returns (r: Result<nat>)
      requires Valid()
      modifies this
      ensures Valid()
      ensures ReadWord(Buf(), old(cur), least)
           == match r case Ok(v) => Ok((v, cur)) case Err(e) => Err(e)
    {
      var s := ReadFromMem(8);
      if |s| < least {
        return Err(EINVALIDULP);
      }
      r := Ok(Overlay(0, s, 8));
    }

    method NextStr(c: nat, least: nat) returns (r: Result<(seq<byte>, nat)>)
      requires Valid()
      modifies this
      ensures Valid()
      ensures ReadStr(Buf(), old(cur), c, least)
           == match r case Ok((s, n)) => Ok((s, cur, n)) case Err(e) => Err(e)
    {
      hide ReadCount, ReadBytes;
      var n :- NextCount(c, least, EINVALIDULP);
      var s :- NextBytes(n);
      r := Ok((CStr(s), n));
    }

    method NextUnits(c: nat, count: nat) returns (r: Result<(seq<FunUnit>, nat)>)
      requires Valid()
      modifies this
      ensures Valid()
      ensures ReadUnits(Buf(), old(cur), c, count)
           == match r case Ok((us, n)) => Ok((us, cur, n)) case Err(e) => Err(e)
    {
      hide ReadStr, ReadWord;
      var units: seq<FunUnit> := [];
      var n := c;
      var j := 0;
      assert forall us: seq<FunUnit> :: [] + us == us;
      while j < count
        invariant 0 <= j <= count && Valid()
        invariant ReadUnits(Buf(), old(cur), c, count)
               == match ReadUnits(Buf(), cur, n, count - j)
                  case Ok((us, k, m)) => Ok((units + us, k, m))
                  case Err(e) => Err(e)
      {
        ghost var at, before := cur, n;
        var oldName :- NextStr(n, 1);
        n := oldName.1;
        var newName :- NextStr(n, 1);
        n := newName.1;
        var addr :- NextWord(1);
        var u := FunUnit(oldName.0, newName.0, addr);
        assert ReadUnit(Buf(), at, before) == Ok((u, cur, n));
        assert forall us: seq<FunUnit> :: units + ([u] + us) == (units + [u]) + us;
        units := units + [u];
        j := j + 1;
      }
      assert units + [] == units;
      r := Ok((units, n));
    }

    method NextDeps(count: nat) returns (r: Result<seq<seq<byte>>>)
      requires Valid()
      modifies this
      ensures Valid()
      ensures ReadDeps(Buf(), old(cur), count)
           == match r case Ok(ds) => Ok((ds, cur)) case Err(e) => Err(e)
    {
      hide ReadBytes;
      var deps: seq<seq<byte>> := [];
      var i := 0;
      assert forall ds: seq<seq<byte>> :: [] + ds == ds;
      while i < count
        invariant 0 <= i <= count && Valid()
        invariant ReadDeps(Buf(), old(cur), count)
               == match ReadDeps(Buf(), cur, count - i)
                  case Ok((ds, k)) => Ok((deps + ds, k))
                  case Err(e) => Err(e)
      {
        var d :- NextBytes(ID_LEN);
        assert forall ds: seq<seq<byte>> :: deps + ([d] + ds) == (deps + [d]) + ds;
        deps := deps + [d];
        i := i + 1;
      }
      assert deps + [] == deps;
      r := Ok(deps);
    }

    method NextRef(c: nat) returns (r: Result<(DataRef, nat)>)
      requires Valid()
      modifies this
      ensures Valid()
      ensures ReadRef(Buf(), old(cur), c)
           == match r case Ok((x, n)) => Ok((x, cur, n)) case Err(e) => Err(e)
    {
      hide ReadStr, ReadWord;
      var target :- NextStr(c, 4);
      var reference :- NextStr(target.1, 4);
      var targetOffset :- NextWord(8);
      var patchOffset :- NextWord(8);
      var tls :- NextBytes(1);
      r := Ok((DataRef(target.0, reference.0, targetOffset, patchOffset, tls[0] != 0), reference.1));
    }

    method NextRefs(c: nat, count: nat) returns (r: Result<seq<DataRef>>)
      requires Valid()
      modifies this
      ensures Valid()
      ensures ReadRefs(Buf(), old(cur), c, count)
           == match r case Ok(xs) => Ok((xs, cur)) case Err(e) => Err(e)
    {
      hide ReadRef;
      var refs: seq<DataRef> := [];
      var n := c;
      var i := 0;
      assert forall xs: seq<DataRef> :: [] + xs == xs;
      while i < count
        invariant 0 <= i <= count && Valid()
        invariant ReadRefs(Buf(), old(cur), c, count)
               == match ReadRefs(Buf(), cur, n, count - i)
                  case Ok((xs, k)) => Ok((refs + xs, k))
                  case Err(e) => Err(e)
      {
        var x :- NextRef(n);
        n := x.1;
        assert forall xs: seq<DataRef> :: refs + ([x.0] + xs) == (refs + [x.0]) + xs;
        refs := refs + [x.0];
        i := i + 1;
      }
      assert refs + [] == refs;
      r := Ok(refs);
    }

    method NextHeader() returns (r: Result<(Meta, nat)>)
      requires Valid() && cur == 0
      modifies this
      ensures Valid()
      ensures ReadHeader(Buf())
           == match r case Ok((m, n)) => Ok((m, cur, n)) case Err(e) => Err(e)
    {
      hide ReadStr, ReadCount;
      var kind :- NextBytes(1);
      var id :- NextBytes(ID_LEN);
      var path :- NextStr(0, 1);
      if path.0 == [] {
        return Err(EINVALIDULP);
      }
      var n :- NextCount(path.1, 1, EINVALIDULP);
      var buildId :- NextBytes(n);
      var name :- NextStr(n, 1);
      r := Ok((Meta(kind[0], id, path.0, buildId, name.0, [], [], []), name.1));
    }

    /** parse_metadata_from_mem, from a reader that has not been moved yet. */
    method ParseMetadata() returns (r: Result<Meta>)
      requires Valid() && cur == 0
      modifies this
      ensures Valid() && r == Parse(Buf())
    {
      hide ReadHeader, ReadCount, ReadUnits, ReadDeps, ReadRefs;
      var header :- NextHeader();
      var m := header.0;
      if m.kind == REVERSE {
        return Ok(m);
      }
      var nunits :- NextCount(0, 1, 1);
      var units :- NextUnits(header.1, nunits);
      var ndeps :- NextCount(units.1, 1, EINVALIDULP);
      var deps :- NextDeps(ndeps);
      var nrefs :- NextCount(0, 4, EINVALIDULP);
      var refs :- NextRefs(ndeps, nrefs);
      r := Ok(m.(units := units.0, deps := deps, refs := refs));
    }
  }
}
