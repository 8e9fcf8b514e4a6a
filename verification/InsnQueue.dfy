/** The instruction queue: filled by the library inside the patched process,
    drained by the tool outside it. */
module InsnQueues {
  import opened Bytes
  import opened Errors
  import opened InsnCodec

  const INSNQ_CURR_VERSION := 1
  /** Sizes are computed in C `int`s. */
  const INT_LIMIT := 0x8000_0000

  /** The bytes left by the field-by-field construction of a PRINT instruction. */
  function PutPrint(b: seq<byte>, at: nat, text: seq<byte>): seq<byte> {
    var b1 := Store(b, at, [PRINT_OP]);
    var b2 := Store(b1, at + 1, Le(Align4(INSN_HEADER + |text| + 1), 3));
    Store(b2, at + INSN_HEADER, text + [0])
  }

  lemma PrintChunk(c: seq<byte>, text: seq<byte>)
    requires |c| == Size(Print(text)) && c[0..1] == [PRINT_OP] && FromLe(c[1..4]) == |c|
    requires c[4..4 + (|text| + 1)] == text + [0]
    ensures IsChunk(c, Print(text))
  {
    hide FromLe;
    assert c[0] == c[0..1][0];
    SubSlice(c, 4, 4 + (|text| + 1), 0, |text|);
    assert (text + [0])[..|text|] == text && c[4..4 + (|text| + 1)][|text|] == c[4 + |text|];
  }

  lemma PutPrintIsChunk(b: seq<byte>, at: nat, text: seq<byte>)
    requires at + Size(Print(text)) <= |b| < SIZE_LIMIT
    ensures IsChunk(PutPrint(b, at, text)[at..at + Size(Print(text))], Print(text))
    ensures PutPrint(b, at, text)[..at] == b[..at]
  {
    var n := Size(Print(text));
    assert n == Align4(INSN_HEADER + |text| + 1) && INSN_HEADER == 4;
    assert n < Pow256(3) by { Pow256Values(); }
    hide Store, FromLe, Le, IsChunk, Size, Align4, Pow256;
    FromLeOfLe(n, 3);
    var b3 := PutPrint(b, at, text);
    ThreeStores(b, at, [PRINT_OP], Le(n, 3), text + [0]);
    PrintPlaced(b3, at, n, text);
  }

  lemma PrintPlaced(b: seq<byte>, at: nat, n: nat, text: seq<byte>)
    requires n == Size(Print(text)) && at + n <= |b| && at + 4 + |text + [0]| <= at + n
    requires b[at..at + 1] == [PRINT_OP] && FromLe(b[at + 1..at + 4]) == n
    requires b[at + 4..at + 4 + |text + [0]|] == text + [0]
    ensures IsChunk(b[at..at + n], Print(text))
  {
    hide FromLe, Size, IsChunk;
    SubSlice(b, at, at + n, 0, 1);
    SubSlice(b, at, at + n, 1, 4);
    SubSlice(b, at, at + n, 4, 4 + (|text| + 1));
    PrintChunk(b[at..at + n], text);
  }

  lemma ThreeStores(b: seq<byte>, at: nat, op: seq<byte>, size: seq<byte>, data: seq<byte>)
    requires |op| == 1 && |size| == 3 && at + 4 + |data| <= |b|
    ensures
      var r := Store(Store(Store(b, at, op), at + 1, size), at + 4, data);
      && r[..at] == b[..at] && r[at..at + 1] == op && r[at + 1..at + 4] == size && r[at + 4..at + 4 + |data|] == data
  {
    hide Store;
    var b1 := Store(b, at, op);
    var b2 := Store(b1, at + 1, size);
    StoreHere(b, at, op);
    StoreElsewhere(b1, at + 1, size, at, at + 1);
    StoreElsewhere(b2, at + 4, data, at, at + 1);
    StoreHere(b1, at + 1, size);
    StoreElsewhere(b2, at + 4, data, at + 1, at + 4);
    StoreHere(b2, at + 4, data);
    StoreElsewhere(b, at, op, 0, at);
    StoreElsewhere(b1, at + 1, size, 0, at);
    StoreElsewhere(b2, at + 4, data, 0, at);
  }

  function PutWrite(b: seq<byte>, at: nat, addr: nat, data: seq<byte>): seq<byte> {
    var b1 := Store(b, at, [WRITE_OP]);
    var b2 := Store(b1, at + 1, Le(Align8(WRITE_HEADER + |data|), 3));
    var b3 := Store(b2, at + 4, Le(|data|, 4));
    var b4 := Store(b3, at + 8, Le(addr, 8));
    Store(b4, at + WRITE_HEADER, data)
  }

  lemma PutWriteIsChunk(b: seq<byte>, at: nat, addr: nat, data: seq<byte>)
    requires addr < U64 && |data| < U32
    requires at + Size(Write(addr, data)) <= |b| < SIZE_LIMIT
    ensures IsChunk(PutWrite(b, at, addr, data)[at..at + Size(Write(addr, data))], Write(addr, data))
    ensures PutWrite(b, at, addr, data)[..at] == b[..at]
  {
    hide Store, FromLe, Le;
    var n := Size(Write(addr, data));
    Pow256Values();
    FromLeOfLe(n, 3);
    Le32(|data|);
    Le64(addr);
    var b1 := Store(b, at, [WRITE_OP]);
    var b2 := Store(b1, at + 1, Le(n, 3));
    var b3 := Store(b2, at + 4, Le(|data|, 4));
    var b4 := Store(b3, at + 8, Le(addr, 8));
    var b5 := Store(b4, at + 16, data);
    StoreAt(b, at, [WRITE_OP]);
    StoreAt(b1, at + 1, Le(n, 3));
    StoreAt(b2, at + 4, Le(|data|, 4));
    StoreAt(b3, at + 8, Le(addr, 8));
    StoreAt(b4, at + 16, data);
    StoreElsewhere(b2, at + 4, Le(|data|, 4), at + 1, at + 4);
    StoreElsewhere(b3, at + 8, Le(addr, 8), at + 1, at + 4);
    StoreElsewhere(b3, at + 8, Le(addr, 8), at + 4, at + 8);
    StoreElsewhere(b4, at + 16, data, at + 1, at + 4);
    StoreElsewhere(b4, at + 16, data, at + 4, at + 8);
    StoreElsewhere(b4, at + 16, data, at + 8, at + 16);
    StoreElsewhere(b, at, [WRITE_OP], 0, at);
    StoreElsewhere(b1, at + 1, Le(n, 3), 0, at);
    StoreElsewhere(b2, at + 4, Le(|data|, 4), 0, at);
    StoreElsewhere(b3, at + 8, Le(addr, 8), 0, at);
    StoreElsewhere(b4, at + 16, data, 0, at);
    SubSlice(b5, at, at + n, 1, 4);
    SubSlice(b5, at, at + n, 4, 8);
    SubSlice(b5, at, at + n, 8, 16);
    SubSlice(b5, at, at + n, 16, 16 + |data|);
  }

  class InsnQueue {
    var version: int
    var numInsns: int
    var size: int
    const buffer: array<byte>
    const error: ErrorState
    /** The instructions the first `size` bytes of the buffer encode. */
    ghost var insns: seq<Insn>

    ghost predicate Valid()
      reads this, buffer
    {
      && 0 <= size <= buffer.Length < SIZE_LIMIT
      && numInsns == |insns|
      && Represents(buffer[..], 0, size, insns)
      && forall i :: 0 <= i < |insns| ==> WellFormed(insns[i])
    }

    constructor (capacity: nat, error: ErrorState)
      requires capacity < SIZE_LIMIT
      ensures Valid() && insns == [] && version == INSNQ_CURR_VERSION
      ensures fresh(buffer) && buffer.Length == capacity && this.error == error
    {
      buffer := new byte[capacity](_ => 0);
      this.error := error;
      version, numInsns, size, insns := INSNQ_CURR_VERSION, 0, 0, [];
    }

    /** Reserve `msgSize` bytes, or nothing if they do not fit. */
    method GetWritableArea(msgSize: nat) returns (area: Option<nat>)
      requires size >= 0
      modifies this`numInsns, this`size
      ensures area.None? <==> msgSize == 0 || msgSize + old(size) > buffer.Length
      ensures area.None? ==> numInsns == old(numInsns) && size == old(size)
      ensures area.Some? ==>
        area.value == old(size) && numInsns == old(numInsns) + 1 && size == old(size) + msgSize
    {
      if msgSize == 0 {
        return None;
      }
      if msgSize + size > buffer.Length {
        return None;
      }
      area := Some(size);
      size := size + msgSize;
      numInsns := numInsns + 1;
    }

    method Poke(at: nat, data: seq<byte>)
      requires at + |data| <= buffer.Length
      modifies buffer
      ensures buffer[..] == Store(old(buffer[..]), at, data)
    {
      forall i | 0 <= i < |data| {
        buffer[at + i] := data[i];
      }
    }

    /** Append one PRINT instruction; a string that does not fit leaves the queue
        as it was and puts the library into error state EINSNQ. */
    method InsertPrint(text: seq<byte>) returns (e: int)
      requires Valid() && 0 !in text && |text| + 9 <= INT_LIMIT
      modifies this`numInsns, this`size, this`insns, buffer, error
      ensures Valid()
      ensures
        if old(size) + Size(Print(text)) <= buffer.Length then
          e == ENONE && insns == old(insns) + [Print(text)] && size == old(size) + Size(Print(text))
          && error.state == old(error.state)
        else
          e == EINSNQ && insns == old(insns) && size == old(size) && error.state == EINSNQ
          && buffer[..] == old(buffer[..])
    {
      hide Store, IsChunk, Represents, Le;
      var insnSize := Align4(INSN_HEADER + |text| + 1);
      var area := GetWritableArea(insnSize);
      if area.None? {
        error.Set(EINSNQ);
        return EINSNQ;
      }
      var at := area.value;
      ghost var before := buffer[..];
      Poke(at, [PRINT_OP]);
      Poke(at + 1, Le(insnSize, 3));
      Poke(at + INSN_HEADER, text + [0]);
      insns := insns + [Print(text)];
      PutPrintIsChunk(before, at, text);
      RepresentsAppend(before, buffer[..], 0, at, old(insns), Print(text));
      e := ENONE;
    }

    /** Append one WRITE instruction, or refuse it as InsertPrint does. */
    method InsertWrite(addr: nat, data: seq<byte>) returns (e: int)
      requires Valid() && addr < U64 && |data| + 24 <= INT_LIMIT
      modifies this`numInsns, this`size, this`insns, buffer, error
      ensures Valid()
      ensures
        if old(size) + Size(Write(addr, data)) <= buffer.Length then
          e == ENONE && insns == old(insns) + [Write(addr, data)]
          && size == old(size) + Size(Write(addr, data)) && error.state == old(error.state)
        else
          e == EINSNQ && insns == old(insns) && size == old(size) && error.state == EINSNQ
          && buffer[..] == old(buffer[..])
    {
      hide Store, IsChunk, Represents, Le;
      var insnSize := Align8(WRITE_HEADER + |data|);
      var area := GetWritableArea(insnSize);
      if area.None? {
        error.Set(EINSNQ);
        return EINSNQ;
      }
      var at := area.value;
      ghost var before := buffer[..];
      Poke(at, [WRITE_OP]);
      Poke(at + 1, Le(insnSize, 3));
      Poke(at + 4, Le(|data|, 4));
      Poke(at + 8, Le(addr, 8));
      Poke(at + WRITE_HEADER, data);
      insns := insns + [Write(addr, data)];
      PutWriteIsChunk(before, at, addr, data);
      RepresentsAppend(before, buffer[..], 0, at, old(insns), Write(addr, data));
      e := ENONE;
    }

    /** Anything left in the queue blocks livepatching. */
    method EnsureEmptiness() returns (notEmpty: bool)
      requires Valid()
      modifies error
      ensures notEmpty <==> insns != []
      ensures error.state == if insns != [] then EINSNQ else old(error.state)
    {
      RepresentsSize(buffer[..], 0, size, insns);
      if numInsns > 0 || size > 0 {
        error.Set(EINSNQ);
        return true;
      }
      return false;
    }
  }
}
