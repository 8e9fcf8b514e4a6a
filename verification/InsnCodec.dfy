/** Layout and meaning of the instruction queue: what a run of bytes stands for,
    and what interpreting those bytes does to the patched process. */
module InsnCodec {
  import opened Bytes
  import opened Errors

  datatype Insn =
    | Nop
    | Print(text: seq<byte>)
    | Write(addr: nat, data: seq<byte>)

  const NOP_OP: byte := 0
  const PRINT_OP: byte := 1
  const WRITE_OP: byte := 2
  const INSN_HEADER: nat := 4
  const WRITE_HEADER: nat := 16
  /** Largest value of the signed 24-bit size field, plus one. */
  const SIZE_LIMIT: nat := 0x80_0000

  // ---------- alignment ----------

  /** align_to at the two alignments the queue uses. */
  function Align4(val: nat): (r: nat)
    ensures val <= r < val + 4 && r % 4 == 0
  {
    (val + 3) / 4 * 4
  }

  function Align8(val: nat): (r: nat)
    ensures val <= r < val + 8 && r % 8 == 0
  {
    (val + 7) / 8 * 8
  }

  lemma AlignIsLeast(val: nat, m: nat)
    requires val <= m
    ensures m % 4 == 0 ==> Align4(val) <= m
    ensures m % 8 == 0 ==> Align8(val) <= m
  {
    assert m % 4 == 0 ==> (val + 3) / 4 <= m / 4;
    assert m % 8 == 0 ==> (val + 7) / 8 <= m / 8;
  }

  /** Bitwise and. */
  function And(x: nat, y: nat): nat {
    if x == 0 || y == 0 then 0 else 2 * And(x / 2, y / 2) + if x % 2 == 1 && y % 2 == 1 then 1 else 0
  }

  function Ones(bits: nat): nat {
    if bits == 0 then 0 else 2 * Ones(bits - 1) + 1
  }

  lemma {:induction false} AndOnes(x: nat, bits: nat)
    requires x <= Ones(bits)
    ensures And(x, Ones(bits)) == x
  {
    if x > 0 {
      assert Ones(bits) / 2 == Ones(bits - 1) && Ones(bits) % 2 == 1;
      AndOnes(x / 2, bits - 1);
    }
  }

  lemma AndEven(x: nat, y: nat)
    ensures And(x, 2 * y) == 2 * And(x / 2, y)
  {
    assert 2 * y / 2 == y && 2 * y % 2 == 0;
  }

  /** `(val + mask) & (~mask)` in 32 bits, where ~7 is 2^32 - 8 and ~3 is 2^32 - 4,
      is the rounding of Align8 and Align4. */
  lemma MaskRounds(val: nat)
    requires val < 0x7FFF_FFF8
    ensures And(val + 7, 0x1_0000_0000 - 8) == Align8(val)
    ensures And(val + 3, 0x1_0000_0000 - 4) == Align4(val)
  {
    hide And, Ones;
    assert Ones(29) == 0x1FFF_FFFF && Ones(30) == 0x3FFF_FFFF by { OnesValues(); }
    var v, w := val + 7, val + 3;
    AndEven(v, 4 * Ones(29));
    AndEven(v / 2, 2 * Ones(29));
    AndEven(v / 4, Ones(29));
    AndOnes(v / 8, 29);
    AndEven(w, 2 * Ones(30));
    AndEven(w / 2, Ones(30));
    AndOnes(w / 4, 30);
  }

  lemma OnesValues()
    ensures Ones(29) == 0x1FFF_FFFF && Ones(30) == 0x3FFF_FFFF
  {
    assert Ones(2) == 3;
    FourMore(2);
    FourMore(6);
    FourMore(10);
    FourMore(14);
    FourMore(18);
    FourMore(22);
    FourMore(26);
    assert Ones(30) == 2 * Ones(29) + 1;
  }

  lemma FourMore(bits: nat)
    ensures Ones(bits + 4) == 16 * Ones(bits) + 15
  {
    assert Ones(bits + 4) == 2 * Ones(bits + 3) + 1 && Ones(bits + 3) == 2 * Ones(bits + 2) + 1;
    assert Ones(bits + 2) == 2 * Ones(bits + 1) + 1;
  }

  // ---------- encoding ----------

  function Size(i: Insn): (n: nat)
    ensures n >= INSN_HEADER
  {
    match i
    case Nop => INSN_HEADER
    case Print(text) => Align4(INSN_HEADER + |text| + 1)
    case Write(_, data) => Align8(WRITE_HEADER + |data|)
  }

  function TotalSize(insns: seq<Insn>): nat {
    if insns == [] then 0 else Size(insns[0]) + TotalSize(insns[1..])
  }

  ghost predicate WellFormed(i: Insn) {
    match i
    case Nop => true
    case Print(text) => 0 !in text
    case Write(addr, data) => addr < U64 && |data| < U32
  }

  /** `c` is an encoding of `i`; alignment bytes are left free. */
  ghost predicate IsChunk(c: seq<byte>, i: Insn) {
    && |c| == Size(i)
    && match i
       case Nop => c[0] == NOP_OP
       case Print(text) =>
         && INSN_HEADER + |text| < |c|
         && c[0] == PRINT_OP && FromLe(c[1..4]) == |c|
         && c[4..4 + |text|] == text && c[4 + |text|] == 0
       case Write(addr, data) =>
         && WRITE_HEADER + |data| <= |c|
         && c[0] == WRITE_OP && FromLe(c[1..4]) == |c|
         && FromLe(c[4..8]) == |data| && FromLe(c[8..16]) == addr
         && c[16..16 + |data|] == data
  }

  /** b[pc..end] is a run of encodings of exactly `insns`, in order. */
  ghost predicate Represents(b: seq<byte>, pc: nat, end: nat, insns: seq<Insn>)
    decreases |insns|
  {
    if insns == [] then pc == end
    else
      var next := pc + Size(insns[0]);
      next <= end <= |b| && IsChunk(b[pc..next], insns[0]) && Represents(b, next, end, insns[1..])
  }

  lemma {:induction false} RepresentsSize(b: seq<byte>, pc: nat, end: nat, insns: seq<Insn>)
    requires Represents(b, pc, end, insns)
    ensures end == pc + TotalSize(insns) && |insns| <= end - pc
    decreases |insns|
  {
    if insns != [] {
      RepresentsSize(b, pc + Size(insns[0]), end, insns[1..]);
    }
  }

  /** Storing one more chunk at `end`, and changing nothing before it, appends one instruction. */
  lemma {:induction false} RepresentsAppend(b: seq<byte>, b': seq<byte>, pc: nat, end: nat,
                                            insns: seq<Insn>, i: Insn)
    requires Represents(b, pc, end, insns)
    requires end + Size(i) <= |b'| && end <= |b| && b'[..end] == b[..end]
    requires IsChunk(b'[end..end + Size(i)], i)
    ensures Represents(b', pc, end + Size(i), insns + [i])
    decreases |insns|
  {
    hide IsChunk, Size;
    if insns == [] {
      assert insns + [i] == [i] && [i][1..] == [];
    } else {
      var next := pc + Size(insns[0]);
      RepresentsSize(b, next, end, insns[1..]);
      assert b'[pc..next] == b'[..end][pc..next] == b[pc..next];
      RepresentsAppend(b, b', next, end, insns[1..], i);
      assert (insns + [i])[1..] == insns[1..] + [i];
    }
  }

  lemma {:induction false} TotalSizeAppend(xs: seq<Insn>, x: Insn)
    ensures TotalSize(xs + [x]) == TotalSize(xs) + Size(x)
  {
    if xs == [] {
      assert xs + [x] == [x];
    } else {
      assert (xs + [x])[1..] == xs[1..] + [x];
      TotalSizeAppend(xs[1..], x);
    }
  }

  // ---------- meaning ----------

  function Execute(mem: seq<byte>, i: Insn): (r: seq<byte>)
    ensures |r| == |mem|
  {
    match i
    case Write(addr, data) => Store(mem, addr, data)
    case _ => mem
  }

  /** What the queued writes do to a memory, first one first. */
  function Replay(mem: seq<byte>, insns: seq<Insn>): (r: seq<byte>)
    ensures |r| == |mem|
    decreases |insns|
  {
    if insns == [] then mem else Replay(Execute(mem, insns[0]), insns[1..])
  }

  lemma {:induction false} ReplayAppend(mem: seq<byte>, xs: seq<Insn>, ys: seq<Insn>)
    ensures Replay(mem, xs + ys) == Replay(Replay(mem, xs), ys)
    decreases |xs|
  {
    if xs == [] {
      assert xs + ys == ys;
    } else {
      assert (xs + ys)[1..] == xs[1..] + ys;
      ReplayAppend(Execute(mem, xs[0]), xs[1..], ys);
    }
  }

  function Texts(insns: seq<Insn>): seq<seq<byte>> {
    if insns == [] then []
    else (if insns[0].Print? then [insns[0].text] else []) + Texts(insns[1..])
  }

  /** A ptrace write of `n` bytes at `addr` pokes whole 8-byte words. */
  predicate Mapped(memLen: nat, addr: nat, n: nat) {
    n == 0 || addr + Align8(n) <= memLen
  }

  ghost predicate AllMapped(memLen: nat, insns: seq<Insn>) {
    forall i :: 0 <= i < |insns| && insns[i].Write? ==> Mapped(memLen, insns[i].addr, |insns[i].data|)
  }

  // ---------- the interpreter, on bytes ----------

  function Signed24(v: nat): int {
    if v < SIZE_LIMIT then v else v - 2 * SIZE_LIMIT
  }

  /** What the instruction at `pc` does: Beyond when executing it would touch bytes
      outside the buffer or unmapped memory, Invalid when its opcode is unknown. */
  datatype Effect = Beyond | Invalid | Fetched(pc: int, insn: Insn)

  function Fetch(b: seq<byte>, pc: int, memLen: nat): Effect {
    if pc < 0 || pc + INSN_HEADER > |b| then Beyond
    else
      var next := pc + Signed24(FromLe(b[pc + 1..pc + 4]));
      if b[pc] == NOP_OP then Fetched(pc + INSN_HEADER, Nop)
      else if b[pc] == PRINT_OP then FetchPrint(b, pc, next)
      else if b[pc] == WRITE_OP then FetchWrite(b, pc, next, memLen)
      else Invalid
  }

  function FetchPrint(b: seq<byte>, pc: nat, next: int): Effect
    requires pc + INSN_HEADER <= |b|
  {
    var e := StrEnd(b, pc + 4, 0);
    if e == |b| then Beyond else Fetched(next, Print(b[pc + 4..e]))
  }

  function FetchWrite(b: seq<byte>, pc: nat, next: int, memLen: nat): Effect {
    if pc + WRITE_HEADER > |b| then Beyond
    else
      var n := FromLe(b[pc + 4..pc + 8]);
      var addr := FromLe(b[pc + 8..pc + 16]);
      if pc + WRITE_HEADER + n > |b| || !Mapped(memLen, addr, n) then Beyond
      else Fetched(next, Write(addr, b[pc + 16..pc + 16 + n]))
  }

  datatype Outcome = Fault | Stopped(code: int, mem: seq<byte>, printed: seq<seq<byte>>)

  /** The interpreter loop from `pc` on, `left` instructions still to execute. */
  function Interp(b: seq<byte>, pc: int, left: nat, size: int,
                  mem: seq<byte>, printed: seq<seq<byte>>): Outcome
    decreases left
  {
    if left == 0 then Stopped(if pc != size then EINSNQ else 0, mem, printed)
    else
      match Fetch(b, pc, |mem|)
      case Beyond => Fault
      case Invalid => Stopped(EINSNQ, mem, printed)
      case Fetched(next, insn) =>
        Interp(b, next, left - 1, size, Execute(mem, insn), printed + Texts([insn]))
  }

  lemma FetchesPrint(b: seq<byte>, pc: nat, next: int, text: seq<byte>)
    requires pc + INSN_HEADER + |text| < |b| && 0 !in text
    requires b[pc + 4..pc + 4 + |text|] == text && b[pc + 4 + |text|] == 0
    ensures FetchPrint(b, pc, next) == Fetched(next, Print(text))
  {
    assert forall k :: 0 <= k < |text| ==> text[k] == b[pc + 4 + k];
    StrEndIs(b, pc + 4, pc + 4 + |text|, 0);
  }

  lemma FetchesWrite(b: seq<byte>, pc: nat, next: int, memLen: nat, addr: nat, data: seq<byte>)
    requires pc + WRITE_HEADER + |data| <= |b| && Mapped(memLen, addr, |data|)
    requires FromLe(b[pc + 4..pc + 8]) == |data| && FromLe(b[pc + 8..pc + 16]) == addr
    requires b[pc + 16..pc + 16 + |data|] == data
    ensures FetchWrite(b, pc, next, memLen) == Fetched(next, Write(addr, data))
  {
    hide FromLe, Align8;
  }

  /** Decoding inverts encoding. */
  lemma FetchDecodes(b: seq<byte>, pc: nat, n: nat, i: Insn, memLen: nat)
    requires n == Size(i) && pc + n <= |b| < SIZE_LIMIT
    requires IsChunk(b[pc..pc + n], i) && WellFormed(i)
    requires i.Write? ==> Mapped(memLen, i.addr, |i.data|)
    ensures Fetch(b, pc, memLen) == Fetched(pc + n, i)
  {
    hide FromLe, Align4, Align8, FetchWrite, FetchPrint, Mapped;
    var c := b[pc..pc + n];
    assert c[0] == b[pc];
    SubSlice(b, pc, pc + n, 1, 4);
    if i.Print? {
      PrintDecodes(b, pc, n, i.text);
    } else if i.Write? {
      WriteDecodes(b, pc, n, i.addr, i.data, memLen);
    }
  }

  lemma PrintDecodes(b: seq<byte>, pc: nat, n: nat, text: seq<byte>)
    requires n == Size(Print(text)) && pc + n <= |b| && 0 !in text && IsChunk(b[pc..pc + n], Print(text))
    ensures FetchPrint(b, pc, pc + n) == Fetched(pc + n, Print(text))
  {
    hide FromLe, Align4, FetchPrint;
    var c := b[pc..pc + n];
    SubSlice(b, pc, pc + n, 4, 4 + |text|);
    assert b[pc + 4 + |text|] == c[4 + |text|];
    FetchesPrint(b, pc, pc + n, text);
  }

  lemma WriteDecodes(b: seq<byte>, pc: nat, n: nat, addr: nat, data: seq<byte>, memLen: nat)
    requires n == Size(Write(addr, data)) && pc + n <= |b| && IsChunk(b[pc..pc + n], Write(addr, data))
    requires Mapped(memLen, addr, |data|)
    ensures FetchWrite(b, pc, pc + n, memLen) == Fetched(pc + n, Write(addr, data))
  {
    hide FromLe, Align8, FetchWrite, Mapped;
    SubSlice(b, pc, pc + n, 4, 8);
    SubSlice(b, pc, pc + n, 8, 16);
    SubSlice(b, pc, pc + n, 16, 16 + |data|);
    FetchesWrite(b, pc, pc + n, memLen, addr, data);
  }

  lemma TextsUnfold(insns: seq<Insn>, printed: seq<seq<byte>>)
    ensures printed + Texts(insns)
         == if insns == [] then printed else printed + Texts([insns[0]]) + Texts(insns[1..])
  {
    if insns == [] {
      assert printed + [] == printed;
    } else {
      var head: seq<seq<byte>> := if insns[0].Print? then [insns[0].text] else [];
      assert [insns[0]][1..] == [] && head + [] == head;
      assert Texts([insns[0]]) == head;
      AppendsAssociate(printed, head, Texts(insns[1..]));
    }
  }

  lemma AppendsAssociate<T>(x: seq<T>, y: seq<T>, z: seq<T>)
    ensures x + (y + z) == x + y + z
  {
  }

  /** Interpreting encoded instructions executes exactly them, in order, and
      ends with pc at the size of the queue and every instruction counted. */
  lemma {:induction false} InterpDecodes(b: seq<byte>, pc: nat, size: nat, insns: seq<Insn>,
                                         mem: seq<byte>, printed: seq<seq<byte>>)
    requires |b| < SIZE_LIMIT && Represents(b, pc, size, insns)
    requires forall i :: 0 <= i < |insns| ==> WellFormed(insns[i])
    requires AllMapped(|mem|, insns)
    ensures Interp(b, pc, |insns|, size, mem, printed)
         == Stopped(0, Replay(mem, insns), printed + Texts(insns))
    decreases |insns|
  {
    hide Fetch, IsChunk, Size, Execute, FromLe, WellFormed, Mapped, Texts;
    TextsUnfold(insns, printed);
    if insns != [] {
      var i, n := insns[0], Size(insns[0]);
      FetchDecodes(b, pc, n, i, |mem|);
      InterpDecodes(b, pc + n, size, insns[1..], Execute(mem, i), printed + Texts([i]));
    }
  }
}
