/** Interpreting the instruction queue and resetting it afterwards. */
module QueueDrain {
  import opened Bytes
  import opened Errors
  import opened InsnCodec
  import opened InsnQueues
  import opened Ptrace

  function NonNegative(n: int): nat {
    if n < 0 then 0 else n
  }

  /** The decoding loop over a raw buffer, whatever bytes it holds: unknown
      opcodes stop it with EINSNQ after the instructions in front of them. */
  method Interpret(b: array<byte>, numInsns: int, size: int, mem: array<byte>)
      returns (ret: int, printed: seq<seq<byte>>)
    requires b != mem
    requires Interp(b[..], 0, NonNegative(numInsns), size, mem[..], []) != Fault
    modifies mem
    ensures Stopped(ret, mem[..], printed)
         == Interp(b[..], 0, NonNegative(numInsns), size, old(mem[..]), [])
  {
    hide Fetch, Execute, FromLe, StrEnd, Store;
    var pc := 0;
    var executed := 0;
    printed := [];
    while executed < numInsns
      invariant b[..] == old(b[..]) && mem.Length == |old(mem[..])|
      invariant 0 <= executed <= NonNegative(numInsns)
      invariant Interp(b[..], pc, NonNegative(numInsns) - executed, size, mem[..], printed)
             == Interp(b[..], 0, NonNegative(numInsns), size, old(mem[..]), [])
    {
      ghost var effect := Fetch(b[..], pc, mem.Length);
      assert effect != Beyond;
      ghost var now := mem[..];
      var valid, step, text := InterpretOne(b, pc, mem);
      if !valid {
        return EINSNQ, printed;
      }
      pc := pc + step;
      printed := printed + text;
      executed := executed + 1;
    }
    if pc != size {
      return EINSNQ, printed;
    }
    return 0, printed;
  }

  /** Validity test and decoder table for the instruction at `pc`. */
  method InterpretOne(b: array<byte>, pc: int, mem: array<byte>)
      returns (valid: bool, step: int, text: seq<seq<byte>>)
    requires b != mem && Fetch(b[..], pc, mem.Length) != Beyond
    modifies mem
    ensures valid <==> Fetch(b[..], pc, |old(mem[..])|).Fetched?
    ensures valid ==>
      var n := Fetch(b[..], pc, |old(mem[..])|);
      pc + step == n.pc && mem[..] == Execute(old(mem[..]), n.insn) && text == Texts([n.insn])
    ensures !valid ==> mem[..] == old(mem[..])
  {
    hide Store, FromLe;
    var op := b[pc];
    assert b[..][pc] == op;
    text := [];
    valid := true;
    assert forall i, j :: 0 <= i <= j <= b.Length ==> b[..][i..j] == b[i..j];
    step := Signed24(FromLe(b[pc + 1..pc + 4]));
    if op == NOP_OP {
      step := INSN_HEADER;
    } else if op == PRINT_OP {
      var e := StrEnd(b[..], pc + 4, 0);
      text := [b[pc + 4..e]];
    } else if op == WRITE_OP {
      var n := FromLe(b[pc + 4..pc + 8]);
      var addr := FromLe(b[pc + 8..pc + 16]);
      var failed := WriteBytesPtrace(mem, b[pc + 16..pc + 16 + n], addr);
    } else {
      valid := false;
    }
  }

  /** The tool's session on a stopped process: fetch the queue, interpret it
      against the process memory, and reset it in the process. */
  method InterpretFromProcess(queue: InsnQueue, mem: array<byte>)
      returns (ret: int, printed: seq<seq<byte>>)
    requires queue.Valid() && mem != queue.buffer
    requires AllMapped(mem.Length, queue.insns)
    modifies queue, mem
    ensures queue.Valid() && queue.version == old(queue.version)
    ensures ret == if queue.version > INSNQ_CURR_VERSION then EOLDULP else 0
    ensures ret == 0 ==>
      queue.insns == [] && queue.size == 0 && queue.numInsns == 0
      && mem[..] == Replay(old(mem[..]), old(queue.insns)) && printed == Texts(old(queue.insns))
    ensures ret != 0 ==>
      queue.insns == old(queue.insns) && mem[..] == old(mem[..]) && printed == []
  {
    hide Represents, Interp, Replay, Texts;
    if queue.version > INSNQ_CURR_VERSION {
      return EOLDULP, [];
    }
    var size, numInsns := queue.size, queue.numInsns;
    if size > queue.buffer.Length {
      return EINSNQ, [];
    }
    var local := new byte[queue.buffer.Length](i requires 0 <= i < queue.buffer.Length reads queue, queue.buffer =>
      if i < queue.size then queue.buffer[i] else 0);
    SamePrefix(queue.buffer[..], local[..], 0, size, queue.insns);
    InterpDecodes(local[..], 0, size, queue.insns, mem[..], []);
    assert [] + Texts(queue.insns) == Texts(queue.insns);
    ret, printed := Interpret(local, numInsns, size, mem);
    if ret != 0 {
      return EINSNQ, printed;
    }
    queue.size := 0;
    queue.numInsns := 0;
    queue.insns := [];
    assert Represents(queue.buffer[..], 0, 0, []) by { EmptyRepresents(queue.buffer[..]); }
    ret := 0;
  }

  lemma EmptyRepresents(b: seq<byte>)
    ensures Represents(b, 0, 0, [])
  {
  }

  /** The reader only needs the first `end` bytes of the queue. */
  lemma {:induction false} SamePrefix(b: seq<byte>, b': seq<byte>, pc: nat, end: nat, insns: seq<Insn>)
    requires Represents(b, pc, end, insns)
    requires end <= |b| && end <= |b'| && b'[..end] == b[..end]
    ensures Represents(b', pc, end, insns)
    decreases |insns|
  {
    hide IsChunk, Size;
    if insns != [] {
      var next := pc + Size(insns[0]);
      assert b'[pc..next] == b'[..end][pc..next] == b[pc..next];
      SamePrefix(b, b', next, end, insns[1..]);
    }
  }
}
