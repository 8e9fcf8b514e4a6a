/** The x86_64 prologue layout and just enough of the instruction set to say
    where control goes when a patched function is called. */
module X86 {
  import opened Bytes
  import opened InsnCodec

  type Addr = nat

  const PRE_NOPS_LEN: nat := 14
  const ENDBR64: seq<byte> := [0xF3, 0x0F, 0x1E, 0xFA]
  const NOP2: seq<byte> := [0x66, 0x90]

  // ---------- the processor ----------

  function Signed8(b: byte): int {
    if b < 0x80 then b else b - 0x100
  }

  function Signed32(v: nat): int {
    if v < 0x8000_0000 then v else v - 0x1_0000_0000
  }

  /** Address of the instruction after the one at `ip`, or None where the
      processor model stops: an instruction outside the modelled set. */
  function Step(mem: seq<byte>, ip: int): Option<int> {
    if ip < 0 || ip >= |mem| then None
    else if mem[ip] == 0x90 then Some(ip + 1)                             // nop
    else if ip + 2 > |mem| then None
    else if mem[ip] == 0x66 && mem[ip + 1] == 0x90 then Some(ip + 2)      // two-byte nop
    else if mem[ip] == 0xEB then Some(ip + 2 + Signed8(mem[ip + 1]))      // jmp rel8
    else if ip + 4 > |mem| then None
    else if mem[ip..ip + 4] == ENDBR64 then Some(ip + 4)
    else if ip + 6 > |mem| then None
    else if mem[ip] == 0xFF && mem[ip + 1] == 0x25 then                   // jmp [rip + disp32]
      var slot := ip + 6 + Signed32(FromLe(mem[ip + 2..ip + 6]));
      if 0 <= slot && slot + 8 <= |mem| then Some(FromLe(mem[slot..slot + 8])) else None
    else None
  }

  function Exec(mem: seq<byte>, ip: int, steps: nat): Option<int>
    decreases steps
  {
    if steps == 0 then Some(ip)
    else
      match Step(mem, ip)
      case None => None
      case Some(next) => Exec(mem, next, steps - 1)
  }

  /** Called at `from`, control gets to `to`. */
  ghost predicate Reaches(mem: seq<byte>, from: int, to: int) {
    exists steps: nat :: Exec(mem, from, steps) == Some(to)
  }

  /** Where control goes behind what can be patched at `at`: one two-byte
      instruction, or two one-byte nops. */
  function Landing(mem: seq<byte>, at: int): Option<int> {
    if 0 <= at < |mem| && mem[at] == 0x90 then Step(mem, at + 1) else Step(mem, at)
  }

  /** Where that is for an entry nobody touched. */
  function OwnWay(mem: seq<byte>, at: Addr): int
    requires at + 1 < |mem|
  {
    if mem[at] == 0xEB then at + 2 + Signed8(mem[at + 1]) else at + 2
  }

  // ---------- the prologue ----------

  /** How a function entry can be patched: with its jump at the entry itself,
      behind an endbr64, or not at all. */
  datatype Kind = Plain | Endbr | Unpatchable

  predicate HasEndbr(mem: seq<byte>, f: Addr) {
    f + 4 <= |mem| && mem[f..f + 4] == ENDBR64
  }

  /** A two-byte nop sequence or a jmp rel8 at `at`. */
  predicate JumpOrNops(mem: seq<byte>, at: Addr) {
    at + 2 <= |mem|
    && (mem[at] == 0xEB || (mem[at + 1] == 0x90 && (mem[at] == 0x90 || mem[at] == 0x66)))
  }

  function KindOf(mem: seq<byte>, f: Addr): Kind {
    if HasEndbr(mem, f) then (if JumpOrNops(mem, f + 4) then Endbr else Unpatchable)
    else if JumpOrNops(mem, f) then Plain
    else Unpatchable
  }

  /** Distance from the function entry to the patched jump. */
  /** An entry can be patched exactly when it, or what is behind its endbr64, starts
      with one of the two-byte nops the compiler leaves or with a short jump. */
  lemma PatchableIff(mem: seq<byte>, f: Addr)
    requires f + 6 <= |mem|
    ensures
      var at := if mem[f..f + 4] == [0xF3, 0x0F, 0x1E, 0xFA] then f + 4 else f;
      KindOf(mem, f) != Unpatchable <==>
        mem[at..at + 2] == [0x66, 0x90] || mem[at..at + 2] == [0x90, 0x90] || mem[at] == 0xEB
  {
    var at := if mem[f..f + 4] == [0xF3, 0x0F, 0x1E, 0xFA] then f + 4 else f;
    var two := mem[at..at + 2];
    assert two[0] == mem[at] && two[1] == mem[at + 1];
    assert two == [mem[at], mem[at + 1]];
  }

  function Bias(k: Kind): nat {
    if k == Endbr then 4 else 0
  }

  /** jmp *data(%rip); data; [endbr64;] jmp back to the first byte. */
  function Prologue(k: Kind, target: Addr): (p: seq<byte>)
    ensures |p| == PRE_NOPS_LEN + Bias(k) + 2
  {
    [0xFF, 0x25, 0, 0, 0, 0] + Le(target, 8)
    + if k == Endbr then ENDBR64 + [0xEB, 0x100 - (PRE_NOPS_LEN + 2 + 4)]
      else [0xEB, 0x100 - (PRE_NOPS_LEN + 2)]
  }

  lemma PrologueLayout(k: Kind, target: Addr)
    ensures
      var p := Prologue(k, target);
      && p[0] == 0xFF && p[1] == 0x25 && p[2..6] == [0, 0, 0, 0] && p[6..14] == Le(target, 8)
      && (k == Endbr ==> p[14..18] == ENDBR64 && p[18] == 0xEB && p[19] == 0xEC)
      && (k != Endbr ==> p[14] == 0xEB && p[15] == 0xF0)
  {
    hide Le;
    var p := Prologue(k, target);
    var head := [0xFF, 0x25, 0, 0, 0, 0] + Le(target, 8);
    assert p[..14] == head;
    assert p[0] == head[0] && p[1] == head[1];
    assert p[2..6] == head[2..6] == [0, 0, 0, 0];
    assert p[6..14] == head[6..14] == Le(target, 8);
    if k == Endbr {
      assert p[14..] == ENDBR64 + [0xEB, 0xEC];
      assert p[14..18] == p[14..][..4] == ENDBR64;
      assert p[18] == p[14..][4] && p[19] == p[14..][5];
    } else {
      assert p[14..] == [0xEB, 0xF0];
      assert p[14] == p[14..][0] && p[15] == p[14..][1];
    }
  }

  /** The one memory write ulp_patch_addr queues for a function of kind `k`. */
  function PatchWrite(k: Kind, f: Addr, target: Option<Addr>): Option<Insn> {
    if k == Unpatchable || f < PRE_NOPS_LEN then None
    else
      match target
      case Some(t) => Some(Write(f - PRE_NOPS_LEN, Prologue(k, t)))
      case None => Some(Write(f + Bias(k), NOP2))
  }

  // ---------- areas ----------

  /** First and one-past-last byte a function's prologue occupies. For a function
      that cannot be patched: the bytes the livepatchable test looks at. */
  function AreaLo(k: Kind, f: Addr): int {
    if k == Unpatchable then f else f - PRE_NOPS_LEN
  }

  function AreaHi(k: Kind, f: Addr): int {
    if k == Plain then f + 2 else f + 6
  }

  ghost predicate InArea(k: Kind, f: Addr, a: int) {
    AreaLo(k, f) <= a < AreaHi(k, f)
  }

  ghost predicate Apart(k: Kind, f: Addr, lo: int, hi: int) {
    hi <= AreaLo(k, f) || AreaHi(k, f) <= lo
  }

  // ---------- what the prologue bytes mean ----------

  ghost predicate Redirects(mem: seq<byte>, k: Kind, f: Addr, target: Addr) {
    && PRE_NOPS_LEN <= f && AreaHi(k, f) <= |mem|
    && mem[f - PRE_NOPS_LEN..f + Bias(k) + 2] == Prologue(k, target)
  }

  ghost predicate FallsThrough(mem: seq<byte>, k: Kind, f: Addr) {
    && PRE_NOPS_LEN <= f && AreaHi(k, f) <= |mem|
    && (k == Endbr ==> mem[f..f + 4] == ENDBR64)
    && mem[f + Bias(k)..f + Bias(k) + 2] == NOP2
  }

  /** The indirect jump in front of the entry loads the word stored behind it. */
  lemma IndirectJump(mem: seq<byte>, lo: nat, target: Addr)
    requires lo + 14 <= |mem| && target < U64
    requires mem[lo] == 0xFF && mem[lo + 1] == 0x25
    requires mem[lo + 2..lo + 6] == [0, 0, 0, 0] && mem[lo + 6..lo + 14] == Le(target, 8)
    ensures Step(mem, lo) == Some(target)
  {
    assert FromLe([0, 0, 0, 0]) == 0 by {
      assert [0, 0, 0, 0] == Le(0, 4);
      Le32(0);
    }
    Le64(target);
    hide FromLe, Le;
    assert mem[lo..lo + 4][0] == 0xFF;
  }

  /** A patched entry leads to the new function, in two jumps (behind endbr64 if present). */
  lemma RedirectsReaches(mem: seq<byte>, k: Kind, f: Addr, target: Addr)
    requires k != Unpatchable && Redirects(mem, k, f, target) && target < U64
    ensures Exec(mem, f, if k == Endbr then 3 else 2) == Some(target)
    ensures Reaches(mem, f, target)
  {
    hide FromLe, Le;
    var lo := f - PRE_NOPS_LEN;
    var hi := f + Bias(k) + 2;
    PrologueLayout(k, target);
    hide Prologue;
    var area := mem[lo..hi];
    assert mem[lo] == area[0] && mem[lo + 1] == area[1];
    SubSlice(mem, lo, hi, 2, 6);
    SubSlice(mem, lo, hi, 6, 14);
    IndirectJump(mem, lo, target);
    var jump := f + Bias(k);
    assert mem[jump] == area[jump - lo] && mem[jump + 1] == area[jump + 1 - lo];
    assert Step(mem, jump) == Some(lo);
    if k == Endbr {
      SubSlice(mem, lo, hi, 14, 18);
      assert mem[f] == mem[f..f + 4][0];
      assert Step(mem, f) == Some(jump);
    }
    hide Step;
    assert Exec(mem, lo, 1) == Some(target);
    assert Exec(mem, jump, 2) == Some(target);
    if k == Endbr {
      assert Exec(mem, f, 3) == Some(target);
    }
  }

  /** A reverted entry does nothing and continues with the function's own body. */
  lemma FallsThroughReaches(mem: seq<byte>, k: Kind, f: Addr)
    requires k != Unpatchable && FallsThrough(mem, k, f)
    ensures Exec(mem, f, if k == Endbr then 2 else 1) == Some(f + Bias(k) + 2)
    ensures Reaches(mem, f, f + Bias(k) + 2)
    ensures Landing(mem, f + Bias(k)) == Some(f + Bias(k) + 2)
  {
    var at := f + Bias(k);
    assert mem[at] == mem[at..at + 2][0] && mem[at + 1] == mem[at..at + 2][1];
    assert Step(mem, at) == Some(at + 2);
    assert Exec(mem, at, 1) == Some(at + 2);
    if k == Endbr {
      assert Step(mem, f) == Some(at);
      assert Exec(mem, f, 2) == Some(at + 2);
    }
  }

  /** An entry that was never patched: it reaches the body behind its nops, or, as
      the livepatchable test also lets an entry through whose first instruction is
      a jmp rel8 of its own, whatever that jump goes to. */
  lemma UntouchedReaches(mem: seq<byte>, f: Addr)
    requires KindOf(mem, f) != Unpatchable
    ensures
      var at := f + Bias(KindOf(mem, f));
      at + 1 < |mem| && Landing(mem, at) == Some(OwnWay(mem, at)) && Reaches(mem, f, OwnWay(mem, at))
  {
    var k := KindOf(mem, f);
    var at := f + Bias(k);
    var to := OwnWay(mem, at);
    var n := if mem[at] == 0x90 then 2 else 1;
    if mem[at] == 0x90 {
      assert Step(mem, at) == Some(at + 1) && Step(mem, at + 1) == Some(at + 2);
      assert Exec(mem, at + 1, 1) == Some(to);
    } else {
      assert Step(mem, at) == Some(to);
      assert Exec(mem, to, 0) == Some(to);
    }
    assert Exec(mem, at, n) == Some(to);
    if k == Endbr {
      assert Step(mem, f) == Some(at);
      assert Exec(mem, f, n + 1) == Some(to);
    }
  }

  // ---------- writes and areas ----------

  /** Patching a function makes its prologue mean what was asked for and does
      not change what kind of function it is. */
  lemma PatchTakesEffect(mem: seq<byte>, f: Addr, target: Option<Addr>)
    requires PRE_NOPS_LEN <= f && f + 6 <= |mem| && KindOf(mem, f) != Unpatchable
    ensures
      var k := KindOf(mem, f);
      var mem' := Execute(mem, PatchWrite(k, f, target).value);
      && KindOf(mem', f) == k
      && (target.Some? ==> Redirects(mem', k, f, target.value))
      && (target.None? ==> FallsThrough(mem', k, f))
  {
    hide Le, Prologue, Store;
    var k := KindOf(mem, f);
    var w := PatchWrite(k, f, target).value;
    var mem' := Execute(mem, w);
    StoreAt(mem, w.addr, w.data);
    match target {
      case Some(t) =>
        PrologueLayout(k, t);
        if k == Endbr {
          SubSlice(mem', f - 14, f + 6, 14, 18);
          assert mem'[f + 4] == w.data[18];
        } else {
          assert mem'[f] == w.data[14];
          assert mem'[f] == mem'[f..f + 4][0];
        }
      case None =>
        assert mem'[w.addr] == 0x66 && mem'[w.addr + 1] == 0x90;
        if k == Endbr {
          StoreElsewhere(mem, w.addr, w.data, f, f + 4);
        } else {
          assert mem'[f] == mem'[f..f + 4][0];
        }
    }
  }

  lemma SameSlice(mem: seq<byte>, mem': seq<byte>, lo: nat, hi: nat)
    requires lo <= hi <= |mem| && |mem| == |mem'|
    requires forall a :: lo <= a < hi ==> mem[a] == mem'[a]
    ensures mem[lo..hi] == mem'[lo..hi]
  {
  }

  /** The kind and the meaning of an entry depend on the bytes of its area only. */
  lemma AreaDecides(mem: seq<byte>, mem': seq<byte>, f: Addr)
    requires f + 6 <= |mem| == |mem'| && PRE_NOPS_LEN <= f
    requires forall a :: InArea(KindOf(mem, f), f, a) ==> mem[a] == mem'[a]
    ensures KindOf(mem', f) == KindOf(mem, f)
    ensures var k := KindOf(mem, f); k != Unpatchable ==>
      && (FallsThrough(mem, k, f) ==> FallsThrough(mem', k, f))
      && (forall t :: Redirects(mem, k, f, t) ==> Redirects(mem', k, f, t))
  {
    var k := KindOf(mem, f);
    assert forall a :: AreaLo(k, f) <= a < AreaHi(k, f) ==> InArea(k, f, a);
    match k {
      case Plain => PlainAreaDecides(mem, mem', f);
      case Endbr => EndbrAreaDecides(mem, mem', f);
      case Unpatchable => StaysUnpatchable(mem, mem', f);
    }
  }

  lemma PlainAreaDecides(mem: seq<byte>, mem': seq<byte>, f: Addr)
    requires f + 6 <= |mem| == |mem'| && PRE_NOPS_LEN <= f && KindOf(mem, f) == Plain
    requires forall a :: f - PRE_NOPS_LEN <= a < f + 2 ==> mem[a] == mem'[a]
    ensures KindOf(mem', f) == Plain
    ensures FallsThrough(mem, Plain, f) ==> FallsThrough(mem', Plain, f)
    ensures forall t :: Redirects(mem, Plain, f, t) ==> Redirects(mem', Plain, f, t)
  {
    SameSlice(mem, mem', f - 14, f + 2);
    SameSlice(mem, mem', f, f + 2);
    // 0xF3, the first byte of endbr64, opens neither a jump nor a nop.
    assert mem'[f] == mem[f] && mem'[f] == mem'[f..f + 4][0];
  }

  lemma EndbrAreaDecides(mem: seq<byte>, mem': seq<byte>, f: Addr)
    requires f + 6 <= |mem| == |mem'| && PRE_NOPS_LEN <= f && KindOf(mem, f) == Endbr
    requires forall a :: f - PRE_NOPS_LEN <= a < f + 6 ==> mem[a] == mem'[a]
    ensures KindOf(mem', f) == Endbr
    ensures FallsThrough(mem, Endbr, f) ==> FallsThrough(mem', Endbr, f)
    ensures forall t :: Redirects(mem, Endbr, f, t) ==> Redirects(mem', Endbr, f, t)
  {
    SameSlice(mem, mem', f, f + 4);
    SameSlice(mem, mem', f - 14, f + 6);
    SameSlice(mem, mem', f + 4, f + 6);
  }

  lemma StaysUnpatchable(mem: seq<byte>, mem': seq<byte>, f: Addr)
    requires f + 6 <= |mem| == |mem'| && KindOf(mem, f) == Unpatchable
    requires forall a :: f <= a < f + 6 ==> mem[a] == mem'[a]
    ensures KindOf(mem', f) == Unpatchable
  {
    SameSlice(mem, mem', f, f + 4);
    assert mem'[f] == mem[f] && mem'[f + 1] == mem[f + 1] && mem'[f + 4] == mem[f + 4] && mem'[f + 5] == mem[f + 5];
  }
}
