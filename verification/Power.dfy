/** The POWER variant: a branch back to the area in front of the function entry,
    either at the entry itself or behind a two-instruction global entry point.
    Memory is seen as an array of 4-byte instruction words. */
module Power {
  import opened Bytes
  import opened Errors

  type Word = bv32

  const PRE_NOPS_LEN: nat := 13
  const NOP: Word := 0x6000_0000

  // ---------- the branch instruction ----------

  /** A branch instruction as the library builds it from a negative byte offset. */
  function Branch(offset: Word): Word {
    (offset & 0x00FF_FFFF) | 0x4B00_0000
  }

  /** I-form fields (Power ISA, Book I, section 2.4): primary opcode 18, a
      24-bit word displacement, the absolute bit and the link bit. */
  predicate IsRelativeBranch(w: Word) {
    w >> 26 == 18 && w & 3 == 0
  }

  /** The displacement LI || 0b00, sign-extended to 32 bits. */
  function Displacement(w: Word): Word {
    if w & 0x0200_0000 != 0 then (w & 0x03FF_FFFC) | 0xFC00_0000 else w & 0x03FF_FFFC
  }

  /** The word built is the relative branch to `offset` exactly for the multiples
      of four from -2^24 to -4 (as 32-bit two's complement numbers). */
  lemma BranchDecodes(offset: Word)
    ensures
      (IsRelativeBranch(Branch(offset)) && Displacement(Branch(offset)) == offset)
      <==> (offset >= 0xFF00_0000 && offset & 3 == 0)
  {
  }

  /** -(INSN_SIZE * PRE_NOPS_LEN + offset) for the two places the branch can be at. */
  function BackFrom(slot: nat): Word {
    if slot == 0 then 0xFFFF_FFCC else 0xFFFF_FFC4
  }

  /** Both offsets lead, from their place, to the first word of the area. */
  lemma BackReachesArea()
    ensures BackFrom(0) + 52 == 0 && BackFrom(2) + 60 == 0
    ensures forall slot :: slot == 0 || slot == 2 ==>
      IsRelativeBranch(Branch(BackFrom(slot))) && Displacement(Branch(BackFrom(slot))) == BackFrom(slot)
  {
    BranchDecodes(BackFrom(0));
    BranchDecodes(BackFrom(2));
    assert BackFrom(0) >= 0xFF00_0000 && BackFrom(0) & 3 == 0;
    assert BackFrom(2) >= 0xFF00_0000 && BackFrom(2) & 3 == 0;
  }

  // ---------- where the branch goes ----------

  predicate NopOrBranch(w: Word, slot: nat) {
    w == NOP || w == Branch(BackFrom(slot))
  }

  ghost predicate EntryMapped(mem: seq<Word>, f: nat) {
    PRE_NOPS_LEN <= f && f + 3 <= |mem|
  }

  /** Word distance from the entry to the patchable instruction, if there is one. */
  function BranchSlot(mem: seq<Word>, f: nat): Option<nat>
    requires EntryMapped(mem, f)
  {
    if NopOrBranch(mem[f], 0) then Some(0)
    else if NopOrBranch(mem[f + 2], 2) then Some(2)
    else None
  }

  datatype Request = Patch(prologue: seq<Word>) | Skip

  /** ulp_patch_addr. The area in front of the entry is written before it is known
      whether the entry can be patched. */
  function Apply(mem: seq<Word>, f: nat, r: Request): (seq<Word>, int)
    requires EntryMapped(mem, f) && (r.Patch? ==> |r.prologue| == PRE_NOPS_LEN)
  {
    var slot := BranchSlot(mem, f);
    match r
    case Patch(prologue) =>
      var filled := mem[..f - PRE_NOPS_LEN] + prologue + mem[f..];
      if slot.None? then (filled, ENOPATCHABLE)
      else (filled[f + slot.value := Branch(BackFrom(slot.value))], 0)
    case Skip =>
      if slot.None? then (mem, ENOPATCHABLE) else (mem[f + slot.value := NOP], 0)
  }

  function ApplyAll(mem: seq<Word>, f: nat, rs: seq<Request>): (r: seq<Word>)
    requires EntryMapped(mem, f)
    requires forall i :: 0 <= i < |rs| && rs[i].Patch? ==> |rs[i].prologue| == PRE_NOPS_LEN
    ensures |r| == |mem|
  {
    if rs == [] then mem
    else
      var n := |rs| - 1;
      Apply(ApplyAll(mem, f, rs[..n]), f, rs[n]).0
  }

  /** After any sequence of patches and skips the branch offset is the one found
      at first, and apart from the area in front of the entry and the one
      patchable instruction no word has changed. */
  lemma {:induction false} SlotIsStable(mem: seq<Word>, f: nat, rs: seq<Request>)
    requires EntryMapped(mem, f)
    requires forall i :: 0 <= i < |rs| && rs[i].Patch? ==> |rs[i].prologue| == PRE_NOPS_LEN
    ensures
      var m := ApplyAll(mem, f, rs);
      var slot := BranchSlot(mem, f);
      && |m| == |mem| && BranchSlot(m, f) == slot
      && forall a :: 0 <= a < |mem| && !(f - PRE_NOPS_LEN <= a < f) && (slot.Some? ==> a != f + slot.value) ==>
           m[a] == mem[a]
  {
    if rs != [] {
      var n := |rs| - 1;
      hide Apply, BranchSlot;
      SlotIsStable(mem, f, rs[..n]);
      OneIsStable(ApplyAll(mem, f, rs[..n]), f, rs[n]);
    }
  }

  lemma OneIsStable(mem: seq<Word>, f: nat, r: Request)
    requires EntryMapped(mem, f) && (r.Patch? ==> |r.prologue| == PRE_NOPS_LEN)
    ensures
      var m := Apply(mem, f, r).0;
      var slot := BranchSlot(mem, f);
      && |m| == |mem| && BranchSlot(m, f) == slot
      && forall a :: 0 <= a < |mem| && !(f - PRE_NOPS_LEN <= a < f) && (slot.Some? ==> a != f + slot.value) ==>
           m[a] == mem[a]
  {
    hide Branch, BackFrom;
  }

  /** Without a place for the branch both requests fail; a patch request has filled
      the area in front of the entry all the same, and nothing else changes. */
  lemma NoSlotFails(mem: seq<Word>, f: nat, r: Request)
    requires EntryMapped(mem, f) && (r.Patch? ==> |r.prologue| == PRE_NOPS_LEN) && BranchSlot(mem, f).None?
    ensures
      var (m, code) := Apply(mem, f, r);
      && code == ENOPATCHABLE && |m| == |mem|
      && (r.Skip? ==> m == mem)
      && (r.Patch? ==> m[f - PRE_NOPS_LEN..f] == r.prologue)
      && m[..f - PRE_NOPS_LEN] == mem[..f - PRE_NOPS_LEN] && m[f..] == mem[f..]
  {
  }

  /** The entry itself is used whenever it can be; the word behind the global entry
      point only when it cannot, and each time the other one stays as it is. */
  lemma FirstSlotWins(mem: seq<Word>, f: nat, rs: seq<Request>)
    requires EntryMapped(mem, f)
    requires forall i :: 0 <= i < |rs| && rs[i].Patch? ==> |rs[i].prologue| == PRE_NOPS_LEN
    ensures
      var m := ApplyAll(mem, f, rs);
      if mem[f] == NOP || mem[f] == Branch(BackFrom(0)) then
        && (m[f] == NOP || m[f] == Branch(BackFrom(0))) && m[f + 2] == mem[f + 2]
      else m[f] == mem[f]
  {
    SlotIsStable(mem, f, rs);
    hide ApplyAll, Branch, BackFrom;
  }

  /** After a patch the entry branches to the first word of the area, which holds
      the prologue; after a skip it runs on. */
  lemma LastRequestDecides(mem: seq<Word>, f: nat, rs: seq<Request>)
    requires EntryMapped(mem, f) && rs != [] && BranchSlot(mem, f).Some?
    requires forall i :: 0 <= i < |rs| && rs[i].Patch? ==> |rs[i].prologue| == PRE_NOPS_LEN
    ensures
      var m := ApplyAll(mem, f, rs);
      var slot := BranchSlot(mem, f).value;
      match rs[|rs| - 1]
      case Skip => m[f + slot] == NOP
      case Patch(prologue) =>
        && IsRelativeBranch(m[f + slot])
        && Displacement(m[f + slot]) == BackFrom(slot)
        && (slot == 0 || slot == 2) && BackFrom(slot) + (if slot == 0 then 52 else 60) == 0
        && m[f - PRE_NOPS_LEN..f] == prologue
  {
    SlotIsStable(mem, f, rs[..|rs| - 1]);
    BackReachesArea();
    hide Branch, BackFrom, IsRelativeBranch, Displacement;
  }

  // ---------- in place ----------

  method GetBranchOffset(mem: array<Word>, f: nat) returns (slot: Option<nat>)
    requires EntryMapped(mem[..], f)
    ensures slot == BranchSlot(mem[..], f)
  {
    hide Branch, BackFrom;
    var validSlots := [0, 2];
    var i := 0;
    while i < |validSlots|
      invariant 0 <= i <= 2
      invariant forall j :: 0 <= j < i ==> !NopOrBranch(mem[f + validSlots[j]], validSlots[j])
    {
      var s := validSlots[i];
      var branch := Branch(BackFrom(s));
      if mem[f + s] == NOP || mem[f + s] == branch {
        return Some(s);
      }
      i := i + 1;
    }
    assert !NopOrBranch(mem[f + validSlots[0]], validSlots[0]) && !NopOrBranch(mem[f + validSlots[1]], validSlots[1]);
    slot := None;
  }

  method PatchAddr(mem: array<Word>, f: nat, r: Request) returns (code: int)
    requires EntryMapped(mem[..], f) && (r.Patch? ==> |r.prologue| == PRE_NOPS_LEN)
    modifies mem
    ensures (mem[..], code) == Apply(old(mem[..]), f, r)
  {
    hide Branch, BackFrom;
    ghost var before := mem[..];
    if r.Patch? {
      forall i | 0 <= i < PRE_NOPS_LEN {
        mem[f - PRE_NOPS_LEN + i] := r.prologue[i];
      }
      assert mem[..] == before[..f - PRE_NOPS_LEN] + r.prologue + before[f..];
    }
    var slot := GetBranchOffset(mem, f);
    assert slot == BranchSlot(before, f);
    if slot.None? {
      return ENOPATCHABLE;
    }
    mem[f + slot.value] := if r.Patch? then Branch(BackFrom(slot.value)) else NOP;
    code := 0;
  }
}
