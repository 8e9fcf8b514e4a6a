/** Where patchable functions lie in memory, and why writes aimed at one of
    them leave every other one alone. */
module Layout {
  import opened Bytes
  import opened InsnCodec
  import opened X86
  import opened Engine

  /** A process image: its functions and what kind of entry each one has, the
      bytes static-data references may be written to, and the size of memory. */
  datatype World = World(kinds: map<Addr, Kind>, slots: set<int>, size: nat)

  /** Prologue areas are pairwise disjoint, and disjoint from the reference slots. */
  ghost predicate WellPlaced(w: World) {
    && (forall f :: f in w.kinds ==> PRE_NOPS_LEN <= f && f + 12 <= w.size)
    && (forall f, g :: f in w.kinds && g in w.kinds && f != g && w.kinds[f] != Unpatchable ==>
          Apart(w.kinds[g], g, AreaLo(w.kinds[f], f), AreaHi(w.kinds[f], f)))
    && (forall f, a :: f in w.kinds && a in w.slots ==> !InArea(w.kinds[f], f, a))
  }

  ghost predicate Laid(w: World, mem: seq<byte>) {
    && WellPlaced(w)
    && |mem| == w.size
    && forall f :: f in w.kinds ==> KindOf(mem, f) == w.kinds[f]
  }

  ghost predicate PatchFor(w: World, i: Insn, f: Addr, target: Option<Addr>) {
    && f in w.kinds && w.kinds[f] != Unpatchable
    && PatchWrite(w.kinds[f], f, target) == Some(i)
    && (target.Some? ==> target.value < U64)
  }

  ghost predicate SlotWrite(w: World, i: Insn) {
    && i.Write? && i.addr < U64 && |i.data| <= 16
    && Mapped(w.size, i.addr, |i.data|)
    && forall a :: i.addr <= a < i.addr + |i.data| ==> a in w.slots
  }

  /** The only writes a session ever queues. */
  ghost predicate GoodWrite(w: World, i: Insn) {
    SlotWrite(w, i) || exists f, target :: PatchFor(w, i, f, target)
  }

  lemma AreasApart(w: World, f: Addr, g: Addr, a: int)
    requires WellPlaced(w) && f in w.kinds && g in w.kinds && f != g && w.kinds[f] != Unpatchable
    requires InArea(w.kinds[g], g, a)
    ensures 0 <= a < w.size && !InArea(w.kinds[f], f, a)
  {
  }

  lemma AreaOffSlots(w: World, g: Addr, a: int)
    requires WellPlaced(w) && g in w.kinds && InArea(w.kinds[g], g, a)
    ensures 0 <= a < w.size && a !in w.slots
  {
  }

  /** Writes aimed at another function, or at a slot, do not reach the area of `g`. */
  lemma AreaKept(w: World, mem: seq<byte>, i: Insn, g: Addr)
    requires Laid(w, mem) && g in w.kinds
    requires SlotWrite(w, i) || exists f, target :: f != g && PatchFor(w, i, f, target)
    ensures forall a :: InArea(w.kinds[g], g, a) ==>
      0 <= a < |mem| && |Execute(mem, i)| == |mem| && Execute(mem, i)[a] == mem[a]
  {
    hide Execute, KindOf, PatchWrite;
    forall a | InArea(w.kinds[g], g, a)
      ensures 0 <= a < |mem| && |Execute(mem, i)| == |mem| && Execute(mem, i)[a] == mem[a]
    {
      if SlotWrite(w, i) {
        AreaOffSlots(w, g, a);
        SlotStaysInside(w, mem, i);
      } else {
        var f, target :| f != g && PatchFor(w, i, f, target);
        AreasApart(w, f, g, a);
        PatchStaysInside(w, mem, i, f, target);
      }
    }
  }

  /** A patch write stays inside the area of its function. */
  lemma PatchStaysInside(w: World, mem: seq<byte>, i: Insn, f: Addr, target: Option<Addr>)
    requires Laid(w, mem) && PatchFor(w, i, f, target)
    ensures |Execute(mem, i)| == |mem|
    ensures forall a :: 0 <= a < |mem| && !InArea(w.kinds[f], f, a) ==> Execute(mem, i)[a] == mem[a]
  {
    hide Le, Prologue, KindOf, Store;
    StoreAt(mem, i.addr, i.data);
  }

  lemma SlotStaysInside(w: World, mem: seq<byte>, i: Insn)
    requires Laid(w, mem) && SlotWrite(w, i)
    ensures |Execute(mem, i)| == |mem|
    ensures forall a :: 0 <= a < |mem| && a !in w.slots ==> Execute(mem, i)[a] == mem[a]
  {
    hide KindOf, Store;
    if |i.data| > 0 {
      StoreAt(mem, i.addr, i.data);
    } else {
      assert Execute(mem, i) == mem by { StoreNothing(mem, i.addr, i.data); }
    }
  }

  lemma StoreNothing(mem: seq<byte>, addr: nat, data: seq<byte>)
    requires data == []
    ensures Store(mem, addr, data) == mem
  {
  }

  /** No queued write changes the outcome of the endbr64 and livepatchable tests
      of any function: they may be made before or after it is carried out. */
  lemma LaidAfter(w: World, mem: seq<byte>, i: Insn)
    requires Laid(w, mem) && GoodWrite(w, i)
    ensures Laid(w, Execute(mem, i))
  {
    hide Execute, KindOf, PatchWrite;
    var mem' := Execute(mem, i);
    forall g | g in w.kinds ensures KindOf(mem', g) == w.kinds[g] {
      if target :| PatchFor(w, i, g, target) {
        PatchTakesEffect(mem, g, target);
      } else {
        AreaKept(w, mem, i, g);
        AreaDecides(mem, mem', g);
      }
    }
  }

  ghost predicate AllGood(w: World, pending: seq<Insn>) {
    forall i :: 0 <= i < |pending| ==> GoodWrite(w, pending[i])
  }

  lemma {:induction false} LaidAfterAll(w: World, mem: seq<byte>, pending: seq<Insn>)
    requires Laid(w, mem) && AllGood(w, pending)
    ensures Laid(w, Replay(mem, pending))
    decreases |pending|
  {
    hide Laid, GoodWrite, Execute;
    if pending != [] {
      LaidAfter(w, mem, pending[0]);
      assert forall i :: 0 <= i < |pending[1..]| ==> pending[1..][i] == pending[i + 1];
      LaidAfterAll(w, Execute(mem, pending[0]), pending[1..]);
    }
  }

  // ---------- prologue bytes agree with the detours ----------

  ghost predicate RootInSync(w: World, mem: seq<byte>, r: Root) {
    && r.addr in w.kinds && w.kinds[r.addr] != Unpatchable
    && match FirstActive(r.detours)
       case Some(target) => target < U64 && Redirects(mem, w.kinds[r.addr], r.addr, target)
       case None => FallsThrough(mem, w.kinds[r.addr], r.addr)
  }

  ghost predicate InSync(w: World, mem: seq<byte>, roots: seq<Root>) {
    forall i :: 0 <= i < |roots| ==> RootInSync(w, mem, roots[i])
  }

  ghost predicate UniqueAddrs(roots: seq<Root>) {
    forall i, j :: 0 <= i < j < |roots| ==> roots[i].addr != roots[j].addr
  }

  /** Rewriting the prologue of root `i` for its newest active detour puts it in
      sync and keeps every other root in sync. */
  lemma SyncAfterPatch(w: World, mem: seq<byte>, roots: seq<Root>, i: nat, insn: Insn)
    requires Laid(w, mem) && UniqueAddrs(roots) && i < |roots|
    requires forall j :: 0 <= j < |roots| && j != i ==> RootInSync(w, mem, roots[j])
    requires PatchFor(w, insn, roots[i].addr, FirstActive(roots[i].detours))
    ensures InSync(w, Execute(mem, insn), roots)
  {
    hide Execute, KindOf, PatchWrite, Redirects, FallsThrough;
    var mem' := Execute(mem, insn);
    var f := roots[i].addr;
    PatchTakesEffect(mem, f, FirstActive(roots[i].detours));
    forall j | 0 <= j < |roots| ensures RootInSync(w, mem', roots[j]) {
      if j != i {
        AreaKept(w, mem, insn, roots[j].addr);
        AreaDecides(mem, mem', roots[j].addr);
      }
    }
  }

  lemma SyncAfterSlot(w: World, mem: seq<byte>, roots: seq<Root>, insn: Insn)
    requires Laid(w, mem) && InSync(w, mem, roots) && SlotWrite(w, insn)
    ensures InSync(w, Execute(mem, insn), roots)
  {
    hide Execute, KindOf, Redirects, FallsThrough;
    var mem' := Execute(mem, insn);
    forall j | 0 <= j < |roots| ensures RootInSync(w, mem', roots[j]) {
      AreaKept(w, mem, insn, roots[j].addr);
      AreaDecides(mem, mem', roots[j].addr);
    }
  }

  // ---------- everything else is as it was ----------

  ghost predicate Owned(w: World, roots: seq<Root>, a: int) {
    exists i :: 0 <= i < |roots| && roots[i].addr in w.kinds && InArea(w.kinds[roots[i].addr], roots[i].addr, a)
  }

  /** Outside the reference slots and the prologues of functions that have been
      patched, memory is as at the start. */
  ghost predicate BodiesKept(w: World, mem0: seq<byte>, mem: seq<byte>, roots: seq<Root>) {
    |mem0| == |mem|
    && forall a :: 0 <= a < |mem| && a !in w.slots && !Owned(w, roots, a) ==> mem[a] == mem0[a]
  }
}
