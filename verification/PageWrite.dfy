/** Executing one WRITE inside the patched process: the pages are unprotected,
    the bytes copied, and the protections put back. */
module PageWrite {
  import opened Bytes

  type Page = nat

  datatype Access = Access(read: bool, write: bool, exec: bool)

  /** First page of a write, and the page holding the address just behind it. */
  function FirstPage(addr: nat, size: nat): Page
    requires size > 0
  {
    addr / size
  }

  function LastPage(addr: nat, n: nat, size: nat): Page
    requires size > 0
  {
    (addr + n) / size
  }

  ghost predicate Mapped(pages: map<Page, Access>, addr: nat, n: nat, size: nat)
    requires size > 0
  {
    forall p :: FirstPage(addr, size) <= p <= LastPage(addr, n, size) ==> p in pages
  }

  /** The pages that hold a byte of the write. */
  ghost predicate Needed(pages: map<Page, Access>, addr: nat, n: nat, size: nat)
    requires size > 0
  {
    forall a :: addr <= a < addr + n ==> FirstPage(a, size) in pages
  }

  lemma Between(a: nat, b: nat, size: nat)
    requires size > 0 && a <= b
    ensures a / size <= b / size
  {
    var x, y := a / size, b / size;
    assert a == size * x + a % size && b == size * y + b % size;
    assert y < x ==> size * x >= size * (y + 1);
  }

  lemma InOrder(addr: nat, n: nat, size: nat)
    requires size > 0
    ensures FirstPage(addr, size) <= LastPage(addr, n, size)
  {
    Between(addr, addr + n, size);
  }

  /** Every byte written lies in one of the pages the loops go through. */
  lemma PagesCoverWrite(addr: nat, n: nat, size: nat, a: nat)
    requires size > 0 && addr <= a < addr + n
    ensures FirstPage(addr, size) <= FirstPage(a, size) <= LastPage(addr, n, size)
  {
    Between(addr, a, size);
    Between(a, addr + n, size);
  }

  lemma StartOf(p: Page, size: nat, a: nat)
    requires size > 0 && size * p <= a < size * p + size
    ensures a / size == p
  {
    var x := a / size;
    assert a == size * x + a % size;
    assert x < p ==> size * p >= size * (x + 1);
    assert x > p ==> size * x >= size * (p + 1);
  }

  /** Every page but the last holds a byte of the write; the last one holds none
      exactly when the write ends on a page boundary. */
  lemma LastPageIsNeeded(addr: nat, n: nat, size: nat)
    requires size > 0 && n > 0
    ensures (exists a :: addr <= a < addr + n && FirstPage(a, size) == LastPage(addr, n, size))
       <==> (addr + n) % size != 0
  {
    var last := LastPage(addr, n, size);
    assert addr + n == size * last + (addr + n) % size;
    if (addr + n) % size != 0 {
      StartOf(last, size, addr + n - 1);
      assert FirstPage(addr + n - 1, size) == last;
    } else {
      forall a | addr <= a < addr + n
        ensures FirstPage(a, size) != last
      {
        assert a == size * FirstPage(a, size) + a % size;
        if FirstPage(a, size) == last {
          assert false;
        }
      }
    }
  }

  lemma DivMod(a: nat, size: nat)
    requires size > 0
    ensures size * (a / size) <= a < size * (a / size) + size
  {
  }

  lemma Monotone(size: nat, x: nat, y: nat)
    requires x <= y
    ensures size * x <= size * y
  {
  }

  lemma NonEmpty(addr: nat, n: nat, size: nat)
    requires size > 0 && FirstPage(addr, size) < LastPage(addr, n, size)
    ensures n > 0
  {
  }

  lemma PageStart(p: Page, size: nat, a: nat)
    requires size > 0 && a == size * p
    ensures FirstPage(a, size) == p
  {
    StartOf(p, size, a);
  }

  lemma StartBeyond(addr: nat, p: Page, size: nat, a: nat)
    requires size > 0 && addr / size < p && a == size * p
    ensures addr < a
  {
    var q := addr / size;
    DivMod(addr, size);
    Monotone(size, q + 1, p);
  }

  lemma StartWithin(end: nat, p: Page, size: nat, a: nat)
    requires size > 0 && p < end / size && a == size * p
    ensures a < end
  {
    var q := end / size;
    DivMod(end, size);
    Monotone(size, p + 1, q);
  }

  lemma EarlierPageIsNeeded(addr: nat, n: nat, size: nat, p: Page)
    requires size > 0 && FirstPage(addr, size) <= p < LastPage(addr, n, size)
    ensures exists a :: addr <= a < addr + n && FirstPage(a, size) == p
  {
    if p == FirstPage(addr, size) {
      NonEmpty(addr, n, size);
      assert FirstPage(addr, size) == p;
    } else {
      var a := size * p;
      PageStart(p, size, a);
      StartBeyond(addr, p, size, a);
      StartWithin(addr + n, p, size, a);
      assert FirstPage(a, size) == p;
    }
  }

  /** The check of the protections asks for more than the bytes need in one case
      only: the write ends on a page boundary and nothing is mapped behind it. */
  lemma AskedIffNeeded(pages: map<Page, Access>, addr: nat, n: nat, size: nat)
    requires size > 0 && n > 0
    ensures Mapped(pages, addr, n, size)
       <==> Needed(pages, addr, n, size)
            && ((addr + n) % size == 0 ==> LastPage(addr, n, size) in pages)
  {
    var last := LastPage(addr, n, size);
    Between(addr, addr + n, size);
    if Mapped(pages, addr, n, size) {
      forall a | addr <= a < addr + n
        ensures FirstPage(a, size) in pages
      {
        PagesCoverWrite(addr, n, size, a);
      }
    }
    if Needed(pages, addr, n, size) && ((addr + n) % size == 0 ==> last in pages) {
      LastPageIsNeeded(addr, n, size);
      forall p | FirstPage(addr, size) <= p <= last
        ensures p in pages
      {
        if p < last {
          EarlierPageIsNeeded(addr, n, size, p);
        }
      }
    }
  }

  /** Such a write: the last eight bytes of the only mapped page. */
  lemma BoundaryWriteRefused()
    ensures
      var pages := map[1 := Access(true, false, true)];
      Needed(pages, 8184, 8, 4096) && !Mapped(pages, 8184, 8, 4096)
  {
    var pages := map[1 := Access(true, false, true)];
    assert forall a :: 8184 <= a < 8192 ==> FirstPage(a, 4096) == 1;
    assert LastPage(8184, 8, 4096) == 2 && 2 !in pages;
  }

  /** The system does not let `page` be made writable. */
  predicate Refused(fixed: set<Page>, pages: map<Page, Access>, page: Page) {
    page in fixed && page in pages && !pages[page].write
  }

  /** Pages from `lo` to before `hi` made writable. */
  function Opened(pages: map<Page, Access>, lo: Page, hi: Page): map<Page, Access> {
    map p | p in pages :: if lo <= p < hi then pages[p].(write := true) else pages[p]
  }

  class Process {
    const pageSize: nat
    /** Pages the system does not let the process make writable. */
    const fixed: set<Page>
    var mem: seq<byte>
    var pages: map<Page, Access>

    ghost predicate Valid()
      reads this
    {
      && pageSize > 0
      // The page table never speaks of addresses outside the memory.
      && forall p :: p in pages ==> pageSize * p + pageSize <= |mem|
    }

    constructor (pageSize: nat, mem: seq<byte>, pages: map<Page, Access>, fixed: set<Page>)
      requires pageSize > 0 && forall p :: p in pages ==> pageSize * p + pageSize <= |mem|
      ensures Valid() && this.pageSize == pageSize && this.mem == mem && this.pages == pages && this.fixed == fixed
    {
      this.pageSize, this.mem, this.pages, this.fixed := pageSize, mem, pages, fixed;
    }

    method MemoryProtectionGet(page: Page) returns (prot: Option<Access>)
      ensures prot == if page in pages then Some(pages[page]) else None
    {
      prot := if page in pages then Some(pages[page]) else None;
    }

    /** mprotect of one mapped page. */
    method Protect(page: Page, prot: Access) returns (ok: bool)
      requires page in pages
      modifies this`pages
      ensures ok <==> !(prot.write && Refused(fixed, old(pages), page))
      ensures pages == if ok then old(pages)[page := prot] else old(pages)
    {
      ok := !(prot.write && Refused(fixed, pages, page));
      if ok {
        pages := pages[page := prot];
      }
    }

    ghost predicate Writable(addr: nat, n: nat)
      requires pageSize > 0
      reads this
    {
      forall a :: addr <= a < addr + n ==> FirstPage(a, pageSize) in pages && pages[FirstPage(a, pageSize)].write
    }

    /** memcpy; a byte in a page that is not writable would end the process. */
    method Copy(addr: nat, bytes: seq<byte>)
      requires Valid() && Writable(addr, |bytes|)
      modifies this`mem
      ensures mem == Store(old(mem), addr, bytes)
      ensures bytes != [] ==> Fits(old(mem), addr, |bytes|)
    {
      if bytes != [] {
        EndIsMapped(addr + |bytes| - 1);
        mem := mem[..addr] + bytes + mem[addr + |bytes|..];
      } else {
        assert Store(mem, addr, bytes) == mem;
      }
    }

    lemma EndIsMapped(a: nat)
      requires Valid() && FirstPage(a, pageSize) in pages
      ensures a < |mem|
    {
      var p := FirstPage(a, pageSize);
      assert a == pageSize * p + a % pageSize;
    }

    /** First loop: fetch the protection of every page. */
    method Query(page1: Page, numPages: nat) returns (ok: bool, prot: array<Access>)
      ensures fresh(prot) && prot.Length == numPages
      ensures ok <==> forall p :: page1 <= p < page1 + numPages ==> p in pages
      ensures ok ==> forall p :: page1 <= p < page1 + numPages ==> prot[p - page1] == pages[p]
    {
      prot := new Access[numPages](_ => Access(false, false, false));
      for i := 0 to numPages
        invariant forall p :: page1 <= p < page1 + i ==> p in pages && prot[p - page1] == pages[p]
      {
        var p := MemoryProtectionGet(page1 + i);
        if p == None {
          return false, prot;
        }
        prot[i] := p.value;
      }
      ok := true;
    }

    /** Second loop: add PROT_WRITE to every page, up to the first one that refuses it. */
    method Unprotect(page1: Page, prot: array<Access>) returns (done: nat)
      requires forall p :: page1 <= p < page1 + prot.Length ==> p in pages && prot[p - page1] == pages[p]
      modifies this`pages
      ensures done <= prot.Length && pages == Opened(old(pages), page1, page1 + done)
      ensures forall p :: page1 <= p < page1 + done ==> !Refused(fixed, old(pages), p)
      ensures done < prot.Length ==> Refused(fixed, old(pages), page1 + done)
    {
      done := 0;
      while done < prot.Length
        invariant done <= prot.Length && pages == Opened(old(pages), page1, page1 + done)
        invariant forall p :: page1 <= p < page1 + done ==> !Refused(fixed, old(pages), p)
      {
        var ok := Protect(page1 + done, prot[done].(write := true));
        if !ok {
          return;
        }
        done := done + 1;
      }
    }

    /** Third loop: put the old protections back. A page that was writable before is
        writable now, so none of them is refused. */
    method Restore(page1: Page, prot: array<Access>, ghost before: map<Page, Access>)
      requires pages == Opened(before, page1, page1 + prot.Length)
      requires forall p :: page1 <= p < page1 + prot.Length ==> p in before && prot[p - page1] == before[p]
      modifies this`pages
      ensures pages == before
    {
      for i := 0 to prot.Length
        invariant pages.Keys == before.Keys
        invariant forall p :: p in pages ==>
          pages[p] == if page1 + i <= p < page1 + prot.Length then before[p].(write := true) else before[p]
      {
        var ok := Protect(page1 + i, prot[i]);
      }
    }

    /** The bytes are written in full or not at all. They are, and every protection is
        as before, exactly when all pages asked about are mapped and none refuses to
        become writable. A refusal leaves the pages in front of it writable; a page
        that is not mapped is noticed before anything changes. */
    method InterpretWrite(addr: nat, bytes: seq<byte>) returns (ok: bool, ghost stop: Page)
      requires Valid()
      modifies this
      ensures Valid() && mem == if ok then Store(old(mem), addr, bytes) else old(mem)
      ensures ok && bytes != [] ==> Fits(old(mem), addr, |bytes|)
      ensures ok <==>
        && Mapped(old(pages), addr, |bytes|, pageSize)
        && forall p :: FirstPage(addr, pageSize) <= p <= LastPage(addr, |bytes|, pageSize) ==>
             !Refused(fixed, old(pages), p)
      ensures ok || !Mapped(old(pages), addr, |bytes|, pageSize) ==> pages == old(pages)
      ensures !ok && Mapped(old(pages), addr, |bytes|, pageSize) ==>
        && FirstPage(addr, pageSize) <= stop <= LastPage(addr, |bytes|, pageSize)
        && Refused(fixed, old(pages), stop)
        && (forall p :: FirstPage(addr, pageSize) <= p < stop ==> !Refused(fixed, old(pages), p))
        && pages == Opened(old(pages), FirstPage(addr, pageSize), stop)
    {
      hide FirstPage, LastPage, Store, Fits, Writable, Refused;
      var n := |bytes|;
      var page1 := FirstPage(addr, pageSize);
      var pageN := LastPage(addr, n, pageSize);
      stop := pageN;
      InOrder(addr, n, pageSize);
      var found, prot := Query(page1, 1 + pageN - page1);
      if !found {
        return false, stop;
      }
      var done := Unprotect(page1, prot);
      if done < prot.Length {
        return false, page1 + done;
      }
      assert Writable(addr, n) by { AllWritable(addr, n, page1, pageN); }
      Copy(addr, bytes);
      Restore(page1, prot, old(pages));
      ok := true;
    }

    lemma AllWritable(addr: nat, n: nat, page1: Page, pageN: Page)
      requires Valid() && page1 == FirstPage(addr, pageSize) && pageN == LastPage(addr, n, pageSize)
      requires forall p :: page1 <= p <= pageN ==> p in pages && pages[p].write
      ensures Writable(addr, n)
    {
      hide FirstPage, LastPage;
      forall a | addr <= a < addr + n
        ensures FirstPage(a, pageSize) in pages && pages[FirstPage(a, pageSize)].write
      {
        PagesCoverWrite(addr, n, pageSize, a);
      }
    }
  }
}
