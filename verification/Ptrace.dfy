/** Writing another process's memory a machine word at a time. */
module Ptrace {
  import opened Bytes
  import opened InsnCodec

  const WORD: nat := 8

  /** PTRACE_POKEDATA: fails when the word is not mapped. */
  method PokeWord(mem: array<byte>, addr: nat, word: seq<byte>) returns (failed: bool)
    requires |word| == WORD
    modifies mem
    ensures failed <==> addr + WORD > mem.Length
    ensures mem[..] == Store(old(mem[..]), addr, word)
  {
    if addr + WORD > mem.Length {
      return true;
    }
    forall i | 0 <= i < WORD {
      mem[addr + i] := word[i];
    }
    failed := false;
  }

  method PeekWord(mem: array<byte>, addr: nat) returns (failed: bool, word: seq<byte>)
    ensures failed <==> addr + WORD > mem.Length
    ensures !failed ==> word == mem[addr..addr + WORD]
  {
    if addr + WORD > mem.Length {
      return true, [];
    }
    return false, mem[addr..addr + WORD];
  }

  /** Whole words of an `n`-byte write at `addr` that can be poked before one fails. */
  function WordsMapped(memLen: nat, addr: nat, n: nat): nat {
    if addr > memLen then 0
    else if n / 8 <= (memLen - addr) / 8 then n / 8
    else (memLen - addr) / 8
  }

  lemma WordsMappedIs(memLen: nat, addr: nat, n: nat, done: nat)
    requires done <= n / 8 && (done > 0 ==> addr + 8 * done <= memLen)
    requires done < n / 8 ==> addr + 8 * done + 8 > memLen
    ensures WordsMapped(memLen, addr, n) == done
  {
  }

  /** Two adjacent stores are one store of the concatenation. */
  lemma StoreStore(mem: seq<byte>, addr: nat, a: seq<byte>, b: seq<byte>)
    requires addr + |a| + |b| <= |mem|
    ensures Store(Store(mem, addr, a), addr + |a|, b) == Store(mem, addr, a + b)
  {
  }

  lemma StoreOutside(mem: seq<byte>, addr: nat, data: seq<byte>)
    requires addr + |data| > |mem|
    ensures Store(mem, addr, data) == mem
  {
  }

  /** The last, partial word: read back, overlaid with `tail`, and poked. */
  method PokeTail(mem: array<byte>, addr: nat, tail: seq<byte>) returns (failed: bool)
    requires 0 < |tail| < WORD
    modifies mem
    ensures failed <==> addr + WORD > mem.Length
    ensures mem[..] == if failed then old(mem[..]) else Store(old(mem[..]), addr, tail)
  {
    var word;
    failed, word := PeekWord(mem, addr);
    if failed {
      return true;
    }
    failed := PokeWord(mem, addr, tail + word[|tail|..]);
  }

  /** The whole words, first one first, up to the first unmapped one. */
  method PokeWords(mem: array<byte>, buf: seq<byte>, addr: nat) returns (failed: bool)
    modifies mem
    ensures WordsMapped(mem.Length, addr, |buf|) <= |buf| / 8
    ensures failed <==> WordsMapped(mem.Length, addr, |buf|) < |buf| / 8
    ensures mem[..] == Store(old(mem[..]), addr, buf[..8 * WordsMapped(mem.Length, addr, |buf|)])
  {
    hide Store, WordsMapped, Part;
    var numLongs := |buf| / 8;
    ghost var before := mem[..];
    PartNone(before, addr, buf);
    var done, at := 0, 0;
    while done < numLongs
      invariant 0 <= done <= numLongs && at == 8 * done <= |buf|
      invariant done > 0 ==> addr + at <= mem.Length
      invariant mem[..] == Part(before, addr, buf, at)
    {
      var word := buf[at..at + 8];
      failed := PokeWord(mem, addr + at, word);
      if failed {
        StoreOutside(Part(before, addr, buf, at), addr + at, word);
        PartMapped(mem.Length, before, addr, buf, done, at);
        return;
      }
      PartMore(before, addr, buf, at);
      done, at := done + 1, at + 8;
    }
    PartMapped(mem.Length, before, addr, buf, done, at);
    failed := false;
  }

  /** Memory once the first `at` bytes of `buf` are in place. */
  function Part(mem: seq<byte>, addr: nat, buf: seq<byte>, at: nat): (r: seq<byte>)
    requires at <= |buf|
    ensures |r| == |mem|
  {
    Store(mem, addr, buf[..at])
  }

  lemma PartNone(mem: seq<byte>, addr: nat, buf: seq<byte>)
    ensures Part(mem, addr, buf, 0) == mem
  {
  }

  lemma PartMore(mem: seq<byte>, addr: nat, buf: seq<byte>, at: nat)
    requires at + 8 <= |buf| && addr + at + 8 <= |mem|
    ensures Store(Part(mem, addr, buf, at), addr + at, buf[at..at + 8]) == Part(mem, addr, buf, at + 8)
  {
    hide Store;
    StoreStore(mem, addr, buf[..at], buf[at..at + 8]);
    assert buf[..at] + buf[at..at + 8] == buf[..at + 8];
  }

  lemma PartMapped(memLen: nat, mem: seq<byte>, addr: nat, buf: seq<byte>, done: nat, at: nat)
    requires done <= |buf| / 8 && (done > 0 ==> addr + 8 * done <= memLen) && at == 8 * done
    requires done < |buf| / 8 ==> addr + 8 * done + 8 > memLen
    ensures WordsMapped(memLen, addr, |buf|) == done
    ensures Part(mem, addr, buf, at) == Store(mem, addr, buf[..8 * WordsMapped(memLen, addr, |buf|)])
  {
    WordsMappedIs(memLen, addr, |buf|, done);
  }

  /** Pokes change exactly [addr, addr + |buf|) to `buf` and keep every byte
      behind it. When a word is unmapped the words in front of it have already
      been written. */
  method WriteBytesPtrace(mem: array<byte>, buf: seq<byte>, addr: nat) returns (ret: int)
    modifies mem
    ensures WordsMapped(mem.Length, addr, |buf|) <= |buf| / 8
    ensures ret == 0 <==> Mapped(mem.Length, addr, |buf|)
    ensures ret == 0 ==> mem[..] == Store(old(mem[..]), addr, buf)
    ensures ret != 0 ==>
      ret == 1
      && mem[..] == Store(old(mem[..]), addr, buf[..8 * WordsMapped(mem.Length, addr, |buf|)])
  {
    hide Store;
    ghost var before := mem[..];
    var numLongs := |buf| / 8;
    var failed := PokeWords(mem, buf, addr);
    if failed {
      return 1;
    }
    var tail := buf[8 * numLongs..];
    assert buf[..8 * numLongs] + tail == buf;
    if |tail| > 0 {
      failed := PokeTail(mem, addr + 8 * numLongs, tail);
      if failed {
        return 1;
      }
      StoreStore(before, addr, buf[..8 * numLongs], tail);
    } else {
      assert buf[..8 * numLongs] == buf;
    }
    ret := 0;
  }
}
