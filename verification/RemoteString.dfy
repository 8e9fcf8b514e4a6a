/** Reading strings of another process word by word. */
module RemoteString {
  import opened Bytes

  type Word = bv64

  /** Byte i of a little-endian word. */
  function ByteOf(w: Word, i: nat): (b: bv8)
    requires i < 8
  {
    match i
    case 0 => (w & 0xFF) as bv8
    case 1 => ((w >> 8) & 0xFF) as bv8
    case 2 => ((w >> 16) & 0xFF) as bv8
    case 3 => ((w >> 24) & 0xFF) as bv8
    case 4 => ((w >> 32) & 0xFF) as bv8
    case 5 => ((w >> 40) & 0xFF) as bv8
    case 6 => ((w >> 48) & 0xFF) as bv8
    case _ => (w >> 56) as bv8
  }

  function BytesOf(w: Word): (s: seq<bv8>)
    ensures |s| == 8
  {
    [ByteOf(w, 0), ByteOf(w, 1), ByteOf(w, 2), ByteOf(w, 3),
     ByteOf(w, 4), ByteOf(w, 5), ByteOf(w, 6), ByteOf(w, 7)]
  }

  predicate HasByteZero(l: Word) {
    ((l - 0x0101_0101_0101_0101) & !l) & 0x8080_8080_8080_8080 != 0
  }

  /** The subtraction trick finds a zero byte exactly when there is one. */
  lemma HasByteZeroIsExact(l: Word)
    ensures HasByteZero(l) <==> 0 in BytesOf(l)
  {
    ZeroByteBits(l);
    hide HasByteZero, ByteOf;
    var s := BytesOf(l);
    assert s[0] == ByteOf(l, 0) && s[1] == ByteOf(l, 1) && s[2] == ByteOf(l, 2) && s[3] == ByteOf(l, 3);
    assert s[4] == ByteOf(l, 4) && s[5] == ByteOf(l, 5) && s[6] == ByteOf(l, 6) && s[7] == ByteOf(l, 7);
  }

  lemma ZeroByteBits(l: Word)
    ensures HasByteZero(l) <==>
      (ByteOf(l, 0) == 0 || ByteOf(l, 1) == 0 || ByteOf(l, 2) == 0 || ByteOf(l, 3) == 0
       || ByteOf(l, 4) == 0 || ByteOf(l, 5) == 0 || ByteOf(l, 6) == 0 || ByteOf(l, 7) == 0)
  {
  }

  function Join(a: bv8, b: bv8, c: bv8, d: bv8, e: bv8, f: bv8, g: bv8, h: bv8): Word {
    (a as Word) | ((b as Word) << 8) | ((c as Word) << 16) | ((d as Word) << 24)
    | ((e as Word) << 32) | ((f as Word) << 40) | ((g as Word) << 48) | ((h as Word) << 56)
  }

  lemma JoinBytes(a: bv8, b: bv8, c: bv8, d: bv8, e: bv8, f: bv8, g: bv8, h: bv8)
    ensures
      var w := Join(a, b, c, d, e, f, g, h);
      && ByteOf(w, 0) == a && ByteOf(w, 1) == b && ByteOf(w, 2) == c && ByteOf(w, 3) == d
      && ByteOf(w, 4) == e && ByteOf(w, 5) == f && ByteOf(w, 6) == g && ByteOf(w, 7) == h
  {
  }

  /** The word stored in eight bytes of memory. */
  function ToWord(s: seq<bv8>): Word
    requires |s| == 8
  {
    Join(s[0], s[1], s[2], s[3], s[4], s[5], s[6], s[7])
  }

  lemma WordBytes(s: seq<bv8>)
    requires |s| == 8
    ensures BytesOf(ToWord(s)) == s
  {
    hide Join, ByteOf;
    JoinBytes(s[0], s[1], s[2], s[3], s[4], s[5], s[6], s[7]);
  }

  /** The bytes of a run of words, as a char pointer sees them. */
  function Flat(ws: seq<Word>): (s: seq<bv8>)
    ensures |s| == 8 * |ws|
  {
    if ws == [] then [] else Flat(ws[..|ws| - 1]) + BytesOf(ws[|ws| - 1])
  }

  /** Where the string at `addr` ends: its NUL, or where memory does. */
  function Terminator(mem: seq<bv8>, addr: nat): (z: nat)
    ensures addr <= z && (z < |mem| ==> mem[z] == 0)
  {
    if addr <= |mem| then StrEnd(mem, addr, 0) else addr
  }

  /** Words from `addr` up to and including the one with the terminator. */
  function WordsNeeded(mem: seq<bv8>, addr: nat): nat
  {
    (Terminator(mem, addr) - addr) / 8 + 1
  }

  /** `k` bytes from `addr` on; none where they are not all mapped. */
  function Got(mem: seq<bv8>, addr: nat, k: nat): seq<bv8> {
    if addr + k <= |mem| then mem[addr..addr + k] else []
  }

  /** The eight bytes of the word at `at`. */
  function Eight(mem: seq<bv8>, at: nat): (s: seq<bv8>)
    requires at + 8 <= |mem|
    ensures |s| == 8
  {
    mem[at..at + 8]
  }

  lemma GotNothing(mem: seq<bv8>, addr: nat)
    ensures Got(mem, addr, 0) == []
  {
  }

  lemma GotMore(mem: seq<bv8>, addr: nat, at: nat, size: nat)
    requires addr + at + 8 <= |mem| && size <= 8
    ensures Got(mem, addr, at + size) == Got(mem, addr, at) + Eight(mem, addr + at)[..size]
  {
    SubSlice(mem, addr + at, addr + at + 8, 0, size);
    JoinSlices(mem, addr, addr + at, addr + at + size);
  }

  lemma GotWord(mem: seq<bv8>, addr: nat, at: nat)
    requires addr + at + 8 <= |mem|
    ensures Got(mem, addr, at + 8) == Got(mem, addr, at) + Eight(mem, addr + at)
  {
    JoinSlices(mem, addr, addr + at, addr + at + 8);
  }

  method ReadLong(mem: seq<bv8>, addr: nat) returns (failed: bool, w: Word)
    ensures failed <==> addr + 8 > |mem|
    ensures !failed ==> BytesOf(w) == Eight(mem, addr)
  {
    if addr + 8 > |mem| {
      return true, 0;
    }
    WordBytes(Eight(mem, addr));
    return false, ToWord(Eight(mem, addr));
  }

  lemma NoZeroInWord(mem: seq<bv8>, at: nat)
    requires at + 8 <= |mem|
    ensures 0 in Eight(mem, at) <==> at <= Terminator(mem, at) < at + 8
    ensures 0 !in Eight(mem, at) ==> Terminator(mem, at) == Terminator(mem, at + 8)
  {
    var z := Terminator(mem, at);
    if z < at + 8 {
      assert Eight(mem, at)[z - at] == 0;
    } else {
      TerminatorSkips(mem, at, at + 8);
    }
  }

  lemma {:induction false} TerminatorSkips(mem: seq<bv8>, at: nat, to: nat)
    requires at <= to <= |mem| && forall j :: at <= j < to ==> mem[j] != 0
    ensures StrEnd(mem, at, 0) == StrEnd(mem, to, 0)
    decreases |mem| - at
  {
    if at < to {
      TerminatorSkips(mem, at + 1, to);
    }
  }

  /** Read words into a buffer that doubles as needed, up to the word holding the
      terminator. It ends on every memory; it fails exactly when that word, or the
      terminator itself, is not mapped, and otherwise returns the remote string. */
  method ReadString(mem: seq<bv8>, addr: nat) returns (failed: bool, words: array<Word>, count: nat)
    ensures fresh(words) && count <= words.Length
    ensures failed <==> addr + 8 * WordsNeeded(mem, addr) > |mem|
    ensures !failed ==>
      && count == WordsNeeded(mem, addr)
      && Flat(words[..count]) == Got(mem, addr, 8 * count)
      && addr + 8 * (count - 1) <= Terminator(mem, addr) < addr + 8 * count
  {
    hide HasByteZero, BytesOf, Terminator, Flat, WordsNeeded, Got;
    var bufferWordLen := 8;
    words := new Word[bufferWordLen](_ => 0);
    count := 0;
    FlatNothing(words[..0]);
    GotNothing(mem, addr);
    var found := false;
    while !found
      invariant fresh(words) && words.Length == bufferWordLen > 0
      invariant count <= bufferWordLen && (count == 0 || addr + 8 * count <= |mem|)
      invariant Flat(words[..count]) == Got(mem, addr, 8 * count)
      invariant if found then count > 0 && addr + 8 * (count - 1) <= Terminator(mem, addr) < addr + 8 * count
                else Terminator(mem, addr) == Terminator(mem, addr + 8 * count)
      decreases if addr + 8 * count <= |mem| then |mem| - addr - 8 * count + 1 else 0, !found
    {
      ghost var before := words[..count];
      if count >= bufferWordLen {
        assert words[..] == before;
        bufferWordLen := bufferWordLen * 2;
        words := Grow(words, bufferWordLen);
      }
      assert words[..count] == before;
      var at := addr + 8 * count;
      var bad, w := ReadLong(mem, at);
      if bad {
        NeededBeyond(mem, addr, count);
        return true, words, count;
      }
      FlatMore(mem, addr, before, w, 8 * count);
      words[count] := w;
      assert words[..count + 1] == before + [w];
      HasByteZeroIsExact(w);
      NoZeroInWord(mem, at);
      found := HasByteZero(w);
      count := count + 1;
    }
    NeededIs(mem, addr, count);
    failed := false;
  }

  lemma FlatNothing(ws: seq<Word>)
    requires ws == []
    ensures Flat(ws) == []
  {
  }

  lemma FlatAppend(ws: seq<Word>, w: Word)
    ensures Flat(ws + [w]) == Flat(ws) + BytesOf(w)
  {
    hide BytesOf;
    assert (ws + [w])[..|ws|] == ws;
  }

  lemma JoinSlices(s: seq<bv8>, i: nat, j: nat, k: nat)
    requires i <= j <= k <= |s|
    ensures s[i..k] == s[i..j] + s[j..k]
  {
  }

  lemma FlatMore(mem: seq<bv8>, addr: nat, ws: seq<Word>, w: Word, at: nat)
    requires at == 8 * |ws| && addr + at + 8 <= |mem|
    requires Flat(ws) == Got(mem, addr, at) && BytesOf(w) == Eight(mem, addr + at)
    ensures Flat(ws + [w]) == Got(mem, addr, at + 8)
  {
    hide *;
    FlatAppend(ws, w);
    GotWord(mem, addr, at);
  }

  lemma NeededIs(mem: seq<bv8>, addr: nat, count: nat)
    requires 0 < count && addr + 8 * (count - 1) <= Terminator(mem, addr) < addr + 8 * count
    ensures WordsNeeded(mem, addr) == count
  {
  }

  lemma NeededBeyond(mem: seq<bv8>, addr: nat, count: nat)
    requires (count == 0 || addr + 8 * count <= |mem|) && |mem| < addr + 8 * count + 8
    requires Terminator(mem, addr) == Terminator(mem, addr + 8 * count)
    ensures addr + 8 * WordsNeeded(mem, addr) > |mem|
  {
  }

  /** realloc to a larger size. */
  method Grow(a: array<Word>, size: nat) returns (b: array<Word>)
    requires a.Length <= size
    ensures fresh(b) && b.Length == size && b[..a.Length] == a[..]
  {
    b := new Word[size](i requires i >= 0 reads a => if i < a.Length then a[i] else 0);
  }

  // ---------- reading into a buffer of fixed size ----------

  /** Bytes that end up in a buffer of `n` bytes. */
  function BytesRead(mem: seq<bv8>, addr: nat, n: nat): (k: nat)
    ensures k <= n
  {
    var k := 8 * WordsNeeded(mem, addr);
    if k <= n then k else n
  }

  /** Words that have to be mapped for that. */
  function WordsRead(mem: seq<bv8>, addr: nat, n: nat): nat
  {
    var k := WordsNeeded(mem, addr);
    if 8 * k <= n then k else (n + 7) / 8
  }

  lemma ReadFails(mem: seq<bv8>, addr: nat, n: nat, i: nat)
    requires (i == 0 || addr + 8 * i <= |mem|) && |mem| < addr + 8 * i + 8 && i < n / 8
    requires Terminator(mem, addr) == Terminator(mem, addr + 8 * i)
    ensures WordsRead(mem, addr, n) > 0 && addr + 8 * WordsRead(mem, addr, n) > |mem|
  {
    NeededBeyond(mem, addr, i);
    hide Terminator, WordsNeeded;
  }

  lemma ReadStops(mem: seq<bv8>, addr: nat, n: nat, i: nat)
    requires i < n / 8
    requires addr + 8 * i <= Terminator(mem, addr) < addr + 8 * (i + 1)
    ensures WordsRead(mem, addr, n) == i + 1 && BytesRead(mem, addr, n) == 8 * (i + 1)
  {
    NeededIs(mem, addr, i + 1);
    hide Terminator, WordsNeeded;
  }

  lemma ReadFillsBuffer(mem: seq<bv8>, addr: nat, n: nat)
    requires Terminator(mem, addr) == Terminator(mem, addr + 8 * (n / 8))
    ensures WordsRead(mem, addr, n) == (n + 7) / 8 && BytesRead(mem, addr, n) == n
  {
    hide Terminator;
  }

  /** Where the buffer has room for the terminator, it is among the bytes read. */
  lemma TerminatorIsRead(mem: seq<bv8>, addr: nat, n: nat)
    requires WordsRead(mem, addr, n) == 0 || addr + 8 * WordsRead(mem, addr, n) <= |mem|
    ensures Terminator(mem, addr) - addr < n ==>
      Terminator(mem, addr) < |mem| && Terminator(mem, addr) - addr < BytesRead(mem, addr, n)
  {
    hide Terminator;
  }

  method StoreBytes(buffer: array<bv8>, at: nat, data: seq<bv8>)
    requires at + |data| <= buffer.Length
    modifies buffer
    ensures buffer[..at] == old(buffer[..at])
    ensures buffer[at..at + |data|] == data
    ensures buffer[at + |data|..] == old(buffer[at + |data|..])
  {
    for i := 0 to |data|
      invariant buffer[..at] == old(buffer[..at])
      invariant buffer[at..at + i] == data[..i]
      invariant buffer[at + |data|..] == old(buffer[at + |data|..])
    {
      buffer[at + i] := data[i];
    }
  }

  /** One more word of the remote string, of which `size` bytes go to the buffer. */
  method Extend(buffer: array<bv8>, mem: seq<bv8>, addr: nat, at: nat, size: nat) returns (bad: bool, w: Word)
    requires (at == 0 || addr + at <= |mem|) && size <= 8 && at + size <= buffer.Length
    requires buffer[..at] == Got(mem, addr, at)
    modifies buffer
    ensures bad <==> addr + at + 8 > |mem|
    ensures bad ==> buffer[..] == old(buffer[..])
    ensures !bad ==> BytesOf(w) == Eight(mem, addr + at) && buffer[..at + size] == Got(mem, addr, at + size)
    ensures buffer[at + size..] == old(buffer[at + size..])
  {
    hide BytesOf, Got;
    bad, w := ReadLong(mem, addr + at);
    if bad {
      return;
    }
    StoreBytes(buffer, at, BytesOf(w)[..size]);
    assert buffer[..at + size] == buffer[..at] + buffer[at..at + size];
    GotMore(mem, addr, at, size);
  }

  /** The word loop; `stopped` when it met the terminator. */
  method ReadWholeWords(buffer: array<bv8>, mem: seq<bv8>, addr: nat) returns (failed: bool, stopped: bool, at: nat)
    modifies buffer
    ensures failed ==> WordsRead(mem, addr, buffer.Length) > 0 && addr + 8 * WordsRead(mem, addr, buffer.Length) > |mem|
    ensures (at == 0 || addr + at <= |mem|) && at <= buffer.Length
    ensures buffer[..at] == Got(mem, addr, at) && buffer[at..] == old(buffer[at..])
    ensures !failed && stopped ==>
      at == BytesRead(mem, addr, buffer.Length) == 8 * WordsRead(mem, addr, buffer.Length)
    ensures !failed && !stopped ==>
      at == 8 * (buffer.Length / 8) && Terminator(mem, addr) == Terminator(mem, addr + at)
  {
    hide HasByteZero, BytesOf, Terminator, BytesRead, WordsRead, Got;
    var n := buffer.Length;
    at := 0;
    GotNothing(mem, addr);
    for i := 0 to n / 8
      invariant at == 8 * i && (at == 0 || addr + at <= |mem|)
      invariant buffer[..at] == Got(mem, addr, at) && buffer[at..] == old(buffer[at..])
      invariant Terminator(mem, addr) == Terminator(mem, addr + at)
    {
      var bad, w := Extend(buffer, mem, addr, at, 8);
      if bad {
        ReadFails(mem, addr, n, i);
        return true, false, at;
      }
      HasByteZeroIsExact(w);
      NoZeroInWord(mem, addr + at);
      at := at + 8;
      if HasByteZero(w) {
        ReadStops(mem, addr, n, i);
        return false, true, at;
      }
    }
    failed, stopped := false, false;
  }

  /** Reads the string, or as much of it as fits; the rest of the buffer is not touched. */
  method ReadStringAllocated(buffer: array<bv8>, mem: seq<bv8>, addr: nat) returns (failed: bool)
    modifies buffer
    ensures failed <==> WordsRead(mem, addr, buffer.Length) > 0 && addr + 8 * WordsRead(mem, addr, buffer.Length) > |mem|
    ensures var k := BytesRead(mem, addr, buffer.Length);
      !failed ==> buffer[..k] == Got(mem, addr, k) && buffer[k..] == old(buffer[k..])
    ensures !failed && Terminator(mem, addr) - addr < buffer.Length ==>
      buffer[Terminator(mem, addr) - addr] == 0
  {
    hide BytesOf, Terminator, BytesRead, WordsRead, Got;
    var n, stopped, at := buffer.Length, false, 0;
    failed, stopped, at := ReadWholeWords(buffer, mem, addr);
    if failed {
      return;
    }
    if !stopped {
      ReadFillsBuffer(mem, addr, n);
      if n % 8 > 0 {
        var w;
        failed, w := Extend(buffer, mem, addr, at, n % 8);
        if failed {
          return;
        }
      }
    }
    TerminatorIsRead(mem, addr, n);
    if Terminator(mem, addr) - addr < n {
      GotTerminator(mem, addr, BytesRead(mem, addr, n));
    }
  }

  lemma GotTerminator(mem: seq<bv8>, addr: nat, k: nat)
    requires Terminator(mem, addr) < |mem| && Terminator(mem, addr) - addr < k == |Got(mem, addr, k)|
    ensures Got(mem, addr, k)[Terminator(mem, addr) - addr] == 0
  {
  }
}
