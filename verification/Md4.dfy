/** The digest behind patch ids: MD4 as RFC 1320 describes it, and the packer's
    program for it. */
module Md4 {
  import opened Bytes

  type Word = bv32

  // ---------- padding (RFC 1320, sections 3.1 and 3.2) ----------

  /** Least number of zero bytes after the 0x80 that leaves room for the length. */
  function ZeroBytes(length: nat): (z: nat)
    ensures (length + 1 + z) % 64 == 56 && z < 64
  {
    var r := (length + 1) % 64;
    if r <= 56 then 56 - r else 120 - r
  }

  lemma ZeroBytesIsLeast(length: nat, z: nat)
    requires (length + 1 + z) % 64 == 56
    ensures ZeroBytes(length) <= z
  {
  }

  function Padding(length: nat): (p: seq<byte>)
    ensures |p| == 9 + ZeroBytes(length)
  {
    [0x80] + Zeros(ZeroBytes(length)) + Le(8 * length % U64, 8)
  }

  function Padded(m: seq<byte>): (p: seq<byte>)
    ensures |p| == |m| + 9 + ZeroBytes(|m|) && |p| % 64 == 0
  {
    assert (|m| + 9 + ZeroBytes(|m|)) % 64 == 0;
    m + Padding(|m|)
  }

  /** Different messages stay different, even where the bit length wraps. */
  lemma PaddedIsInjective(m: seq<byte>, n: seq<byte>)
    ensures Padded(m) == Padded(n) <==> m == n
  {
    if Padded(m) == Padded(n) {
      SamePadded(m, n);
    }
  }

  lemma SamePadded(m: seq<byte>, n: seq<byte>)
    requires Padded(m) == Padded(n)
    ensures m == n
  {
    var p := Padded(m);
    var v, w := 8 * |m| % U64, 8 * |n| % U64;
    assert p[|p| - 8..] == Le(v, 8) by { PaddingTail(m); }
    assert p[|p| - 8..] == Le(w, 8) by { PaddingTail(n); }
    Le64(v);
    Le64(w);
    assert v == w;
    assert -64 < |m| - |n| < 64;
    SameModulo(|m|, |n|);
    assert m == p[..|m|] && n == p[..|n|];
  }

  lemma PaddingTail(m: seq<byte>)
    ensures Padded(m)[|Padded(m)| - 8..] == Le(8 * |m| % U64, 8)
  {
    hide Le;
  }

  lemma SameModulo(a: nat, b: nat)
    requires 8 * a % U64 == 8 * b % U64 && -64 < a - b < 64
    ensures a == b
  {
    assert U64 == 0x1_0000_0000_0000_0000;
  }

  // ---------- compression (section 3.4) ----------

  datatype State = State(a: Word, b: Word, c: Word, d: Word)

  const INITIAL := State(0x6745_2301, 0xefcd_ab89, 0x98ba_dcfe, 0x1032_5476)

  function F(x: Word, y: Word, z: Word): Word {
    (x & y) | (!x & z)
  }

  function G(x: Word, y: Word, z: Word): Word {
    (x & y) | (x & z) | (y & z)
  }

  function H(x: Word, y: Word, z: Word): Word {
    x ^ y ^ z
  }

  /** The functions as RFC 1320 describes them, in the bit positions of any mask: "if
      X then Y else Z", "at least two of X, Y and Z", and the parity. */
  lemma FIsChoice(x: Word, y: Word, z: Word, m: Word)
    ensures x & m == m ==> F(x, y, z) & m == y & m
    ensures x & m == 0 ==> F(x, y, z) & m == z & m
  {
  }

  lemma GIsMajority(x: Word, y: Word, z: Word, m: Word)
    ensures (x & m == m && y & m == m) || (x & m == m && z & m == m) || (y & m == m && z & m == m) ==>
      G(x, y, z) & m == m
    ensures (x & m == 0 && y & m == 0) || (x & m == 0 && z & m == 0) || (y & m == 0 && z & m == 0) ==>
      G(x, y, z) & m == 0
  {
    GMasked(x, y, z, m);
    GTwice(x, m);
    GTwice(y, m);
    GTwice(z, m);
    hide G;
  }

  lemma GMasked(x: Word, y: Word, z: Word, m: Word)
    ensures G(x, y, z) & m == G(x & m, y & m, z & m)
  {
  }

  lemma GTwice(w: Word, m: Word)
    ensures G(m, m, w & m) == m && G(m, w & m, m) == m && G(w & m, m, m) == m
    ensures G(0, 0, w & m) == 0 && G(0, w & m, 0) == 0 && G(w & m, 0, 0) == 0
  {
  }

  lemma HIsParity(x: Word, y: Word, z: Word, m: Word)
    ensures x & m == 0 && y & m == z & m ==> H(x, y, z) & m == 0
    ensures x & m == m && y & m == z & m ==> H(x, y, z) & m == m
    ensures x & m == 0 && y & m == !z & m ==> H(x, y, z) & m == m
    ensures x & m == m && y & m == !z & m ==> H(x, y, z) & m == 0
  {
    HMasked(x, y, z, m);
    HSame(z & m, m);
    HOpposite(z, m);
    HThrice(z, m);
    hide H;
  }

  lemma HMasked(x: Word, y: Word, z: Word, m: Word)
    ensures H(x, y, z) & m == H(x & m, y & m, z & m)
  {
  }

  lemma HSame(c: Word, m: Word)
    ensures H(0, c, c) == 0 && H(m, c, c) == m
  {
  }

  lemma HOpposite(w: Word, m: Word)
    ensures H(0, !w & m, w & m) == m
  {
  }

  lemma HThrice(w: Word, m: Word)
    ensures H(m, !w & m, w & m) == 0
  {
  }

  /** Addition modulo 2^32. */
  function Add(x: Word, y: Word): Word {
    x + y
  }

  /** Which message word the i-th step of a round uses. */
  function Index(round: nat, i: nat): (j: nat)
    ensures j < 16
  {
    if i >= 16 then 0
    else if round == 0 then i
    else if round == 1 then i % 4 * 4 + i / 4
    else i / 8 + i / 4 % 2 * 2 + i / 2 % 2 * 4 + i % 2 * 8   // i with its four bits reversed
  }

  function Shift(round: nat, i: nat): (s: nat)
    ensures 0 < s < 32
  {
    var k := i % 4;
    if round == 0 then (if k == 0 then 3 else if k == 1 then 7 else if k == 2 then 11 else 19)
    else if round == 1 then (if k == 0 then 3 else if k == 1 then 5 else if k == 2 then 9 else 13)
    else (if k == 0 then 3 else if k == 1 then 9 else if k == 2 then 11 else 15)
  }

  function RotateLeft(x: Word, s: nat): Word
    requires 0 < s < 32
  {
    x.RotateLeft(s)
  }

  /** What a step rotates: each round has its auxiliary function and constant. */
  function Added(round: nat, a: Word, b: Word, c: Word, d: Word, x: Word): Word {
    if round == 0 then Add(Add(a, F(b, c, d)), x)
    else if round == 1 then Add(Add(Add(a, G(b, c, d)), x), 0x5A82_7999)
    else Add(Add(Add(a, H(b, c, d)), x), 0x6ED9_EBA1)
  }

  /** One step: registers change places, the first one is recomputed. */
  function Step(st: State, x: seq<Word>, round: nat, i: nat): State
    requires |x| == 16
  {
    var t := RotateLeft(Added(round, st.a, st.b, st.c, st.d, x[Index(round, i)]), Shift(round, i));
    State(st.d, t, st.b, st.c)
  }

  function Steps(st: State, x: seq<Word>, round: nat, n: nat): State
    requires |x| == 16
    decreases n
  {
    if n == 0 then st else Step(Steps(st, x, round, n - 1), x, round, n - 1)
  }

  function Plus(s: State, t: State): State {
    State(Add(s.a, t.a), Add(s.b, t.b), Add(s.c, t.c), Add(s.d, t.d))
  }

  function Compress(st: State, x: seq<Word>): State
    requires |x| == 16
  {
    Plus(Steps(Steps(Steps(st, x, 0, 16), x, 1, 16), x, 2, 16), st)
  }

  // ---------- blocks and output (sections 3.4 and 3.5) ----------

  function Octet(b: byte): (w: Word)
    ensures w < 0x100
  {
    (b as bv8) as Word
  }

  /** Four bytes, low-order byte first. */
  function WordAt(p: seq<byte>, at: nat): Word
    requires at + 4 <= |p|
  {
    Octet(p[at]) + 0x100 * Octet(p[at + 1]) + 0x1_0000 * Octet(p[at + 2]) + 0x100_0000 * Octet(p[at + 3])
  }

  function Words(p: seq<byte>, at: nat): (x: seq<Word>)
    requires at + 64 <= |p|
    ensures |x| == 16
    ensures forall j :: 0 <= j < 16 ==> x[j] == WordAt(p, at + 4 * j)
  {
    seq(16, j requires 0 <= j < 16 => WordAt(p, at + 4 * j))
  }

  function Blocks(p: seq<byte>, n: nat): State
    requires 64 * n <= |p|
  {
    if n == 0 then INITIAL else Compress(Blocks(p, n - 1), Words(p, 64 * (n - 1)))
  }

  function Octets(w: Word): (s: seq<bv8>)
    ensures |s| == 4
  {
    [(w % 0x100) as bv8, (w / 0x100 % 0x100) as bv8, (w / 0x1_0000 % 0x100) as bv8, (w / 0x100_0000) as bv8]
  }

  function Output(st: State): (s: seq<bv8>)
    ensures |s| == 16
  {
    Octets(st.a) + Octets(st.b) + Octets(st.c) + Octets(st.d)
  }

  lemma OctetsIsInjective(v: Word, w: Word)
    requires Octets(v) == Octets(w)
    ensures v == w
  {
    var s, t := Octets(v), Octets(w);
    assert s[0] == t[0] && s[1] == t[1] && s[2] == t[2] && s[3] == t[3];
    Recompose(v);
    Recompose(w);
    hide Octets;
  }

  function Compose(a: bv8, b: bv8, c: bv8, d: bv8): Word {
    (a as Word) | ((b as Word) << 8) | ((c as Word) << 16) | ((d as Word) << 24)
  }

  lemma Recompose(w: Word)
    ensures w == Compose((w % 0x100) as bv8, (w / 0x100 % 0x100) as bv8,
                         (w / 0x1_0000 % 0x100) as bv8, (w / 0x100_0000) as bv8)
  {
  }

  lemma OutputParts(s: State)
    ensures
      var x := Output(s);
      Octets(s.a) == x[..4] && Octets(s.b) == x[4..8] && Octets(s.c) == x[8..12] && Octets(s.d) == x[12..]
  {
    hide Octets;
    FourParts(Octets(s.a), Octets(s.b), Octets(s.c), Octets(s.d));
  }

  lemma FourParts(a: seq<bv8>, b: seq<bv8>, c: seq<bv8>, d: seq<bv8>)
    requires |a| == 4 && |b| == 4 && |c| == 4 && |d| == 4
    ensures
      var x := a + b + c + d;
      x[..4] == a && x[4..8] == b && x[8..12] == c && x[12..] == d
  {
    var x := a + b + c + d;
    assert forall i :: 0 <= i < 4 ==> x[..4][i] == a[i] && x[4..8][i] == b[i] && x[8..12][i] == c[i] && x[12..][i] == d[i];
  }

  /** The output bytes determine the registers. */
  lemma OutputIsInjective(s: State, t: State)
    requires Output(s) == Output(t)
    ensures s == t
  {
    OutputParts(s);
    OutputParts(t);
    hide Octets, Output;
    OctetsIsInjective(s.a, t.a);
    OctetsIsInjective(s.b, t.b);
    OctetsIsInjective(s.c, t.c);
    OctetsIsInjective(s.d, t.d);
  }

  function Digest(m: seq<byte>): (s: seq<bv8>)
    ensures |s| == 16
  {
    var p := Padded(m);
    Output(Blocks(p, |p| / 64))
  }
}

/** The packer's digest routine. */
module Md4Program {
  import opened Bytes
  import opened Md4

  // ---------- padding ----------

  /** The i-th byte of a little-endian integer is found by shifting. */
  lemma {:induction false} LeAt(v: nat, k: nat, i: nat)
    requires i < k
    ensures Le(v, k)[i] == v / Pow256(i) % 256
  {
    if i > 0 {
      LeAt(v / 256, k - 1, i - 1);
      DivDiv(v, Pow256(i - 1));
    }
  }

  method Pad(input: seq<byte>) returns (buffer: array<byte>)
    ensures fresh(buffer) && buffer[..] == Padded(input)
  {
    hide Le, Pow256, FromLe;
    var length := |input|;
    var total := length + 1;
    var zeros := total % 64;
    if zeros <= 56 {
      zeros := 56 - zeros;
    } else {
      zeros := 64 - (zeros - 56);
    }
    assert zeros == ZeroBytes(length);
    total := total + zeros;
    total := total + 8;
    buffer := new byte[total](_ => 0);
    for i := 0 to length
      invariant buffer[..i] == input[..i]
      invariant forall j :: i <= j < total ==> buffer[j] == 0
    {
      buffer[i] := input[i];
    }
    buffer[length] := 0x80;
    var at := length + 1 + zeros;
    ghost var front := buffer[..at];
    assert front[..length] == input;
    AppendLength(buffer, at, length);
    FrontIs(front, input, zeros);
    assert buffer[..] == front + buffer[at..];
    PaddedIs(input, front, buffer[at..]);
  }

  /** What lies in front of the length field. */
  lemma FrontIs(front: seq<byte>, m: seq<byte>, zeros: nat)
    requires |front| == |m| + 1 + zeros && front[..|m|] == m && front[|m|] == 0x80
    requires forall j :: |m| < j < |front| ==> front[j] == 0
    ensures front == m + ([0x80] + Zeros(zeros))
  {
    var z := front[|m| + 1..];
    assert forall j :: 0 <= j < zeros ==> z[j] == front[|m| + 1 + j];
    assert z == Zeros(zeros);
    assert front == front[..|m|] + ([front[|m|]] + z);
  }

  lemma PaddedIs(m: seq<byte>, front: seq<byte>, field: seq<byte>)
    requires front == m + ([0x80] + Zeros(ZeroBytes(|m|))) && field == Le(8 * |m| % U64, 8)
    ensures front + field == Padded(m)
  {
    hide Zeros, Le, ZeroBytes;
    Associates(m, [0x80] + Zeros(ZeroBytes(|m|)), field);
  }

  lemma Associates(x: seq<byte>, y: seq<byte>, z: seq<byte>)
    ensures (x + y) + z == x + (y + z)
  {
  }

  method AppendLength(buffer: array<byte>, at: nat, length: nat)
    requires at + 8 == buffer.Length
    modifies buffer
    ensures buffer[..at] == old(buffer[..at]) && buffer[at..] == Le(8 * length % U64, 8)
  {
    hide Le, Pow256, FromLe;
    ghost var bits := 8 * length % U64;
    for i := 0 to 8
      invariant buffer[..at] == old(buffer[..at])
      invariant forall j :: 0 <= j < i ==> buffer[at + j] == Le(bits, 8)[j]
    {
      LeAt(bits, 8, i);
      buffer[at + i] := 8 * length % 0x1_0000_0000_0000_0000 / Pow256(i) % 256;
    }
  }

  // ---------- message words ----------

  /** What the shift-and-or loop has gathered after k of the four bytes. */
  function Gathered(p: seq<byte>, at: nat, k: nat): Word
    requires at + 4 <= |p| && k <= 4
  {
    if k == 0 then 0 else ShiftIn(Gathered(p, at, k - 1), p[at + (4 - k)])
  }

  /** One turn of the byte loop: the word moves up by eight bits and takes the
      byte in at the bottom. */
  function ShiftIn(w: Word, b: byte): Word {
    (w << 8) | (0xff & Octet(b))
  }

  lemma GatheredIsWord(p: seq<byte>, at: nat)
    requires at + 4 <= |p|
    ensures Gathered(p, at, 4) == WordAt(p, at)
  {
    hide ShiftIn, Octet;
    var a, b, c, d := p[at], p[at + 1], p[at + 2], p[at + 3];
    assert Gathered(p, at, 1) == ShiftIn(0, d);
    assert Gathered(p, at, 2) == ShiftIn(ShiftIn(0, d), c);
    assert Gathered(p, at, 3) == ShiftIn(ShiftIn(ShiftIn(0, d), c), b);
    FourBytes(a, b, c, d);
  }

  lemma FourBytes(a: byte, b: byte, c: byte, d: byte)
    ensures ShiftIn(ShiftIn(ShiftIn(ShiftIn(0, d), c), b), a)
         == Octet(a) + 0x100 * Octet(b) + 0x1_0000 * Octet(c) + 0x100_0000 * Octet(d)
  {
    hide *;
    var u := ShiftIn(0, d);
    var v := ShiftIn(u, c);
    var w := ShiftIn(v, b);
    ShiftInIs(0, d);
    ShiftInIs(u, c);
    ShiftInIs(v, b);
    ShiftInIs(w, a);
    Horner(Octet(a), Octet(b), Octet(c), Octet(d));
  }

  lemma ShiftInIs(w: Word, b: byte)
    ensures ShiftIn(w, b) == 0x100 * w + Octet(b)
  {
    hide Octet;
    ShiftOr(w, Octet(b));
  }

  lemma ShiftOr(w: Word, o: Word)
    requires o < 256
    ensures (w << 8) | (0xff & o) == 0x100 * w + o
  {
  }

  lemma Horner(a: Word, b: Word, c: Word, d: Word)
    ensures 0x100 * (0x100 * (0x100 * (0x100 * 0 + d) + c) + b) + a == a + 0x100 * b + 0x1_0000 * c + 0x100_0000 * d
  {
  }

  method ReadWords(buffer: array<byte>, start: nat, X: array<Word>) returns (bufptr: nat)
    requires X.Length == 16 && start + 64 <= buffer.Length
    modifies X
    ensures bufptr == start + 64 && X[..] == Words(buffer[..], start)
  {
    hide WordAt, Octet, ShiftIn;
    bufptr := start;
    ghost var p := buffer[..];
    for j := 0 to 16
      invariant bufptr == start + 4 * j
      invariant forall i :: 0 <= i < j ==> X[i] == WordAt(p, start + 4 * i)
    {
      X[j] := 0;
      for k := 0 to 4
        invariant X[j] == Gathered(p, bufptr, k)
        invariant forall i :: 0 <= i < j ==> X[i] == WordAt(p, start + 4 * i)
      {
        X[j] := ShiftIn(X[j], buffer[bufptr + (3 - k)]);
      }
      GatheredIsWord(p, bufptr);
      bufptr := bufptr + 4;
    }
  }

  // ---------- rounds ----------

  function Rotated(x: Word, s: nat): Word
    requires 0 < s < 32
  {
    (x << s) | (x >> (32 - s))
  }

  function Sum1(a: Word, b: Word, c: Word, d: Word, x: Word): Word {
    Add(Add(a, F(b, c, d)), x)
  }

  function Sum2(a: Word, b: Word, c: Word, d: Word, x: Word): Word {
    Add(Add(Add(a, G(b, c, d)), x), 0x5A82_7999)
  }

  function Sum3(a: Word, b: Word, c: Word, d: Word, x: Word): Word {
    Add(Add(Add(a, H(b, c, d)), x), 0x6ED9_EBA1)
  }

  function R1(a: Word, b: Word, c: Word, d: Word, x: Word, s: nat): Word
    requires 0 < s < 32
  {
    Rotated(Sum1(a, b, c, d, x), s)
  }

  function R2(a: Word, b: Word, c: Word, d: Word, x: Word, s: nat): Word
    requires 0 < s < 32
  {
    Rotated(Sum2(a, b, c, d, x), s)
  }

  function R3(a: Word, b: Word, c: Word, d: Word, x: Word, s: nat): Word
    requires 0 < s < 32
  {
    Rotated(Sum3(a, b, c, d, x), s)
  }

  lemma RotatedIsRotation(x: Word, s: nat)
    requires s == 3 || s == 5 || s == 7 || s == 9 || s == 11 || s == 13 || s == 15 || s == 19
    ensures Rotated(x, s) == RotateLeft(x, s)
  {
    hide *;
    if s == 3 {
      Rotate3(x);
    } else if s == 5 {
      Rotate5(x);
    } else if s == 7 {
      Rotate7(x);
    } else if s == 9 {
      Rotate9(x);
    } else if s == 11 {
      Rotate11(x);
    } else if s == 13 {
      Rotate13(x);
    } else if s == 15 {
      Rotate15(x);
    } else {
      Rotate19(x);
    }
  }

  lemma Rotate3(x: Word)
    ensures Rotated(x, 3) == RotateLeft(x, 3)
  {
    assert Rotated(x, 3) == (x << 3) | (x >> 29);
    assert RotateLeft(x, 3) == x.RotateLeft(3);
    hide *;
    Bits3(x);
  }

  lemma Bits3(x: Word)
    ensures (x << 3) | (x >> 29) == x.RotateLeft(3)
  {
  }

  lemma Rotate5(x: Word)
    ensures Rotated(x, 5) == RotateLeft(x, 5)
  {
    assert Rotated(x, 5) == (x << 5) | (x >> 27);
    assert RotateLeft(x, 5) == x.RotateLeft(5);
    hide *;
    Bits5(x);
  }

  lemma Bits5(x: Word)
    ensures (x << 5) | (x >> 27) == x.RotateLeft(5)
  {
  }

  lemma Rotate7(x: Word)
    ensures Rotated(x, 7) == RotateLeft(x, 7)
  {
    assert Rotated(x, 7) == (x << 7) | (x >> 25);
    assert RotateLeft(x, 7) == x.RotateLeft(7);
    hide *;
    Bits7(x);
  }

  lemma Bits7(x: Word)
    ensures (x << 7) | (x >> 25) == x.RotateLeft(7)
  {
  }

  lemma Rotate9(x: Word)
    ensures Rotated(x, 9) == RotateLeft(x, 9)
  {
    assert Rotated(x, 9) == (x << 9) | (x >> 23);
    assert RotateLeft(x, 9) == x.RotateLeft(9);
    hide *;
    Bits9(x);
  }

  lemma Bits9(x: Word)
    ensures (x << 9) | (x >> 23) == x.RotateLeft(9)
  {
  }

  lemma Rotate11(x: Word)
    ensures Rotated(x, 11) == RotateLeft(x, 11)
  {
    assert Rotated(x, 11) == (x << 11) | (x >> 21);
    assert RotateLeft(x, 11) == x.RotateLeft(11);
    hide *;
    Bits11(x);
  }

  lemma Bits11(x: Word)
    ensures (x << 11) | (x >> 21) == x.RotateLeft(11)
  {
  }

  lemma Rotate13(x: Word)
    ensures Rotated(x, 13) == RotateLeft(x, 13)
  {
    assert Rotated(x, 13) == (x << 13) | (x >> 19);
    assert RotateLeft(x, 13) == x.RotateLeft(13);
    hide *;
    Bits13(x);
  }

  lemma Bits13(x: Word)
    ensures (x << 13) | (x >> 19) == x.RotateLeft(13)
  {
  }

  lemma Rotate15(x: Word)
    ensures Rotated(x, 15) == RotateLeft(x, 15)
  {
    assert Rotated(x, 15) == (x << 15) | (x >> 17);
    assert RotateLeft(x, 15) == x.RotateLeft(15);
    hide *;
    Bits15(x);
  }

  lemma Bits15(x: Word)
    ensures (x << 15) | (x >> 17) == x.RotateLeft(15)
  {
  }

  lemma Rotate19(x: Word)
    ensures Rotated(x, 19) == RotateLeft(x, 19)
  {
    assert Rotated(x, 19) == (x << 19) | (x >> 13);
    assert RotateLeft(x, 19) == x.RotateLeft(19);
    hide *;
    Bits19(x);
  }

  lemma Bits19(x: Word)
    ensures (x << 19) | (x >> 13) == x.RotateLeft(19)
  {
  }

  lemma R1IsStep(a: Word, b: Word, c: Word, d: Word, x: Word, s: nat)
    requires s == 3 || s == 5 || s == 7 || s == 9 || s == 11 || s == 13 || s == 15 || s == 19
    ensures R1(a, b, c, d, x, s) == RotateLeft(Added(0, a, b, c, d, x), s)
  {
    hide Rotated, RotateLeft, Add, F, G, H;
    RotatedIsRotation(Sum1(a, b, c, d, x), s);
  }

  lemma R2IsStep(a: Word, b: Word, c: Word, d: Word, x: Word, s: nat)
    requires s == 3 || s == 5 || s == 7 || s == 9 || s == 11 || s == 13 || s == 15 || s == 19
    ensures R2(a, b, c, d, x, s) == RotateLeft(Added(1, a, b, c, d, x), s)
  {
    hide Rotated, RotateLeft, Add, F, G, H;
    RotatedIsRotation(Sum2(a, b, c, d, x), s);
  }

  lemma R3IsStep(a: Word, b: Word, c: Word, d: Word, x: Word, s: nat)
    requires s == 3 || s == 5 || s == 7 || s == 9 || s == 11 || s == 13 || s == 15 || s == 19
    ensures R3(a, b, c, d, x, s) == RotateLeft(Added(2, a, b, c, d, x), s)
  {
    hide Rotated, RotateLeft, Add, F, G, H;
    RotatedIsRotation(Sum3(a, b, c, d, x), s);
  }

  lemma Turn1(a: Word, b: Word, c: Word, d: Word, x: seq<Word>, i: nat)
    requires |x| == 16 && i < 16
    ensures Step(State(a, b, c, d), x, 0, i) == State(d, R1(a, b, c, d, x[Index(0, i)], Shift(0, i)), b, c)
  {
    hide RotateLeft, Added, R1, Index;
    R1IsStep(a, b, c, d, x[Index(0, i)], Shift(0, i));
  }

  lemma Turn2(a: Word, b: Word, c: Word, d: Word, x: seq<Word>, i: nat)
    requires |x| == 16 && i < 16
    ensures Step(State(a, b, c, d), x, 1, i) == State(d, R2(a, b, c, d, x[Index(1, i)], Shift(1, i)), b, c)
  {
    hide RotateLeft, Added, R2, Index;
    R2IsStep(a, b, c, d, x[Index(1, i)], Shift(1, i));
  }

  lemma Turn3(a: Word, b: Word, c: Word, d: Word, x: seq<Word>, i: nat)
    requires |x| == 16 && i < 16
    ensures Step(State(a, b, c, d), x, 2, i) == State(d, R3(a, b, c, d, x[Index(2, i)], Shift(2, i)), b, c)
  {
    hide RotateLeft, Added, R3, Index;
    R3IsStep(a, b, c, d, x[Index(2, i)], Shift(2, i));
  }

  lemma FourSteps(st: State, x: seq<Word>, round: nat, n: nat)
    requires |x| == 16
    ensures Steps(st, x, round, n + 4)
         == Step(Step(Step(Step(Steps(st, x, round, n), x, round, n), x, round, n + 1), x, round, n + 2), x, round, n + 3)
  {
    hide Step;
    assert Steps(st, x, round, n + 1) == Step(Steps(st, x, round, n), x, round, n);
    assert Steps(st, x, round, n + 2) == Step(Steps(st, x, round, n + 1), x, round, n + 1);
    assert Steps(st, x, round, n + 3) == Step(Steps(st, x, round, n + 2), x, round, n + 2);
  }

  lemma Order1(k: nat, n: nat)
    requires k < 4 && n == 4 * k
    ensures Index(0, n) == n && Shift(0, n) == 3
    ensures Index(0, n + 1) == n + 1 && Shift(0, n + 1) == 7
    ensures Index(0, n + 2) == n + 2 && Shift(0, n + 2) == 11
    ensures Index(0, n + 3) == n + 3 && Shift(0, n + 3) == 19
  {
  }

  /** Four lines of round 1: one line for each register. */
  lemma Quad1(st: State, x: seq<Word>, k: nat, n: nat, A: Word, B: Word, C: Word, D: Word)
    requires |x| == 16 && k < 4 && n == 4 * k && State(A, B, C, D) == Steps(st, x, 0, n)
    ensures var A' := R1(A, B, C, D, x[n], 3);
            var D' := R1(D, A', B, C, x[n + 1], 7);
            var C' := R1(C, D', A', B, x[n + 2], 11);
            var B' := R1(B, C', D', A', x[n + 3], 19);
            Steps(st, x, 0, n + 4) == State(A', B', C', D')
  {
    hide Step, Steps, R1, Index, Shift;
    Order1(k, n);
    FourSteps(st, x, 0, n);
    var A' := R1(A, B, C, D, x[n], 3);
    var D' := R1(D, A', B, C, x[n + 1], 7);
    var C' := R1(C, D', A', B, x[n + 2], 11);
    Turn1(A, B, C, D, x, n);
    Turn1(D, A', B, C, x, n + 1);
    Turn1(C, D', A', B, x, n + 2);
    Turn1(B, C', D', A', x, n + 3);
  }

  lemma Order2(k: nat, n: nat)
    requires k < 4 && n == 4 * k
    ensures Index(1, n) == k && Shift(1, n) == 3
    ensures Index(1, n + 1) == 4 + k && Shift(1, n + 1) == 5
    ensures Index(1, n + 2) == 8 + k && Shift(1, n + 2) == 9
    ensures Index(1, n + 3) == 12 + k && Shift(1, n + 3) == 13
  {
  }

  /** Four lines of round 2: one line for each register. */
  lemma Quad2(st: State, x: seq<Word>, k: nat, n: nat, A: Word, B: Word, C: Word, D: Word)
    requires |x| == 16 && k < 4 && n == 4 * k && State(A, B, C, D) == Steps(st, x, 1, n)
    ensures var A' := R2(A, B, C, D, x[k], 3);
            var D' := R2(D, A', B, C, x[4 + k], 5);
            var C' := R2(C, D', A', B, x[8 + k], 9);
            var B' := R2(B, C', D', A', x[12 + k], 13);
            Steps(st, x, 1, n + 4) == State(A', B', C', D')
  {
    hide Step, Steps, R2, Index, Shift;
    Order2(k, n);
    FourSteps(st, x, 1, n);
    var A' := R2(A, B, C, D, x[k], 3);
    var D' := R2(D, A', B, C, x[4 + k], 5);
    var C' := R2(C, D', A', B, x[8 + k], 9);
    Turn2(A, B, C, D, x, n);
    Turn2(D, A', B, C, x, n + 1);
    Turn2(C, D', A', B, x, n + 2);
    Turn2(B, C', D', A', x, n + 3);
  }

  lemma Order3(k: nat, j: nat)
    requires (k == 0 && j == 0) || (k == 1 && j == 2) || (k == 2 && j == 1) || (k == 3 && j == 3)
    ensures Index(2, 4 * k) == j && Shift(2, 4 * k) == 3
    ensures Index(2, 4 * k + 1) == 8 + j && Shift(2, 4 * k + 1) == 9
    ensures Index(2, 4 * k + 2) == 4 + j && Shift(2, 4 * k + 2) == 11
    ensures Index(2, 4 * k + 3) == 12 + j && Shift(2, 4 * k + 3) == 15
  {
  }

  /** Four lines of round 3: one line for each register. */
  lemma Quad3(st: State, x: seq<Word>, k: nat, j: nat, A: Word, B: Word, C: Word, D: Word)
    requires (k == 0 && j == 0) || (k == 1 && j == 2) || (k == 2 && j == 1) || (k == 3 && j == 3)
    requires |x| == 16 && State(A, B, C, D) == Steps(st, x, 2, 4 * k)
    ensures var A' := R3(A, B, C, D, x[j], 3);
            var D' := R3(D, A', B, C, x[8 + j], 9);
            var C' := R3(C, D', A', B, x[4 + j], 11);
            var B' := R3(B, C', D', A', x[12 + j], 15);
            Steps(st, x, 2, 4 * k + 4) == State(A', B', C', D')
  {
    hide Step, Steps, R3, Index, Shift;
    Order3(k, j);
    FourSteps(st, x, 2, 4 * k);
    var A' := R3(A, B, C, D, x[j], 3);
    var D' := R3(D, A', B, C, x[8 + j], 9);
    var C' := R3(C, D', A', B, x[4 + j], 11);
    Turn3(A, B, C, D, x, 4 * k);
    Turn3(D, A', B, C, x, 4 * k + 1);
    Turn3(C, D', A', B, x, 4 * k + 2);
    Turn3(B, C', D', A', x, 4 * k + 3);
  }

  method Round1(X: array<Word>, a: Word, b: Word, c: Word, d: Word) returns (A: Word, B: Word, C: Word, D: Word)
    requires X.Length == 16
    ensures State(A, B, C, D) == Steps(State(a, b, c, d), X[..], 0, 16)
  {
    hide R1, Step;
    ghost var st, x := State(a, b, c, d), X[..];
    A, B, C, D := a, b, c, d;
    Quad1(st, x, 0, 0, A, B, C, D);
    A := R1(A, B, C, D, X[0], 3);
    D := R1(D, A, B, C, X[1], 7);
    C := R1(C, D, A, B, X[2], 11);
    B := R1(B, C, D, A, X[3], 19);
    Quad1(st, x, 1, 4, A, B, C, D);
    A := R1(A, B, C, D, X[4], 3);
    D := R1(D, A, B, C, X[5], 7);
    C := R1(C, D, A, B, X[6], 11);
    B := R1(B, C, D, A, X[7], 19);
    Quad1(st, x, 2, 8, A, B, C, D);
    A := R1(A, B, C, D, X[8], 3);
    D := R1(D, A, B, C, X[9], 7);
    C := R1(C, D, A, B, X[10], 11);
    B := R1(B, C, D, A, X[11], 19);
    Quad1(st, x, 3, 12, A, B, C, D);
    A := R1(A, B, C, D, X[12], 3);
    D := R1(D, A, B, C, X[13], 7);
    C := R1(C, D, A, B, X[14], 11);
    B := R1(B, C, D, A, X[15], 19);
  }

  method Round2(X: array<Word>, a: Word, b: Word, c: Word, d: Word) returns (A: Word, B: Word, C: Word, D: Word)
    requires X.Length == 16
    ensures State(A, B, C, D) == Steps(State(a, b, c, d), X[..], 1, 16)
  {
    hide R2, Step;
    ghost var st, x := State(a, b, c, d), X[..];
    A, B, C, D := a, b, c, d;
    Quad2(st, x, 0, 0, A, B, C, D);
    A := R2(A, B, C, D, X[0], 3);
    D := R2(D, A, B, C, X[4], 5);
    C := R2(C, D, A, B, X[8], 9);
    B := R2(B, C, D, A, X[12], 13);
    Quad2(st, x, 1, 4, A, B, C, D);
    A := R2(A, B, C, D, X[1], 3);
    D := R2(D, A, B, C, X[5], 5);
    C := R2(C, D, A, B, X[9], 9);
    B := R2(B, C, D, A, X[13], 13);
    Quad2(st, x, 2, 8, A, B, C, D);
    A := R2(A, B, C, D, X[2], 3);
    D := R2(D, A, B, C, X[6], 5);
    C := R2(C, D, A, B, X[10], 9);
    B := R2(B, C, D, A, X[14], 13);
    Quad2(st, x, 3, 12, A, B, C, D);
    A := R2(A, B, C, D, X[3], 3);
    D := R2(D, A, B, C, X[7], 5);
    C := R2(C, D, A, B, X[11], 9);
    B := R2(B, C, D, A, X[15], 13);
  }

  method Round3(X: array<Word>, a: Word, b: Word, c: Word, d: Word) returns (A: Word, B: Word, C: Word, D: Word)
    requires X.Length == 16
    ensures State(A, B, C, D) == Steps(State(a, b, c, d), X[..], 2, 16)
  {
    hide R3, Step;
    ghost var st, x := State(a, b, c, d), X[..];
    A, B, C, D := a, b, c, d;
    Quad3(st, x, 0, 0, A, B, C, D);
    A := R3(A, B, C, D, X[0], 3);
    D := R3(D, A, B, C, X[8], 9);
    C := R3(C, D, A, B, X[4], 11);
    B := R3(B, C, D, A, X[12], 15);
    Quad3(st, x, 1, 2, A, B, C, D);
    A := R3(A, B, C, D, X[2], 3);
    D := R3(D, A, B, C, X[10], 9);
    C := R3(C, D, A, B, X[6], 11);
    B := R3(B, C, D, A, X[14], 15);
    Quad3(st, x, 2, 1, A, B, C, D);
    A := R3(A, B, C, D, X[1], 3);
    D := R3(D, A, B, C, X[9], 9);
    C := R3(C, D, A, B, X[5], 11);
    B := R3(B, C, D, A, X[13], 15);
    Quad3(st, x, 3, 3, A, B, C, D);
    A := R3(A, B, C, D, X[3], 3);
    D := R3(D, A, B, C, X[11], 9);
    C := R3(C, D, A, B, X[7], 11);
    B := R3(B, C, D, A, X[15], 15);
  }

  // ---------- digest ----------

  method Append(item: Word, result: array<bv8>, resptr: nat)
    requires resptr + 4 <= result.Length
    modifies result
    ensures result[..] == old(result[..resptr]) + Octets(item) + old(result[resptr + 4..])
  {
    for i := 0 to 4
      invariant result[..resptr] == old(result[..resptr]) && result[resptr + 4..] == old(result[resptr + 4..])
      invariant forall j :: 0 <= j < i ==> result[resptr + j] == Octets(item)[j]
    {
      ShiftIsQuotient(item);
      result[resptr + i] := ((item >> (8 * i)) & 0xff) as bv8;
    }
  }

  lemma ShiftIsQuotient(w: Word)
    ensures w >> 8 == w / 0x100 && w >> 16 == w / 0x1_0000 && w >> 24 == w / 0x100_0000
    ensures w & 0xff == w % 0x100 && (w >> 8) & 0xff == w / 0x100 % 0x100
    ensures (w >> 16) & 0xff == w / 0x1_0000 % 0x100 && (w >> 24) & 0xff == w / 0x100_0000
  {
  }

  /** One pass of the block loop: the three rounds and the final additions. */
  method Block(X: array<Word>, a: Word, b: Word, c: Word, d: Word) returns (A: Word, B: Word, C: Word, D: Word)
    requires X.Length == 16
    ensures State(A, B, C, D) == Compress(State(a, b, c, d), X[..])
  {
    hide Steps, Step, Add;
    A, B, C, D := Round1(X, a, b, c, d);
    A, B, C, D := Round2(X, A, B, C, D);
    A, B, C, D := Round3(X, A, B, C, D);
    A := Add(A, a);
    B := Add(B, b);
    C := Add(C, c);
    D := Add(D, d);
  }

  method MD4(input: seq<byte>) returns (result: array<bv8>)
    ensures fresh(result) && result[..] == Digest(input)
  {
    hide Compress, Octets, Words, Padded, Add;
    var buffer := Pad(input);
    var total := buffer.Length;
    var X := new Word[16](_ => 0);
    var A, B, C, D := 0x6745_2301, 0xefcd_ab89, 0x98ba_dcfe, 0x1032_5476;
    var bufptr := 0;
    ghost var p := buffer[..];
    for i := 0 to total / 64
      invariant bufptr == 64 * i && buffer[..] == p
      invariant State(A, B, C, D) == Blocks(p, i)
    {
      bufptr := ReadWords(buffer, bufptr, X);
      A, B, C, D := Block(X, A, B, C, D);
    }
    result := Finish(A, B, C, D);
  }

  method Finish(A: Word, B: Word, C: Word, D: Word) returns (result: array<bv8>)
    ensures fresh(result) && result[..] == Output(State(A, B, C, D))
  {
    hide Octets;
    result := new bv8[16](_ => 0);
    Append(A, result, 0);
    Append(B, result, 4);
    Append(C, result, 8);
    Append(D, result, 12);
  }
}
