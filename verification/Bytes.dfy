/** Bytes, little-endian integers and byte-range updates shared by every
    component that lays data out in memory. */
module Bytes {
  type byte = b: int | 0 <= b < 256

  datatype Option<+T> = None | Some(value: T)

  function Pow256(k: nat): (p: nat)
    ensures p > 0
  {
    if k == 0 then 1 else 256 * Pow256(k - 1)
  }

  /** The `k` low-order bytes of `v`, least significant first. */
  function Le(v: nat, k: nat): (s: seq<byte>)
    ensures |s| == k
  {
    if k == 0 then [] else [v % 256] + Le(v / 256, k - 1)
  }

  function FromLe(s: seq<byte>): (v: nat)
    ensures v < Pow256(|s|)
  {
    if s == [] then 0 else s[0] + 256 * FromLe(s[1..])
  }

  lemma {:induction false} FromLeOfLe(v: nat, k: nat)
    requires v < Pow256(k)
    ensures FromLe(Le(v, k)) == v
  {
    if k == 0 {
    } else {
      assert Le(v, k)[1..] == Le(v / 256, k - 1);
      FromLeOfLe(v / 256, k - 1);
    }
  }

  lemma {:induction false} LeOfFromLe(s: seq<byte>)
    ensures Le(FromLe(s), |s|) == s
  {
    if s == [] {
    } else {
      LeOfFromLe(s[1..]);
      var rest := FromLe(s[1..]);
      assert (s[0] + 256 * rest) % 256 == s[0] && (s[0] + 256 * rest) / 256 == rest;
      assert s == [s[0]] + s[1..];
    }
  }

  lemma DivDiv(v: nat, p: nat)
    requires p > 0
    ensures v / 256 / p == v / (256 * p)
  {
    var q, t := v / 256 / p, v / 256 % p;
    assert v == 256 * (p * q + t) + v % 256;
    assert 256 * (p * q + t) == (256 * p) * q + 256 * t;
    Quotient(v, 256 * p, q, 256 * t + v % 256);
  }

  lemma Quotient(v: nat, d: nat, q: nat, r: nat)
    requires v == d * q + r && r < d
    ensures v / d == q
  {
    var w := v / d;
    assert v == d * w + v % d;
    assert w < q ==> d * w <= d * (q - 1);
    assert w > q ==> d * w >= d * (q + 1);
  }

  /** Writing a number in k bytes keeps it modulo 256^k. */
  lemma {:induction false} LeModulo(v: nat, k: nat)
    ensures FromLe(Le(v, k)) == v % Pow256(k)
  {
    if k > 0 {
      LeModulo(v / 256, k - 1);
      assert Le(v, k)[1..] == Le(v / 256, k - 1);
      ModuloSplits(v, Pow256(k - 1));
    }
  }

  lemma ModuloSplits(v: nat, p: nat)
    requires p > 0
    ensures v % 256 + 256 * (v / 256 % p) == v % (256 * p)
  {
    var q, t, r := v / 256 / p, v / 256 % p, v % 256;
    assert v == 256 * (p * q + t) + r;
    assert 256 * (p * q + t) == (256 * p) * q + 256 * t;
    Quotient(v, 256 * p, q, 256 * t + r);
    assert v == (256 * p) * (v / (256 * p)) + v % (256 * p);
  }

  lemma Pow256Values()
    ensures Pow256(1) == 0x100
    ensures Pow256(3) == 0x100_0000
    ensures Pow256(4) == 0x1_0000_0000
    ensures Pow256(8) == 0x1_0000_0000_0000_0000
  {
    assert Pow256(1) == 256 * Pow256(0);
    assert Pow256(2) == 256 * Pow256(1);
    assert Pow256(3) == 256 * Pow256(2);
    assert Pow256(4) == 256 * Pow256(3);
    assert Pow256(5) == 256 * Pow256(4);
    assert Pow256(6) == 256 * Pow256(5);
    assert Pow256(7) == 256 * Pow256(6);
    assert Pow256(8) == 256 * Pow256(7);
  }

  const U32: nat := 0x1_0000_0000
  const U64: nat := 0x1_0000_0000_0000_0000

  lemma Le32(v: nat)
    requires v < U32
    ensures FromLe(Le(v, 4)) == v
  {
    Pow256Values();
    FromLeOfLe(v, 4);
  }

  lemma Le64(v: nat)
    requires v < U64
    ensures FromLe(Le(v, 8)) == v
  {
    Pow256Values();
    FromLeOfLe(v, 8);
  }

  function Zeros(n: nat): (s: seq<byte>)
    ensures |s| == n && forall i :: 0 <= i < n ==> s[i] == 0
  {
    seq(n, _ => 0)
  }

  ghost predicate Fits(mem: seq<byte>, addr: int, n: nat) {
    0 <= addr && addr + n <= |mem|
  }

  /** `mem` with `data` stored at `addr`; an access outside `mem` stores nothing. */
  function Store(mem: seq<byte>, addr: int, data: seq<byte>): (r: seq<byte>)
    ensures |r| == |mem|
  {
    if 0 <= addr && addr + |data| <= |mem| then
      mem[..addr] + data + mem[addr + |data|..]
    else mem
  }

  lemma StoreAt(mem: seq<byte>, addr: int, data: seq<byte>)
    requires Fits(mem, addr, |data|)
    ensures forall a :: 0 <= a < |mem| ==>
      Store(mem, addr, data)[a] == if addr <= a < addr + |data| then data[a - addr] else mem[a]
    ensures Store(mem, addr, data)[addr..addr + |data|] == data
  {
  }

  lemma StoreHere(mem: seq<byte>, addr: int, data: seq<byte>)
    requires Fits(mem, addr, |data|)
    ensures Store(mem, addr, data)[addr..addr + |data|] == data
  {
    StoreAt(mem, addr, data);
  }

  lemma StoreElsewhere(mem: seq<byte>, addr: int, data: seq<byte>, lo: nat, hi: nat)
    requires lo <= hi <= |mem| && (hi <= addr || addr + |data| <= lo)
    ensures Store(mem, addr, data)[lo..hi] == mem[lo..hi]
  {
    var a, b := Store(mem, addr, data)[lo..hi], mem[lo..hi];
    assert forall k :: 0 <= k < hi - lo ==> a[k] == b[k];
  }

  lemma SubSlice<T>(s: seq<T>, lo: nat, hi: nat, i: nat, j: nat)
    requires lo <= hi <= |s| && i <= j <= hi - lo
    ensures s[lo..hi][i..j] == s[lo + i..lo + j]
  {
    var a, b := s[lo..hi][i..j], s[lo + i..lo + j];
    assert |a| == |b|;
    assert forall k :: 0 <= k < |a| ==> a[k] == b[k];
  }

  lemma DropOfAppend<T>(s: seq<T>, t: seq<T>, n: nat)
    requires n <= |s|
    ensures (s + t)[..n] == s[..n] && (s + t)[n..] == s[n..] + t
  {
  }

  /** First NUL at or after `i`, or |b|. */
  function StrEnd<T(==)>(b: seq<T>, i: nat, nul: T): (e: nat)
    requires i <= |b|
    ensures i <= e <= |b| && (e < |b| ==> b[e] == nul)
    ensures forall j :: i <= j < e ==> b[j] != nul
    decreases |b| - i
  {
    if i == |b| || b[i] == nul then i else StrEnd(b, i + 1, nul)
  }

  lemma {:induction false} StrEndIs<T>(b: seq<T>, i: nat, e: nat, nul: T)
    requires i <= e < |b| && b[e] == nul && forall j :: i <= j < e ==> b[j] != nul
    ensures StrEnd(b, i, nul) == e
  {
    assert StrEnd(b, i, nul) <= e;
  }
}
