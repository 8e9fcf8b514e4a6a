/** Pushing into the ring byte by byte: the program, when it ends, and what it
    leaves, for every size the program accepts. */
module MsgPush {
  import opened Bytes
  import opened MsgQueue

  // ---------- the eviction scan ----------

  /** First byte at or after `i` that is not NUL, or |b|. */
  function NonZero(b: seq<byte>, i: nat): (j: nat)
    requires i <= |b|
    ensures i <= j <= |b| && (j < |b| ==> b[j] != 0)
    ensures forall k :: i <= k < j ==> b[k] == 0
    decreases |b| - i
  {
    if i == |b| || b[i] != 0 then i else NonZero(b, i + 1)
  }

  lemma {:induction false} NonZeroIs(b: seq<byte>, i: nat, j: nat)
    requires i <= j <= |b| && (j < |b| ==> b[j] != 0) && forall k :: i <= k < j ==> b[k] == 0
    ensures NonZero(b, i) == j
  {
    assert NonZero(b, i) <= j;
  }

  /** A buffer in which every scan ends: something at its start, a NUL at its end. */
  predicate Scannable(b: seq<byte>) {
    b != [] && b[0] != 0 && b[|b| - 1] == 0
  }

  /** How far it is from the message at `at` to the next one, or to the end of the buffer. */
  function Travel(b: seq<byte>, at: nat): (t: nat)
    requires Scannable(b) && at < |b|
    ensures 1 <= t <= |b| - at && (at + t < |b| ==> b[at + t] != 0)
  {
    assert b[|b| - 1] == 0;
    NonZero(b, StrEnd(b, at, 0) + 1) - at
  }

  /** Where that is, going round. */
  function NextAt(b: seq<byte>, at: nat): (next: nat)
    requires Scannable(b) && at < |b|
    ensures next < |b| && b[next] != 0 && (next == 0 || next == at + Travel(b, at))
  {
    var next := at + Travel(b, at);
    if next == |b| then 0 else next
  }

  /** `bottom` and `distance` when the eviction loop ends. */
  function Evicted(b: seq<byte>, size: nat, bottom: nat, distance: int): (r: (nat, int))
    requires bottom < |b| && size <= |b| && 0 <= distance + size
    requires distance + size < |b| || Scannable(b)
    ensures r.0 < |b| && 0 <= r.1 + size < |b|
    decreases distance + size
  {
    if distance + size < |b| then (bottom, distance)
    else Evicted(b, size, NextAt(b, bottom), distance - Travel(b, bottom))
  }

  // ---------- the loops, step by step ----------

  /** An int added to a size_t. */
  function Unsigned(n: int): (u: nat) {
    n % 0x1_0000_0000_0000_0000
  }

  /** Before a test of the outer loop, before a test of the inner one, or behind both. */
  datatype Scan =
    | Outer(bottom: nat, distance: int)
    | Inner(at: nat, travel: nat, distance: int)
    | Out(bottom: nat, distance: int)

  function ScanStep(b: seq<byte>, size: nat, s: Scan): Scan
    requires b != []
  {
    match s
    case Outer(bottom, distance) =>
      if Unsigned(distance + size) < |b| || bottom >= |b| then Out(bottom, distance)
      else
        var travel := StrEnd(b, bottom, 0) - bottom + 1;
        Inner((bottom + travel) % |b|, travel, distance)
    case Inner(at, travel, distance) =>
      if at < |b| && b[at] == 0 then Inner((at + 1) % |b|, travel + 1, distance)
      else Outer(at, distance - travel)
    case Out(_, _) => s
  }

  function ScanRun(b: seq<byte>, size: nat, s: Scan, steps: nat): Scan
    requires b != []
    decreases steps
  {
    if steps == 0 then s else ScanRun(b, size, ScanStep(b, size, s), steps - 1)
  }

  lemma OneStep(b: seq<byte>, size: nat, s: Scan)
    requires b != []
    ensures ScanRun(b, size, s, 1) == ScanStep(b, size, s)
  {
    assert ScanRun(b, size, s, 1) == ScanRun(b, size, ScanStep(b, size, s), 0);
  }

  ghost predicate ScanEnds(b: seq<byte>, size: nat, s: Scan)
    requires b != []
  {
    exists steps: nat :: ScanRun(b, size, s, steps).Out?
  }

  lemma {:induction false} ScanOn(b: seq<byte>, size: nat, s: Scan, i: nat, j: nat)
    requires b != []
    ensures ScanRun(b, size, s, i + j) == ScanRun(b, size, ScanRun(b, size, s, i), j)
    decreases i
  {
    if i > 0 {
      ScanOn(b, size, ScanStep(b, size, s), i - 1, j);
    }
  }

  /** The inner loop stops at the next byte that is not NUL, going round to byte 0. */
  lemma {:induction false} InnerScan(b: seq<byte>, size: nat, at: nat, travel: nat, distance: int) returns (steps: nat)
    requires b != [] && b[0] != 0 && at <= |b|
    ensures
      var z := NonZero(b, at);
      ScanRun(b, size, Inner(if at == |b| then 0 else at, travel, distance), steps)
        == Outer(if z == |b| then 0 else z, distance - (travel + (z - at)))
    decreases |b| - at
  {
    if at == |b| || b[at] != 0 {
      steps := 1;
      OneStep(b, size, Inner(if at == |b| then 0 else at, travel, distance));
    } else {
      var n := InnerScan(b, size, at + 1, travel + 1, distance);
      Round(at, |b|);
      assert ScanStep(b, size, Inner(at, travel, distance))
          == Inner(if at + 1 == |b| then 0 else at + 1, travel + 1, distance);
      steps := n + 1;
    }
  }

  lemma Round(i: nat, cap: nat)
    requires i < cap
    ensures (i + 1) % cap == if i + 1 == cap then 0 else i + 1
  {
  }

  /** One turn of the outer loop drops one message. */
  lemma OuterScan(b: seq<byte>, size: nat, bottom: nat, distance: int) returns (steps: nat)
    requires Scannable(b) && bottom < |b| && |b| <= Unsigned(distance + size)
    ensures ScanRun(b, size, Outer(bottom, distance), steps) == Outer(NextAt(b, bottom), distance - Travel(b, bottom))
  {
    var e := StrEnd(b, bottom, 0);
    assert Travel(b, bottom) == NonZero(b, e + 1) - bottom;
    var n := InnerScan(b, size, e + 1, e + 1 - bottom, distance);
    Round(e, |b|);
    assert ScanStep(b, size, Outer(bottom, distance)) == Inner(if e + 1 == |b| then 0 else e + 1, e + 1 - bottom, distance);
    steps := n + 1;
  }

  /** The step-by-step loops end with what Evicted says. */
  lemma {:induction false} ScanIsEvicted(b: seq<byte>, size: nat, bottom: nat, distance: int) returns (steps: nat)
    requires bottom < |b| && size <= |b| && 0 <= distance + size < U64
    requires distance + size < |b| || Scannable(b)
    ensures
      var (to, left) := Evicted(b, size, bottom, distance);
      ScanRun(b, size, Outer(bottom, distance), steps) == Out(to, left)
    decreases distance + size
  {
    hide NextAt, Travel, Scannable, ScanRun;
    var s := Outer(bottom, distance);
    if distance + size < |b| {
      steps := 1;
      OneStep(b, size, s);
    } else {
      var i := OuterScan(b, size, bottom, distance);
      var j := ScanIsEvicted(b, size, NextAt(b, bottom), distance - Travel(b, bottom));
      ScanOn(b, size, s, i, j);
      steps := i + j;
    }
  }

  /** In a buffer of NULs the inner loop goes round for ever. */
  lemma {:induction false} ZeroScan(b: seq<byte>, size: nat, at: nat, travel: nat, distance: int, steps: nat)
    requires at < |b| && forall i :: 0 <= i < |b| ==> b[i] == 0
    ensures ScanRun(b, size, Inner(at, travel, distance), steps).Inner?
    decreases steps
  {
    if steps > 0 {
      ZeroScan(b, size, (at + 1) % |b|, travel + 1, distance, steps - 1);
    }
  }

  lemma ZerosNeverEnd(b: seq<byte>, size: nat, bottom: nat, distance: int)
    requires bottom < |b| && forall i :: 0 <= i < |b| ==> b[i] == 0
    requires |b| <= Unsigned(distance + size)
    ensures !ScanEnds(b, size, Outer(bottom, distance))
  {
    var s := Outer(bottom, distance);
    StrEndIs(b, bottom, bottom, 0);
    var next := ScanStep(b, size, s);
    assert next == Inner((bottom + 1) % |b|, 1, distance);
    forall steps: nat ensures !ScanRun(b, size, s, steps).Out? {
      if steps > 0 {
        ZeroScan(b, size, next.at, 1, distance, steps - 1);
      }
    }
  }

  // ---------- one push ----------

  /** The buffer and the three ints beside it. */
  datatype Raw = Raw(b: seq<byte>, top: nat, bottom: nat, distance: int)

  /** Twice the capacity is an int. */
  const CAP_LIMIT := 0x4000_0000

  ghost predicate Sound(s: Raw) {
    && 0 < |s.b| < CAP_LIMIT && s.top < |s.b| && s.bottom < |s.b| && 0 <= s.distance < |s.b|
    && s.b[|s.b| - 1] == 0
    && (s.b[0] != 0 || Unused(s))
  }

  ghost predicate Unused(s: Raw) {
    s.top == 0 && s.bottom == 0 && s.distance == 0 && forall i :: 0 <= i < |s.b| ==> s.b[i] == 0
  }

  /** Buffer, `top` and `distance` at the start of the eviction loop. */
  function Turned(s: Raw, size: nat): (r: (seq<byte>, nat, int))
    requires s.top < |s.b|
    ensures |r.0| == |s.b|
  {
    if s.top + size >= |s.b| then
      (Store(s.b, s.top, Zeros(|s.b| - s.top)), 0, s.distance + (|s.b| - s.top))
    else (s.b, s.top, s.distance)
  }

  ghost predicate PushEnds(s: Raw, size: nat)
    requires s.top < |s.b|
  {
    var t := Turned(s, size);
    ScanEnds(t.0, size, Outer(s.bottom, t.2))
  }

  lemma TurnedScans(s: Raw, size: nat)
    requires Sound(s) && 0 < size <= |s.b| && (size < |s.b| || s.top != 0)
    ensures
      var (b, top, distance) := Turned(s, size);
      && top + size <= |b| && (size < |b| ==> top + size < |b|) && (top > 0 ==> b[0] != 0)
      && b[|b| - 1] == 0 && 0 <= distance < 2 * |b|
      && (distance + size < |b| || Scannable(b))
  {
    if s.top + size >= |s.b| {
      WipedBytes(s.b, s.top);
      hide Store, Zeros;
    }
  }

  lemma WipedBytes(b: seq<byte>, top: nat)
    requires top < |b|
    ensures
      var b' := Store(b, top, Zeros(|b| - top));
      |b'| == |b| && b'[|b| - 1] == 0 && (top > 0 ==> b'[0] == b[0])
  {
    StoreAt(b, top, Zeros(|b| - top));
    hide Store;
  }

  /** When a push ends: a message shorter than the buffer always finds its place;
      one that fills the buffer does so unless `top` is 0, because then all of the
      buffer is wiped first. `top` is 0 in a ring not used before, and after a
      message that filled the buffer. */
  lemma PushEndsIff(s: Raw, size: nat)
    requires Sound(s) && 0 < size <= |s.b|
    ensures PushEnds(s, size) <==> size < |s.b| || s.top != 0
  {
    hide Store, Zeros, ScanRun, Evicted;
    var (b, top, distance) := Turned(s, size);
    if size < |s.b| || s.top != 0 {
      TurnedScans(s, size);
      var steps := ScanIsEvicted(b, size, s.bottom, distance);
    } else {
      WipedAll(s.b);
      ZerosNeverEnd(b, size, s.bottom, distance);
    }
  }

  lemma WipedAll(b: seq<byte>)
    ensures Store(b, 0, Zeros(|b|)) == Zeros(|b|)
  {
  }

  /** What a push that ends leaves. */
  function Pushed(s: Raw, m: Message): Raw
    requires Sound(s) && Proper(m) && |m| + 1 <= |s.b| && (|m| + 1 < |s.b| || s.top != 0)
  {
    var size := |m| + 1;
    TurnedScans(s, size);
    var (b, top, distance) := Turned(s, size);
    var (bottom, left) := Evicted(b, size, s.bottom, distance);
    Raw(Store(b, top, m + [0]), if top + size == |b| then 0 else top + size, bottom, left + size)
  }

  lemma PushedSound(s: Raw, m: Message)
    requires Sound(s) && Proper(m) && |m| + 1 <= |s.b| && (|m| + 1 < |s.b| || s.top != 0)
    ensures Sound(Pushed(s, m)) && |Pushed(s, m).b| == |s.b|
  {
    var size := |m| + 1;
    TurnedScans(s, size);
    var (b, top, distance) := Turned(s, size);
    StoredEnds(b, top, m);
    PushedIs(s, m);
    hide Store, Evicted, Turned, Proper, Pushed, Scannable;
  }

  lemma StoredEnds(b: seq<byte>, top: nat, m: Message)
    requires Proper(m) && top + |m| + 1 <= |b| && b[|b| - 1] == 0 && (top > 0 ==> b[0] != 0)
    ensures Store(b, top, m + [0])[0] != 0 && Store(b, top, m + [0])[|b| - 1] == 0
  {
    var data := m + [0];
    assert data[|m|] == 0 && data[0] == m[0] && m[0] in m;
    StoreAt(b, top, data);
    hide Store;
    var b' := Store(b, top, data);
    assert b'[0] == if top == 0 then data[0] else b[0];
  }

  // ---------- the ring behind it ----------

  /** `s` holds the messages of `r`. */
  ghost predicate Holds(s: Raw, r: Ring) {
    && Sound(s) && RingFits(r, |s.b|) && InMemory(s.b, r)
    && s.top == r.top && s.bottom == r.bottom && s.distance == Distance(r, |s.b|)
  }

  /** The scan comes from one message to the next. */
  lemma OldestScanned(b: seq<byte>, r: Ring)
    requires Scannable(b) && Shaped(r, |b|) && InMemory(b, r) && r.older != []
    ensures InMemory(b, DropOldest(r)) && Shaped(DropOldest(r), |b|)
    ensures NextAt(b, r.bottom) == DropOldest(r).bottom
    ensures Distance(r, |b|) - Travel(b, r.bottom) == Distance(DropOldest(r), |b|)
  {
    OlderProper(r);
    OldestInMemory(b, r);
    DropShaped(r, |b|);
    hide InMemory, StrEnd;
    var e := StrEnd(b, r.bottom, 0);
    if |r.older| == 1 {
      NonZeroIs(b, e + 1, |b|);
    } else {
      NonZeroIs(b, e + 1, e + 1);
    }
  }

  /** The loops drop whole messages, as the abstract eviction does. */
  lemma {:induction false} EvictedIsEvict(b: seq<byte>, size: nat, r: Ring)
    requires b != [] && Shaped(r, |b|) && InMemory(b, r) && r.top + size < |b|
    requires Distance(r, |b|) + size < |b| || Scannable(b)
    ensures 0 <= Distance(r, |b|)
    ensures
      var e := Evict(r, size, |b|);
      InMemory(b, e) && Evicted(b, size, r.bottom, Distance(r, |b|)) == (e.bottom, Distance(e, |b|))
    decreases |r.older|
  {
    hide Shaped, InMemory, Scannable, NextAt, Travel, Distance;
    ShapedDistance(r, |b|);
    if Distance(r, |b|) + size >= |b| {
      OldestScanned(b, r);
      EvictedIsEvict(b, size, DropOldest(r));
    }
  }

  lemma ShapedDistance(r: Ring, cap: nat)
    requires Shaped(r, cap)
    ensures r.bottom < cap && 0 <= Distance(r, cap) && (r.older == [] ==> Distance(r, cap) <= r.top)
  {
  }

  /** A block that was just wiped goes in one turn of the outer loop. */
  lemma WipedFirst(b: seq<byte>, size: nat, from: nat, distance: int)
    requires Scannable(b) && from < |b| && forall j :: from <= j < |b| ==> b[j] == 0
    requires size <= |b| <= distance + size && |b| - from <= distance + size
    ensures Evicted(b, size, from, distance) == Evicted(b, size, 0, distance - (|b| - from))
  {
    StrEndIs(b, from, from, 0);
    NonZeroIs(b, from + 1, |b|);
  }

  lemma TurnedIsTurnOver(s: Raw, r: Ring, size: nat)
    requires Holds(s, r) && r.newer != [] && 0 < size <= |s.b| <= s.top + size
    ensures
      var (b, top, distance) := Turned(s, size);
      var t := TurnOver(r);
      && Scannable(b) && Shaped(t, |b|) && InMemory(b, t) && 0 <= Distance(t, |b|) && 0 <= distance
      && Evicted(b, size, s.bottom, distance) == Evicted(b, size, t.bottom, Distance(t, |b|))
  {
    assert RingFits(r, |s.b|);
    TurnedMemory(s, r, size);
    TurnedShaped(r, |s.b|);
    TurnedNumbers(s, r, size);
    hide *;
    var (b, top, distance) := Turned(s, size);
    if r.older != [] {
      WipedFirst(b, size, s.bottom, distance);
    }
  }

  lemma TurnedMemory(s: Raw, r: Ring, size: nat)
    requires Holds(s, r) && r.newer != [] && 0 < size <= |s.b| <= s.top + size
    ensures
      var b := Turned(s, size).0;
      Scannable(b) && InMemory(b, TurnOver(r)) && forall j :: r.top <= j < |b| ==> b[j] == 0
  {
    TurnedScans(s, size);
    TurnOverInMemory(s.b, r);
    hide InMemory, Store, Zeros, RingFits;
  }

  lemma TurnedNumbers(s: Raw, r: Ring, size: nat)
    requires Holds(s, r) && r.newer != [] && 0 < size <= |s.b| <= s.top + size
    ensures
      var (b, top, distance) := Turned(s, size);
      var t := TurnOver(r);
      && s.bottom < |b| && 0 <= Distance(t, |b|) && 0 <= distance && r.top < |b|
      && (r.older == [] ==> s.bottom == t.bottom && distance == Distance(t, |b|))
      && (r.older != [] ==>
            && r.top < s.bottom && t.bottom == 0
            && distance == 2 * |b| - s.bottom && Distance(t, |b|) == distance - (|b| - s.bottom))
  {
    hide InMemory, Store, Text;
  }

  /** A push shorter than the buffer does what the push on messages does. */
  lemma PushedIsPush(s: Raw, r: Ring, m: Message)
    requires Holds(s, r) && Proper(m) && |m| + 1 < |s.b|
    ensures Holds(Pushed(s, m), PushSpec(r, m, |s.b|))
  {
    hide Sound, RingFits, InMemory, Evict, Pushed, Proper, Text, Store;
    var size, cap := |m| + 1, |s.b|;
    HoldsSound(s, r);
    PushedSound(s, m);
    PushKeepsFits(r, m, cap);
    var t := if s.top + size >= cap then TurnOver(r) else r;
    PushedRoom(s, r, m, t);
    hide TurnOver;
    PushSpecIs(r, m, cap, t, Evict(t, size, cap));
  }

  /** What the pushed state is made of, in terms of the ring after eviction. */
  lemma PushedRoom(s: Raw, r: Ring, m: Message, t: Ring)
    requires Holds(s, r) && Proper(m) && |m| + 1 < |s.b|
    requires t == if s.top + |m| + 1 >= |s.b| then TurnOver(r) else r
    ensures
      var s', e := Pushed(s, m), Evict(t, |m| + 1, |s.b|);
      && e.top == t.top && s'.top == e.top + |m| + 1 && s'.bottom == e.bottom
      && s'.distance == Distance(e, |s.b|) + |m| + 1
      && InMemory(s'.b, e.(newer := e.newer + [m], top := e.top + |m| + 1))
  {
    hide Holds, Sound, Shaped, InMemory, Store, Evict, Evicted, Pushed, Proper, Scannable, Turned, TurnOver, Distance;
    var size, cap := |m| + 1, |s.b|;
    HoldsSound(s, r);
    TurnedRing(s, r, size, t);
    var b := Turned(s, size).0;
    EvictedIsEvict(b, size, t);
    EvictShaped(t, size, cap);
    MessageStored(b, Evict(t, size, cap), m);
    PushedIs(s, m);
  }

  lemma PushedIs(s: Raw, m: Message)
    requires Sound(s) && Proper(m) && |m| + 1 <= |s.b| && (|m| + 1 < |s.b| || s.top != 0)
    ensures
      var size := |m| + 1;
      var (b, top, distance) := Turned(s, size);
      && top + size <= |b| && 0 <= distance && (distance + size < |b| || Scannable(b))
      && Pushed(s, m) == Raw(Store(b, top, m + [0]), if top + size == |b| then 0 else top + size,
                             Evicted(b, size, s.bottom, distance).0, Evicted(b, size, s.bottom, distance).1 + size)
  {
    TurnedScans(s, |m| + 1);
    hide Store, Zeros, Evicted, Scannable;
  }

  /** Before the eviction loop, turned over or not. */
  lemma TurnedRing(s: Raw, r: Ring, size: nat, t: Ring)
    requires Holds(s, r) && 0 < size < |s.b| && t == if s.top + size >= |s.b| then TurnOver(r) else r
    ensures
      var (b, top, distance) := Turned(s, size);
      && top == t.top && top + size < |b| && Shaped(t, |b|) && InMemory(b, t) && 0 <= distance && 0 <= Distance(t, |b|)
      && (Distance(t, |b|) + size < |b| || Scannable(b)) && (distance + size < |b| || Scannable(b))
      && Evicted(b, size, s.bottom, distance) == Evicted(b, size, t.bottom, Distance(t, |b|))
  {
    TurnedScans(s, size);
    if s.top + size >= |s.b| {
      assert r.newer != [];
      TurnedIsTurnOver(s, r, size);
    } else {
      FitsShaped(r, |s.b|);
    }
  }

  lemma MessageStored(b: seq<byte>, e: Ring, m: Message)
    requires Shaped(e, |b|) && InMemory(b, e) && Proper(m)
    requires e.top + |m| + 1 < |b| && Distance(e, |b|) + |m| + 1 < |b|
    ensures InMemory(Store(b, e.top, m + [0]), e.(newer := e.newer + [m], top := e.top + |m| + 1))
  {
    hide InMemory;
    StoreMessage(b, e, m);
  }

  /** What a message that fills the buffer leaves alive: its own end, from where the
      last scan stopped. */
  function Remnant(m: Message, bottom: nat): Ring
    requires bottom <= |m|
  {
    if bottom == 0 then EMPTY else Ring([m[bottom..]], [], bottom, 0)
  }

  lemma {:induction false} DrainAll(b: seq<byte>, r: Ring)
    requires Scannable(b) && Shaped(r, |b|) && InMemory(b, r) && r.newer == [] && r.top == 0
    ensures 0 <= Distance(r, |b|) && Evicted(b, |b|, r.bottom, Distance(r, |b|)) == Evicted(b, |b|, 0, 0)
    decreases |r.older|
  {
    hide Shaped, InMemory, Scannable, NextAt, Travel, Distance;
    ShapedDistance(r, |b|);
    if r.older != [] {
      OldestScanned(b, r);
      DrainAll(b, DropOldest(r));
    } else {
      ShapedBottom(r, |b|);
      assert Distance(r, |b|) == 0;
    }
  }

  lemma ShapedBottom(r: Ring, cap: nat)
    requires Shaped(r, cap) && r.older == [] && r.newer == [] && r.top == 0
    ensures r.bottom == 0 && Distance(r, cap) == 0
  {
  }

  /** A message that fills the buffer, pushed on a ring in use: everything live is
      dropped, the scan goes on through what lies at the start of the buffer, and
      the message overwrites all of it. `top` is 0, and the reader will print the
      end of the message from `bottom` on, or nothing if the scan went round. */
  lemma FullPush(s: Raw, r: Ring, m: Message)
    requires Holds(s, r) && Proper(m) && |m| + 1 == |s.b| && s.top != 0
    ensures
      var s' := Pushed(s, m);
      var b := Turned(s, |s.b|).0;
      && s'.b == m + [0] && s'.top == 0
      && Scannable(b) && s'.bottom == NextAt(b, 0) && s'.bottom < |m|
      && s'.distance == (if s'.bottom == 0 then 0 else |s.b| - s'.bottom)
      && Holds(s', Remnant(m, s'.bottom))
      && Printed(Remnant(m, s'.bottom), |s.b|) == (if s'.bottom == 0 then [] else m[s'.bottom..] + [0])
  {
    var cap := |s.b|;
    var b := Turned(s, cap).0;
    PushedSound(s, m);
    FullEvicted(s, r);
    NextIsNotLast(b);
    StoreAll(b, m + [0]);
    RemnantHolds(m, NextAt(b, 0));
    PushedIs(s, m);
    hide *;
  }

  lemma FullEvicted(s: Raw, r: Ring)
    requires Holds(s, r) && s.top != 0
    ensures
      var (b, top, distance) := Turned(s, |s.b|);
      && top == 0 && Scannable(b) && 0 <= distance
      && Evicted(b, |b|, s.bottom, distance).0 == NextAt(b, 0)
      && Evicted(b, |b|, s.bottom, distance).1 == 0 - Travel(b, 0)
  {
    var (b, top, distance) := Turned(s, |s.b|);
    TurnedIsTurnOver(s, r, |s.b|);
    DrainAll(b, TurnOver(r));
    hide InMemory, Shaped, Scannable, NextAt, Travel;
    EmptyEvicted(b);
  }

  lemma EmptyEvicted(b: seq<byte>)
    requires Scannable(b)
    ensures Evicted(b, |b|, 0, 0).0 == NextAt(b, 0) && Evicted(b, |b|, 0, 0).1 == 0 - Travel(b, 0)
  {
  }

  lemma NextIsNotLast(b: seq<byte>)
    requires Scannable(b)
    ensures NextAt(b, 0) < |b| - 1
  {
  }

  lemma StoreAll(b: seq<byte>, data: seq<byte>)
    requires |data| == |b|
    ensures Store(b, 0, data) == data
  {
  }

  lemma RemnantHolds(m: Message, bottom: nat)
    requires Proper(m) && bottom < |m|
    ensures
      var r := Remnant(m, bottom);
      && RingFits(r, |m| + 1) && InMemory(m + [0], r)
      && r.top == 0 && r.bottom == bottom
      && Distance(r, |m| + 1) == (if bottom == 0 then 0 else |m| + 1 - bottom)
      && Printed(r, |m| + 1) == (if bottom == 0 then [] else m[bottom..] + [0])
  {
    var r := Remnant(m, bottom);
    if bottom > 0 {
      var end := m[bottom..];
      TextOne(end);
      assert (m + [0])[bottom..] == end + [0];
      assert Live(r) == [end];
      assert Text([]) == [];
    }
  }

  // ---------- runs ----------

  function Fresh(cap: nat): Raw {
    Raw(Zeros(cap), 0, 0, 0)
  }

  lemma FreshHolds(cap: nat)
    requires 0 < cap < CAP_LIMIT
    ensures Holds(Fresh(cap), EMPTY) && Unused(Fresh(cap))
  {
    assert Text([]) == [];
  }

  /** A push, or None when it never ends. */
  function Push(s: Raw, m: Message): (r: Option<Raw>)
    requires Sound(s) && 0 !in m
    ensures r.Some? ==> Sound(r.value) && |r.value.b| == |s.b|
  {
    if m == [] || |m| + 1 > |s.b| then Some(s)
    else if |m| + 1 == |s.b| && s.top == 0 then None
    else
      PushedSound(s, m);
      Some(Pushed(s, m))
  }

  lemma NoneIsForever(s: Raw, m: Message)
    requires Sound(s) && Proper(m) && |m| + 1 <= |s.b|
    ensures Push(s, m).None? <==> !PushEnds(s, |m| + 1)
  {
    hide Pushed, PushEnds, Sound;
    PushEndsIff(s, |m| + 1);
  }

  ghost predicate Accepted(ms: seq<Message>, cap: nat) {
    forall i :: 0 <= i < |ms| ==> Proper(ms[i]) && |ms[i]| + 1 <= cap
  }

  function PushAll(cap: nat, ms: seq<Message>): (r: Option<Raw>)
    requires 0 < cap < CAP_LIMIT && Accepted(ms, cap)
    ensures r.Some? ==> Sound(r.value) && |r.value.b| == cap
    decreases |ms|
  {
    if ms == [] then
      FreshHolds(cap);
      Some(Fresh(cap))
    else
      var last := |ms| - 1;
      match PushAll(cap, ms[..last])
      case None => None
      case Some(s) =>
        assert Proper(ms[last]);
        Push(s, ms[last])
  }

  ghost predicate Full(ms: seq<Message>, i: int, cap: nat) {
    0 <= i < |ms| && |ms[i]| + 1 == cap
  }

  /** A message that fills the buffer comes first, or right behind another one. */
  ghost predicate Hopeless(ms: seq<Message>, cap: nat) {
    exists i :: Full(ms, i, cap) && (i == 0 || Full(ms, i - 1, cap))
  }

  /** Over every sequence of accepted messages: `top` is 0 only at the start and
      behind a message that fills the buffer, so a run goes on for ever exactly
      when one of those comes first or right behind another. */
  lemma {:induction false} RunEndsIff(cap: nat, ms: seq<Message>)
    requires 0 < cap < CAP_LIMIT && Accepted(ms, cap)
    ensures PushAll(cap, ms).None? <==> Hopeless(ms, cap)
    ensures PushAll(cap, ms).Some? ==> (PushAll(cap, ms).value.top == 0 <==> ms == [] || Full(ms, |ms| - 1, cap))
    decreases |ms|
  {
    hide Sound, Pushed;
    if ms != [] {
      var last := |ms| - 1;
      var less := ms[..last];
      RunEndsIff(cap, less);
      assert Proper(ms[last]);
      HopelessMore(ms, cap);
      if PushAll(cap, less).Some? {
        var s := PushAll(cap, less).value;
        if |ms[last]| + 1 < cap || s.top != 0 {
          PushedTop(s, ms[last]);
        }
      }
    }
  }

  /** The smallest such run: the first message ever fills the buffer. */
  lemma FirstFullNeverEnds(cap: nat) returns (m: Message)
    requires 1 < cap < CAP_LIMIT
    ensures Accepted([m], cap) && Sound(Fresh(cap))
    ensures PushAll(cap, [m]).None? && !PushEnds(Fresh(cap), |m| + 1)
  {
    m := seq(cap - 1, _ => 0x41);
    assert m[0] == 0x41 && Proper(m);
    FreshHolds(cap);
    PushEndsIff(Fresh(cap), cap);
    assert Full([m], 0, cap);
    RunEndsIff(cap, [m]);
  }

  lemma HopelessMore(ms: seq<Message>, cap: nat)
    requires ms != []
    ensures
      var last := |ms| - 1;
      Hopeless(ms, cap) <==>
        Hopeless(ms[..last], cap) || (Full(ms, last, cap) && (last == 0 || Full(ms, last - 1, cap)))
    ensures |ms| > 1 ==> (Full(ms[..|ms| - 1], |ms| - 2, cap) <==> Full(ms, |ms| - 2, cap))
  {
    var last := |ms| - 1;
    var less := ms[..last];
    assert forall i :: i < last ==> (Full(less, i, cap) <==> Full(ms, i, cap));
  }

  lemma PushedTop(s: Raw, m: Message)
    requires Sound(s) && Proper(m) && |m| + 1 <= |s.b| && (|m| + 1 < |s.b| || s.top != 0)
    ensures Pushed(s, m).top == 0 <==> |m| + 1 == |s.b|
  {
    TurnedScans(s, |m| + 1);
    hide Evicted, Store, Zeros, Scannable;
  }

  /** `live` is the messages from the n-th on; of a first one that fills the buffer
      only the end may be left. */
  ghost predicate EndOf(live: seq<Message>, ms: seq<Message>, n: nat, cap: nat) {
    && n <= |ms| && |live| == |ms| - n
    && forall i :: 0 <= i < |live| ==>
         live[i] == ms[n + i] || (i == 0 && Full(ms, n, cap) && IsEnd(live[0], ms[n]))
  }

  ghost predicate IsEnd(end: Message, m: Message) {
    exists k :: 0 < k < |m| && end == m[k..]
  }

  /** After every run that ends, the ring holds the last messages pushed, in order:
      whole, but for a first one that filled the buffer and overwrote itself. The
      newest message is there in full if and only if it is shorter than the buffer. */
  lemma {:induction false} RunsKeepTheNewest(cap: nat, ms: seq<Message>) returns (r: Ring, n: nat)
    requires 0 < cap < CAP_LIMIT && Accepted(ms, cap) && PushAll(cap, ms).Some?
    ensures Holds(PushAll(cap, ms).value, r) && EndOf(Live(r), ms, n, cap)
    ensures ms != [] ==>
      (Live(r) != [] && Live(r)[|Live(r)| - 1] == ms[|ms| - 1] <==> |ms[|ms| - 1]| + 1 < cap)
    decreases |ms|
  {
    hide Holds, Sound, Pushed, RingFits, PushSpec, Remnant, Printed;
    if ms == [] {
      FreshHolds(cap);
      r, n := EMPTY, 0;
    } else {
      var last := |ms| - 1;
      var less, m := ms[..last], ms[last];
      assert Proper(m);
      var s := PushAll(cap, less).value;
      var q, k := RunsKeepTheNewest(cap, less);
      if |m| + 1 < cap {
        var d := PushKeepsASuffix(q, m, cap);
        PushedIsPush(s, q, m);
        r, n := PushSpec(q, m, cap), k + d;
        EndMore(Live(q), less, m, k, d, cap);
      } else {
        FullPush(s, q, m);
        var bottom := Pushed(s, m).bottom;
        r := Remnant(m, bottom);
        n := if bottom == 0 then |ms| else last;
        RemnantEnds(ms, bottom, cap);
      }
    }
  }

  lemma EndMore(live: seq<Message>, less: seq<Message>, m: Message, n: nat, d: nat, cap: nat)
    requires EndOf(live, less, n, cap) && d <= |live|
    ensures EndOf(live[d..] + [m], less + [m], n + d, cap)
  {
    var live', ms := live[d..] + [m], less + [m];
    forall i | 0 <= i < |live'|
      ensures live'[i] == ms[n + d + i] || (i == 0 && Full(ms, n + d, cap) && IsEnd(live'[0], ms[n + d]))
    {
      if i < |live| - d {
        assert live'[i] == live[d + i] && ms[n + d + i] == less[n + (d + i)];
      }
    }
  }

  lemma RemnantEnds(ms: seq<Message>, bottom: nat, cap: nat)
    requires ms != [] && bottom < |ms[|ms| - 1]| && Full(ms, |ms| - 1, cap)
    ensures
      var live := Live(Remnant(ms[|ms| - 1], bottom));
      && EndOf(live, ms, if bottom == 0 then |ms| else |ms| - 1, cap)
      && ms[|ms| - 1] !in live
  {
    var m := ms[|ms| - 1];
    if bottom > 0 {
      assert IsEnd(m[bottom..], m);
      assert Live(Remnant(m, bottom)) == [m[bottom..]];
      assert |m[bottom..]| < |m|;
    }
  }

  // ---------- the program ----------

  class MessageRing {
    const buffer: array<byte>
    var top: int
    var bottom: int
    var distance: int
    /** The live messages and where they lie. */
    ghost var ring: Ring

    ghost function Now(): Raw
      requires 0 <= top && 0 <= bottom
      reads this, buffer
    {
      Raw(buffer[..], top, bottom, distance)
    }

    ghost predicate Valid()
      reads this, buffer
    {
      0 <= top && 0 <= bottom && Holds(Now(), ring)
    }

    constructor (capacity: nat)
      requires 0 < capacity < CAP_LIMIT
      ensures Valid() && buffer.Length == capacity && Now() == Fresh(capacity)
    {
      buffer := new byte[capacity](_ => 0);
      top, bottom, distance := 0, 0, 0;
      ring := EMPTY;
      new;
      FreshHolds(capacity);
      assert buffer[..] == Zeros(capacity);
    }

    /** From the message at `at` to the next one, and how far that is, going round. */
    method SkipOldest(at: nat) returns (next: nat, travel: nat)
      requires at < buffer.Length && Scannable(buffer[..])
      ensures next == NextAt(buffer[..], at) && travel == Travel(buffer[..], at)
    {
      hide StrEnd, NonZero;
      ghost var b := buffer[..];
      var cap := buffer.Length;
      assert b[cap - 1] == 0 && b[0] != 0;
      ghost var e := StrEnd(b, at, 0) + 1;
      travel := StrEnd(buffer[..], at, 0) - at + 1;
      next := (at + travel) % cap;
      Round(at + travel - 1, cap);
      while buffer[next] == 0
        invariant next < cap && at < at + travel <= cap
        invariant e <= at + travel && next == if at + travel == cap then 0 else at + travel
        invariant forall j :: e <= j < at + travel ==> b[j] == 0
        decreases cap - travel
      {
        Round(next, cap);
        next := (next + 1) % cap;
        travel := travel + 1;
      }
      NonZeroIs(b, e, at + travel);
    }

    /** The nested eviction loops. */
    method MakeRoom(size: nat, from: nat, length: int) returns (to: nat, left: int)
      requires from < buffer.Length && size <= buffer.Length < CAP_LIMIT && 0 <= length + size < U64
      requires length + size < buffer.Length || Scannable(buffer[..])
      ensures (to, left) == Evicted(buffer[..], size, from, length)
    {
      hide StrEnd, NonZero, Scannable, NextAt, Travel;
      to, left := from, length;
      while Unsigned(left + size) >= buffer.Length
        invariant to < buffer.Length && 0 <= left + size < U64
        invariant left + size < buffer.Length || Scannable(buffer[..])
        invariant Evicted(buffer[..], size, to, left) == Evicted(buffer[..], size, from, length)
        decreases left + size
      {
        var next, travel := SkipOldest(to);
        to := next;
        left := left - travel;
      }
    }

    /** Continue at the start of the buffer when the message does not fit behind
        `top`, filling the rest with zero bytes. */
    method TurnIfNeeded(size: nat) returns (at: nat, length: int)
      requires 0 <= top < buffer.Length && 0 <= bottom
      modifies buffer
      ensures (buffer[..], at, length) == Turned(old(Now()), size)
    {
      hide Store;
      at, length := top, distance;
      if at + size >= buffer.Length {
        ghost var b := buffer[..];
        forall i | at <= i < buffer.Length {
          buffer[i] := 0;
        }
        ZeroFill(b, buffer[..], at);
        length := length + (buffer.Length - at);
        at := 0;
      }
    }

    /** Copy the message and its NUL to `at`. */
    method CopyMessage(at: nat, msg: Message)
      requires at + |msg| + 1 <= buffer.Length
      modifies buffer
      ensures buffer[..] == Store(old(buffer[..]), at, msg + [0])
    {
      ghost var b := buffer[..];
      var data := msg + [0];
      forall i | 0 <= i < |data| {
        buffer[at + i] := data[i];
      }
      StoreFill(b, buffer[..], at, data);
    }

    /** Push a NUL-free string. `size` is its length plus one, or more than the
        buffer holds when the formatter had to cut the string off. The last
        precondition shuts out exactly the pushes that never end: see PushEndsIff. */
    method StrPush(msg: Message, size: nat)
      requires Valid() && 0 !in msg && (size == |msg| + 1 || size > buffer.Length)
      requires msg == [] || size != buffer.Length || top != 0
      modifies this, buffer
      ensures Valid()
      ensures
        if msg == [] || size > buffer.Length then
          Now() == old(Now()) && ring == old(ring)
        else
          && Some(Now()) == Push(old(Now()), msg)
          && ring == if size < buffer.Length then PushSpec(old(ring), msg, buffer.Length) else Remnant(msg, bottom)
    {
      hide Store, Evicted, Turned, Holds, Scannable, PushSpec, Sound, RingFits, Remnant, Proper;
      if msg == [] || size > buffer.Length {
        return;
      }
      ghost var s := Now();
      assert Proper(msg) by { ProperIs(msg); }
      HoldsSound(s, ring);
      assert size <= |s.b| && (size < |s.b| || s.top != 0);
      TurnedScans(s, size);
      PushedSound(s, msg);
      var at, length := TurnIfNeeded(size);
      var from;
      from, length := MakeRoom(size, bottom, length);
      CopyMessage(at, msg);
      length := length + size;
      Round(at + size - 1, buffer.Length);
      at := (at + size) % buffer.Length;
      top := at;
      bottom := from;
      distance := length;
      assert Now() == Pushed(s, msg);
      if size < buffer.Length {
        PushedIsPush(s, ring, msg);
        ring := PushSpec(ring, msg, buffer.Length);
      } else {
        FullPush(s, ring, msg);
        ring := Remnant(msg, bottom);
      }
    }

    /** The reader: the live messages, oldest first, each with its NUL, and the
        padding between the two blocks. */
    method Print() returns (out: seq<byte>)
      requires Valid()
      ensures OlderFits(ring, buffer.Length) && out == Printed(ring, buffer.Length)
    {
      hide InMemory, Text, AllProper;
      WindowIsText(buffer[..], ring);
      var at, left := bottom, distance;
      out := [];
      while left > 0
        invariant 0 <= left && 0 <= at < buffer.Length
        invariant out + Window(buffer[..], at, left) == Window(buffer[..], bottom, distance)
      {
        assert out + ([buffer[at]] + Window(buffer[..], Following(at, buffer.Length), left - 1))
            == (out + [buffer[at]]) + Window(buffer[..], Following(at, buffer.Length), left - 1);
        out := out + [buffer[at]];
        at := (at + 1) % buffer.Length;
        left := left - 1;
      }
      assert out + [] == out;
    }
  }

  lemma HoldsSound(s: Raw, r: Ring)
    requires Holds(s, r)
    ensures Sound(s) && 0 < |s.b| < CAP_LIMIT && s.top < |s.b| && s.bottom < |s.b| && 0 <= s.distance < |s.b|
  {
  }

  lemma ProperIs(m: Message)
    requires m != [] && 0 !in m
    ensures Proper(m)
  {
  }

  lemma ZeroFill(b: seq<byte>, b': seq<byte>, at: nat)
    requires at <= |b| == |b'|
    requires forall i :: 0 <= i < |b| ==> b'[i] == if i < at then b[i] else 0
    ensures b' == Store(b, at, Zeros(|b| - at))
  {
  }

  lemma StoreFill(b: seq<byte>, b': seq<byte>, at: nat, data: seq<byte>)
    requires |b| == |b'| && at + |data| <= |b|
    requires forall i :: 0 <= i < |b| ==> b'[i] == if at <= i < at + |data| then data[i - at] else b[i]
    ensures b' == Store(b, at, data)
  {
  }
}
