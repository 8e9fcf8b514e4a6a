/** The ring of messages the library leaves for the tool to print. */
module MsgQueue {
  import opened Bytes

  type Message = seq<byte>

  /** A message as it is pushed: not empty, no NUL inside. */
  ghost predicate Proper(m: Message) {
    m != [] && 0 !in m
  }

  ghost predicate AllProper(ms: seq<Message>) {
    forall i :: 0 <= i < |ms| ==> Proper(ms[i])
  }

  /** Messages in memory: each one followed by its NUL. */
  function Text(ms: seq<Message>): seq<byte> {
    if ms == [] then [] else ms[0] + [0] + Text(ms[1..])
  }

  lemma {:induction false} TextAppend(a: seq<Message>, b: seq<Message>)
    ensures Text(a + b) == Text(a) + Text(b)
  {
    if a == [] {
      assert a + b == b;
    } else {
      assert (a + b)[1..] == a[1..] + b;
      TextAppend(a[1..], b);
    }
  }

  lemma TextOne(m: Message)
    ensures Text([m]) == m + [0]
  {
    assert [m][1..] == [];
  }

  // ---------- the abstract ring ----------

  /** Live messages in two blocks: `older` ones up to the end of the buffer, with
      zero padding behind them, and `newer` ones at its start. Without `older`,
      `newer` begins at `bottom`. What a push of the size of the whole buffer
      leaves alive, the end of its own message, is an `older` block too. */
  datatype Ring = Ring(older: seq<Message>, newer: seq<Message>, bottom: nat, top: nat)

  const EMPTY := Ring([], [], 0, 0)

  function Live(r: Ring): seq<Message> {
    r.older + r.newer
  }

  /** Bytes between bottom and top, going round. */
  function Distance(r: Ring, cap: nat): int {
    if r.older == [] then r.top - r.bottom else cap - r.bottom + r.top
  }

  ghost predicate OlderFits(r: Ring, cap: nat) {
    r.older != [] ==> r.bottom + |Text(r.older)| <= cap
  }

  ghost predicate RingFits(r: Ring, cap: nat) {
    && AllProper(Live(r)) && OlderFits(r, cap)
    && (r.newer == [] ==> r.top == 0)
    && (r.newer != [] ==> 0 < r.top < cap)
    && (r.older == [] ==> r.top == r.bottom + |Text(r.newer)|)
    && (r.older != [] ==> |Text(r.newer)| == r.top < r.bottom)
  }

  function DropOldest(r: Ring): Ring
    requires r.older != []
  {
    if |r.older| == 1 then r.(older := [], bottom := 0)
    else r.(older := r.older[1..], bottom := r.bottom + |r.older[0]| + 1)
  }

  /** Drop the oldest messages until `size` more bytes leave the ring short of full. */
  function Evict(r: Ring, size: nat, cap: nat): Ring
    decreases |r.older|
  {
    if r.older == [] || Distance(r, cap) + size < cap then r
    else Evict(DropOldest(r), size, cap)
  }

  /** Continuing at the start of the buffer: the newer block becomes the older
      one, and an older block there was is overwritten by the padding. */
  function TurnOver(r: Ring): Ring {
    Ring(r.newer, [], if r.older == [] then r.bottom else 0, 0)
  }

  /** What pushing one accepted message does. */
  function PushSpec(r: Ring, m: Message, cap: nat): Ring {
    var size := |m| + 1;
    var turned := if r.top + size >= cap then TurnOver(r) else r;
    var e := Evict(turned, size, cap);
    Ring(e.older, e.newer + [m], e.bottom, e.top + size)
  }

  // ---------- what the abstract ring promises ----------

  function DropMany(r: Ring, n: nat): Ring
    requires n <= |r.older|
    decreases n
  {
    if n == 0 then r else DropMany(DropOldest(r), n - 1)
  }

  /** Eviction drops whole oldest messages, and none needlessly: with one fewer
      dropped the new message would not have fitted. */
  lemma {:induction false} EvictIsMinimal(r: Ring, size: nat, cap: nat) returns (n: nat)
    ensures n <= |r.older| && Evict(r, size, cap) == DropMany(r, n)
    ensures Live(Evict(r, size, cap)) == Live(r)[n..]
    ensures n < |r.older| ==> Distance(DropMany(r, n), cap) + size < cap
    ensures forall k :: 0 <= k < n ==> Distance(DropMany(r, k), cap) + size >= cap
    decreases |r.older|
  {
    if r.older == [] || Distance(r, cap) + size < cap {
      n := 0;
    } else {
      var m := EvictIsMinimal(DropOldest(r), size, cap);
      n := m + 1;
      assert Live(DropOldest(r)) == Live(r)[1..];
      forall k | 0 <= k < n ensures Distance(DropMany(r, k), cap) + size >= cap {
        if k > 0 {
          assert DropMany(r, k) == DropMany(DropOldest(r), k - 1);
        }
      }
    }
  }

  /** After a push the live messages are a suffix of the old ones, then the new one. */
  lemma PushKeepsASuffix(r: Ring, m: Message, cap: nat) returns (n: nat)
    ensures n <= |Live(r)|
    ensures Live(PushSpec(r, m, cap)) == Live(r)[n..] + [m]
  {
    var size := |m| + 1;
    if r.top + size >= cap {
      n := EvictIsMinimal(TurnOver(r), size, cap);
      assert Live(TurnOver(r)) == Live(r)[|r.older|..];
      n := n + |r.older|;
    } else {
      n := EvictIsMinimal(r, size, cap);
    }
  }

  lemma {:induction false} TextSize(ms: seq<Message>, i: nat)
    requires i < |ms|
    ensures |ms[i]| + 1 <= |Text(ms)|
  {
    if i > 0 {
      assert ms[1..][i - 1] == ms[i];
      TextSize(ms[1..], i - 1);
    }
  }

  /** A message whose bytes and NUL fill the buffer exactly cannot live in any
      ring; every proper shorter one can. */
  lemma LivesIffShorter(m: Message, cap: nat)
    requires Proper(m)
    ensures (exists r :: RingFits(r, cap) && m in Live(r)) <==> |m| + 1 < cap
  {
    if r :| RingFits(r, cap) && m in Live(r) {
      var i :| 0 <= i < |Live(r)| && Live(r)[i] == m;
      if i < |r.older| {
        TextSize(r.older, i);
      } else {
        TextSize(r.newer, i - |r.older|);
      }
    }
    if |m| + 1 < cap {
      var r := Ring([], [m], 0, |m| + 1);
      TextOne(m);
      assert Live(r) == [m];
      assert RingFits(r, cap) && m in Live(r);
    }
  }

  // ---------- the ring in memory ----------

  ghost predicate InMemory(b: seq<byte>, r: Ring) {
    if r.older == [] then
      r.bottom <= r.top <= |b| && b[r.bottom..r.top] == Text(r.newer)
    else
      && r.bottom + |Text(r.older)| <= |b| && r.top <= |b|
      && b[..r.top] == Text(r.newer)
      && b[r.bottom..] == Text(r.older) + Zeros(|b| - r.bottom - |Text(r.older)|)
  }

  /** The position behind `i`, going round. */
  function Following(i: nat, cap: nat): (j: nat)
    requires i < cap
    ensures j == if i + 1 == cap then 0 else i + 1
  {
    (i + 1) % cap
  }

  /** What the reader prints: `distance` bytes from `bottom` on, going round. */
  function Window(b: seq<byte>, bottom: nat, distance: nat): seq<byte>
    requires bottom < |b|
    decreases distance
  {
    if distance == 0 then []
    else [b[bottom]] + Window(b, Following(bottom, |b|), distance - 1)
  }

  lemma {:induction false} WindowStraight(b: seq<byte>, bottom: nat, distance: nat)
    requires bottom < |b| && bottom + distance <= |b|
    ensures Window(b, bottom, distance) == b[bottom..bottom + distance]
    decreases distance
  {
    if distance > 1 {
      WindowStraight(b, bottom + 1, distance - 1);
    }
  }

  lemma {:induction false} WindowRound(b: seq<byte>, bottom: nat, t: nat)
    requires bottom < |b| && t <= |b|
    ensures Window(b, bottom, |b| - bottom + t) == b[bottom..] + b[..t]
    decreases |b| - bottom
  {
    if bottom + 1 < |b| {
      WindowRound(b, bottom + 1, t);
      assert b[bottom..] == [b[bottom]] + b[bottom + 1..];
    } else {
      WindowStraight(b, 0, t);
      assert b[bottom..] == [b[bottom]];
    }
  }

  function Printed(r: Ring, cap: nat): seq<byte>
    requires OlderFits(r, cap)
  {
    if r.older == [] then Text(r.newer)
    else Text(r.older) + Zeros(cap - r.bottom - |Text(r.older)|) + Text(r.newer)
  }

  lemma WindowIsText(b: seq<byte>, r: Ring)
    requires RingFits(r, |b|) && InMemory(b, r) && 0 < |b|
    ensures r.bottom < |b| && Distance(r, |b|) >= 0
    ensures Window(b, r.bottom, Distance(r, |b|)) == Printed(r, |b|)
  {
    if r.older == [] {
      StraightIsText(b, r);
    } else {
      RoundIsText(b, r);
    }
  }

  lemma StraightIsText(b: seq<byte>, r: Ring)
    requires InMemory(b, r) && r.older == [] && r.bottom < |b|
    ensures r.bottom <= r.top && Window(b, r.bottom, r.top - r.bottom) == Text(r.newer)
  {
    hide Window, Text;
    WindowStraight(b, r.bottom, r.top - r.bottom);
  }

  lemma RoundIsText(b: seq<byte>, r: Ring)
    requires InMemory(b, r) && r.older != [] && OlderFits(r, |b|) && r.bottom < |b|
    ensures Window(b, r.bottom, |b| - r.bottom + r.top) == Printed(r, |b|)
  {
    hide Window, Text;
    WindowRound(b, r.bottom, r.top);
    var t := Text(r.older) + Zeros(|b| - r.bottom - |Text(r.older)|);
    assert b[r.bottom..] == t && b[..r.top] == Text(r.newer);
    assert Printed(r, |b|) == t + Text(r.newer);
  }

  lemma TailParts(b: seq<byte>, at: nat, m: Message, rest: seq<byte>)
    requires at <= |b| && b[at..] == m + [0] + rest && 0 !in m
    ensures
      var e := at + |m|;
      e < |b| && StrEnd(b, at, 0) == e && b[e] == 0 && b[e + 1..] == rest
  {
    var tail := b[at..];
    var e := at + |m|;
    assert |tail| == |m| + 1 + |rest|;
    assert b[e] == tail[|m|] == 0;
    assert forall j :: 0 <= j < |m| ==> b[at + j] == tail[j] == m[j];
    StrEndIs(b, at, e, 0);
    DropOfAppend(m + [0], rest, |m| + 1);
    SubSlice(b, at, |b|, |m| + 1, |tail|);
    assert (m + [0])[|m| + 1..] == [];
  }

  lemma OlderInMemory(b: seq<byte>, r: Ring)
    requires InMemory(b, r) && r.older != []
    ensures r.bottom + |Text(r.older)| <= |b|
    ensures b[r.bottom..] == Text(r.older) + Zeros(|b| - r.bottom - |Text(r.older)|)
  {
  }

  lemma DroppedInMemory(b: seq<byte>, r: Ring)
    requires InMemory(b, r) && r.older != []
    requires
      var e := r.bottom + |r.older[0]|;
      e < |b| && b[e + 1..] == Text(r.older[1..]) + Zeros(|b| - r.bottom - |Text(r.older)|)
    ensures InMemory(b, DropOldest(r))
  {
    var rest := r.older[1..];
    assert |Text(r.older)| == |r.older[0]| + 1 + |Text(rest)|;
    hide Text, Zeros;
    if |r.older| > 1 {
      var bottom := r.bottom + |r.older[0]| + 1;
      assert DropOldest(r) == r.(older := rest, bottom := bottom);
      assert |b| - bottom - |Text(rest)| == |b| - r.bottom - |Text(r.older)|;
      assert b[bottom..] == Text(rest) + Zeros(|b| - bottom - |Text(rest)|);
    }
  }

  /** At `at` lies a message with its NUL, and then `tail` to the end of the buffer. */
  ghost predicate MessageThen(b: seq<byte>, at: nat, m: Message, tail: seq<byte>) {
    var e := at + |m|;
    e < |b| && StrEnd(b, at, 0) == e && b[e] == 0 && b[e + 1..] == tail
  }

  lemma TailIs(b: seq<byte>, at: nat, m: Message, all: seq<byte>, tail: seq<byte>)
    requires at <= |b| && b[at..] == all && all == m + [0] + tail && Proper(m)
    ensures MessageThen(b, at, m, tail)
  {
    TailParts(b, at, m, tail);
  }

  lemma OldestParts(b: seq<byte>, r: Ring, pad: seq<byte>)
    requires InMemory(b, r) && r.older != [] && Proper(r.older[0])
    requires r.bottom + |Text(r.older)| <= |b| ==> pad == Zeros(|b| - r.bottom - |Text(r.older)|)
    ensures r.bottom + |Text(r.older)| <= |b|
    ensures MessageThen(b, r.bottom, r.older[0], Text(r.older[1..]) + pad)
  {
    hide *;
    OlderInMemory(b, r);
    TextTail(r.older, pad);
    TailIs(b, r.bottom, r.older[0], Text(r.older) + pad, Text(r.older[1..]) + pad);
  }

  lemma TextTail(ms: seq<Message>, pad: seq<byte>)
    requires ms != []
    ensures Text(ms) + pad == ms[0] + [0] + (Text(ms[1..]) + pad)
  {
  }

  lemma TextStart(ms: seq<Message>)
    requires ms != [] && Proper(ms[0])
    ensures Text(ms) != [] && Text(ms)[0] != 0
  {
  }

  lemma PaddingFollows(b: seq<byte>, at: nat, m: Message, n: nat)
    requires MessageThen(b, at, m, Zeros(n))
    ensures forall j :: at + |m| <= j < |b| ==> b[j] == 0
  {
    forall j | at + |m| < j < |b| ensures b[j] == 0 {
      assert b[j] == b[at + |m| + 1..][j - at - |m| - 1];
    }
  }

  lemma MessageFollows(b: seq<byte>, at: nat, m: Message, tail: seq<byte>)
    requires MessageThen(b, at, m, tail) && tail != [] && tail[0] != 0
    ensures at + |m| + 1 < |b| && b[at + |m| + 1] != 0
  {
    assert b[at + |m| + 1] == b[at + |m| + 1..][0];
  }

  /** The oldest message, as the scan of an eviction sees it. */
  lemma OldestInMemory(b: seq<byte>, r: Ring)
    requires InMemory(b, r) && r.older != [] && AllProper(r.older)
    ensures
      var e := r.bottom + |r.older[0]|;
      && e < |b| && StrEnd(b, r.bottom, 0) == e
      && (if |r.older| == 1 then forall j :: e <= j < |b| ==> b[j] == 0
          else e + 1 < |b| && b[e + 1] != 0)
    ensures InMemory(b, DropOldest(r))
  {
    hide Text, InMemory, StrEnd, Zeros, Proper;
    OlderInMemory(b, r);
    var rest, pad := r.older[1..], Zeros(|b| - r.bottom - |Text(r.older)|);
    OldestParts(b, r, pad);
    DroppedInMemory(b, r);
    if |r.older| == 1 {
      assert Text(rest) + pad == pad by { NoText(rest); }
      PaddingFollows(b, r.bottom, r.older[0], |pad|);
    } else {
      assert rest[0] == r.older[1];
      TextStart(rest);
      MessageFollows(b, r.bottom, r.older[0], Text(rest) + pad);
    }
  }

  lemma NoText(ms: seq<Message>)
    requires ms == []
    ensures Text(ms) == []
  {
  }

  lemma StoreKeeps(b: seq<byte>, at: nat, data: seq<byte>, r: Ring)
    requires InMemory(b, r) && at + |data| <= |b| && r.top <= at
    requires r.older == [] || at + |data| <= r.bottom
    ensures InMemory(Store(b, at, data), r)
  {
    hide Store, Text;
    if r.older == [] {
      StoreElsewhere(b, at, data, r.bottom, r.top);
    } else {
      StoreElsewhere(b, at, data, 0, r.top);
      StoreElsewhere(b, at, data, r.bottom, |b|);
      assert Store(b, at, data)[r.bottom..] == Store(b, at, data)[r.bottom..|b|];
      assert b[r.bottom..] == b[r.bottom..|b|];
    }
  }

  /** Writing the message at `top` adds it to the newer block. */
  lemma StoreMessage(b: seq<byte>, r: Ring, m: Message)
    requires InMemory(b, r) && Proper(m) && r.top + |m| + 1 < |b|
    requires r.older == [] || r.top + |m| + 1 < r.bottom
    ensures InMemory(Store(b, r.top, m + [0]), r.(newer := r.newer + [m], top := r.top + |m| + 1))
  {
    var data := m + [0];
    var b' := Store(b, r.top, data);
    StoreKeeps(b, r.top, data, r);
    StoreAt(b, r.top, data);
    TextAppend(r.newer, [m]);
    TextOne(m);
    hide Store, Text;
    var end := r.top + |data|;
    if r.older == [] {
      assert b'[r.bottom..end] == b'[r.bottom..r.top] + b'[r.top..end];
    } else {
      assert b'[..end] == b'[..r.top] + b'[r.top..end];
    }
  }

  /** Turning over: the rest of the buffer behind `top` becomes zero padding. */
  lemma TurnOverInMemory(b: seq<byte>, r: Ring)
    requires RingFits(r, |b|) && r.newer != [] && InMemory(b, r)
    ensures
      var b' := Store(b, r.top, Zeros(|b| - r.top));
      && InMemory(b', TurnOver(r)) && OlderFits(TurnOver(r), |b|)
      && b'[0] == b[0]
      && forall j :: r.top <= j < |b| ==> b'[j] == 0
  {
    var z := Zeros(|b| - r.top);
    var b' := Store(b, r.top, z);
    StoreAt(b, r.top, z);
    hide Store, Text;
    var from := if r.older == [] then r.bottom else 0;
    assert b'[from..r.top] == b[from..r.top] by {
      StoreElsewhere(b, r.top, z, from, r.top);
    }
    assert b[from..r.top] == Text(r.newer);
    assert b'[from..] == b'[from..r.top] + b'[r.top..];
    assert b'[r.top..] == z;
    assert Text([]) == [] by { EmptyText(); }
  }

  lemma EmptyText()
    ensures Text([]) == []
  {
  }

  lemma PushFits(e: Ring, m: Message, cap: nat)
    requires AllProper(Live(e)) && Proper(m) && OlderFits(e, cap)
    requires e.older == [] ==> e.top == e.bottom + |Text(e.newer)|
    requires e.older != [] ==> |Text(e.newer)| == e.top
    requires e.top + |m| + 1 < cap
    requires Distance(e, cap) + |m| + 1 < cap
    ensures RingFits(Ring(e.older, e.newer + [m], e.bottom, e.top + |m| + 1), cap)
  {
    TextAppend(e.newer, [m]);
    TextOne(m);
    hide Text;
    var r' := Ring(e.older, e.newer + [m], e.bottom, e.top + |m| + 1);
    assert Live(r') == Live(e) + [m];
  }

  /** What eviction keeps of the shape of a ring. */
  ghost predicate Shaped(r: Ring, cap: nat) {
    && AllProper(Live(r)) && OlderFits(r, cap)
    && (r.older == [] ==> r.top == r.bottom + |Text(r.newer)|)
    && (r.older != [] ==> |Text(r.newer)| == r.top)
    && r.bottom < cap && r.top < cap
  }

  lemma DropShaped(r: Ring, cap: nat)
    requires Shaped(r, cap) && r.older != []
    ensures Shaped(DropOldest(r), cap)
    ensures Distance(DropOldest(r), cap)
         == Distance(r, cap) - if |r.older| == 1 then cap - r.bottom else |r.older[0]| + 1
  {
    assert forall i :: 0 <= i < |Live(DropOldest(r))| ==> Live(DropOldest(r))[i] == Live(r)[i + 1];
    assert Text(r.older) == r.older[0] + [0] + Text(r.older[1..]);
  }

  lemma {:induction false} EvictShaped(r: Ring, size: nat, cap: nat)
    requires Shaped(r, cap) && r.top + size < cap
    ensures
      var e := Evict(r, size, cap);
      Shaped(e, cap) && e.top == r.top && e.newer == r.newer && Distance(e, cap) + size < cap
    decreases |r.older|
  {
    hide Shaped, Text;
    if r.older == [] {
      assert r.bottom >= 0;
    } else if Distance(r, cap) + size >= cap {
      DropShaped(r, cap);
      EvictShaped(DropOldest(r), size, cap);
    }
  }

  /** A push that fits keeps the ring a ring. */
  lemma PushKeepsFits(r: Ring, m: Message, cap: nat)
    requires RingFits(r, cap) && Proper(m) && |m| + 1 < cap
    ensures RingFits(PushSpec(r, m, cap), cap)
  {
    var size := |m| + 1;
    if r.top + size >= cap {
      TurnedShaped(r, cap);
      EvictShaped(TurnOver(r), size, cap);
      PushFits(Evict(TurnOver(r), size, cap), m, cap);
    } else {
      FitsShaped(r, cap);
      EvictShaped(r, size, cap);
      PushFits(Evict(r, size, cap), m, cap);
    }
  }

  lemma PushSpecIs(r: Ring, m: Message, cap: nat, turned: Ring, room: Ring)
    requires turned == if r.top + |m| + 1 >= cap then TurnOver(r) else r
    requires room == Evict(turned, |m| + 1, cap) && room.top == turned.top
    ensures PushSpec(r, m, cap) == Ring(room.older, room.newer + [m], room.bottom, room.top + |m| + 1)
  {
    hide Evict, TurnOver;
    if r.top + |m| + 1 >= cap {
      TurnOverTop(r);
    }
  }

  lemma TurnOverTop(r: Ring)
    ensures TurnOver(r).top == 0
  {
  }

  lemma FitsShaped(r: Ring, cap: nat)
    requires RingFits(r, cap) && cap > 0
    ensures Shaped(r, cap)
  {
  }

  lemma TurnedShaped(r: Ring, cap: nat)
    requires RingFits(r, cap) && r.newer != []
    ensures Shaped(TurnOver(r), cap)
  {
    var t := TurnOver(r);
    assert forall i :: 0 <= i < |Live(t)| ==> Live(t)[i] == Live(r)[i + |r.older|];
  }

  lemma OlderProper(r: Ring)
    requires AllProper(Live(r))
    ensures AllProper(r.older)
  {
    forall i | 0 <= i < |r.older| ensures Proper(r.older[i]) {
      assert Live(r)[i] == r.older[i];
    }
  }
}
