/** The producer-consumer queue of the tools: one producer thread, one consumer
    thread, two semaphores and no lock, interleaved statement by statement. */
module PcQueue {
  import opened Bytes

  /** Next statement of each thread. */
  datatype Producer<T> =
    | Outside             // not in enqueue
    | WaitFull(e: T)      // sem_wait(&full)
    | StoreElem(e: T)     // elem[head] = e
    | Advance             // head++
    | Wrap                // if head >= n then head = 0
    | PostEmpty           // sem_post(&empty)

  datatype Consumer<T> =
    | Away                // not in dequeue
    | WaitEmpty           // sem_wait(&empty)
    | LoadElem            // x = elem[tail]
    | AdvanceTail(x: T)   // tail++
    | WrapTail(x: T)      // if tail >= n then tail = 0
    | PostFull(x: T)      // sem_post(&full)

  /** Shared variables, the two program counters, and the elements stored and
      loaded so far, in order. */
  datatype Sys<T> = Sys(
    n: nat, head: nat, tail: nat, empty: nat, full: nat, elem: seq<Option<T>>,
    p: Producer<T>, c: Consumer<T>, sent: seq<T>, got: seq<T>)

  function Start<T>(n: nat): Sys<T> {
    Sys(n, 0, 0, 0, n, seq(n, _ => None), Outside, Away, [], [])
  }

  /** Which thread the scheduler runs. A call is made by a thread outside the
      queue's functions; a signal makes a pending sem_wait return an error. */
  datatype Turn<T> =
    | CallEnqueue(e: T)
    | CallDequeue
    | ProducerRuns
    | ConsumerRuns
    | ProducerSignal
    | ConsumerSignal

  predicate ProducerBlocked<T>(s: Sys<T>) {
    s.p.WaitFull? && s.full == 0
  }

  predicate ConsumerBlocked<T>(s: Sys<T>) {
    s.c.WaitEmpty? && s.empty == 0
  }

  function ProducerStep<T>(s: Sys<T>): Sys<T> {
    match s.p
    case Outside => s
    case WaitFull(e) => if s.full == 0 then s else s.(full := s.full - 1, p := StoreElem(e))
    case StoreElem(e) =>
      if s.head < |s.elem| then s.(elem := s.elem[s.head := Some(e)], sent := s.sent + [e], p := Advance)
      else s
    case Advance => s.(head := s.head + 1, p := Wrap)
    case Wrap => s.(head := if s.head >= s.n then 0 else s.head, p := PostEmpty)
    case PostEmpty => s.(empty := s.empty + 1, p := Outside)
  }

  function ConsumerStep<T>(s: Sys<T>): Sys<T> {
    match s.c
    case Away => s
    case WaitEmpty => if s.empty == 0 then s else s.(empty := s.empty - 1, c := LoadElem)
    case LoadElem =>
      if s.tail < |s.elem| && s.elem[s.tail].Some? then
        s.(got := s.got + [s.elem[s.tail].value], c := AdvanceTail(s.elem[s.tail].value))
      else s
    case AdvanceTail(x) => s.(tail := s.tail + 1, c := WrapTail(x))
    case WrapTail(x) => s.(tail := if s.tail >= s.n then 0 else s.tail, c := PostFull(x))
    case PostFull(x) => s.(full := s.full + 1, c := Away)
  }

  function Step<T>(s: Sys<T>, t: Turn<T>): Sys<T> {
    match t
    case CallEnqueue(e) => if s.p.Outside? then s.(p := WaitFull(e)) else s
    case CallDequeue => if s.c.Away? then s.(c := WaitEmpty) else s
    case ProducerRuns => ProducerStep(s)
    case ConsumerRuns => ConsumerStep(s)
    case ProducerSignal => if s.p.WaitFull? then s.(p := Outside) else s
    case ConsumerSignal => if s.c.WaitEmpty? then s.(c := Away) else s
  }

  function Run<T>(s: Sys<T>, turns: seq<Turn<T>>): Sys<T>
    decreases |turns|
  {
    if turns == [] then s else Run(Step(s, turns[0]), turns[1..])
  }

  // ---------- slots ----------

  /** The slot of the k-th element. */
  function Slot(k: nat, n: nat): (i: nat)
    ensures n > 0 ==> i < n
  {
    if k == 0 then 0
    else
      var i := Slot(k - 1, n) + 1;
      if i >= n then 0 else i
  }

  lemma {:induction false} SlotAhead(k: nat, d: nat, n: nat)
    requires d < n
    ensures Slot(k + d, n) == if Slot(k, n) + d < n then Slot(k, n) + d else Slot(k, n) + d - n
    decreases d
  {
    if d > 0 {
      SlotAhead(k, d - 1, n);
    }
  }

  /** Fewer than n elements apart, slots differ. */
  lemma SlotsDiffer(a: nat, b: nat, n: nat)
    requires a < b < a + n
    ensures Slot(a, n) != Slot(b, n)
  {
    SlotAhead(a, b - a, n);
  }

  // ---------- the invariant ----------

  /** A thread between its wait and its post. */
  predicate Producing<T>(p: Producer<T>) {
    !p.Outside? && !p.WaitFull?
  }

  predicate Consuming<T>(c: Consumer<T>) {
    !c.Away? && !c.WaitEmpty?
  }

  function One(b: bool): nat {
    if b then 1 else 0
  }

  /** Semaphores and operations in flight always add up to n. */
  ghost predicate Conserved<T>(s: Sys<T>) {
    s.full + s.empty + One(Producing(s.p)) + One(Consuming(s.c)) == s.n
  }

  ghost predicate Counted<T>(s: Sys<T>) {
    && |s.sent| + One(s.p.StoreElem?) == |s.got| + One(s.c.LoadElem?) + s.empty + One(Producing(s.p))
  }

  ghost predicate HeadRight<T>(s: Sys<T>) {
    match s.p
    case Advance => |s.sent| > 0 && s.head == Slot(|s.sent| - 1, s.n)
    case Wrap => |s.sent| > 0 && s.head == Slot(|s.sent| - 1, s.n) + 1
    case _ => s.head == Slot(|s.sent|, s.n)
  }

  ghost predicate TailRight<T>(s: Sys<T>) {
    match s.c
    case AdvanceTail(_) => |s.got| > 0 && s.tail == Slot(|s.got| - 1, s.n)
    case WrapTail(_) => |s.got| > 0 && s.tail == Slot(|s.got| - 1, s.n) + 1
    case _ => s.tail == Slot(|s.got|, s.n)
  }

  /** The element a dequeue in flight returns is the last one loaded. */
  ghost predicate ReturnRight<T>(s: Sys<T>) {
    match s.c
    case AdvanceTail(x) => |s.got| > 0 && x == s.got[|s.got| - 1]
    case WrapTail(x) => |s.got| > 0 && x == s.got[|s.got| - 1]
    case PostFull(x) => |s.got| > 0 && x == s.got[|s.got| - 1]
    case _ => true
  }

  /** What has been stored and not yet loaded is in its slot. */
  ghost predicate Stored<T>(s: Sys<T>) {
    && |s.elem| == s.n
    && |s.got| <= |s.sent| <= |s.got| + s.n
    && s.got == s.sent[..|s.got|]
    && forall k :: |s.got| <= k < |s.sent| ==> Holds(s, k)
  }

  ghost predicate Holds<T>(s: Sys<T>, k: nat)
    requires k < |s.sent|
  {
    Slot(k, s.n) < |s.elem| && s.elem[Slot(k, s.n)] == Some(s.sent[k])
  }

  ghost predicate Inv<T>(s: Sys<T>) {
    Conserved(s) && Counted(s) && HeadRight(s) && TailRight(s) && ReturnRight(s) && Stored(s)
  }

  /** Counters, positions and the value in flight: everything but the slots. */
  ghost predicate Bookkeeping<T>(s: Sys<T>) {
    Conserved(s) && Counted(s) && HeadRight(s) && TailRight(s) && ReturnRight(s)
  }

  lemma StoredSame<T>(s: Sys<T>, r: Sys<T>)
    requires Stored(s) && r.n == s.n && r.elem == s.elem && r.sent == s.sent && r.got == s.got
    ensures Stored(r)
  {
    assert forall k :: |s.got| <= k < |s.sent| && Holds(s, k) ==> Holds(r, k);
  }

  lemma StoreKeepsStored<T>(s: Sys<T>, e: T)
    requires Stored(s) && |s.sent| < |s.got| + s.n && s.head == Slot(|s.sent|, s.n)
    ensures s.head < |s.elem|
    ensures Stored(s.(elem := s.elem[s.head := Some(e)], sent := s.sent + [e], p := Advance))
  {
    hide Slot;
    var r := s.(elem := s.elem[s.head := Some(e)], sent := s.sent + [e], p := Advance);
    forall k | |r.got| <= k < |r.sent| ensures Holds(r, k) {
      if k < |s.sent| {
        assert Holds(s, k);
        SlotsDiffer(k, |s.sent|, s.n);
      }
    }
  }

  lemma LoadKeepsStored<T>(s: Sys<T>)
    requires Stored(s) && |s.got| < |s.sent| && s.tail == Slot(|s.got|, s.n)
    ensures s.tail < |s.elem| && s.elem[s.tail] == Some(s.sent[|s.got|])
    ensures
      var x := s.sent[|s.got|];
      Stored(s.(got := s.got + [x], c := AdvanceTail(x)))
  {
    hide Slot;
    assert Holds(s, |s.got|);
    var x := s.sent[|s.got|];
    var r := s.(got := s.got + [x], c := AdvanceTail(x));
    assert forall k :: |r.got| <= k < |s.sent| && Holds(s, k) ==> Holds(r, k);
  }

  lemma ProducerKeeps<T>(s: Sys<T>)
    requires Inv(s)
    ensures Inv(ProducerStep(s)) && ProducerStep(s).n == s.n
    ensures ProducerStep(s) == s ==> s.p.Outside? || ProducerBlocked(s)
  {
    var r := ProducerStep(s);
    assert Bookkeeping(s) && Stored(s);
    match s.p {
      case StoreElem(e) =>
        assert |s.sent| < |s.got| + s.n;
        assert s.head == Slot(|s.sent|, s.n);
        StoreKeepsStored(s, e);
        hide Stored;
        assert Bookkeeping(r);
      case _ =>
        StoredSame(s, r);
        hide Stored;
        assert Bookkeeping(r) by { ProducerBooks(s); }
    }
  }

  lemma ProducerBooks<T>(s: Sys<T>)
    requires Bookkeeping(s) && !s.p.StoreElem?
    ensures Bookkeeping(ProducerStep(s))
  {
    hide Conserved, Counted, HeadRight, TailRight, ReturnRight, ProducerStep;
    ProducerCounts(s);
    ProducerHead(s);
    ProducerSpares(s);
  }

  lemma ProducerCounts<T>(s: Sys<T>)
    requires Conserved(s) && Counted(s) && !s.p.StoreElem?
    ensures Conserved(ProducerStep(s)) && Counted(ProducerStep(s))
  {
  }

  lemma ProducerHead<T>(s: Sys<T>)
    requires HeadRight(s) && !s.p.StoreElem?
    ensures HeadRight(ProducerStep(s))
  {
  }

  lemma ProducerSpares<T>(s: Sys<T>)
    requires TailRight(s) && ReturnRight(s)
    ensures TailRight(ProducerStep(s)) && ReturnRight(ProducerStep(s))
  {
  }

  lemma ConsumerBooks<T>(s: Sys<T>)
    requires Bookkeeping(s) && !s.c.LoadElem?
    ensures Bookkeeping(ConsumerStep(s))
  {
    hide Conserved, Counted, HeadRight, TailRight, ReturnRight, ConsumerStep;
    ConsumerCounts(s);
    ConsumerTail(s);
    ConsumerSpares(s);
  }

  lemma ConsumerCounts<T>(s: Sys<T>)
    requires Conserved(s) && Counted(s) && !s.c.LoadElem?
    ensures Conserved(ConsumerStep(s)) && Counted(ConsumerStep(s))
  {
  }

  lemma ConsumerTail<T>(s: Sys<T>)
    requires TailRight(s) && ReturnRight(s) && !s.c.LoadElem?
    ensures TailRight(ConsumerStep(s)) && ReturnRight(ConsumerStep(s))
  {
  }

  lemma ConsumerSpares<T>(s: Sys<T>)
    requires HeadRight(s)
    ensures HeadRight(ConsumerStep(s))
  {
  }

  lemma ConsumerKeeps<T>(s: Sys<T>)
    requires Inv(s)
    ensures Inv(ConsumerStep(s)) && ConsumerStep(s).n == s.n
    ensures ConsumerStep(s) == s ==> s.c.Away? || ConsumerBlocked(s)
  {
    var r := ConsumerStep(s);
    assert Bookkeeping(s) && Stored(s);
    match s.c {
      case LoadElem =>
        assert |s.got| < |s.sent|;
        LoadKeepsStored(s);
        hide Stored;
        assert Bookkeeping(r);
      case _ =>
        StoredSame(s, r);
        hide Stored;
        assert Bookkeeping(r) by { ConsumerBooks(s); }
    }
  }

  lemma StepKeeps<T>(s: Sys<T>, t: Turn<T>)
    requires Inv(s)
    ensures Inv(Step(s, t)) && Step(s, t).n == s.n
  {
    match t {
      case ProducerRuns => ProducerKeeps(s);
      case ConsumerRuns => ConsumerKeeps(s);
      case _ =>
        StoredSame(s, Step(s, t));
        hide Stored, Slot;
    }
  }

  lemma {:induction false} RunKeeps<T>(s: Sys<T>, turns: seq<Turn<T>>)
    requires Inv(s)
    ensures Inv(Run(s, turns)) && Run(s, turns).n == s.n
    decreases |turns|
  {
    hide Inv;
    if turns != [] {
      StepKeeps(s, turns[0]);
      RunKeeps(Step(s, turns[0]), turns[1..]);
    }
  }

  lemma StartInv<T>(n: nat)
    ensures Inv(Start<T>(n))
  {
  }

  /** For every interleaving: what comes out is what went in, in order; a store
      and a load about to happen never concern the same slot; semaphores and
      operations in flight add up to n; every dequeue returns what it loaded. */
  lemma EveryInterleaving<T>(n: nat, turns: seq<Turn<T>>)
    ensures
      var s := Run(Start<T>(n), turns);
      && s.got <= s.sent && |s.sent| <= |s.got| + n
      && (s.p.StoreElem? && s.c.LoadElem? ==> s.head != s.tail)
      && (s.p.StoreElem? ==> s.head < n) && (s.c.LoadElem? ==> s.tail < |s.elem| == n && s.elem[s.tail].Some?)
      && s.full + s.empty + One(Producing(s.p)) + One(Consuming(s.c)) == n
      && (s.c.PostFull? ==> s.got != [] && s.c.x == s.got[|s.got| - 1])
  {
    StartInv<T>(n);
    RunKeeps(Start<T>(n), turns);
    var s := Run(Start<T>(n), turns);
    if s.c.LoadElem? {
      assert Holds(s, |s.got|);
      if s.p.StoreElem? {
        SlotsDiffer(|s.got|, |s.sent|, n);
      }
    }
  }

  lemma BlockedTogether<T>(s: Sys<T>)
    requires Conserved(s) && s.p.WaitFull? && s.c.WaitEmpty?
    ensures ProducerBlocked(s) && ConsumerBlocked(s) <==> s.n == 0
  {
  }

  lemma InvConserved<T>(s: Sys<T>)
    requires Inv(s)
    ensures Conserved(s)
  {
  }

  /** Two threads waiting in the queue's functions block each other exactly when
      the queue has no slots; outside their waits threads never stop. */
  lemma NeverBothBlocked<T>(n: nat, turns: seq<Turn<T>>)
    ensures
      var s := Run(Start<T>(n), turns);
      && (s.p.WaitFull? && s.c.WaitEmpty? ==> (ProducerBlocked(s) && ConsumerBlocked(s) <==> n == 0))
      && (ProducerStep(s) != s || s.p.Outside? || ProducerBlocked(s))
      && (ConsumerStep(s) != s || s.c.Away? || ConsumerBlocked(s))
  {
    StartInv<T>(n);
    hide *;
    RunKeeps(Start<T>(n), turns);
    var s := Run(Start<T>(n), turns);
    ProducerKeeps(s);
    ConsumerKeeps(s);
    InvConserved(s);
    assert s.n == n by { StartSize<T>(n); }
    if s.p.WaitFull? && s.c.WaitEmpty? {
      BlockedTogether(s);
    }
  }

  lemma StartSize<T>(n: nat)
    ensures Start<T>(n).n == n
  {
  }
}
