/** Calls on the producer-consumer queue run to their end and do their work: what
    an enqueue that is not interrupted leaves, and a dequeue. */
module PcProgress {
  import opened PcQueue

  // ---------- enqueue ----------

  /** Turns during one enqueue: no signal, and the thread does not call again. */
  ghost predicate DuringEnqueue<T>(turns: seq<Turn<T>>) {
    forall i :: 0 <= i < |turns| ==> !turns[i].ProducerSignal? && !turns[i].CallEnqueue?
  }

  /** The call that found `sent` and was given `e`: not stored yet, or stored once. */
  ghost predicate Enqueuing<T>(s: Sys<T>, sent: seq<T>, e: T) {
    match s.p
    case WaitFull(x) => x == e && s.sent == sent
    case StoreElem(x) => x == e && s.sent == sent
    case _ => s.sent == sent + [e]
  }

  lemma {:induction false} EnqueuingGoesOn<T>(s: Sys<T>, turns: seq<Turn<T>>, sent: seq<T>, e: T)
    requires Inv(s) && Enqueuing(s, sent, e) && DuringEnqueue(turns)
    ensures Enqueuing(Run(s, turns), sent, e)
    decreases |turns|
  {
    hide Inv;
    if turns != [] {
      StepKeeps(s, turns[0]);
      assert Enqueuing(Step(s, turns[0]), sent, e);
      assert forall i :: 0 <= i < |turns[1..]| ==> turns[1..][i] == turns[i + 1];
      EnqueuingGoesOn(Step(s, turns[0]), turns[1..], sent, e);
    }
  }

  /** In every interleaving: an enqueue that returns without having been interrupted
      has stored its element, once, behind those stored before. */
  lemma EnqueueStores<T>(n: nat, before: seq<Turn<T>>, turns: seq<Turn<T>>, e: T)
    requires Run(Start<T>(n), before).p == WaitFull(e) && DuringEnqueue(turns)
    ensures
      var s := Run(Start<T>(n), before);
      var t := Run(s, turns);
      t.p.Outside? ==> t.sent == s.sent + [e]
  {
    StartInv<T>(n);
    hide *;
    RunKeeps(Start<T>(n), before);
    var s := Run(Start<T>(n), before);
    assert Enqueuing(s, s.sent, e) by { Waiting(s, e); }
    EnqueuingGoesOn(s, turns, s.sent, e);
    Enqueued(Run(s, turns), s.sent, e);
  }

  lemma Waiting<T>(s: Sys<T>, e: T)
    requires s.p == WaitFull(e)
    ensures Enqueuing(s, s.sent, e)
  {
  }

  lemma Enqueued<T>(s: Sys<T>, sent: seq<T>, e: T)
    requires Enqueuing(s, sent, e)
    ensures s.p.Outside? ==> s.sent == sent + [e]
  {
  }

  /** Statements the producer still has to run. */
  function ProducerLeft<T>(p: Producer<T>): nat {
    match p
    case WaitFull(_) => 5
    case StoreElem(_) => 4
    case Advance => 3
    case Wrap => 2
    case PostEmpty => 1
    case Outside => 0
  }

  function ProducerTurns<T>(turns: seq<Turn<T>>): nat {
    if turns == [] then 0 else One(turns[0].ProducerRuns?) + ProducerTurns(turns[1..])
  }

  lemma ProducerStepCounts<T>(s: Sys<T>, t: Turn<T>)
    requires Inv(s) && (s.p.WaitFull? ==> s.full > 0) && !t.ProducerSignal? && !t.CallEnqueue?
    ensures
      var r := Step(s, t);
      && (r.p.WaitFull? ==> r.full > 0)
      && ProducerLeft(r.p) == if t.ProducerRuns? && !s.p.Outside? then ProducerLeft(s.p) - 1 else ProducerLeft(s.p)
  {
    if s.p.StoreElem? {
      StoreHasRoom(s);
    }
    hide Inv;
  }

  lemma StoreHasRoom<T>(s: Sys<T>)
    requires Inv(s) && s.p.StoreElem?
    ensures s.head < |s.elem|
  {
  }

  /** With a free slot the call ends as soon as its thread has had five turns, no
      matter what the consumer does meanwhile. */
  lemma {:induction false} EnqueueEnds<T>(s: Sys<T>, turns: seq<Turn<T>>)
    requires Inv(s) && (s.p.WaitFull? ==> s.full > 0) && DuringEnqueue(turns)
    ensures
      var left := ProducerLeft(s.p);
      ProducerLeft(Run(s, turns).p) == if ProducerTurns(turns) <= left then left - ProducerTurns(turns) else 0
    decreases |turns|
  {
    hide Inv;
    if turns != [] {
      StepKeeps(s, turns[0]);
      ProducerStepCounts(s, turns[0]);
      assert forall i :: 0 <= i < |turns[1..]| ==> turns[1..][i] == turns[i + 1];
      EnqueueEnds(Step(s, turns[0]), turns[1..]);
    }
  }

  lemma EnqueueCompletes<T>(n: nat, before: seq<Turn<T>>, turns: seq<Turn<T>>, e: T)
    requires Run(Start<T>(n), before).p == WaitFull(e) && Run(Start<T>(n), before).full > 0 && DuringEnqueue(turns)
    ensures
      var s := Run(Start<T>(n), before);
      var t := Run(s, turns);
      && (t.p.Outside? <==> ProducerTurns(turns) >= 5)
      && (ProducerTurns(turns) >= 5 ==> t.sent == s.sent + [e])
  {
    StartInv<T>(n);
    hide Inv;
    RunKeeps(Start<T>(n), before);
    EnqueueEnds(Run(Start<T>(n), before), turns);
    EnqueueStores(n, before, turns, e);
  }

  /** Only a signal makes a call return with nothing stored. */
  lemma UnstoredMeansSignal<T>(n: nat, before: seq<Turn<T>>, turns: seq<Turn<T>>, e: T)
    requires Run(Start<T>(n), before).p == WaitFull(e)
    requires forall i :: 0 <= i < |turns| ==> !turns[i].CallEnqueue?
    requires Run(Run(Start<T>(n), before), turns).p.Outside?
    requires Run(Run(Start<T>(n), before), turns).sent == Run(Start<T>(n), before).sent
    ensures exists i :: 0 <= i < |turns| && turns[i].ProducerSignal?
  {
    if DuringEnqueue(turns) {
      EnqueueStores(n, before, turns, e);
    }
  }

  // ---------- dequeue ----------

  ghost predicate DuringDequeue<T>(turns: seq<Turn<T>>) {
    forall i :: 0 <= i < |turns| ==> !turns[i].ConsumerSignal? && !turns[i].CallDequeue?
  }

  /** The call that found `got`: nothing taken yet, or the element it will return. */
  ghost predicate Dequeuing<T>(s: Sys<T>, got: seq<T>) {
    match s.c
    case WaitEmpty => s.got == got
    case LoadElem => s.got == got
    case AdvanceTail(x) => s.got == got + [x]
    case WrapTail(x) => s.got == got + [x]
    case PostFull(x) => s.got == got + [x]
    case Away => |s.got| == |got| + 1 && got <= s.got
  }

  lemma {:induction false} DequeuingGoesOn<T>(s: Sys<T>, turns: seq<Turn<T>>, got: seq<T>)
    requires Inv(s) && Dequeuing(s, got) && DuringDequeue(turns)
    ensures Dequeuing(Run(s, turns), got)
    decreases |turns|
  {
    hide Inv;
    if turns != [] {
      StepKeeps(s, turns[0]);
      assert Dequeuing(Step(s, turns[0]), got);
      assert forall i :: 0 <= i < |turns[1..]| ==> turns[1..][i] == turns[i + 1];
      DequeuingGoesOn(Step(s, turns[0]), turns[1..], got);
    }
  }

  /** In every interleaving: a dequeue that returns without having been interrupted
      has taken one element, the next in the order of storing, and it is the one it
      returns. */
  lemma DequeueTakes<T>(n: nat, before: seq<Turn<T>>, turns: seq<Turn<T>>)
    requires Run(Start<T>(n), before).c == WaitEmpty && DuringDequeue(turns)
    ensures
      var s := Run(Start<T>(n), before);
      var t := Run(s, turns);
      && (t.c.PostFull? ==> t.got == s.got + [t.c.x])
      && (t.c.Away? ==> |s.got| < |t.sent| && t.got == s.got + [t.sent[|s.got|]])
  {
    StartInv<T>(n);
    RunKeeps(Start<T>(n), before);
    var s := Run(Start<T>(n), before);
    RunKeeps(s, turns);
    var t := Run(s, turns);
    GotOfSent(t);
    hide Inv, Run;
    DequeuingGoesOn(s, turns, s.got);
    if t.c.Away? {
      assert t.got == t.got[..|s.got|] + [t.got[|s.got|]];
    }
  }

  lemma GotOfSent<T>(s: Sys<T>)
    requires Inv(s)
    ensures s.got <= s.sent
  {
  }

  function ConsumerLeft<T>(c: Consumer<T>): nat {
    match c
    case WaitEmpty => 5
    case LoadElem => 4
    case AdvanceTail(_) => 3
    case WrapTail(_) => 2
    case PostFull(_) => 1
    case Away => 0
  }

  function ConsumerTurns<T>(turns: seq<Turn<T>>): nat {
    if turns == [] then 0 else One(turns[0].ConsumerRuns?) + ConsumerTurns(turns[1..])
  }

  lemma ConsumerStepCounts<T>(s: Sys<T>, t: Turn<T>)
    requires Inv(s) && (s.c.WaitEmpty? ==> s.empty > 0) && !t.ConsumerSignal? && !t.CallDequeue?
    ensures
      var r := Step(s, t);
      && (r.c.WaitEmpty? ==> r.empty > 0)
      && ConsumerLeft(r.c) == if t.ConsumerRuns? && !s.c.Away? then ConsumerLeft(s.c) - 1 else ConsumerLeft(s.c)
  {
    if s.c.LoadElem? {
      LoadHasElement(s);
    }
    hide Inv;
  }

  lemma LoadHasElement<T>(s: Sys<T>)
    requires Inv(s) && s.c.LoadElem?
    ensures s.tail < |s.elem| && s.elem[s.tail].Some?
  {
    assert Holds(s, |s.got|);
  }

  lemma {:induction false} DequeueEnds<T>(s: Sys<T>, turns: seq<Turn<T>>)
    requires Inv(s) && (s.c.WaitEmpty? ==> s.empty > 0) && DuringDequeue(turns)
    ensures
      var left := ConsumerLeft(s.c);
      ConsumerLeft(Run(s, turns).c) == if ConsumerTurns(turns) <= left then left - ConsumerTurns(turns) else 0
    decreases |turns|
  {
    hide Inv;
    if turns != [] {
      StepKeeps(s, turns[0]);
      ConsumerStepCounts(s, turns[0]);
      assert forall i :: 0 <= i < |turns[1..]| ==> turns[1..][i] == turns[i + 1];
      DequeueEnds(Step(s, turns[0]), turns[1..]);
    }
  }

  /** With an element stored, a dequeue ends as soon as its thread has had five turns. */
  lemma DequeueCompletes<T>(n: nat, before: seq<Turn<T>>, turns: seq<Turn<T>>)
    requires Run(Start<T>(n), before).c == WaitEmpty && Run(Start<T>(n), before).empty > 0 && DuringDequeue(turns)
    ensures
      var s := Run(Start<T>(n), before);
      var t := Run(s, turns);
      && (t.c.Away? <==> ConsumerTurns(turns) >= 5)
      && (ConsumerTurns(turns) >= 5 ==> |s.got| < |t.sent| && t.got == s.got + [t.sent[|s.got|]])
  {
    StartInv<T>(n);
    hide Inv;
    RunKeeps(Start<T>(n), before);
    DequeueEnds(Run(Start<T>(n), before), turns);
    DequeueTakes(n, before, turns);
  }

  /** Only a signal makes a dequeue return with nothing taken. */
  lemma UntakenMeansSignal<T>(n: nat, before: seq<Turn<T>>, turns: seq<Turn<T>>)
    requires Run(Start<T>(n), before).c == WaitEmpty
    requires forall i :: 0 <= i < |turns| ==> !turns[i].CallDequeue?
    requires Run(Run(Start<T>(n), before), turns).c.Away?
    requires Run(Run(Start<T>(n), before), turns).got == Run(Start<T>(n), before).got
    ensures exists i :: 0 <= i < |turns| && turns[i].ConsumerSignal?
  {
    if DuringDequeue(turns) {
      DequeueTakes(n, before, turns);
    }
  }
}
