/** The counter that tells a patching session whether the process is inside an
    interposed allocator or loader function. */
module Interpose {
  /** `flag` as the atomic operations see it; `running` counts interposed calls
      between their increment and their decrement. */
  datatype Sys = Sys(flag: int, running: nat, held: bool)

  datatype Event =
    | Begin      // fetch_and_add 1
    | End        // fetch_and_sub 1
    | TryLock    // compare_and_swap 0 -> 1
    | Unlock     // fetch_and_and 0

  const START := Sys(0, 0, false)

  /** Events happen in program order: a call ends after it began, and only the
      holder of the lock unlocks. */
  predicate Enabled(s: Sys, e: Event) {
    match e
    case Begin => true
    case End => s.running > 0
    case TryLock => !s.held
    case Unlock => s.held
  }

  function Step(s: Sys, e: Event): Sys
    requires Enabled(s, e)
  {
    match e
    case Begin => s.(flag := s.flag + 1, running := s.running + 1)
    case End => s.(flag := s.flag - 1, running := s.running - 1)
    case TryLock => if s.flag == 0 then s.(flag := 1, held := true) else s
    case Unlock => s.(flag := 0, held := false)
  }

  ghost predicate Possible(s: Sys, es: seq<Event>)
    decreases |es|
  {
    es == [] || (Enabled(s, es[0]) && Possible(Step(s, es[0]), es[1..]))
  }

  function Run(s: Sys, es: seq<Event>): Sys
    requires Possible(s, es)
    decreases |es|
  {
    if es == [] then s else Run(Step(s, es[0]), es[1..])
  }

  /** The counter counts the calls in flight, and the lock. */
  predicate Exact(s: Sys) {
    s.flag == s.running + if s.held then 1 else 0
  }

  /** No call is in flight whenever the lock is released. */
  ghost predicate QuietUnlocks(s: Sys, es: seq<Event>)
    requires Possible(s, es)
    decreases |es|
  {
    es == [] || ((es[0].Unlock? ==> s.running == 0) && QuietUnlocks(Step(s, es[0]), es[1..]))
  }

  ghost predicate ExactThroughout(s: Sys, es: seq<Event>)
    requires Possible(s, es)
    decreases |es|
  {
    Exact(s) && (es == [] || ExactThroughout(Step(s, es[0]), es[1..]))
  }

  /** Over every interleaving: the counter stays exact exactly when nothing is in
      flight at any unlock. The tool sees to that by stopping all other threads
      between the try-lock and the unlock. */
  lemma {:induction false} ExactIffQuiet(s: Sys, es: seq<Event>)
    requires Exact(s) && Possible(s, es)
    ensures ExactThroughout(s, es) <==> QuietUnlocks(s, es)
    decreases |es|
  {
    if es != [] {
      var t := Step(s, es[0]);
      if es[0].Unlock? && s.running > 0 {
        assert !Exact(t);
      } else {
        assert Exact(t);
        ExactIffQuiet(t, es[1..]);
      }
    }
  }

  lemma {:induction false} StaysExact(s: Sys, es: seq<Event>)
    requires Possible(s, es) && ExactThroughout(s, es)
    ensures Exact(Run(s, es))
    decreases |es|
  {
    if es != [] {
      StaysExact(Step(s, es[0]), es[1..]);
    }
  }

  /** As long as that is so, the try-lock succeeds exactly when nobody is inside
      an interposed function. */
  lemma LockedMeansQuiet(es: seq<Event>)
    requires Possible(START, es) && QuietUnlocks(START, es) && !Run(START, es).held
    ensures Step(Run(START, es), TryLock).held <==> Run(START, es).running == 0
  {
    ExactIffQuiet(START, es);
    StaysExact(START, es);
  }

  /** What goes wrong otherwise: a call that begins while the lock is held and is
      still running at the unlock leaves the counter at zero, and the next
      try-lock succeeds in the middle of that call. */
  lemma LateCallIsLost()
    ensures
      var es := [TryLock, Begin, Unlock];
      && Possible(START, es)
      && Run(START, es).running == 1
      && Step(Run(START, es), TryLock).held
  {
    var es := [TryLock, Begin, Unlock];
    var s1 := Step(START, TryLock);
    var s2 := Step(s1, Begin);
    var s3 := Step(s2, Unlock);
    assert es[1..] == [Begin, Unlock] && es[1..][1..] == [Unlock] && [Unlock][1..] == [];
    assert Possible(s3, []) && Possible(s2, [Unlock]) && Possible(s1, [Begin, Unlock]);
    assert Run(s2, [Unlock]) == s3 && Run(s1, [Begin, Unlock]) == s3;
  }

  // ---------- every run ----------

  /** Calls that were in flight at the last unlock; `before` if there was none. */
  function Left(s: Sys, es: seq<Event>, before: nat): nat
    requires Possible(s, es)
    decreases |es|
  {
    if es == [] then before
    else Left(Step(s, es[0]), es[1..], if es[0].Unlock? then s.running else before)
  }

  /** In every run, with good unlocks or bad: the counter is short of the calls in
      flight by those that were in flight at the last unlock. The unlock before
      that no longer matters, because each one starts again from zero. */
  lemma {:induction false} FlagIsShort(s: Sys, es: seq<Event>, before: nat)
    requires Possible(s, es) && s.flag == s.running + (if s.held then 1 else 0) - before
    ensures
      var t := Run(s, es);
      t.flag == t.running + (if t.held then 1 else 0) - Left(s, es, before)
    decreases |es|
  {
    if es != [] {
      FlagIsShort(Step(s, es[0]), es[1..], if es[0].Unlock? then s.running else before);
    }
  }

  /** So a try-lock succeeds, in every run, exactly when as many calls are in
      flight as at the last unlock: too early while calls that it forgot go on,
      and not at all when all is quiet after them. */
  lemma LockedIff(es: seq<Event>)
    requires Possible(START, es) && !Run(START, es).held
    ensures Step(Run(START, es), TryLock).held <==> Run(START, es).running == Left(START, es, 0)
  {
    FlagIsShort(START, es, 0);
  }

  /** The other way round: once such a call has ended the counter is negative, and
      nobody can lock a process in which nothing is in flight. */
  lemma QuietButRefused()
    ensures
      var es := [TryLock, Begin, Unlock, End];
      && Possible(START, es)
      && Run(START, es).running == 0 && Run(START, es).flag == -1
      && !Step(Run(START, es), TryLock).held
  {
    var es := [TryLock, Begin, Unlock, End];
    var s1 := Step(START, TryLock);
    var s2 := Step(s1, Begin);
    var s3 := Step(s2, Unlock);
    var s4 := Step(s3, End);
    assert es[1..] == [Begin, Unlock, End] && es[1..][1..] == [Unlock, End];
    assert [Unlock, End][1..] == [End] && [End][1..] == [];
    assert Possible(s4, []) && Possible(s3, [End]) && Possible(s2, [Unlock, End]) && Possible(s1, [Begin, Unlock, End]);
    assert Run(s3, [End]) == s4 && Run(s2, [Unlock, End]) == s4 && Run(s1, [Begin, Unlock, End]) == s4;
  }
}
