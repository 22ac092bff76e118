/**
 Nobody waits for ever at a latch whose count is exactly what arrives: from every state of
 every interleaving all threads can finish, every step that does anything brings them
 nearer, and they finish with the latch ready.
 */
module LatchProgress {
  import opened Options
  import opened Latch

  /** The decrements of all these operations together. */
  function Sum(ops: seq<Op>): nat {
    if ops == [] then 0 else Sum(ops[..|ops| - 1]) + Decrement(ops[|ops| - 1])
  }

  /** Nobody cancels, and the count is exactly what the operations take off, each at least one. */
  predicate Balanced(count: nat, ops: seq<Op>) {
    Sum(ops) == count && forall op | op in ops :: Proper(op) && !op.Cancel?
  }

  predicate Runs(l: Latch, ops: seq<Op>) {
    |l.threads| == |ops| && forall t | 0 <= t < |ops| :: l.threads[t].op == ops[t]
  }

  /** A state of a balanced latch, with its threads running these operations. */
  ghost predicate Fair(l: Latch, ops: seq<Op>) {
    Inv(l) && Runs(l, ops) && Balanced(l.initial, ops) && !l.decided.Canceled?
  }

  lemma {:induction false} TotalAtMost(threads: seq<Thread>, ops: seq<Op>, counted: set<nat>)
    requires |threads| == |ops| && forall t | 0 <= t < |ops| :: threads[t].op == ops[t]
    ensures Total(threads, counted) <= Sum(ops)
    ensures (forall t | 0 <= t < |ops| :: Decrement(ops[t]) > 0 ==> t in counted) ==>
              Total(threads, counted) == Sum(ops)
    decreases |ops|
  {
    if ops != [] {
      TotalAtMost(threads[..|ops| - 1], ops[..|ops| - 1], counted);
    }
  }

  lemma {:induction false} RoomForUncounted(threads: seq<Thread>, ops: seq<Op>, counted: set<nat>, t: nat)
    requires |threads| == |ops| && forall t | 0 <= t < |ops| :: threads[t].op == ops[t]
    requires t < |ops| && t !in counted
    ensures Total(threads, counted) + Decrement(ops[t]) <= Sum(ops)
    decreases |ops|
  {
    var n := |ops| - 1;
    if t == n {
      TotalAtMost(threads[..n], ops[..n], counted);
    } else {
      RoomForUncounted(threads[..n], ops[..n], counted, t);
    }
  }

  /** A thread that has yet to count finds enough left to take off. */
  lemma EnoughLeft(l: Latch, ops: seq<Op>, t: nat)
    requires Fair(l, ops) && t < |l.threads| && t !in l.counted && Decrement(ops[t]) > 0
    ensures l.count >= Decrement(ops[t])
  {
    RoomForUncounted(l.threads, ops, l.counted, t);
    assert ThreadInv(l, t);
  }

  lemma StepFair(l: Latch, ops: seq<Op>, t: nat, spurious: bool)
    requires Fair(l, ops)
    ensures Fair(Step(l, t, spurious), ops)
  {
    if t < |l.threads| {
      assert ops[t] in ops;
    }
    StepSameOps(l, t, spurious);
    StepKeepsInv(l, t, spurious);
  }

  lemma {:induction false} RunFair(l: Latch, ops: seq<Op>, schedule: seq<(nat, bool)>)
    requires Fair(l, ops)
    ensures Fair(Run(l, schedule), ops)
  {
    if schedule != [] {
      RunFair(l, ops, schedule[..|schedule| - 1]);
      var last := schedule[|schedule| - 1];
      StepFair(Run(l, schedule[..|schedule| - 1]), ops, last.0, last.1);
    }
  }

  // ------------------------------------------------------------------ the measure

  /** Threads that have not changed the counter yet. */
  function Early(threads: seq<Thread>): nat {
    if threads == [] then 0
    else Early(threads[..|threads| - 1]) + if threads[|threads| - 1].Load? || threads[|threads| - 1].Swap? then 1 else 0
  }

  /** What a thread still has before it, apart from that. */
  function Left(thread: Thread, count: nat): nat {
    match thread
    case Load(_) => 5
    case Swap(_, seen) => if seen == count then 3 else 4
    case SetState(_, _, _) => 2
    case Await(_) => 1
    case Done(_, _) => 0
  }

  function AllLeft(threads: seq<Thread>, count: nat): nat {
    if threads == [] then 0 else AllLeft(threads[..|threads| - 1], count) + Left(threads[|threads| - 1], count)
  }

  /** Fewer threads have yet to change the counter, or as many, with less before them. */
  predicate Nearer(l': Latch, l: Latch) {
    var e', e := Early(l'.threads), Early(l.threads);
    e' < e || (e' == e && AllLeft(l'.threads, l'.count) < AllLeft(l.threads, l.count))
  }

  lemma {:induction false} OneChanges(threads: seq<Thread>, t: nat, thread: Thread, count: nat)
    requires t < |threads|
    ensures var a, b := threads[t], thread;
            && Early(threads[t := thread]) == Early(threads) - (if a.Load? || a.Swap? then 1 else 0)
                                              + (if b.Load? || b.Swap? then 1 else 0)
            && AllLeft(threads[t := thread], count) == AllLeft(threads, count) - Left(a, count) + Left(b, count)
    decreases |threads|
  {
    var n := |threads| - 1;
    if t == n {
      assert threads[t := thread][..n] == threads[..n];
    } else {
      OneChanges(threads[..n], t, thread, count);
      assert threads[t := thread][..n] == threads[..n][t := thread];
    }
  }

  /** A step that is not spurious changes nothing, or brings the end nearer. */
  lemma StepNearer(l: Latch, ops: seq<Op>, t: nat)
    requires Fair(l, ops)
    ensures Step(l, t, false) == l || Nearer(Step(l, t, false), l)
  {
    if t < |l.threads| {
      var l' := Step(l, t, false);
      assert ops[t] in ops && ThreadInv(l, t);
      OneChanges(l.threads, t, l'.threads[t], l.count);
      OneChanges(l.threads, t, l'.threads[t], l'.count);
      if l.threads[t].Swap? && t !in l.counted && Decrement(ops[t]) > 0 {
        EnoughLeft(l, ops, t);
      }
      assert l'.threads == l.threads[t := l'.threads[t]];
    }
  }

  predicate Finished(l: Latch) {
    forall t | 0 <= t < |l.threads| :: l.threads[t].Done?
  }

  /** Until everyone has finished, some thread can do something. */
  lemma SomeoneSteps(l: Latch, ops: seq<Op>) returns (t: nat)
    requires Fair(l, ops) && !Finished(l)
    ensures t < |l.threads| && Step(l, t, false) != l
  {
    var u :| 0 <= u < |l.threads| && !l.threads[u].Done?;
    if early: nat :| early < |l.threads| && !l.threads[early].Done? && !l.threads[early].Await? {
      t := early;
      assert ThreadInv(l, t);
    } else {
      t := u;
      AllCounted(l, ops);
      assert ThreadInv(l, t);
      if l.state.Pending? {
        assert l.threads[l.winner.value].SetState?;
      }
    }
  }

  /** When every thread waits or has finished, the whole count has arrived. */
  lemma AllCounted(l: Latch, ops: seq<Op>)
    requires Fair(l, ops) && forall t: nat | t < |l.threads| :: l.threads[t].Done? || l.threads[t].Await?
    ensures l.count == 0
  {
    if l.count > 0 {
      forall t: nat | t < |ops| && Decrement(ops[t]) > 0
        ensures t in l.counted
      {
        assert ThreadInv(l, t);
        if t !in l.counted {
          EnoughLeft(l, ops, t);
        }
      }
      TotalAtMost(l.threads, ops, l.counted);
    }
  }

  /** From every such state everyone can finish. */
  lemma {:induction false} CanFinish(l: Latch, ops: seq<Op>) returns (schedule: seq<(nat, bool)>)
    requires Fair(l, ops)
    ensures Finished(Run(l, schedule))
    decreases Early(l.threads), AllLeft(l.threads, l.count)
  {
    if Finished(l) {
      schedule := [];
    } else {
      var t := SomeoneSteps(l, ops);
      StepNearer(l, ops, t);
      StepFair(l, ops, t, false);
      var rest := CanFinish(Step(l, t, false), ops);
      RunConcat(l, [(t, false)], rest);
      assert [(t, false)][..0] == [] && Run(l, [(t, false)]) == Step(l, t, false);
      schedule := [(t, false)] + rest;
    }
  }

  /** What a thread has when all is done. */
  predicate Satisfied(thread: Thread) {
    match thread
    case Done(op, Counted(_)) => op.CountDown?
    case Done(op, Returned(state)) => state.Ready?
    case _ => false
  }

  lemma NewIsFair(count: nat, ops: seq<Op>)
    requires Balanced(count, ops)
    ensures Fair(New(count, ops), ops)
  {
    NoneCounted(New(count, ops).threads);
  }

  /**
   When nobody cancels and the count is exactly what the operations take off, then in every
   interleaving: whoever has finished was counted, or was told that the latch is ready; any step
   but a spurious failure changes nothing or brings the end nearer; and while someone has
   not finished, some step does so, up to a state in which all have.
   */
  lemma {:induction false} EveryoneIsReleased(count: nat, ops: seq<Op>, schedule: seq<(nat, bool)>, i: nat)
    returns (more: seq<(nat, bool)>)
    requires Balanced(count, ops) && i < |ops|
    ensures var l := Run(New(count, ops), schedule);
            && (l.threads[i].Done? ==> Satisfied(l.threads[i]))
            && (forall t: nat :: Step(l, t, false) == l || Nearer(Step(l, t, false), l))
            && (!Finished(l) ==> exists t: nat :: Nearer(Step(l, t, false), l))
            && Finished(Run(l, more))
  {
    var l := Run(New(count, ops), schedule);
    NewIsFair(count, ops);
    RunFair(New(count, ops), ops, schedule);
    assert ops[i] in ops && ThreadInv(l, i);
    if l.threads[i].Done? && l.threads[i].outcome.NotCounted? {
      EnoughLeft(l, ops, i);
    }
    forall t: nat
      ensures Step(l, t, false) == l || Nearer(Step(l, t, false), l)
    {
      StepNearer(l, ops, t);
    }
    if !Finished(l) {
      var t := SomeoneSteps(l, ops);
    }
    more := CanFinish(l, ops);
  }
}
