/**
 What becomes of the runnables of the executor: each one that is scheduled is polled once, in
 the order of its queue, or still waits there; a queue that yields is not polled further in its
 slice; and a queue that is selected can be polled.
 */
module Runnables {
  import opened Words
  import opened Options
  import opened Shares
  import opened Scheduler

  function RunnablesOf(s: Executor, q: nat): seq<nat> {
    if q in s.queues then s.queues[q].runnables else []
  }

  /** The runnables that the event adds to queue `q`, and those that it hands out to be polled. */
  function Added(e: Event, q: nat): seq<nat> {
    if e.Schedule? && e.index == q then [e.task] else []
  }

  function HandedOut(s: Executor, e: Event, q: nat): seq<nat>
    requires Enabled(s, e)
  {
    if e.RunTask? && s.executing == Some(q) then [s.queues[q].runnables[0]] else []
  }

  function ScheduledIn(events: seq<Event>, q: nat): seq<nat> {
    if events == [] then [] else Added(events[0], q) + ScheduledIn(events[1..], q)
  }

  ghost function PolledIn(s: Executor, events: seq<Event>, q: nat): seq<nat>
    requires IsRun(s, events)
    decreases |events|
  {
    if events == [] then [] else HandedOut(s, events[0], q) + PolledIn(Apply(s, events[0]), events[1..], q)
  }

  lemma RunnablesAfter(s: Executor, e: Event, q: nat)
    requires Inv(s) && Enabled(s, e)
    ensures RunnablesOf(Apply(s, e), q)
            == if e.Schedule? && e.index == q then RunnablesOf(s, q) + [e.task]
               else if e.RunTask? && s.executing == Some(q) then RunnablesOf(s, q)[1..]
               else RunnablesOf(s, q)
  {
  }

  lemma HeadAndTail(r: seq<nat>)
    ensures r + [] == r == [] + r && (r != [] ==> r == [r[0]] + r[1..])
  {
  }

  /** What was runnable before, and what the event adds, is what it hands out, and what is runnable after. */
  lemma StepConserves(s: Executor, e: Event, q: nat)
    requires Inv(s) && Enabled(s, e)
    ensures RunnablesOf(s, q) + Added(e, q) == HandedOut(s, e, q) + RunnablesOf(Apply(s, e), q)
  {
    RunnablesAfter(s, e, q);
    HeadAndTail(RunnablesOf(s, q));
    HeadAndTail(RunnablesOf(Apply(s, e), q));
  }

  lemma Regroup(before: seq<nat>, added: seq<nat>, more: seq<nat>, out: seq<nat>, mid: seq<nat>, outs: seq<nat>,
                after: seq<nat>)
    requires before + added == out + mid && mid + more == outs + after
    ensures before + (added + more) == out + outs + after
  {
    assert before + (added + more) == (before + added) + more == out + (mid + more) == out + (outs + after);
  }

  /** Nothing is lost, repeated or reordered: the same over any run. */
  lemma {:induction false} RunConserves(s: Executor, events: seq<Event>, q: nat)
    requires Inv(s) && IsRun(s, events)
    ensures RunnablesOf(s, q) + ScheduledIn(events, q) == PolledIn(s, events, q) + RunnablesOf(After(s, events), q)
    decreases |events|
  {
    if events != [] {
      var s' := Apply(s, events[0]);
      ApplyKeepsInv(s, events[0]);
      StepConserves(s, events[0], q);
      RunConserves(s', events[1..], q);
      Regroup(RunnablesOf(s, q), Added(events[0], q), ScheduledIn(events[1..], q), HandedOut(s, events[0], q),
              RunnablesOf(s', q), PolledIn(s', events[1..], q), RunnablesOf(After(s, events), q));
    }
  }

  /**
   On every run of an executor, for every queue: what was ever scheduled in it is what was polled
   from it, in this order, followed by what still waits; and when the executor is idle, it is what was polled.
   */
  lemma {:induction false} EveryRunnableIsPolled(events: seq<Event>, q: nat)
    requires IsRun(NEW, events)
    ensures var s := After(NEW, events);
            && ScheduledIn(events, q) == PolledIn(NEW, events, q) + RunnablesOf(s, q)
            && (s.executing.None? && s.heap == [] ==> ScheduledIn(events, q) == PolledIn(NEW, events, q))
  {
    NewInv();
    RunConserves(NEW, events, q);
    RunKeepsInv(NEW, events);
    var s := After(NEW, events);
    assert RunnablesOf(NEW, q) + ScheduledIn(events, q) == ScheduledIn(events, q);
    if s.executing.None? {
      NothingLeft(s);
    }
  }

  // -------------------------------------------------------------- slices and yields

  /** The queue that runs has yielded. */
  predicate Yielded(s: Executor) {
    s.executing.Some? ==> s.executing.value in s.queues && s.queues[s.executing.value].yielded
  }

  lemma YieldStays(s: Executor, e: Event)
    requires Inv(s) && Yielded(s) && Enabled(s, e) && !e.Begin?
    ensures !e.RunTask? && Yielded(Apply(s, e))
  {
  }

  /** After a yield nothing is polled until the next queue is selected. */
  lemma {:induction false} YieldEndsPolling(s: Executor, events: seq<Event>)
    requires Inv(s) && Enabled(s, Yield) && IsRun(Apply(s, Yield), events) && forall e | e in events :: !e.Begin?
    ensures forall e | e in events :: !e.RunTask?
  {
    ApplyKeepsInv(s, Yield);
    StaysQuiet(Apply(s, Yield), events);
  }

  lemma {:induction false} StaysQuiet(s: Executor, events: seq<Event>)
    requires Inv(s) && Yielded(s) && IsRun(s, events) && forall e | e in events :: !e.Begin?
    ensures forall e | e in events :: !e.RunTask?
    decreases |events|
  {
    if events != [] {
      assert events[0] in events;
      YieldStays(s, events[0]);
      ApplyKeepsInv(s, events[0]);
      StaysQuiet(Apply(s, events[0]), events[1..]);
      assert events == [events[0]] + events[1..];
    }
  }

  /** A queue that is selected has something to poll, whether or not it yielded in its last slice. */
  lemma SelectedCanBePolled(s: Executor, e: Event)
    requires Inv(s) && Enabled(s, e) && e.Begin?
    ensures Enabled(Apply(s, e), RunTask)
  {
    InHeap(s, s.heap[0]);
  }

  /** The shares a queue reports, and whether they are dynamic. */
  function SharesOf(s: Executor, q: nat): Option<(nat, bool)> {
    if q in s.queues && s.queues[q].reciprocal > 0
    then Some((CurrentShares(s.queues[q].reciprocal), s.queues[q].dynamic)) else None
  }

  /** A queue reports the shares it was created with or, if they are dynamic, those of the last sample. */
  lemma SharesAreKept(s: Executor, e: Event, q: nat)
    requires Inv(s) && Enabled(s, e)
    ensures SharesOf(Apply(s, e), q)
            == if e.Create? && q == s.nextIndex then Some((Clamped(e.shares), e.dynamic))
               else if e.Begin? && s.heap[0] == q && s.queues[q].dynamic && e.sample.Some? then
                 Some((Clamped(e.sample.value), true))
               else if e.Remove? && e.index == q && Removable(s, q) then None
               else SharesOf(s, q)
  {
    if e.Create? {
      SharesRoundTrip(e.shares);
    }
    if e.Begin? && e.sample.Some? {
      SharesRoundTrip(e.sample.value);
    }
  }
}
