/** Weighted fairness of the scheduler: two queues that stay active get time in proportion to their shares. */
module Fairness {
  import opened Words
  import opened Options
  import opened Shares
  import opened Scheduler

  function Gap(s: Executor, i: nat, j: nat): (g: nat) {
    var a, b := Vruntime(s.queues, i), Vruntime(s.queues, j);
    if a <= b then b - a else a - b
  }

  predicate Active(s: Executor, q: nat) {
    q in s.queues && s.queues[q].active
  }

  // ----------------------------------------------------------- who runs is behind

  /**
   The running queue is one that is furthest behind, and no more than one past the floor;
   between slices that is so of the root.
   */
  ghost predicate LeastRuns(s: Executor) {
    && (s.executing.Some? ==>
          && Vruntime(s.queues, s.executing.value) <= s.floor + 1
          && forall q | Active(s, q) :: Vruntime(s.queues, s.executing.value) <= Vruntime(s.queues, q))
    && (s.executing.None? && s.heap != [] ==> Vruntime(s.queues, s.heap[0]) <= s.floor + 1)
  }

  lemma BeginLeast(s: Executor, e: Event)
    requires Inv(s) && LeastRuns(s) && Enabled(s, e) && e.Begin?
    ensures LeastRuns(Apply(s, e))
  {
    var s' := Apply(s, e);
    forall q | Active(s', q)
      ensures Vruntime(s'.queues, s.heap[0]) <= Vruntime(s'.queues, q)
    {
      InHeap(s, q);
      RootIsLeastOf(s.heap, s.queues, q);
    }
  }

  lemma WakeLeast(s: Executor, e: Event)
    requires Inv(s) && LeastRuns(s) && Enabled(s, e) && InRange(s, e) && e.Schedule? && !s.queues[e.index].active
    ensures LeastRuns(Apply(s, e))
  {
    var s' := Apply(s, e);
    assert Vruntime(s'.queues, e.index) == s.floor + 1;
    forall q | Active(s', q) && q != e.index
      ensures Active(s, q) && Vruntime(s'.queues, q) == Vruntime(s.queues, q)
    {
    }
    if s.executing.None? {
      ScheduleKeepsInv(s, e);
      InHeap(s', e.index);
      RootIsLeastOf(s'.heap, s'.queues, e.index);
    }
  }

  lemma MoreWorkLeast(s: Executor, e: Event)
    requires Inv(s) && LeastRuns(s) && Enabled(s, e) && e.Schedule? && s.queues[e.index].active
    ensures LeastRuns(Apply(s, e))
  {
    var s' := Apply(s, e);
    forall q: nat
      ensures Active(s', q) == Active(s, q) && Vruntime(s'.queues, q) == Vruntime(s.queues, q)
    {
    }
  }

  lemma OthersLeast(s: Executor, e: Event)
    requires Inv(s) && LeastRuns(s) && Enabled(s, e) && !e.Begin? && !e.Schedule?
    ensures LeastRuns(Apply(s, e))
  {
    var s' := Apply(s, e);
    if !e.End? {
      forall q | Active(s', q)
        ensures Active(s, q) && Vruntime(s'.queues, q) == Vruntime(s.queues, q)
      {
      }
      if s.heap != [] {
        InHeap(s, s.heap[0]);
      }
    }
  }

  lemma StepLeast(s: Executor, e: Event)
    requires Inv(s) && FloorHolds(s) && LeastRuns(s) && Enabled(s, e) && InRange(s, e)
    ensures LeastRuns(Apply(s, e))
  {
    if e.Begin? {
      BeginLeast(s, e);
    } else if e.Schedule? {
      if s.queues[e.index].active { MoreWorkLeast(s, e); } else { WakeLeast(s, e); }
    } else {
      OthersLeast(s, e);
    }
  }

  /** No queue wakes in this run while the floor is the largest word. */
  ghost predicate AllInRange(s: Executor, events: seq<Event>)
    requires IsRun(s, events)
    decreases |events|
  {
    events == [] || (InRange(s, events[0]) && AllInRange(Apply(s, events[0]), events[1..]))
  }

  lemma {:induction false} RunLeast(s: Executor, events: seq<Event>)
    requires Inv(s) && FloorHolds(s) && LeastRuns(s) && IsRun(s, events) && AllInRange(s, events)
    ensures Inv(After(s, events)) && LeastRuns(After(s, events))
    decreases |events|
  {
    if events != [] {
      ApplyKeepsInv(s, events[0]);
      FloorKept(s, events[0]);
      StepLeast(s, events[0]);
      RunLeast(Apply(s, events[0]), events[1..]);
    }
  }

  /** On every such run of an executor, whoever runs is behind all the others. */
  lemma {:induction false} BehindRunsAlways(before: seq<Event>, i: nat, j: nat)
    requires IsRun(NEW, before) && AllInRange(NEW, before)
    requires Active(After(NEW, before), i) && Active(After(NEW, before), j)
    ensures Inv(After(NEW, before)) && BehindRuns(After(NEW, before), i, j)
  {
    NewInv();
    RunLeast(NEW, before);
  }

  // -------------------------------------------------------------- the gap is bounded

  /** Both queues stay active, and no slice of theirs adds more than `step` of virtual time. */
  ghost predicate Steady(s: Executor, events: seq<Event>, i: nat, j: nat, step: nat)
    decreases |events|
  {
    && Active(s, i) && Active(s, j)
    && (events != [] ==>
          && Enabled(s, events[0])
          && (events[0].End? && (s.executing == Some(i) || s.executing == Some(j)) ==>
                Scaled(s.queues[s.executing.value].reciprocal, events[0].nanos) <= step)
          && Steady(Apply(s, events[0]), events[1..], i, j, step))
  }

  /** If one of the two is running, it was the one behind. */
  predicate BehindRuns(s: Executor, i: nat, j: nat) {
    && (s.executing == Some(i) ==> Vruntime(s.queues, i) <= Vruntime(s.queues, j))
    && (s.executing == Some(j) ==> Vruntime(s.queues, j) <= Vruntime(s.queues, i))
  }

  lemma BeginKeepsGap(s: Executor, e: Event, i: nat, j: nat)
    requires Inv(s) && Enabled(s, e) && e.Begin? && Active(s, i) && Active(s, j)
    ensures BehindRuns(Apply(s, e), i, j) && Gap(Apply(s, e), i, j) == Gap(s, i, j)
  {
    InHeap(s, i);
    InHeap(s, j);
    RootIsLeastOf(s.heap, s.queues, i);
    RootIsLeastOf(s.heap, s.queues, j);
  }

  lemma EndKeepsGap(s: Executor, e: Event, i: nat, j: nat, step: nat)
    requires Enabled(s, e) && e.End? && Active(s, i) && Active(s, j)
    requires s.executing == Some(i) || s.executing == Some(j) ==>
               Scaled(s.queues[s.executing.value].reciprocal, e.nanos) <= step
    ensures BehindRuns(Apply(s, e), i, j) && Gap(Apply(s, e), i, j) <= Gap(s, i, j) + step
    ensures BehindRuns(s, i, j) ==> Gap(Apply(s, e), i, j) <= Max(Gap(s, i, j), step)
  {
  }

  lemma OthersKeepGap(s: Executor, e: Event, i: nat, j: nat)
    requires Inv(s) && Enabled(s, e) && !e.Begin? && !e.End? && Active(s, i) && Active(s, j)
    requires Active(Apply(s, e), i) && Active(Apply(s, e), j)
    ensures BehindRuns(Apply(s, e), i, j) == BehindRuns(s, i, j) && Gap(Apply(s, e), i, j) == Gap(s, i, j)
  {
  }

  lemma {:induction false} StepKeepsGap(s: Executor, e: Event, i: nat, j: nat, step: nat)
    requires Inv(s) && Steady(s, [e], i, j, step)
    ensures BehindRuns(s, i, j) ==>
              BehindRuns(Apply(s, e), i, j) && Gap(Apply(s, e), i, j) <= Max(Gap(s, i, j), step)
    ensures !BehindRuns(s, i, j) ==>
              if e.End? then BehindRuns(Apply(s, e), i, j) && Gap(Apply(s, e), i, j) <= Gap(s, i, j) + step
              else Gap(Apply(s, e), i, j) == Gap(s, i, j)
  {
    if e.Begin? {
      BeginKeepsGap(s, e, i, j);
    } else if e.End? {
      EndKeepsGap(s, e, i, j, step);
    } else {
      assert Steady(Apply(s, e), [e][1..], i, j, step);
      OthersKeepGap(s, e, i, j);
    }
  }

  /**
   The gap in virtual runtime never exceeds the larger of the gap at the start and one
   slice; if the interval begins while the queue ahead is running, their sum.
   */
  lemma {:induction false} GapBounded(s: Executor, events: seq<Event>, i: nat, j: nat, step: nat)
    requires Inv(s) && Steady(s, events, i, j, step)
    ensures IsRun(s, events) && Gap(After(s, events), i, j) <= Gap(s, i, j) + step
    ensures BehindRuns(s, i, j) ==> Gap(After(s, events), i, j) <= Max(Gap(s, i, j), step)
    decreases |events|
  {
    if events != [] {
      var s' := Apply(s, events[0]);
      assert [events[0]][1..] == [] && Steady(s', [], i, j, step);
      StepKeepsGap(s, events[0], i, j, step);
      ApplyKeepsInv(s, events[0]);
      GapBounded(s', events[1..], i, j, step);
    }
  }

  /** From the start of an executor on, the first of the two bounds holds in every interval. */
  lemma {:induction false} GapBoundedAlways(before: seq<Event>, events: seq<Event>, i: nat, j: nat, step: nat)
    requires IsRun(NEW, before) && AllInRange(NEW, before) && Steady(After(NEW, before), events, i, j, step)
    ensures var s := After(NEW, before);
            IsRun(s, events) && Gap(After(s, events), i, j) <= Max(Gap(s, i, j), step)
  {
    BehindRunsAlways(before, i, j);
    GapBounded(After(NEW, before), events, i, j, step);
  }

  // ------------------------------------------------------------ from clocks to time

  /** What a queue has run, weighted, against how far its virtual clock has moved. */
  function Error(s: Executor, s': Executor, q: nat): int
    requires q in s.queues && q in s'.queues
  {
    s.queues[q].reciprocal * (s'.queues[q].runtime - s.queues[q].runtime)
    - 4096 * (s'.queues[q].vruntime - s.queues[q].vruntime)
  }

  function Slices(s: Executor, s': Executor, q: nat): int
    requires q in s.queues && q in s'.queues
  {
    s'.queues[q].selected - s.queues[q].selected
  }

  /** Weighted running time and virtual time differ by less than one unit a slice. */
  predicate Accounts(s: Executor, s': Executor, q: nat) {
    && q in s.queues && q in s'.queues
    && s'.queues[q].dynamic == s.queues[q].dynamic && s'.queues[q].reciprocal == s.queues[q].reciprocal
    && 0 <= Slices(s, s', q) && 0 <= Error(s, s', q) <= 4095 * Slices(s, s', q)
  }

  /** Nothing is reset, and every slice is short enough for its cost not to wrap. */
  ghost predicate Unbroken(s: Executor, events: seq<Event>)
    requires IsRun(s, events)
    decreases |events|
  {
    events == [] ||
    (&& !Resets(s, events[0]) && (events[0].End? ==> events[0].nanos < LONGEST_SLICE)
     && Unbroken(Apply(s, events[0]), events[1..]))
  }

  lemma StepAccounts(s: Executor, e: Event, q: nat)
    requires Inv(s) && Active(s, q) && !s.queues[q].dynamic
    requires Enabled(s, e) && !Resets(s, e) && (e.End? ==> e.nanos < LONGEST_SLICE)
    ensures Accounts(s, Apply(s, e), q)
  {
    if e.End? && s.executing == Some(q) {
      ScaledBounds(s.queues[q].reciprocal, e.nanos);
    }
  }

  lemma AccountsCompose(s: Executor, mid: Executor, end: Executor, q: nat)
    requires Accounts(s, mid, q) && Accounts(mid, end, q)
    ensures Accounts(s, end, q)
  {
    var r, a, b := s.queues[q].reciprocal, mid.queues[q].runtime - s.queues[q].runtime,
                   end.queues[q].runtime - mid.queues[q].runtime;
    assert r * (a + b) == r * a + r * b;
  }

  lemma {:induction false} RunAccounts(s: Executor, events: seq<Event>, i: nat, j: nat, step: nat, q: nat)
    requires Inv(s) && Steady(s, events, i, j, step) && (q == i || q == j) && !s.queues[q].dynamic
    requires IsRun(s, events) && Unbroken(s, events)
    ensures Accounts(s, After(s, events), q)
    decreases |events|
  {
    if events != [] {
      var mid := Apply(s, events[0]);
      StepAccounts(s, events[0], q);
      ApplyKeepsInv(s, events[0]);
      RunAccounts(mid, events[1..], i, j, step, q);
      AccountsCompose(s, mid, After(mid, events[1..]), q);
    }
  }

  /** Running time weighted by the reciprocal of the shares: equal weights mean time in proportion to shares. */
  function Weighted(s: Executor, s': Executor, q: nat): int
    requires q in s.queues && q in s'.queues
  {
    s.queues[q].reciprocal * (s'.queues[q].runtime - s.queues[q].runtime)
  }

  /** The weighted times differ by at most `drift` of virtual time and one rounding unit for each slice. */
  predicate InProportion(s: Executor, s': Executor, i: nat, j: nat, drift: nat) {
    && i in s.queues && j in s.queues && i in s'.queues && j in s'.queues
    && Weighted(s, s', i) - Weighted(s, s', j) <= 4096 * drift + 4095 * Slices(s, s', i)
    && Weighted(s, s', j) - Weighted(s, s', i) <= 4096 * drift + 4095 * Slices(s, s', j)
  }

  lemma ShareArithmetic(s: Executor, s': Executor, i: nat, j: nat, bound: nat)
    requires Accounts(s, s', i) && Accounts(s, s', j) && Gap(s', i, j) <= bound
    ensures InProportion(s, s', i, j, Gap(s, i, j) + bound)
  {
  }

  /**
   Proportional share: over any interval in which both queues stay active, with static
   shares, the weighted running times differ by at most the two gaps in virtual time
   plus one rounding unit for each slice.
   */
  lemma {:induction false} ProportionalShare(s: Executor, events: seq<Event>, i: nat, j: nat, step: nat)
    requires Inv(s) && Steady(s, events, i, j, step) && IsRun(s, events) && Unbroken(s, events)
    requires !s.queues[i].dynamic && !s.queues[j].dynamic
    ensures InProportion(s, After(s, events), i, j, Gap(s, i, j) + (Gap(s, i, j) + step))
    ensures BehindRuns(s, i, j) ==> InProportion(s, After(s, events), i, j, Gap(s, i, j) + Max(Gap(s, i, j), step))
  {
    GapBounded(s, events, i, j, step);
    RunAccounts(s, events, i, j, step, i);
    RunAccounts(s, events, i, j, step, j);
    ShareArithmetic(s, After(s, events), i, j, Gap(s, i, j) + step);
    if BehindRuns(s, i, j) {
      ShareArithmetic(s, After(s, events), i, j, Max(Gap(s, i, j), step));
    }
  }

  /** From the start of an executor on, with the sharper bound, for every interval. */
  lemma {:induction false} ProportionalShareAlways(before: seq<Event>, events: seq<Event>, i: nat, j: nat, step: nat)
    requires IsRun(NEW, before) && AllInRange(NEW, before) && Steady(After(NEW, before), events, i, j, step)
    requires IsRun(After(NEW, before), events) && Unbroken(After(NEW, before), events)
    requires !After(NEW, before).queues[i].dynamic && !After(NEW, before).queues[j].dynamic
    ensures var s := After(NEW, before);
            InProportion(s, After(s, events), i, j, Gap(s, i, j) + Max(Gap(s, i, j), step))
  {
    BehindRunsAlways(before, i, j);
    ProportionalShare(After(NEW, before), events, i, j, step);
  }
}
