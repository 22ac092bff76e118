/**
 Why starvation freedom needs its two conditions: two endless runs of an executor, each
 breaking one of them, in which a queue waits for ever.
 */
module StarvedRuns {
  import opened Words
  import opened Options
  import opened Shares
  import opened Scheduler

  // --------------------------------------------------------------- building runs

  /** A run from the new executor, with where it leads. */
  ghost predicate Leads(events: seq<Event>, s: Executor) {
    IsRun(NEW, events) && After(NEW, events) == s
  }

  ghost predicate AllOrdinary(s: Executor, events: seq<Event>)
    requires IsRun(s, events)
    decreases |events|
  {
    events == [] || (Ordinary(s, events[0]) && AllOrdinary(Apply(s, events[0]), events[1..]))
  }

  lemma {:induction false} OneMore(s: Executor, events: seq<Event>, e: Event)
    requires IsRun(s, events) && Enabled(After(s, events), e)
    ensures IsRun(s, events + [e]) && After(s, events + [e]) == Apply(After(s, events), e)
    ensures AllOrdinary(s, events + [e]) <==> AllOrdinary(s, events) && Ordinary(After(s, events), e)
    decreases |events|
  {
    if events == [] {
      assert events + [e] == [e] && [e][1..] == [];
      assert IsRun(Apply(s, e), [e][1..]);
    } else {
      OneMore(Apply(s, events[0]), events[1..], e);
      assert (events + [e])[1..] == events[1..] + [e];
    }
  }

  lemma Extend(events: seq<Event>, s: Executor, e: Event) returns (more: seq<Event>, s': Executor)
    requires Leads(events, s) && Enabled(s, e)
    ensures more == events + [e] && s' == Apply(s, e) && Leads(more, s')
    ensures AllOrdinary(NEW, more) <==> AllOrdinary(NEW, events) && Ordinary(s, e)
  {
    more, s' := events + [e], Apply(s, e);
    OneMore(NEW, events, e);
  }

  // ---------------------------------------------------------------- endless runs

  /** The same four events over and over. */
  function Round(cycle: seq<Event>, n: nat): Event
    requires |cycle| == 4
  {
    cycle[n % 4]
  }

  function Turned(s: Executor, cycle: seq<Event>, n: nat): Executor
    requires |cycle| == 4
  {
    if n == 0 then s
    else
      var t := Turned(s, cycle, n - 1);
      if Enabled(t, Round(cycle, n - 1)) then Apply(t, Round(cycle, n - 1)) else t
  }

  /** An endless run in which slices keep ending and queue `x` waits, but is never selected. */
  ghost predicate Starves(run: nat -> Executor, events: nat -> Event, x: nat) {
    && (forall n: nat :: Goes(run, events, n))
    && (forall n: nat :: PassedOver(run(n), events(n), x))
    && (forall n: nat :: EndsAfter(events, n))
  }

  ghost predicate EndsAfter(events: nat -> Event, n: nat) {
    exists m: nat :: n <= m && events(m).End?
  }

  ghost predicate Goes(run: nat -> Executor, events: nat -> Event, n: nat) {
    Enabled(run(n), events(n)) && run(n + 1) == Apply(run(n), events(n))
  }

  predicate PassedOver(s: Executor, e: Event, x: nat) {
    Waiting(s, x) && !(e.Begin? && s.heap != [] && s.heap[0] == x)
  }

  /** From a state that fits step `k` of the cycle, that step is possible, leads to the next and passes `x` over. */
  ghost predicate StepFits(shape: (Executor, nat) -> bool, cycle: seq<Event>, x: nat, s: Executor, k: nat)
    requires |cycle| == 4 && k < 4
  {
    shape(s, k) ==> Enabled(s, cycle[k]) && shape(Apply(s, cycle[k]), (k + 1) % 4) && PassedOver(s, cycle[k], x)
  }

  ghost predicate Fits(shape: (Executor, nat) -> bool, cycle: seq<Event>, x: nat) {
    |cycle| == 4 && cycle[3].End? && forall s, k: nat | k < 4 :: StepFits(shape, cycle, x, s, k)
  }

  lemma NextPhase(n: nat)
    ensures (n % 4 + 1) % 4 == (n + 1) % 4
  {
  }

  lemma {:induction false} OneTurn(shape: (Executor, nat) -> bool, cycle: seq<Event>, x: nat, s: Executor, n: nat)
    requires Fits(shape, cycle, x) && shape(Turned(s, cycle, n), n % 4)
    ensures var t := Turned(s, cycle, n);
            && Enabled(t, Round(cycle, n)) && Turned(s, cycle, n + 1) == Apply(t, Round(cycle, n))
            && PassedOver(t, Round(cycle, n), x) && shape(Turned(s, cycle, n + 1), (n + 1) % 4)
  {
    assert StepFits(shape, cycle, x, Turned(s, cycle, n), n % 4);
    NextPhase(n);
  }

  lemma {:induction false} KeepsShape(shape: (Executor, nat) -> bool, cycle: seq<Event>, x: nat, s: Executor, n: nat)
    requires Fits(shape, cycle, x) && shape(s, 0)
    ensures shape(Turned(s, cycle, n), n % 4)
  {
    if n != 0 {
      KeepsShape(shape, cycle, x, s, n - 1);
      OneTurn(shape, cycle, x, s, n - 1);
    }
  }

  lemma RoundEnds(cycle: seq<Event>, n: nat) returns (m: nat)
    requires |cycle| == 4 && cycle[3].End?
    ensures n <= m && Round(cycle, m).End?
  {
    m := n + 3 - n % 4;
    assert m % 4 == 3;
  }

  /** Going round for ever, `x` starves. */
  lemma CycleStarves(shape: (Executor, nat) -> bool, cycle: seq<Event>, x: nat, s: Executor)
    returns (run: nat -> Executor, events: nat -> Event)
    requires Fits(shape, cycle, x) && shape(s, 0)
    ensures run(0) == s && Starves(run, events, x)
    ensures forall n: nat :: shape(run(n), n % 4) && events(n) == Round(cycle, n)
  {
    run, events := (n: nat) => Turned(s, cycle, n), (n: nat) => Round(cycle, n);
    forall n: nat
      ensures Goes(run, events, n) && PassedOver(run(n), events(n), x) && shape(run(n), n % 4)
    {
      KeepsShape(shape, cycle, x, s, n);
      OneTurn(shape, cycle, x, s, n);
    }
    forall n: nat
      ensures EndsAfter(events, n)
    {
      var m := RoundEnds(cycle, n);
      assert events(m).End?;
    }
  }

  // --------------------------------------------------------------- one whole slice

  /** Queue `q` is alone in the heap with one thing to do, and nothing runs. */
  predicate Alone(s: Executor, q: nat) {
    && s.executing == None && s.heap == [q] && q in s.queues
    && s.queues[q].active && s.queues[q].runnables == [0] && !s.queues[q].dynamic
  }

  /** The slice of `q` that began at `s` has left it `runnables`, and nothing else has changed. */
  predicate During(s: Executor, s': Executor, q: nat, runnables: seq<nat>)
    requires q in s.queues
  {
    && s'.executing == Some(q) && s'.heap == [] && s'.floor == s.floor && s'.nextIndex == s.nextIndex
    && s'.queues == s.queues[q := s.queues[q].(runnables := runnables, yielded := false)]
  }

  /** The slice is over: `q` is back in the heap, with something to do and a later clock. */
  predicate Sliced(s: Executor, s': Executor, q: nat, cost: nat)
    requires q in s.queues
  {
    && Alone(s', q) && s'.nextIndex == s.nextIndex && s'.floor == s'.queues[q].vruntime
    && s'.queues == s.queues[q := s'.queues[q]]
    && s'.queues[q].vruntime == s.queues[q].vruntime + cost && s'.queues[q].reciprocal == s.queues[q].reciprocal
  }

  lemma SliceBegins(events: seq<Event>, s: Executor, q: nat) returns (more: seq<Event>, s': Executor)
    requires Leads(events, s) && Alone(s, q)
    ensures Leads(more, s') && During(s, s', q, [0]) && (AllOrdinary(NEW, events) ==> AllOrdinary(NEW, more))
  {
    more, s' := Extend(events, s, Begin(None, []));
  }

  lemma SliceRuns(events: seq<Event>, s0: Executor, s: Executor, q: nat) returns (more: seq<Event>, s': Executor)
    requires q in s0.queues && Leads(events, s) && During(s0, s, q, [0]) && s0.queues[q].active
    ensures Leads(more, s') && During(s0, s', q, [0]) && (AllOrdinary(NEW, events) ==> AllOrdinary(NEW, more))
  {
    var e, t := Extend(events, s, RunTask);
    assert s.queues[q].runnables[1..] == [];
    assert t.queues == s0.queues[q := s0.queues[q].(runnables := [], yielded := false)];
    more, s' := Extend(e, t, Schedule(q, 0, []));
    assert t.queues[q].runnables + [0] == [0];
    assert s'.queues == s0.queues[q := s0.queues[q].(runnables := [0], yielded := false)];
  }

  lemma SliceEnds(events: seq<Event>, s0: Executor, s: Executor, q: nat, nanos: nat)
    returns (more: seq<Event>, s': Executor)
    requires Leads(events, s) && Alone(s0, q) && During(s0, s, q, [0])
    requires s0.queues[q].vruntime + Scaled(s0.queues[q].reciprocal, nanos) < WORD
    ensures var cost := Scaled(s0.queues[q].reciprocal, nanos);
            && Leads(more, s') && Sliced(s0, s', q, cost)
            && (AllOrdinary(NEW, events) && cost >= 1 ==> AllOrdinary(NEW, more))
  {
    more, s' := Extend(events, s, End(nanos, [q]));
    assert s'.queues == s0.queues[q := s'.queues[q]];
  }

  lemma OneSlice(events: seq<Event>, s: Executor, q: nat, nanos: nat) returns (more: seq<Event>, s': Executor)
    requires Leads(events, s) && Alone(s, q)
    requires s.queues[q].vruntime + Scaled(s.queues[q].reciprocal, nanos) < WORD
    ensures var cost := Scaled(s.queues[q].reciprocal, nanos);
            && Leads(more, s') && Sliced(s, s', q, cost)
            && (AllOrdinary(NEW, events) && cost >= 1 ==> AllOrdinary(NEW, more))
  {
    more, s' := SliceBegins(events, s, q);
    more, s' := SliceRuns(more, s, s', q);
    more, s' := SliceEnds(more, s, s', q, nanos);
  }

  // --------------------------------------------------- slices that cost nothing

  /** A cycle in which queue 0 is selected, runs, is scheduled again and takes no time. */
  const FREE: seq<Event> := [Begin(None, [1]), RunTask, Schedule(0, 0, [1]), End(0, [0, 1])]

  /** Queue 0 is behind queue 1, and the executor is before step `k` of the cycle. */
  predicate FreeShape(s: Executor, k: nat) {
    && 0 in s.queues && 1 in s.queues && s.queues[0].active && s.queues[1].active
    && s.queues[0].vruntime < s.queues[1].vruntime && s.queues[0].vruntime < WORD
    && match k
       case 0 => s.executing == None && s.heap == [0, 1] && s.queues[0].runnables == [0]
       case 1 => s.executing == Some(0) && s.heap == [1] && s.queues[0].runnables == [0] && !s.queues[0].yielded
       case 2 => s.executing == Some(0) && s.heap == [1] && s.queues[0].runnables == []
       case _ => s.executing == Some(0) && s.heap == [1] && s.queues[0].runnables == [0]
  }

  lemma FreeStep(s: Executor, k: nat)
    requires k < 4 && FreeShape(s, k)
    ensures Enabled(s, FREE[k]) && InRange(s, FREE[k]) && PassedOver(s, FREE[k], 1)
    ensures FreeShape(Apply(s, FREE[k]), (k + 1) % 4)
  {
    assert multiset([0, 1]) - multiset{0} == multiset([1]);
  }

  lemma FreeFits()
    ensures Fits(FreeShape, FREE, 1)
  {
    forall s, k: nat | k < 4
      ensures StepFits(FreeShape, FREE, 1, s, k)
    {
      if FreeShape(s, k) {
        FreeStep(s, k);
      }
    }
  }

  lemma FirstWake() returns (before: seq<Event>, s: Executor)
    ensures Leads(before, s) && Alone(s, 0) && s.nextIndex == 1 && s.queues.Keys == {0}
    ensures s.queues[0].vruntime == 1
  {
    before, s := Extend([], NEW, Schedule(0, 0, [0]));
  }

  /** Queue 0 runs for no time and ends its slice on the floor; then queue 1 is created and wakes above it. */
  lemma FreeStart() returns (before: seq<Event>, s: Executor)
    ensures Leads(before, s) && FreeShape(s, 0)
  {
    before, s := FirstWake();
    before, s := OneSlice(before, s, 0, 0);
    before, s := SecondWakes(before, s);
  }

  lemma SecondWakes(events: seq<Event>, s: Executor) returns (more: seq<Event>, s': Executor)
    requires Leads(events, s) && Alone(s, 0) && s.nextIndex == 1 && s.queues[0].vruntime == s.floor == 1
    ensures Leads(more, s') && FreeShape(s', 0)
  {
    more, s' := Extend(events, s, Create(1000, false));
    more, s' := Extend(more, s', Schedule(1, 0, [0, 1]));
  }

  /**
   If slices may cost nothing, a queue can wait for ever: here every wake is in range, and
   queue 0, whose slices are not charged, is selected again and again.
   */
  lemma FreeSlicesStarve() returns (before: seq<Event>, run: nat -> Executor, events: nat -> Event)
    ensures Leads(before, run(0)) && Starves(run, events, 1)
    ensures forall n: nat :: Enabled(run(n), events(n)) && InRange(run(n), events(n))
  {
    var s;
    before, s := FreeStart();
    FreeFits();
    run, events := CycleStarves(FreeShape, FREE, 1, s);
    forall n: nat
      ensures Enabled(run(n), events(n)) && InRange(run(n), events(n))
    {
      FreeStep(run(n), n % 4);
    }
  }

  // --------------------------------------------------------- wakes at the top

  /** A cycle in which queue 0 wakes at zero, is selected, runs for a nanosecond and has nothing left to do. */
  const BELOW: seq<Event> := [Schedule(0, 0, [0, 1]), Begin(None, [1]), RunTask, End(1, [1])]

  /** The floor is the largest word, queue 1 waits on it, and the executor is before step `k` of the cycle. */
  predicate TopShape(s: Executor, k: nat) {
    && 0 in s.queues && 1 in s.queues && s.floor == WORD - 1
    && s.queues[1].active && s.queues[1].vruntime == WORD - 1
    && s.queues[0].reciprocal == 4194 && !s.queues[0].dynamic
    && (k != 0 ==> s.queues[0].active && s.queues[0].vruntime == 0)
    && match k
       case 0 => s.executing == None && s.heap == [1] && s.queues[0].runnables == [] && !s.queues[0].active
       case 1 => s.executing == None && s.heap == [0, 1] && s.queues[0].runnables == [0]
       case 2 => s.executing == Some(0) && s.heap == [1] && s.queues[0].runnables == [0] && !s.queues[0].yielded
       case _ => s.executing == Some(0) && s.heap == [1] && s.queues[0].runnables == []
  }

  lemma TopStep(s: Executor, k: nat)
    requires k < 4 && TopShape(s, k)
    ensures Enabled(s, BELOW[k]) && Charged(s, BELOW[k]) && PassedOver(s, BELOW[k], 1)
    ensures TopShape(Apply(s, BELOW[k]), (k + 1) % 4)
  {
    assert multiset([0, 1]) - multiset{0} == multiset([1]);
  }

  lemma TopFits()
    ensures Fits(TopShape, BELOW, 1)
  {
    forall s, k: nat | k < 4
      ensures StepFits(TopShape, BELOW, 1, s, k)
    {
      if TopShape(s, k) {
        TopStep(s, k);
      }
    }
  }

  /** Queue 0 is idle, and queue 1 is alone at virtual time `v` with a clock that runs twice as fast as time. */
  predicate Climbing(s: Executor, v: nat) {
    && Alone(s, 1) && s.queues[1].vruntime == v && s.queues[1].reciprocal == 8192
    && 0 in s.queues && s.queues[0] == NewQueue(1000, false)
  }

  lemma TwiceAsFast(nanos: nat)
    requires nanos < LONGEST_SLICE
    ensures Scaled(8192, nanos) == 2 * nanos
  {
  }

  lemma ClimbStart() returns (before: seq<Event>, s: Executor)
    ensures Leads(before, s) && AllOrdinary(NEW, before) && Climbing(s, 1)
  {
    before, s := Extend([], NEW, Create(512, false));
    before, s := Extend(before, s, Schedule(1, 0, [1]));
  }

  /** Slices of less than 2^42 nanoseconds can raise the floor as far as one likes. */
  lemma {:induction false} Climb(events: seq<Event>, s: Executor, v: nat, rest: nat)
    returns (more: seq<Event>, s': Executor)
    requires Leads(events, s) && AllOrdinary(NEW, events) && Climbing(s, v) && 0 < rest && v + 2 * rest < WORD
    ensures Leads(more, s') && AllOrdinary(NEW, more) && Climbing(s', v + 2 * rest) && s'.floor == v + 2 * rest
    decreases rest
  {
    var nanos := Min(rest, LONGEST_SLICE - 1);
    TwiceAsFast(nanos);
    more, s' := OneSlice(events, s, 1, nanos);
    assert Climbing(s', v + 2 * nanos);
    if nanos < rest {
      more, s' := Climb(more, s', v + 2 * nanos, rest - nanos);
    }
  }

  /** The floor of an executor can reach the largest word; a queue that wakes then enters at zero, below the floor. */
  lemma FloorReachesTop() returns (before: seq<Event>, s: Executor)
    ensures Leads(before, s) && AllOrdinary(NEW, before) && TopShape(s, 0)
    ensures Inv(s) && FloorHolds(s) && Enabled(s, BELOW[0]) && !FloorHolds(Apply(s, BELOW[0]))
  {
    before, s := ClimbStart();
    before, s := Climb(before, s, 1, HALF_WORD - 1);
    NewInv();
    OrdinaryKeeps(NEW, before);
    TopStep(s, 0);
    FloorKept(s, BELOW[0]);
  }

  lemma {:induction false} OrdinaryKeeps(s: Executor, events: seq<Event>)
    requires Inv(s) && FloorHolds(s) && IsRun(s, events) && AllOrdinary(s, events)
    ensures Inv(After(s, events)) && FloorHolds(After(s, events))
    decreases |events|
  {
    if events != [] {
      ApplyKeepsInv(s, events[0]);
      FloorKept(s, events[0]);
      OrdinaryKeeps(Apply(s, events[0]), events[1..]);
    }
  }

  /**
   If queues may wake while the floor is the largest word, a queue can wait for ever: here
   every slice is charged, and queue 0 enters below queue 1 again and again.
   */
  lemma TopWakesStarve() returns (before: seq<Event>, run: nat -> Executor, events: nat -> Event)
    ensures Leads(before, run(0)) && AllOrdinary(NEW, before) && Starves(run, events, 1)
    ensures forall n: nat :: Enabled(run(n), events(n)) && Charged(run(n), events(n))
  {
    var s;
    before, s := FloorReachesTop();
    TopFits();
    run, events := CycleStarves(TopShape, BELOW, 1, s);
    forall n: nat
      ensures Enabled(run(n), events(n)) && Charged(run(n), events(n))
    {
      TopStep(run(n), n % 4);
    }
  }
}
