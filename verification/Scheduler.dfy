/**
 The proportional-share scheduler of `executor/mod.rs`, with the ways work enters a
 queue from `executor/context.rs`: task queues with a virtual runtime, a min-heap of
 the active ones, and a floor for the virtual runtime of those that wake up.
 */
module Scheduler {
  import opened Words
  import opened Options
  import opened Shares

  datatype TaskQueue = TaskQueue(runnables: seq<nat>, active: bool, vruntime: nat,
                                 reciprocal: nat, dynamic: bool, yielded: bool,
                                 runtime: nat, selected: nat)

  /** `heap` is the array inside the binary heap: any arrangement in which no parent is above its children. */
  datatype Executor = Executor(heap: seq<nat>, queues: map<nat, TaskQueue>, executing: Option<nat>,
                               nextIndex: nat, floor: nat)

  /**
   What can happen to the executor. `Begin` takes a queue out of the heap and runs it
   until `End`; tasks that run in between schedule, yield, create and remove. Where an
   event pushes to or pops from the heap, `heap` is the arrangement that results.
   */
  datatype Event =
    | Create(shares: nat, dynamic: bool)
    | Remove(index: nat)
    | Schedule(index: nat, task: nat, heap: seq<nat>)
    | Begin(sample: Option<nat>, heap: seq<nat>)
    | RunTask
    | Yield
    | End(nanos: nat, heap: seq<nat>)

  function NewQueue(shares: nat, dynamic: bool): TaskQueue {
    TaskQueue([], false, 0, Reciprocal(shares), dynamic, false, 0, 0)
  }

  /** An executor whose default queue has index 0. */
  const NEW: Executor := Executor([], map[0 := NewQueue(1000, false)], None, 1, 0)

  function Vruntime(queues: map<nat, TaskQueue>, q: nat): nat {
    if q in queues then queues[q].vruntime else 0
  }

  predicate AboveParent(heap: seq<nat>, queues: map<nat, TaskQueue>, i: nat)
    requires 0 < i < |heap|
  {
    Vruntime(queues, heap[(i - 1) / 2]) <= Vruntime(queues, heap[i])
  }

  predicate HeapOrdered(heap: seq<nat>, queues: map<nat, TaskQueue>) {
    forall i | 0 < i < |heap| :: AboveParent(heap, queues, i)
  }

  /** `maybe_activate`, before the push: an idle queue wakes one past the floor. The addition wraps. */
  function Awoken(s: Executor, index: nat): map<nat, TaskQueue>
    requires index in s.queues
  {
    if s.queues[index].active then s.queues
    else s.queues[index := s.queues[index].(vruntime := (s.floor + 1) % WORD, active := true)]
  }

  /** `schedule`: the runnable joins its queue, and the queue is woken if it was idle. */
  function Scheduled(s: Executor, index: nat, task: nat): map<nat, TaskQueue>
    requires index in s.queues
  {
    var q := s.queues[index];
    Awoken(s.(queues := s.queues[index := q.(runnables := q.runnables + [task])]), index)
  }

  /** `prepare_to_run`: clears the yield mark and may take a new sample of dynamic shares. */
  function Prepared(q: TaskQueue, sample: Option<nat>): TaskQueue {
    q.(yielded := false, reciprocal := if q.dynamic && sample.Some? then Reciprocal(sample.value) else q.reciprocal)
  }

  predicate Overflows(q: TaskQueue, nanos: nat) {
    q.vruntime + Scaled(q.reciprocal, nanos) >= WORD
  }

  /** `account_vruntime`: the virtual runtime moves unless the addition would overflow. */
  function Accounted(q: TaskQueue, nanos: nat): TaskQueue {
    q.(runtime := q.runtime + nanos, selected := q.selected + 1, active := q.runnables != [],
       vruntime := if Overflows(q, nanos) then q.vruntime else q.vruntime + Scaled(q.reciprocal, nanos))
  }

  function Zeroed(queues: map<nat, TaskQueue>): map<nat, TaskQueue> {
    map i | i in queues :: queues[i].(vruntime := 0)
  }

  /** All queues after the slice of queue `index` is accounted for; an overflow sets every virtual runtime to zero. */
  function AfterSlice(s: Executor, index: nat, nanos: nat): (qs: map<nat, TaskQueue>)
    requires index in s.queues
    ensures qs.Keys == s.queues.Keys
  {
    var qs := s.queues[index := Accounted(s.queues[index], nanos)];
    if Overflows(s.queues[index], nanos) then Zeroed(qs) else qs
  }

  predicate Enabled(s: Executor, e: Event) {
    match e
    case Create(_, _) => true
    case Remove(_) => true
    case Schedule(index, task, heap) =>
      && index in s.queues
      && (if s.queues[index].active then heap == s.heap
          else multiset(heap) == multiset(s.heap) + multiset{index} && HeapOrdered(heap, Scheduled(s, index, task)))
    case Begin(sample, heap) =>
      && s.executing.None? && s.heap != [] && s.heap[0] in s.queues
      && multiset(heap) == multiset(s.heap) - multiset{s.heap[0]} && HeapOrdered(heap, s.queues)
    case RunTask =>
      && s.executing.Some? && s.executing.value in s.queues
      && !s.queues[s.executing.value].yielded && s.queues[s.executing.value].runnables != []
    case Yield => s.executing.Some? && s.executing.value in s.queues
    case End(nanos, heap) =>
      && s.executing.Some? && s.executing.value in s.queues
      && (var q := s.executing.value;
          if s.queues[q].runnables == [] then heap == s.heap
          else multiset(heap) == multiset(s.heap) + multiset{q} && HeapOrdered(heap, AfterSlice(s, q, nanos)))
  }

  predicate Removable(s: Executor, index: nat) {
    s.executing != Some(index) && index in s.queues && !s.queues[index].active
  }

  function Apply(s: Executor, e: Event): Executor
    requires Enabled(s, e)
  {
    match e
    case Create(shares, dynamic) =>
      s.(queues := s.queues[s.nextIndex := NewQueue(shares, dynamic)], nextIndex := s.nextIndex + 1)
    case Remove(index) => if Removable(s, index) then s.(queues := s.queues - {index}) else s
    case Schedule(index, task, heap) => s.(queues := Scheduled(s, index, task), heap := heap)
    case Begin(sample, heap) =>
      var q := s.heap[0];
      s.(heap := heap, executing := Some(q), queues := s.queues[q := Prepared(s.queues[q], sample)])
    case RunTask =>
      var q := s.executing.value;
      s.(queues := s.queues[q := s.queues[q].(runnables := s.queues[q].runnables[1..])])
    case Yield =>
      var q := s.executing.value;
      s.(queues := s.queues[q := s.queues[q].(yielded := true)])
    case End(nanos, heap) =>
      var q := s.executing.value;
      var queues := AfterSlice(s, q, nanos);
      s.(queues := queues, heap := heap, executing := None,
         floor := if heap == [] then queues[q].vruntime else Vruntime(queues, heap[0]))
  }

  // ---------------------------------------------------------------- invariant

  /** Active, and not the one being run: exactly these queues belong in the heap. */
  predicate Waiting(s: Executor, q: nat) {
    q in s.queues && s.queues[q].active && s.executing != Some(q)
  }

  ghost predicate Inv(s: Executor) {
    && (forall q: nat :: multiset(s.heap)[q] == if Waiting(s, q) then 1 else 0)
    && HeapOrdered(s.heap, s.queues)
    && (s.executing.Some? ==> s.executing.value in s.queues && s.queues[s.executing.value].active)
    && (forall q | q in s.queues :: s.queues[q].runnables != [] ==> s.queues[q].active)
    && (forall q | q in s.queues :: Waiting(s, q) ==> s.queues[q].runnables != [])
    && (forall q | q in s.queues :: q < s.nextIndex && 4194 <= s.queues[q].reciprocal <= UNIT)
    && (forall q | q in s.queues :: s.queues[q].vruntime < WORD)
  }

  /** The floor is a lower bound of every active virtual runtime. */
  ghost predicate FloorHolds(s: Executor) {
    s.floor < WORD && forall q | q in s.queues && s.queues[q].active :: s.floor <= s.queues[q].vruntime
  }

  lemma InHeap(s: Executor, q: nat)
    requires Inv(s)
    ensures q in s.heap <==> Waiting(s, q)
  {
    assert q in s.heap <==> multiset(s.heap)[q] > 0;
  }

  /** The root of a heap is one of its least elements. */
  lemma {:induction false} RootIsLeast(heap: seq<nat>, queues: map<nat, TaskQueue>, i: nat)
    requires HeapOrdered(heap, queues) && i < |heap|
    ensures Vruntime(queues, heap[0]) <= Vruntime(queues, heap[i])
  {
    if i != 0 {
      assert AboveParent(heap, queues, i);
      RootIsLeast(heap, queues, (i - 1) / 2);
    }
  }

  lemma RootIsLeastOf(heap: seq<nat>, queues: map<nat, TaskQueue>, q: nat)
    requires HeapOrdered(heap, queues) && q in heap
    ensures Vruntime(queues, heap[0]) <= Vruntime(queues, q)
  {
    var i :| 0 <= i < |heap| && heap[i] == q;
    RootIsLeast(heap, queues, i);
  }

  /** Changing queues that are not in the heap leaves the heap ordered. */
  lemma StaysOrdered(heap: seq<nat>, queues: map<nat, TaskQueue>, queues': map<nat, TaskQueue>)
    requires HeapOrdered(heap, queues)
    requires forall q | q in heap :: Vruntime(queues', q) == Vruntime(queues, q)
    ensures HeapOrdered(heap, queues')
  {
    forall i | 0 < i < |heap|
      ensures AboveParent(heap, queues', i)
    {
      assert AboveParent(heap, queues, i);
      assert heap[i] in heap && heap[(i - 1) / 2] in heap;
    }
  }

  lemma NewInv()
    ensures Inv(NEW) && FloorHolds(NEW)
  {
  }

  lemma CreateKeepsInv(s: Executor, e: Event)
    requires Inv(s) && e.Create?
    ensures Inv(Apply(s, e))
  {
    var s' := Apply(s, e);
    forall q: nat
      ensures Waiting(s', q) == Waiting(s, q)
    {
    }
    forall q | q in s.heap
      ensures Vruntime(s'.queues, q) == Vruntime(s.queues, q)
    {
      InHeap(s, q);
    }
    StaysOrdered(s.heap, s.queues, s'.queues);
  }

  lemma RemoveKeepsInv(s: Executor, e: Event)
    requires Inv(s) && e.Remove?
    ensures Inv(Apply(s, e))
  {
    var s' := Apply(s, e);
    forall q: nat
      ensures Waiting(s', q) == Waiting(s, q)
    {
    }
    forall q | q in s.heap
      ensures Vruntime(s'.queues, q) == Vruntime(s.queues, q)
    {
      InHeap(s, q);
    }
    StaysOrdered(s.heap, s.queues, s'.queues);
  }

  lemma ScheduleKeepsInv(s: Executor, e: Event)
    requires Inv(s) && e.Schedule? && Enabled(s, e)
    ensures Inv(Apply(s, e))
  {
    var s' := Apply(s, e);
    forall q: nat
      ensures multiset(s'.heap)[q] == if Waiting(s', q) then 1 else 0
    {
      assert multiset(s.heap)[q] == if Waiting(s, q) then 1 else 0;
    }
    if s.queues[e.index].active {
      StaysOrdered(s.heap, s.queues, s'.queues);
    }
  }

  lemma BeginKeepsInv(s: Executor, e: Event)
    requires Inv(s) && e.Begin? && Enabled(s, e)
    ensures Inv(Apply(s, e))
  {
    var s' := Apply(s, e);
    var root := s.heap[0];
    InHeap(s, root);
    forall q: nat
      ensures multiset(s'.heap)[q] == if Waiting(s', q) then 1 else 0
    {
      assert multiset(s.heap)[q] == if Waiting(s, q) then 1 else 0;
    }
    StaysOrdered(s'.heap, s.queues, s'.queues);
  }

  lemma TaskKeepsInv(s: Executor, e: Event)
    requires Inv(s) && (e.RunTask? || e.Yield?) && Enabled(s, e)
    ensures Inv(Apply(s, e))
  {
    var s' := Apply(s, e);
    forall q: nat
      ensures Waiting(s', q) == Waiting(s, q)
    {
    }
    StaysOrdered(s.heap, s.queues, s'.queues);
  }

  lemma EndKeepsInv(s: Executor, e: Event)
    requires Inv(s) && e.End? && Enabled(s, e)
    ensures Inv(Apply(s, e))
  {
    var s' := Apply(s, e);
    var x := s.executing.value;
    forall q: nat
      ensures multiset(s'.heap)[q] == if Waiting(s', q) then 1 else 0
    {
      assert multiset(s.heap)[q] == if Waiting(s, q) then 1 else 0;
    }
    if s.queues[x].runnables == [] && !Overflows(s.queues[x], e.nanos) {
      InHeap(s, x);
      StaysOrdered(s.heap, s.queues, s'.queues);
    }
  }

  /** Every event keeps the invariant: a queue is active exactly when it is in the heap once or is the one being run. */
  lemma ApplyKeepsInv(s: Executor, e: Event)
    requires Inv(s) && Enabled(s, e)
    ensures Inv(Apply(s, e))
  {
    match e {
      case Create(_, _) => CreateKeepsInv(s, e);
      case Remove(_) => RemoveKeepsInv(s, e);
      case Schedule(_, _, _) => ScheduleKeepsInv(s, e);
      case Begin(_, _) => BeginKeepsInv(s, e);
      case RunTask => TaskKeepsInv(s, e);
      case Yield => TaskKeepsInv(s, e);
      case End(_, _) => EndKeepsInv(s, e);
    }
  }

  // -------------------------------------------------------------------- runs

  ghost predicate IsRun(s: Executor, events: seq<Event>)
    decreases |events|
  {
    events != [] ==> Enabled(s, events[0]) && IsRun(Apply(s, events[0]), events[1..])
  }

  function After(s: Executor, events: seq<Event>): Executor
    requires IsRun(s, events)
    decreases |events|
  {
    if events == [] then s else After(Apply(s, events[0]), events[1..])
  }

  lemma {:induction false} RunKeepsInv(s: Executor, events: seq<Event>)
    requires Inv(s) && IsRun(s, events)
    ensures Inv(After(s, events))
    decreases |events|
  {
    if events != [] {
      ApplyKeepsInv(s, events[0]);
      RunKeepsInv(Apply(s, events[0]), events[1..]);
    }
  }

  lemma NothingLeft(s: Executor)
    requires Inv(s) && s.executing.None?
    ensures s.heap == [] <==> forall q | q in s.queues :: s.queues[q].runnables == []
  {
    if s.heap == [] {
      forall q | q in s.queues
        ensures s.queues[q].runnables == []
      {
        InHeap(s, q);
      }
    } else {
      InHeap(s, s.heap[0]);
    }
  }

  /**
   Between runs, an empty heap means that no queue holds a runnable task, and the other way
   round: parking is safe.
   */
  lemma {:induction false} IdleMeansNothingRunnable(events: seq<Event>)
    requires IsRun(NEW, events) && After(NEW, events).executing.None?
    ensures var s := After(NEW, events);
            s.heap == [] <==> forall q | q in s.queues :: s.queues[q].runnables == []
  {
    NewInv();
    RunKeepsInv(NEW, events);
    NothingLeft(After(NEW, events));
  }

  /** Removing a queue never discards a runnable task and never leaves a dangling heap entry. */
  lemma {:induction false} RemoveDiscardsNothing(events: seq<Event>, index: nat)
    requires IsRun(NEW, events)
    ensures var s := After(NEW, events);
            var s' := Apply(s, Remove(index));
            && (index in s.queues && index !in s'.queues ==> s.queues[index].runnables == [] && index !in s.heap)
            && (forall q | q in s.queues && q != index :: q in s'.queues && s'.queues[q] == s.queues[q])
            && (index in s'.queues <==> index in s.queues && (s.queues[index].active || s.executing == Some(index)))
  {
    var s := After(NEW, events);
    NewInv();
    RunKeepsInv(NEW, events);
    InHeap(s, index);
  }

  /** While a queue stays in the heap its key does not change, except when a reset makes every key zero. */
  lemma KeysNeverMove(s: Executor, e: Event, q: nat)
    requires Inv(s) && Enabled(s, e) && q in s.heap && q in Apply(s, e).heap
    ensures var s' := Apply(s, e);
            || Vruntime(s'.queues, q) == Vruntime(s.queues, q)
            || (e.End? && forall p | p in s'.queues :: s'.queues[p].vruntime == 0)
  {
    InHeap(s, q);
    ApplyKeepsInv(s, e);
  }

  /**
   A woken queue enters strictly above the floor, and the floor stays a lower bound,
   exactly when the floor is not the largest word; otherwise the queue enters at zero.
   */
  lemma WakesAboveFloor(s: Executor, e: Event)
    requires FloorHolds(s) && Enabled(s, e) && e.Schedule? && !s.queues[e.index].active
    ensures Apply(s, e).queues[e.index].vruntime > s.floor <==> s.floor < WORD - 1
    ensures FloorHolds(Apply(s, e)) <==> s.floor < WORD - 1
    ensures s.floor == WORD - 1 ==> Apply(s, e).queues[e.index].vruntime == 0
  {
    var s' := Apply(s, e);
    assert s'.queues[e.index].active;
  }

  /** No queue wakes while the floor is the largest word. */
  predicate InRange(s: Executor, e: Event)
    requires Enabled(s, e)
  {
    e.Schedule? && !s.queues[e.index].active ==> s.floor < WORD - 1
  }

  /** Every slice costs some virtual time. */
  predicate Charged(s: Executor, e: Event)
    requires Enabled(s, e)
  {
    e.End? ==> Scaled(s.queues[s.executing.value].reciprocal, e.nanos) >= 1
  }

  predicate Ordinary(s: Executor, e: Event)
    requires Enabled(s, e)
  {
    InRange(s, e) && Charged(s, e)
  }

  /** A slice of at least a nanosecond and less than 2^42 costs some, whatever the shares. */
  lemma ShortSliceIsCharged(s: Executor, e: Event)
    requires Inv(s) && Enabled(s, e) && (e.End? ==> 1 <= e.nanos < LONGEST_SLICE)
    ensures Charged(s, e)
  {
    if e.End? {
      ScaledBounds(s.queues[s.executing.value].reciprocal, e.nanos);
    }
  }

  predicate Resets(s: Executor, e: Event)
    requires Enabled(s, e)
  {
    e.End? && Overflows(s.queues[s.executing.value], e.nanos)
  }

  /** When nothing runs, a floor taken from the root of the heap is below everything active. */
  lemma RootIsFloor(s: Executor)
    requires Inv(s) && s.executing.None? && s.floor < WORD
    requires s.heap != [] ==> s.floor == Vruntime(s.queues, s.heap[0])
    ensures FloorHolds(s)
  {
    forall q | q in s.queues && s.queues[q].active
      ensures s.floor <= s.queues[q].vruntime
    {
      InHeap(s, q);
      RootIsLeastOf(s.heap, s.queues, q);
    }
  }

  lemma EndFloor(s: Executor, e: Event)
    requires Inv(s) && FloorHolds(s) && e.End? && Enabled(s, e) && Inv(Apply(s, e))
    ensures var s' := Apply(s, e);
            && s'.floor < WORD && s'.executing.None?
            && (if Resets(s, e) then s'.floor == 0 else s.floor <= s'.floor)
  {
    var s' := Apply(s, e);
    if s'.heap != [] {
      InHeap(s', s'.heap[0]);
    }
  }

  /** Between slices, and in them, virtual runtimes stand still; a new queue is not active yet. */
  lemma QuietFloor(s: Executor, e: Event)
    requires FloorHolds(s) && Enabled(s, e) && !e.End? && !e.Schedule?
    ensures FloorHolds(Apply(s, e)) && Apply(s, e).floor == s.floor
  {
    var s' := Apply(s, e);
    forall q | q in s'.queues && s'.queues[q].active
      ensures q in s.queues && s.queues[q].active && s'.queues[q].vruntime == s.queues[q].vruntime
    {
    }
  }

  lemma ActiveFloor(s: Executor, e: Event)
    requires FloorHolds(s) && Enabled(s, e) && e.Schedule? && s.queues[e.index].active
    ensures FloorHolds(Apply(s, e)) && Apply(s, e).floor == s.floor
  {
    var s' := Apply(s, e);
    assert forall q | q in s'.queues :: s'.queues[q].vruntime == s.queues[q].vruntime;
  }

  /**
   The floor stays below every active virtual runtime exactly unless a queue wakes while
   it is the largest word, and it falls only at a reset.
   */
  lemma FloorKept(s: Executor, e: Event)
    requires Inv(s) && FloorHolds(s) && Enabled(s, e)
    ensures FloorHolds(Apply(s, e)) <==> InRange(s, e)
    ensures !Resets(s, e) ==> s.floor <= Apply(s, e).floor
    ensures Resets(s, e) ==> Apply(s, e).floor == 0
  {
    if e.End? {
      EndKeepsInv(s, e);
      EndFloor(s, e);
      RootIsFloor(Apply(s, e));
    } else if !e.Schedule? {
      QuietFloor(s, e);
    } else if s.queues[e.index].active {
      ActiveFloor(s, e);
    } else {
      WakesAboveFloor(s, e);
    }
  }
}
