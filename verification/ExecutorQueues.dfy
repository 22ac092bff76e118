/**
 The executor's queues as they are updated in place: `ExecutorQueues` and the run loops
 of `executor/mod.rs`, `schedule` and its relatives of `executor/context.rs`. Every
 method is a run of the events of `Scheduler`, so that module's theorems apply to it.
 */
module ExecutorQueues {
  import opened Words
  import opened Options
  import opened Scheduler
  import opened Shares
  import opened Runnables

  /** What a task does to the executor while it is polled. */
  datatype Effect = Wakes(index: nat, task: nat) | Yields | Creates(shares: nat, dynamic: bool) | Removes(index: nat)

  /**
   One visit to a queue: a sample of dynamic shares, what each polled task does before
   preemption, the time it takes.
   */
  datatype Slice = Slice(sample: Option<nat>, polls: seq<seq<Effect>>, nanos: nat)

  datatype Removal = Removed | StillActive | NotFound

  datatype TaskQueueRun = Idle | Runnable

  /** Here the binary heap's array is kept fully sorted, which is one of the heap's arrangements. */
  predicate Sorted(heap: seq<nat>, queues: map<nat, TaskQueue>) {
    forall i, j | 0 <= i < j < |heap| :: Vruntime(queues, heap[i]) <= Vruntime(queues, heap[j])
  }

  lemma SortedIsHeap(heap: seq<nat>, queues: map<nat, TaskQueue>)
    requires Sorted(heap, queues)
    ensures HeapOrdered(heap, queues)
  {
    forall i | 0 < i < |heap|
      ensures AboveParent(heap, queues, i)
    {
      assert 0 <= (i - 1) / 2 < i;
    }
  }

  lemma StaysSorted(heap: seq<nat>, queues: map<nat, TaskQueue>, queues': map<nat, TaskQueue>)
    requires Sorted(heap, queues)
    requires forall q | q in heap :: Vruntime(queues', q) == Vruntime(queues, q)
    ensures Sorted(heap, queues')
  {
    forall i, j | 0 <= i < j < |heap|
      ensures Vruntime(queues', heap[i]) <= Vruntime(queues', heap[j])
    {
      assert heap[i] in heap && heap[j] in heap;
    }
  }

  method Insert(heap: seq<nat>, queues: map<nat, TaskQueue>, q: nat) returns (heap': seq<nat>)
    requires Sorted(heap, queues)
    ensures multiset(heap') == multiset(heap) + multiset{q} && Sorted(heap', queues)
  {
    var i := 0;
    while i < |heap| && Vruntime(queues, heap[i]) <= Vruntime(queues, q)
      invariant 0 <= i <= |heap|
      invariant forall k | 0 <= k < i :: Vruntime(queues, heap[k]) <= Vruntime(queues, q)
    {
      i := i + 1;
    }
    heap' := heap[..i] + [q] + heap[i..];
    InsertedSorted(heap, queues, i, q);
  }

  lemma InsertedSorted(heap: seq<nat>, queues: map<nat, TaskQueue>, at: nat, q: nat)
    requires Sorted(heap, queues) && at <= |heap|
    requires forall k | 0 <= k < at :: Vruntime(queues, heap[k]) <= Vruntime(queues, q)
    requires at < |heap| ==> Vruntime(queues, q) <= Vruntime(queues, heap[at])
    ensures var heap' := heap[..at] + [q] + heap[at..];
            multiset(heap') == multiset(heap) + multiset{q} && Sorted(heap', queues)
  {
    var heap' := heap[..at] + [q] + heap[at..];
    assert heap == heap[..at] + heap[at..];
    forall i, j | 0 <= i < j < |heap'|
      ensures Vruntime(queues, heap'[i]) <= Vruntime(queues, heap'[j])
    {
      InsertedPair(heap, queues, at, q, i, j);
    }
  }

  lemma InsertedPair(heap: seq<nat>, queues: map<nat, TaskQueue>, at: nat, q: nat, i: nat, j: nat)
    requires Sorted(heap, queues) && at <= |heap| && i < j <= |heap|
    requires forall k | 0 <= k < at :: Vruntime(queues, heap[k]) <= Vruntime(queues, q)
    requires at < |heap| ==> Vruntime(queues, q) <= Vruntime(queues, heap[at])
    ensures var heap' := heap[..at] + [q] + heap[at..];
            Vruntime(queues, heap'[i]) <= Vruntime(queues, heap'[j])
  {
    var heap' := heap[..at] + [q] + heap[at..];
    if j < at {
      assert heap'[i] == heap[i] && heap'[j] == heap[j];
    } else if j == at {
      assert heap'[i] == heap[i] && heap'[j] == q;
    } else if i < at {
      assert heap'[i] == heap[i] && heap'[j] == heap[j - 1];
    } else if i == at {
      assert heap'[i] == q && heap'[j] == heap[j - 1];
    } else {
      assert heap'[i] == heap[i - 1] && heap'[j] == heap[j - 1];
    }
  }

  lemma {:induction false} RunsCompose(s: Executor, a: seq<Event>, b: seq<Event>)
    requires IsRun(s, a) && IsRun(After(s, a), b)
    ensures IsRun(s, a + b) && After(s, a + b) == After(After(s, a), b)
    decreases |a|
  {
    if a == [] {
      assert a + b == b;
    } else {
      RunsCompose(Apply(s, a[0]), a[1..], b);
      assert (a + b)[1..] == a[1..] + b;
    }
  }

  lemma {:induction false} OneEvent(s: Executor, e: Event)
    requires Enabled(s, e)
    ensures IsRun(s, [e]) && After(s, [e]) == Apply(s, e)
  {
    assert [e][1..] == [];
    assert After(Apply(s, e), []) == Apply(s, e);
  }

  lemma TailSorted(heap: seq<nat>, queues: map<nat, TaskQueue>)
    requires Sorted(heap, queues) && heap != []
    ensures Sorted(heap[1..], queues) && HeapOrdered(heap[1..], queues)
    ensures multiset(heap[1..]) == multiset(heap) - multiset{heap[0]}
  {
    assert heap == [heap[0]] + heap[1..];
    SortedIsHeap(heap[1..], queues);
  }

  lemma {:induction false} SelectEvent(s: Executor, sample: Option<nat>)
    requires Inv(s) && Sorted(s.heap, s.queues) && s.executing.None? && s.heap != []
    ensures var e := Begin(sample, s.heap[1..]);
            && IsRun(s, [e]) && Enabled(s, e) && After(s, [e]) == Apply(s, e)
            && Inv(Apply(s, e)) && Sorted(Apply(s, e).heap, Apply(s, e).queues)
    ensures forall q | q in s.queues && s.queues[q].active ::
              Vruntime(s.queues, s.heap[0]) <= Vruntime(s.queues, q)
  {
    var e := Begin(sample, s.heap[1..]);
    HeapQueuesExist(s);
    TailSorted(s.heap, s.queues);
    ApplyKeepsInv(s, e);
    OneEvent(s, e);
    StaysSorted(s.heap[1..], s.queues, Apply(s, e).queues);
    forall q | q in s.queues && s.queues[q].active
      ensures Vruntime(s.queues, s.heap[0]) <= Vruntime(s.queues, q)
    {
      InHeap(s, q);
      RootIsLeastOf(s.heap, s.queues, q);
    }
  }

  lemma SliceKeepsSorted(s: Executor, nanos: nat)
    requires Inv(s) && Sorted(s.heap, s.queues) && s.executing.Some?
    ensures Sorted(s.heap, AfterSlice(s, s.executing.value, nanos))
  {
    var x := s.executing.value;
    InHeap(s, x);
    if !Overflows(s.queues[x], nanos) {
      StaysSorted(s.heap, s.queues, AfterSlice(s, x, nanos));
    }
  }

  lemma {:induction false} AccountEvent(s: Executor, nanos: nat, heap: seq<nat>)
    requires Inv(s) && s.executing.Some? && Sorted(heap, AfterSlice(s, s.executing.value, nanos))
    requires if s.queues[s.executing.value].runnables == [] then heap == s.heap
             else multiset(heap) == multiset(s.heap) + multiset{s.executing.value}
    ensures var e := End(nanos, heap);
            IsRun(s, [e]) && Enabled(s, e) && After(s, [e]) == Apply(s, e) && Inv(Apply(s, e))
  {
    var e := End(nanos, heap);
    SortedIsHeap(heap, AfterSlice(s, s.executing.value, nanos));
    ApplyKeepsInv(s, e);
    OneEvent(s, e);
  }

  /** How many tasks were polled. */
  function Tasks(trace: seq<Event>): nat {
    if trace == [] then 0 else (if trace[0].RunTask? then 1 else 0) + Tasks(trace[1..])
  }

  lemma {:induction false} TasksAdd(a: seq<Event>, b: seq<Event>)
    ensures Tasks(a + b) == Tasks(a) + Tasks(b)
  {
    if a == [] {
      assert a + b == b;
    } else {
      TasksAdd(a[1..], b);
      assert (a + b)[1..] == a[1..] + b;
    }
  }

  /** How many slices began. */
  function Begins(trace: seq<Event>): nat {
    if trace == [] then 0 else (if trace[0].Begin? then 1 else 0) + Begins(trace[1..])
  }

  lemma {:induction false} BeginsAdd(a: seq<Event>, b: seq<Event>)
    ensures Begins(a + b) == Begins(a) + Begins(b)
  {
    if a == [] {
      assert a + b == b;
    } else {
      BeginsAdd(a[1..], b);
      assert (a + b)[1..] == a[1..] + b;
    }
  }

  /** When nothing is left, everything that was there or came has been polled. */
  lemma {:induction false} AllPolled(s: Executor, trace: seq<Event>)
    requires Inv(s) && IsRun(s, trace)
    requires forall q | q in After(s, trace).queues :: After(s, trace).queues[q].runnables == []
    ensures forall q: nat :: RunnablesOf(s, q) + ScheduledIn(trace, q) == PolledIn(s, trace, q)
  {
    forall q: nat
      ensures RunnablesOf(s, q) + ScheduledIn(trace, q) == PolledIn(s, trace, q)
    {
      RunConserves(s, trace, q);
      assert PolledIn(s, trace, q) + [] == PolledIn(s, trace, q);
    }
  }

  class Queues {
    var heap: seq<nat>
    var queues: map<nat, TaskQueue>
    var executing: Option<nat>
    var nextIndex: nat
    var floor: nat

    ghost function Snapshot(): Executor
      reads this
    {
      Executor(heap, queues, executing, nextIndex, floor)
    }

    ghost predicate Valid()
      reads this
    {
      Inv(Snapshot()) && Sorted(heap, queues)
    }

    constructor ()
      ensures Valid() && Snapshot() == NEW
    {
      heap, queues, executing, nextIndex, floor := [], map[0 := NewQueue(1000, false)], None, 1, 0;
      new;
      NewInv();
    }

    /** `schedule` for a queue that exists: the runnable is pushed, and an idle queue wakes up. */
    method Schedule(index: nat, task: nat) returns (ghost trace: seq<Event>)
      requires Valid() && index in queues
      modifies this`queues, this`heap
      ensures Valid() && IsRun(old(Snapshot()), trace) && After(old(Snapshot()), trace) == Snapshot()
      ensures trace == [Event.Schedule(index, task, heap)]
      ensures queues.Keys == old(queues.Keys) && queues[index].active
      ensures queues[index].runnables == old(queues[index].runnables) + [task]
    {
      ghost var s := Snapshot();
      InHeap(s, index);
      var q := queues[index];
      queues := queues[index := q.(runnables := q.runnables + [task])];
      MaybeActivate(index);
      ghost var e := Event.Schedule(index, task, heap);
      assert queues == Scheduled(s, index, task);
      ApplyKeepsInv(s, e);
      OneEvent(s, e);
      trace := [e];
    }

    /** `maybe_activate` */
    method MaybeActivate(index: nat)
      requires index in queues && Sorted(heap, queues) && (!queues[index].active ==> index !in heap)
      modifies this`queues, this`heap
      ensures queues == Awoken(old(Snapshot()), index) && Sorted(heap, queues) && HeapOrdered(heap, queues)
      ensures if old(queues)[index].active then heap == old(heap)
              else multiset(heap) == multiset(old(heap)) + multiset{index}
    {
      if !queues[index].active {
        ghost var before := queues;
        queues := queues[index := queues[index].(vruntime := (floor + 1) % WORD, active := true)];
        StaysSorted(heap, before, queues);
        heap := Insert(heap, queues, index);
      }
      SortedIsHeap(heap, queues);
    }

    method CreateTaskQueue(shares: nat, dynamic: bool) returns (index: nat, ghost trace: seq<Event>)
      requires Valid()
      modifies this`queues, this`nextIndex
      ensures Valid() && IsRun(old(Snapshot()), trace) && After(old(Snapshot()), trace) == Snapshot()
      ensures trace == [Create(shares, dynamic)]
      ensures index !in old(queues) && queues == old(queues)[index := NewQueue(shares, dynamic)]
      ensures CurrentShares(queues[index].reciprocal) == Clamped(shares) && queues[index].runnables == []
    {
      SharesRoundTrip(shares);
      ghost var s := Snapshot();
      ghost var e := Create(shares, dynamic);
      index := nextIndex;
      nextIndex := nextIndex + 1;
      queues := queues[index := NewQueue(shares, dynamic)];
      HeapQueuesExist(s);
      StaysSorted(heap, s.queues, queues);
      ApplyKeepsInv(s, e);
      OneEvent(s, e);
      trace := [e];
    }

    /** `schedule` or, for a queue that has been removed, `schedule_cleanup`: another queue takes the runnable. */
    method ScheduleOrCleanUp(index: nat, task: nat) returns (where: nat, ghost trace: seq<Event>)
      requires Valid()
      modifies this
      ensures Valid() && IsRun(old(Snapshot()), trace) && After(old(Snapshot()), trace) == Snapshot()
      ensures Tasks(trace) == 0
      ensures where in queues && task in queues[where].runnables && queues[where].active
      ensures index in old(queues) ==> where == index
      ensures executing == old(executing) && old(queues.Keys) <= queues.Keys
    {
      ghost var s := Snapshot();
      trace := [];
      if index in queues {
        where := index;
      } else if 0 in queues {
        where := 0;
      } else if queues.Keys != {} {
        where :| where in queues.Keys;
      } else {
        where, trace := CreateTaskQueue(1000, false);
      }
      ghost var more := Schedule(where, task);
      TasksAdd(trace, more);
      RunsCompose(s, trace, more);
      trace := trace + more;
    }

    /** `remove_task_queue`: refused while the queue runs or is active; nothing runnable is lost. */
    method RemoveTaskQueue(index: nat) returns (r: Removal, ghost trace: seq<Event>)
      requires Valid()
      modifies this`queues
      ensures Valid() && IsRun(old(Snapshot()), trace) && After(old(Snapshot()), trace) == Snapshot()
      ensures trace == [Remove(index)]
      ensures r == StillActive <==> old(executing) == Some(index) || (index in old(queues) && old(queues)[index].active)
      ensures r == Removed ==>
                index in old(queues) && queues == old(queues) - {index} && old(queues)[index].runnables == []
      ensures r == NotFound <==> index !in old(queues)
    {
      ghost var s := Snapshot();
      ghost var e := Remove(index);
      ApplyKeepsInv(s, e);
      OneEvent(s, e);
      HeapQueuesExist(s);
      trace := [e];
      if executing == Some(index) {
        return StillActive, trace;
      } else if index !in queues {
        return NotFound, trace;
      } else if queues[index].active {
        return StillActive, trace;
      }
      queues := queues - {index};
      StaysSorted(heap, s.queues, queues);
      return Removed, trace;
    }

    /** What one polled task does. */
    method Poll(effects: seq<Effect>) returns (ghost trace: seq<Event>)
      requires Valid() && executing.Some?
      modifies this
      ensures Valid() && IsRun(old(Snapshot()), trace) && After(old(Snapshot()), trace) == Snapshot()
      ensures Tasks(trace) == 0
      ensures executing == old(executing)
    {
      ghost var s := Snapshot();
      trace := [];
      for i := 0 to |effects|
        invariant Valid() && IsRun(s, trace) && After(s, trace) == Snapshot()
        invariant executing == old(executing) && Tasks(trace) == 0
      {
        ghost var more: seq<Event>;
        match effects[i] {
          case Wakes(index, task) =>
            var _, t := ScheduleOrCleanUp(index, task);
            more := t;
          case Creates(shares, dynamic) =>
            var _, t := CreateTaskQueue(shares, dynamic);
            more := t;
          case Removes(index) =>
            var _, t := RemoveTaskQueue(index);
            more := t;
          case Yields =>
            more := MarkForYield();
        }
        TasksAdd(trace, more);
        RunsCompose(s, trace, more);
        trace := trace + more;
      }
    }

    /** `mark_me_for_yield` */
    method MarkForYield() returns (ghost trace: seq<Event>)
      requires Valid() && executing.Some?
      modifies this`queues
      ensures Valid() && IsRun(old(Snapshot()), trace) && After(old(Snapshot()), trace) == Snapshot()
      ensures trace == [Yield]
    {
      ghost var s := Snapshot();
      var x := executing.value;
      InHeap(s, x);
      queues := queues[x := queues[x].(yielded := true)];
      StaysSorted(heap, s.queues, queues);
      ApplyKeepsInv(s, Yield);
      OneEvent(s, Yield);
      trace := [Yield];
    }

    /** `get_task`: the oldest runnable of the queue being run. */
    method GetTask() returns (task: Option<nat>, ghost trace: seq<Event>)
      requires Valid() && executing.Some? && !queues[executing.value].yielded
      modifies this`queues
      ensures Valid() && IsRun(old(Snapshot()), trace) && After(old(Snapshot()), trace) == Snapshot()
      ensures trace == if task.None? then [] else [RunTask]
      ensures var before := old(queues[executing.value].runnables);
              task == if before == [] then None else Some(before[0])
      ensures var q := old(queues[executing.value]);
              queues == if task.None? then old(queues)
                        else old(queues)[executing.value := q.(runnables := q.runnables[1..])]
    {
      ghost var s := Snapshot();
      var x := executing.value;
      if queues[x].runnables == [] {
        return None, [];
      }
      InHeap(s, x);
      task := Some(queues[x].runnables[0]);
      queues := queues[x := queues[x].(runnables := queues[x].runnables[1..])];
      StaysSorted(heap, s.queues, queues);
      ApplyKeepsInv(s, RunTask);
      OneEvent(s, RunTask);
      trace := [RunTask];
    }

    /** The head of `run_one_task_queue`: the queue furthest behind leaves the heap and becomes the one being run. */
    method Select(sample: Option<nat>) returns (ghost trace: seq<Event>)
      requires Valid() && executing.None? && heap != []
      modifies this
      ensures Valid() && IsRun(old(Snapshot()), trace) && After(old(Snapshot()), trace) == Snapshot()
      ensures trace == [Begin(sample, old(heap)[1..])]
      ensures executing == Some(old(heap)[0])
      ensures forall q | q in old(queues) && old(queues)[q].active ::
                Vruntime(old(queues), old(heap)[0]) <= Vruntime(old(queues), q)
    {
      ghost var s := Snapshot();
      SelectEvent(s, sample);
      var x := heap[0];
      heap := heap[1..];
      executing := Some(x);
      queues := queues[x := Prepared(queues[x], sample)];
      trace := [Begin(sample, heap)];
    }

    /** The tail of `run_one_task_queue`: accounting, reset on overflow, back into the heap, new floor. */
    method Account(nanos: nat) returns (ghost trace: seq<Event>)
      requires Valid() && executing.Some?
      modifies this
      ensures Valid() && IsRun(old(Snapshot()), trace) && After(old(Snapshot()), trace) == Snapshot()
      ensures trace == [End(nanos, heap)]
      ensures executing.None?
    {
      ghost var s := Snapshot();
      var x := executing.value;
      SliceKeepsSorted(s, nanos);
      AccountVruntime(x, nanos);
      executing := None;
      if queues[x].active {
        heap := Insert(heap, queues, x);
      }
      floor := if heap == [] then queues[x].vruntime else Vruntime(queues, heap[0]);
      AccountEvent(s, nanos, heap);
      trace := [End(nanos, heap)];
    }

    /** `account_vruntime`, and the loop that sets every virtual runtime to zero when it overflows. */
    method AccountVruntime(x: nat, nanos: nat)
      requires x in queues
      modifies this`queues
      ensures queues == AfterSlice(old(Snapshot()), x, nanos)
    {
      var overflow := Overflows(queues[x], nanos);
      queues := queues[x := Accounted(queues[x], nanos)];
      if overflow {
        queues := map i | i in queues :: queues[i].(vruntime := 0);
      }
    }

    /** `run_one_task_queue`: false exactly when there was no queue to run. */
    method RunOneTaskQueue(slice: Slice) returns (ran: bool, ghost trace: seq<Event>)
      requires Valid() && executing.None?
      modifies this
      ensures Valid() && IsRun(old(Snapshot()), trace) && After(old(Snapshot()), trace) == Snapshot()
      ensures executing.None?
      ensures ran <==> old(heap) != []
      ensures ran ==>
                && |trace| >= 2 && trace[0] == Begin(slice.sample, old(heap)[1..])
                && trace[|trace| - 1] == End(slice.nanos, heap)
      ensures ran ==> Tasks(trace) <= |slice.polls| && Begins(trace) > 0
      ensures !ran ==> trace == []
    {
      ghost var s := Snapshot();
      if heap == [] {
        return false, [];
      }
      trace := Select(slice.sample);
      ghost var during := RunTasks(slice.polls);
      TasksAdd(trace, during);
      RunsCompose(s, trace, during);
      trace := trace + during;
      ghost var after := Account(slice.nanos);
      TasksAdd(trace, after);
      RunsCompose(s, trace, after);
      trace := trace + after;
      ran := true;
    }

    /** The inner loop: tasks are polled until preemption, a yield, or an empty queue. */
    method RunTasks(polls: seq<seq<Effect>>) returns (ghost trace: seq<Event>)
      requires Valid() && executing.Some?
      modifies this
      ensures Valid() && IsRun(old(Snapshot()), trace) && After(old(Snapshot()), trace) == Snapshot()
      ensures executing == old(executing)
      ensures Tasks(trace) <= |polls|
      ensures Tasks(trace) < |polls| ==> queues[executing.value].yielded || queues[executing.value].runnables == []
    {
      ghost var s := Snapshot();
      trace := [];
      var i := 0;
      while i < |polls| && !queues[executing.value].yielded
        invariant 0 <= i <= |polls| && executing == old(executing) && Tasks(trace) == i
        invariant Valid() && IsRun(s, trace) && After(s, trace) == Snapshot()
      {
        var task, taken := GetTask();
        TasksAdd(trace, taken);
        RunsCompose(s, trace, taken);
        trace := trace + taken;
        if task.None? {
          break;
        }
        ghost var done := Poll(polls[i]);
        TasksAdd(trace, done);
        RunsCompose(s, trace, done);
        trace := trace + done;
        i := i + 1;
      }
    }

    /** `run_task_queues`: Idle is reported exactly when no queue anywhere holds a runnable task. */
    method RunTaskQueues(slices: seq<Slice>) returns (r: TaskQueueRun, ghost trace: seq<Event>)
      requires Valid() && executing.None?
      modifies this
      ensures Valid() && IsRun(old(Snapshot()), trace) && After(old(Snapshot()), trace) == Snapshot()
      ensures executing.None?
      ensures r == Idle <==> forall q | q in queues :: queues[q].runnables == []
      ensures r == Runnable ==> Begins(trace) >= |slices|
      ensures r == Idle ==> forall q: nat ::
                RunnablesOf(old(Snapshot()), q) + ScheduledIn(trace, q) == PolledIn(old(Snapshot()), trace, q)
    {
      ghost var s := Snapshot();
      trace := [];
      for i := 0 to |slices|
        invariant Valid() && executing.None? && IsRun(s, trace) && After(s, trace) == Snapshot()
        invariant Begins(trace) >= i
      {
        var ran, more := RunOneTaskQueue(slices[i]);
        BeginsAdd(trace, more);
        RunsCompose(s, trace, more);
        trace := trace + more;
        if !ran {
          NothingLeft(Snapshot());
          AllPolled(s, trace);
          return Idle, trace;
        }
      }
      NothingLeft(Snapshot());
      r := if heap == [] then Idle else Runnable;
      if r == Idle {
        AllPolled(s, trace);
      }
    }
  }

  lemma HeapQueuesExist(s: Executor)
    requires Inv(s)
    ensures forall q | q in s.heap :: q in s.queues && s.queues[q].active && q < s.nextIndex
  {
    forall q | q in s.heap
      ensures q in s.queues && s.queues[q].active
    {
      InHeap(s, q);
    }
  }
}
