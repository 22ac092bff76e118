/**
 Starvation freedom of the scheduler: in every endless run, whatever is created, woken
 or removed meanwhile, a queue in the heap is selected after finitely many selections.
 */
module Starvation {
  import opened Words
  import opened Options
  import opened Shares
  import opened Scheduler

  /** An endless run: a state and an event for every moment. */
  ghost predicate StepAt(run: nat -> Executor, events: nat -> Event, n: nat) {
    && Enabled(run(n), events(n)) && Ordinary(run(n), events(n))
    && run(n + 1) == Apply(run(n), events(n))
  }

  /** It may begin with the new executor, or in any other state that meets the invariants. */
  ghost predicate Behaviour(run: nat -> Executor, events: nat -> Event) {
    Inv(run(0)) && FloorHolds(run(0)) && forall n: nat :: StepAt(run, events, n)
  }

  lemma {:induction false} BehaviourInv(run: nat -> Executor, events: nat -> Event, n: nat)
    requires Behaviour(run, events)
    ensures Inv(run(n)) && FloorHolds(run(n))
  {
    if n != 0 {
      BehaviourInv(run, events, n - 1);
      assert StepAt(run, events, n - 1);
      StepKeeps(run(n - 1), events(n - 1));
    }
  }

  lemma StepKeeps(s: Executor, e: Event)
    requires Inv(s) && FloorHolds(s) && Enabled(s, e) && Ordinary(s, e)
    ensures Inv(Apply(s, e)) && FloorHolds(Apply(s, e))
  {
    ApplyKeepsInv(s, e);
    FloorKept(s, e);
  }

  // ------------------------------------------------------------- the measure

  /** The most virtual time one slice can add. */
  const LARGEST_STEP: nat := 1024 * LONGEST_SLICE

  lemma ScaledIsBounded(reciprocal: nat, nanos: nat)
    ensures Scaled(reciprocal, nanos) < LARGEST_STEP
  {
  }

  /** Resets that may still come before `x` is selected: its own key near the top, or the running queue ahead of it. */
  function Threats(s: Executor, x: nat): nat {
    (if Vruntime(s.queues, x) + LARGEST_STEP >= WORD then 1 else 0)
    + (if s.executing.Some? && Vruntime(s.queues, s.executing.value) > Vruntime(s.queues, x) then 1 else 0)
  }

  /** How far the key of `x` is above the floor. */
  function Height(s: Executor, x: nat): nat {
    SaturatingSub(Vruntime(s.queues, x), s.floor)
  }

  /** The queues in the heap that stand on the floor. */
  function OnFloor(s: Executor): set<nat> {
    set q | q in s.heap && Vruntime(s.queues, q) == s.floor
  }

  /** Whether one more `Begin` or `End` must pass before the measure falls. */
  function Phase(s: Executor): nat {
    if s.executing.Some? <==> OnFloor(s) != {} then 1 else 0
  }

  /** The measure of `s'` is below that of `s`, in lexicographic order. */
  predicate Below(s': Executor, s: Executor, x: nat) {
    var t', t, h', h, f', f := Threats(s', x), Threats(s, x), Height(s', x), Height(s, x), |OnFloor(s')|, |OnFloor(s)|;
    t' < t || (t' <= t && (h' < h || (h' == h && (f' < f || (f' == f && Phase(s') < Phase(s))))))
  }

  predicate SameMeasure(s': Executor, s: Executor, x: nat) {
    Threats(s', x) == Threats(s, x) && Height(s', x) == Height(s, x)
    && OnFloor(s') == OnFloor(s) && s'.executing.Some? == s.executing.Some?
  }

  /** Creating, removing, scheduling and running tasks leave the measure alone: newcomers enter above the floor. */
  lemma OthersKeepMeasure(s: Executor, e: Event, x: nat)
    requires Inv(s) && FloorHolds(s) && Enabled(s, e) && Ordinary(s, e)
    requires x in s.heap && !e.Begin? && !e.End?
    ensures x in Apply(s, e).heap && SameMeasure(Apply(s, e), s, x)
  {
    var s' := Apply(s, e);
    ApplyKeepsInv(s, e);
    InHeap(s, x);
    InHeap(s', x);
    forall q: nat
      ensures q in OnFloor(s') <==> q in OnFloor(s)
    {
      InHeap(s, q);
      InHeap(s', q);
    }
  }

  /** Selecting another queue takes one off the floor, or, when the floor is bare, readies the floor to rise. */
  lemma BeginLowersMeasure(s: Executor, e: Event, x: nat)
    requires Inv(s) && FloorHolds(s) && Enabled(s, e)
    requires e.Begin? && x in s.heap && s.heap[0] != x
    ensures x in Apply(s, e).heap && Below(Apply(s, e), s, x)
  {
    var s' := Apply(s, e);
    var root := s.heap[0];
    ApplyKeepsInv(s, e);
    InHeap(s, x);
    InHeap(s, root);
    InHeap(s', x);
    RootIsLeastOf(s.heap, s.queues, x);
    forall q: nat
      ensures q in OnFloor(s') <==> q in OnFloor(s) && q != root
    {
      InHeap(s, q);
      InHeap(s', q);
    }
    assert OnFloor(s') == OnFloor(s) - {root};
    if OnFloor(s) != {} {
      var q :| q in OnFloor(s);
      RootIsLeastOf(s.heap, s.queues, q);
      assert root in OnFloor(s);
    }
  }

  /** A reset was one of the threats, and leaves none. */
  lemma ResetLowersMeasure(s: Executor, e: Event, x: nat)
    requires Inv(s) && FloorHolds(s) && Enabled(s, e) && Ordinary(s, e) && Resets(s, e) && x in s.heap
    ensures x in Apply(s, e).heap && Below(Apply(s, e), s, x)
  {
    var s' := Apply(s, e);
    var q := s.executing.value;
    ApplyKeepsInv(s, e);
    InHeap(s, x);
    InHeap(s', x);
    ScaledIsBounded(s.queues[q].reciprocal, e.nanos);
    assert Threats(s, x) >= 1 && Threats(s', x) == 0;
  }

  lemma EndKeepsKey(s: Executor, e: Event, x: nat)
    requires Inv(s) && Enabled(s, e) && e.End? && !Resets(s, e) && x in s.heap
    ensures var s' := Apply(s, e);
            x in s'.heap && Vruntime(s'.queues, x) == Vruntime(s.queues, x) && Threats(s', x) <= Threats(s, x)
  {
    ApplyKeepsInv(s, e);
    InHeap(s, x);
    InHeap(Apply(s, e), x);
  }

  lemma FloorRises(s: Executor, e: Event, x: nat)
    requires Inv(s) && FloorHolds(s) && Enabled(s, e) && Ordinary(s, e) && e.End? && !Resets(s, e)
    requires OnFloor(s) == {} && x in Apply(s, e).heap
    ensures s.floor < Apply(s, e).floor <= Vruntime(Apply(s, e).queues, x)
  {
    var s' := Apply(s, e);
    var q, root := s.executing.value, s'.heap[0];
    ApplyKeepsInv(s, e);
    RootIsLeastOf(s'.heap, s'.queues, x);
    InHeap(s', root);
    if root != q {
      InHeap(s, root);
      assert root !in OnFloor(s);
    }
  }

  /** The end of a slice without a reset: either the floor is still occupied, or it rises. */
  lemma EndLowersMeasure(s: Executor, e: Event, x: nat)
    requires Inv(s) && FloorHolds(s) && Enabled(s, e) && Ordinary(s, e) && e.End? && !Resets(s, e) && x in s.heap
    ensures x in Apply(s, e).heap && Below(Apply(s, e), s, x)
  {
    EndKeepsKey(s, e, x);
    if OnFloor(s) == {} {
      FloorRises(s, e, x);
    } else {
      StillOccupied(s, e);
    }
  }

  lemma StillOccupied(s: Executor, e: Event)
    requires Inv(s) && FloorHolds(s) && Enabled(s, e) && Ordinary(s, e) && e.End? && !Resets(s, e)
    requires OnFloor(s) != {}
    ensures var s' := Apply(s, e); s'.floor == s.floor && OnFloor(s') == OnFloor(s)
  {
    var s' := Apply(s, e);
    ApplyKeepsInv(s, e);
    FloorKept(s, e);
    var p :| p in OnFloor(s);
    InHeap(s, p);
    InHeap(s', p);
    RootIsLeastOf(s'.heap, s'.queues, p);
    forall q: nat
      ensures q in OnFloor(s') <==> q in OnFloor(s)
    {
      InHeap(s, q);
      InHeap(s', q);
    }
  }

  lemma StepLowersMeasure(s: Executor, e: Event, x: nat)
    requires Inv(s) && FloorHolds(s) && Enabled(s, e) && Ordinary(s, e)
    requires x in s.heap && !(e.Begin? && s.heap[0] == x)
    ensures x in Apply(s, e).heap
    ensures if e.Begin? || e.End? then Below(Apply(s, e), s, x) else SameMeasure(Apply(s, e), s, x)
  {
    if e.Begin? {
      BeginLowersMeasure(s, e, x);
    } else if !e.End? {
      OthersKeepMeasure(s, e, x);
    } else if Resets(s, e) {
      ResetLowersMeasure(s, e, x);
    } else {
      EndLowersMeasure(s, e, x);
    }
  }

  // ------------------------------------------------------------- the theorem

  /** Either `x` is selected at moment `n`, or the next moment is one step closer to that. */
  lemma Progress(run: nat -> Executor, events: nat -> Event, x: nat, n: nat) returns (selected: bool)
    requires Behaviour(run, events) && x in run(n).heap
    ensures selected ==> events(n).Begin? && run(n).heap[0] == x
    ensures !selected ==> x in run(n + 1).heap
    ensures !selected && (events(n).Begin? || events(n).End?) ==> Below(run(n + 1), run(n), x)
    ensures !selected && !(events(n).Begin? || events(n).End?) ==> SameMeasure(run(n + 1), run(n), x)
  {
    BehaviourInv(run, events, n);
    assert StepAt(run, events, n);
    selected := events(n).Begin? && run(n).heap[0] == x;
    if !selected {
      StepLowersMeasure(run(n), events(n), x);
    }
  }

  /**
   Follows the run from moment `n`, at which `x` is in the heap, to the moment at which
   it is selected. `e` is a moment, not before `n`, at which a slice ends; `next` names
   one such moment after any other: the executor keeps running queues.
   */
  lemma {:induction false} SelectedAfter(run: nat -> Executor, events: nat -> Event, next: nat -> nat, x: nat,
                                         n: nat, e: nat)
    returns (m: nat)
    requires Behaviour(run, events)
    requires forall i: nat :: next(i) >= i && events(next(i)).End?
    requires x in run(n).heap && n <= e && events(e).End?
    ensures m >= n && events(m).Begin? && run(m).heap != [] && run(m).heap[0] == x
    decreases Threats(run(n), x), Height(run(n), x), |OnFloor(run(n))|, Phase(run(n)), e - n
  {
    var selected := Progress(run, events, x, n);
    if selected {
      m := n;
    } else {
      if events(n).Begin? || events(n).End? {
        m := SelectedAfter(run, events, next, x, n + 1, next(n + 1));
      } else {
        m := SelectedAfter(run, events, next, x, n + 1, e);
      }
    }
  }

  /** No starvation: every queue that is active and not running is selected at some later moment. */
  lemma NoStarvation(run: nat -> Executor, events: nat -> Event, next: nat -> nat, x: nat, n: nat)
    requires Behaviour(run, events)
    requires forall i: nat :: next(i) >= i && events(next(i)).End?
    requires Waiting(run(n), x)
    ensures exists m: nat :: m >= n && events(m).Begin? && run(m).heap != [] && run(m).heap[0] == x
  {
    BehaviourInv(run, events, n);
    InHeap(run(n), x);
    var m := SelectedAfter(run, events, next, x, n, next(n));
  }
}
