/**
 The cancellable latch of `executor/latch.rs` under any number of threads. The counter
 is one atomic word updated by a compare-and-swap loop; the state is set afterwards,
 in a separate step, by whichever thread brought the counter to zero.
 */
module Latch {
  import opened Options

  datatype LatchState = Pending | Ready | Canceled

  datatype Op = CountDown(n: nat) | ArriveAndWait | Cancel | Wait

  datatype Outcome =
    | Counted(previous: nat)
    | NotCounted(previous: nat)
    | CancelDone(previous: nat)
    | Returned(state: LatchState)

  /** Each constructor names what the thread does next. */
  datatype Thread =
    | Load(op: Op)
    | Swap(op: Op, seen: nat)
    | SetState(op: Op, previous: nat, to: LatchState)
    | Await(op: Op)
    | Done(op: Op, outcome: Outcome)

  /**
   `initial`, `arrived`, `counted`, `decided` and `winner` are history: the starting count,
   how much was counted down and by which threads, which state was chosen when the counter
   reached zero, and by whom.
   */
  datatype Latch = Latch(count: nat, state: LatchState, threads: seq<Thread>,
                         initial: nat, arrived: nat, counted: set<nat>, decided: LatchState, winner: Option<nat>)

  function New(count: nat, ops: seq<Op>): Latch {
    var state := if 0 < count then Pending else Ready;
    Latch(count, state, seq(|ops|, i requires 0 <= i < |ops| => Load(ops[i])), count, 0, {}, state, None)
  }

  /** The closures `count_down` and `cancel` hand to `update`. */
  function Update(op: Op, v: nat): Option<nat> {
    match op
    case CountDown(n) => if v >= n then Some(v - n) else None
    case ArriveAndWait => if v >= 1 then Some(v - 1) else None
    case Cancel => if v != 0 then Some(0) else None
    case Wait => None
  }

  function StateIfZero(op: Op): LatchState {
    if op.Cancel? then Canceled else Ready
  }

  function AfterUpdate(op: Op, previous: nat): Thread {
    match op
    case CountDown(_) => Done(op, Counted(previous))
    case Cancel => Done(op, CancelDone(previous))
    case _ => Await(op)
  }

  function AfterRefusal(op: Op, previous: nat): Thread {
    if op.CountDown? then Done(op, NotCounted(previous)) else Await(op)
  }

  /** One step of thread `t`; `spurious` lets the weak compare-and-swap fail for no reason. */
  function Step(l: Latch, t: nat, spurious: bool): (l': Latch)
    ensures |l'.threads| == |l.threads|
  {
    if t >= |l.threads| then l
    else
      match l.threads[t]
      case Load(op) =>
        l.(threads := l.threads[t := if op.Wait? then Await(op) else Swap(op, l.count)])
      case Swap(op, seen) =>
        (match Update(op, seen)
         case None => l.(threads := l.threads[t := AfterRefusal(op, seen)])
         case Some(next) =>
           if spurious || l.count != seen then
             l.(threads := l.threads[t := Swap(op, l.count)])
           else
             var to := StateIfZero(op);
             l.(count := next,
                arrived := if op.Cancel? then l.arrived else l.arrived + (seen - next),
                counted := if op.Cancel? then l.counted else l.counted + {t},
                decided := if next == 0 then to else l.decided,
                winner := if next == 0 then Some(t) else l.winner,
                threads := l.threads[t := if next == 0 then SetState(op, seen, to) else AfterUpdate(op, seen)]))
      case SetState(op, previous, to) =>
        l.(state := to, threads := l.threads[t := AfterUpdate(op, previous)])
      case Await(op) =>
        if l.state.Pending? then l else l.(threads := l.threads[t := Done(op, Returned(l.state))])
      case Done(_, _) => l
  }

  /** A schedule says which thread steps next and whether its swap fails spuriously. */
  function Run(l: Latch, schedule: seq<(nat, bool)>): (l': Latch)
    ensures |l'.threads| == |l.threads|
  {
    if schedule == [] then l
    else
      var last := schedule[|schedule| - 1];
      Step(Run(l, schedule[..|schedule| - 1]), last.0, last.1)
  }

  /** The decrement is at least one. */
  predicate Proper(op: Op) {
    op.CountDown? ==> op.n >= 1
  }

  /** Thread `t` is about to take nothing off a counter that it found at zero, and then to set the state. */
  predicate Overturns(l: Latch, t: nat) {
    t < |l.threads| && l.threads[t].Swap? && l.threads[t].seen == 0 && !Proper(l.threads[t].op)
  }

  /** No step of the run counts zero down from a counter at zero. */
  predicate Tidy(l: Latch, schedule: seq<(nat, bool)>) {
    schedule == [] ||
    (&& Tidy(l, schedule[..|schedule| - 1])
     && !Overturns(Run(l, schedule[..|schedule| - 1]), schedule[|schedule| - 1].0))
  }

  predicate AllProper(threads: seq<Thread>) {
    forall t | 0 <= t < |threads| :: Proper(threads[t].op)
  }

  /** Decrements of at least one are always tidy. */
  lemma {:induction false} ProperIsTidy(l: Latch, schedule: seq<(nat, bool)>)
    requires AllProper(l.threads)
    ensures Tidy(l, schedule) && AllProper(Run(l, schedule).threads)
  {
    if schedule != [] {
      ProperIsTidy(l, schedule[..|schedule| - 1]);
    }
  }

  /** How much an operation takes off the counter. */
  function Decrement(op: Op): nat {
    match op
    case CountDown(n) => n
    case ArriveAndWait => 1
    case _ => 0
  }

  /** What the threads that have counted took off together. */
  function Total(threads: seq<Thread>, counted: set<nat>): nat {
    if threads == [] then 0
    else
      var n := |threads| - 1;
      Total(threads[..n], counted) + if n in counted then Decrement(threads[n].op) else 0
  }

  /** The operation has had its effect, or the counter has reached zero without it. */
  predicate Effective(l: Latch, t: nat, op: Op) {
    op.Wait? || t in l.counted || l.count == 0
  }

  /** Where a thread stands, and what it has done to the counter: it is refused only if too little is left. */
  ghost predicate ThreadInv(l: Latch, t: nat)
    requires t < |l.threads|
  {
    match l.threads[t]
    case Load(_) => t !in l.counted
    case Swap(op, seen) => t !in l.counted && l.count <= seen && !op.Wait?
    case SetState(op, previous, to) =>
      && l.winner == Some(t) && l.decided == to == StateIfZero(op) && l.state.Pending?
      && (if op.Cancel? then previous > 0 else t in l.counted) && !op.Wait?
    case Await(op) => !op.CountDown? && Effective(l, t, op)
    case Done(op, Counted(_)) => op.CountDown? && t in l.counted
    case Done(op, NotCounted(previous)) => op.CountDown? && t !in l.counted && l.count <= previous < op.n
    case Done(op, CancelDone(previous)) => op.Cancel? && previous > 0 && l.winner == Some(t) && l.decided.Canceled?
    case Done(op, Returned(state)) =>
      !state.Pending? && l.state == state && !op.CountDown? && Effective(l, t, op)
  }

  ghost predicate SharedOk(l: Latch) {
    && (l.count > 0 ==> l.decided.Pending? && l.winner.None? && l.count + l.arrived == l.initial)
    && (l.count == 0 ==> !l.decided.Pending?)
    && (l.state.Pending? || l.state == l.decided)
    && (l.state.Pending? && l.count == 0 ==>
          l.winner.Some? && l.winner.value < |l.threads| && l.threads[l.winner.value].SetState?)
    && (l.decided.Ready? ==> l.arrived == l.initial)
    && (l.count == 0 && l.initial > 0 ==> l.winner.Some?)
  }

  ghost predicate Inv(l: Latch) {
    && SharedOk(l)
    && l.arrived == Total(l.threads, l.counted)
    && forall t: nat | t < |l.threads| :: ThreadInv(l, t)
  }

  lemma {:induction false} TotalKept(threads: seq<Thread>, threads': seq<Thread>, counted: set<nat>, counted': set<nat>)
    requires |threads| == |threads'|
    requires forall i | 0 <= i < |threads| :: threads'[i].op == threads[i].op && (i in counted <==> i in counted')
    ensures Total(threads', counted') == Total(threads, counted)
    decreases |threads|
  {
    if threads != [] {
      TotalKept(threads[..|threads| - 1], threads'[..|threads| - 1], counted, counted');
    }
  }

  lemma {:induction false} TotalGrows(threads: seq<Thread>, threads': seq<Thread>, counted: set<nat>, t: nat)
    requires |threads| == |threads'| && t < |threads| && t !in counted
    requires forall i | 0 <= i < |threads| :: threads'[i].op == threads[i].op
    ensures Total(threads', counted + {t}) == Total(threads, counted) + Decrement(threads[t].op)
    decreases |threads|
  {
    var n := |threads| - 1;
    if t == n {
      TotalKept(threads[..n], threads'[..n], counted, counted + {t});
    } else {
      TotalGrows(threads[..n], threads'[..n], counted, t);
    }
  }

  lemma StepSameOps(l: Latch, t: nat, spurious: bool)
    ensures var l' := Step(l, t, spurious);
            |l'.threads| == |l.threads| && forall i | 0 <= i < |l.threads| :: l'.threads[i].op == l.threads[i].op
  {
  }

  /** Each step counts what it takes off. */
  lemma StepCounts(l: Latch, t: nat, spurious: bool)
    requires Inv(l)
    ensures Step(l, t, spurious).arrived == Total(Step(l, t, spurious).threads, Step(l, t, spurious).counted)
  {
    var l' := Step(l, t, spurious);
    StepSameOps(l, t, spurious);
    if t < |l.threads| {
      assert ThreadInv(l, t);
    }
    if l'.counted == l.counted {
      TotalKept(l.threads, l'.threads, l.counted, l'.counted);
    } else {
      TotalGrows(l.threads, l'.threads, l.counted, t);
    }
  }

  /** The step of thread `t` as the others see it: the counter never grows, and a decision is made once. */
  lemma OthersKeepInv(l: Latch, t: nat, spurious: bool, u: nat)
    requires Inv(l) && !Overturns(l, t) && t < |l.threads| && u < |l.threads| && u != t
    ensures ThreadInv(Step(l, t, spurious), u)
  {
    assert ThreadInv(l, t) && ThreadInv(l, u);
  }

  lemma OwnInv(l: Latch, t: nat, spurious: bool)
    requires Inv(l) && !Overturns(l, t) && t < |l.threads|
    ensures ThreadInv(Step(l, t, spurious), t)
  {
    assert ThreadInv(l, t);
  }

  lemma SharedInv(l: Latch, t: nat, spurious: bool)
    requires Inv(l) && !Overturns(l, t) && t < |l.threads|
    ensures SharedOk(Step(l, t, spurious))
  {
    assert ThreadInv(l, t);
  }

  lemma StepKeepsInv(l: Latch, t: nat, spurious: bool)
    requires Inv(l) && !Overturns(l, t)
    ensures Inv(Step(l, t, spurious))
  {
    if t < |l.threads| {
      StepCounts(l, t, spurious);
      SharedInv(l, t, spurious);
      forall u: nat | u < |l.threads|
        ensures ThreadInv(Step(l, t, spurious), u)
      {
        if u == t { OwnInv(l, t, spurious); } else { OthersKeepInv(l, t, spurious, u); }
      }
    }
  }

  lemma {:induction false} RunKeepsInv(l: Latch, schedule: seq<(nat, bool)>)
    requires Inv(l) && Tidy(l, schedule)
    ensures Inv(Run(l, schedule))
  {
    if schedule != [] {
      RunKeepsInv(l, schedule[..|schedule| - 1]);
      var last := schedule[|schedule| - 1];
      StepKeepsInv(Run(l, schedule[..|schedule| - 1]), last.0, last.1);
    }
  }

  lemma {:induction false} Reachable(count: nat, ops: seq<Op>, schedule: seq<(nat, bool)>)
    requires Tidy(New(count, ops), schedule)
    ensures Inv(Run(New(count, ops), schedule))
  {
    NoneCounted(New(count, ops).threads);
    RunKeepsInv(New(count, ops), schedule);
  }

  lemma {:induction false} NoneCounted(threads: seq<Thread>)
    ensures Total(threads, {}) == 0
  {
    if threads != [] {
      NoneCounted(threads[..|threads| - 1]);
    }
  }

  /** What a thread learnt about how the latch ended, if it learnt anything. */
  function Verdict(thread: Thread): Option<LatchState> {
    match thread
    case Done(_, Returned(state)) => Some(state)
    case Done(_, CancelDone(_)) => Some(Canceled)
    case _ => None
  }

  /** In every interleaving, all waiters and cancellers agree, and never on Pending. */
  lemma {:induction false} Agreement(count: nat, ops: seq<Op>, schedule: seq<(nat, bool)>, i: nat, j: nat)
    requires Tidy(New(count, ops), schedule)
    requires i < |ops| && j < |ops|
    ensures var l := Run(New(count, ops), schedule);
            var vi, vj := Verdict(l.threads[i]), Verdict(l.threads[j]);
            && (vi.Some? ==> !vi.value.Pending? && vi.value == l.decided)
            && (vi.Some? && vj.Some? ==> vi == vj)
  {
    Reachable(count, ops, schedule);
    var l := Run(New(count, ops), schedule);
    assert ThreadInv(l, i) && ThreadInv(l, j);
  }

  predicate DidCancel(thread: Thread) {
    thread.Done? && thread.outcome.CancelDone?
  }

  /** At most one cancellation succeeds, and it is the call that brought the counter to zero. */
  lemma {:induction false} OneCancellation(count: nat, ops: seq<Op>, schedule: seq<(nat, bool)>, i: nat, j: nat)
    requires Tidy(New(count, ops), schedule)
    requires i < |ops| && j < |ops|
    ensures var l := Run(New(count, ops), schedule);
            && (DidCancel(l.threads[i]) ==> l.winner == Some(i))
            && (DidCancel(l.threads[i]) && DidCancel(l.threads[j]) ==> i == j)
  {
    Reachable(count, ops, schedule);
    var l := Run(New(count, ops), schedule);
    assert ThreadInv(l, i) && ThreadInv(l, j);
  }

  /** How a thread has come off: whether what it takes off was taken, and if not, that too little was left. */
  predicate Accounted(l: Latch, t: nat)
    requires t < |l.threads|
  {
    match l.threads[t]
    case Done(op, Counted(_)) => op.CountDown? && t in l.counted
    case Done(op, NotCounted(_)) => op.CountDown? && t !in l.counted && l.count < Decrement(op)
    case Done(op, CancelDone(previous)) => op.Cancel? && previous > 0
    case Done(op, Returned(_)) =>
      (match op
       case CountDown(_) => false
       case ArriveAndWait => t in l.counted || l.count < Decrement(op)
       case Cancel => l.count == 0
       case Wait => true)
    case _ => true
  }

  /**
   Every arrival counts: in every interleaving, what has arrived is the sum of what the
   threads that counted take off, and a thread ends without having counted only if less than that is left.
   */
  lemma {:induction false} EveryArrivalCounts(count: nat, ops: seq<Op>, schedule: seq<(nat, bool)>, i: nat)
    requires Tidy(New(count, ops), schedule) && i < |ops|
    ensures var l := Run(New(count, ops), schedule);
            && l.arrived == Total(l.threads, l.counted) && Accounted(l, i)
            && (l.count > 0 ==> l.count + Total(l.threads, l.counted) == count)
  {
    Reachable(count, ops, schedule);
    var l := Run(New(count, ops), schedule);
    assert ThreadInv(l, i);
    InitialNeverChanges(New(count, ops), schedule);
  }

  /** Ready is only ever reported once the whole count has arrived, and the last arrival always decides. */
  lemma {:induction false} ReadyMeansAllArrived(count: nat, ops: seq<Op>, schedule: seq<(nat, bool)>, i: nat)
    requires Tidy(New(count, ops), schedule)
    requires i < |ops|
    ensures var l := Run(New(count, ops), schedule);
            && l.initial == count
            && (Verdict(l.threads[i]) == Some(Ready) ==> l.arrived == count)
            && (l.arrived == count ==> l.count == 0 && !l.decided.Pending?)
  {
    Reachable(count, ops, schedule);
    var l := Run(New(count, ops), schedule);
    assert ThreadInv(l, i);
    InitialNeverChanges(New(count, ops), schedule);
  }

  lemma {:induction false} InitialNeverChanges(l: Latch, schedule: seq<(nat, bool)>)
    ensures Run(l, schedule).initial == l.initial
  {
    if schedule != [] {
      InitialNeverChanges(l, schedule[..|schedule| - 1]);
    }
  }

  /** Once some call has brought the counter to zero, that call and its choice stand for the rest of the run. */
  lemma {:induction false} DecidedOnce(l: Latch, schedule: seq<(nat, bool)>)
    requires Inv(l) && l.count == 0 && Tidy(l, schedule)
    ensures var l' := Run(l, schedule);
            l'.count == 0 && l'.winner == l.winner && l'.decided == l.decided
            && (!l.state.Pending? ==> l'.state == l.state)
  {
    if schedule != [] {
      var mid := Run(l, schedule[..|schedule| - 1]);
      DecidedOnce(l, schedule[..|schedule| - 1]);
      RunKeepsInv(l, schedule[..|schedule| - 1]);
      var t := schedule[|schedule| - 1].0;
      if t < |mid.threads| {
        assert ThreadInv(mid, t);
      }
    }
  }

  /** No wait is left hanging: once the counter is zero, a step of the deciding thread releases everyone. */
  lemma DeciderReleases(l: Latch, t: nat)
    requires Inv(l) && l.count == 0 && t < |l.threads| && l.threads[t].Await?
    ensures var ready := if l.state.Pending? then Step(l, l.winner.value, false) else l;
            && ready.threads[t].Await?
            && Step(ready, t, false).threads[t] == Done(l.threads[t].op, Returned(l.decided))
  {
    if l.state.Pending? {
      assert ThreadInv(l, l.winner.value);
    }
  }

  /** A step overturns a cancellation exactly when it counts zero down from zero. */
  lemma OverturnedIff(l: Latch, t: nat)
    requires Inv(l) && l.count == 0 && l.decided.Canceled?
    ensures Step(l, t, false).decided.Canceled? <==> !Overturns(l, t)
  {
    if t < |l.threads| {
      assert ThreadInv(l, t);
    }
  }

  lemma {:induction false} ThreeSteps(l: Latch, t: nat)
    ensures Run(l, [(t, false), (t, false), (t, false)])
            == Step(Step(Step(l, t, false), t, false), t, false)
  {
    var three := [(t, false), (t, false), (t, false)];
    assert three[..2] == [(t, false), (t, false)] && three[..2][..1] == [(t, false)];
    assert Run(l, three[..2][..1]) == Step(l, t, false);
    assert Run(l, three[..2]) == Step(Step(l, t, false), t, false);
  }

  /**
   Why zero must not be counted down from zero: on a cancelled latch, a `count_down` of
   `n` leaves the verdict alone exactly when `n` is not zero. With zero it sets Ready.
   */
  lemma {:induction false} ZeroCountDownOverturns(l: Latch, t: nat)
    requires l.count == 0 && l.state.Canceled? && t < |l.threads|
    requires l.threads[t].Load? && l.threads[t].op.CountDown?
    ensures var after := Run(l, [(t, false), (t, false), (t, false)]);
            after.state.Canceled? <==> Proper(l.threads[t].op)
    ensures var after := Run(l, [(t, false), (t, false), (t, false)]);
            !Proper(l.threads[t].op) ==> after.state.Ready? && after.threads == l.threads[t := after.threads[t]]
  {
    ThreeSteps(l, t);
  }

  lemma {:induction false} RunConcat(l: Latch, first: seq<(nat, bool)>, second: seq<(nat, bool)>)
    ensures Run(l, first + second) == Run(Run(l, first), second)
    decreases |second|
  {
    if second == [] {
      assert first + second == first;
    } else {
      var n := |second| - 1;
      RunConcat(l, first, second[..n]);
      assert (first + second)[..|first + second| - 1] == first + second[..n];
    }
  }

  /** For example: a latch is cancelled, the canceller is told so, and a `count_down(0)` then makes it ready. */
  lemma {:induction false} CancelledThenReady(count: nat) returns (schedule: seq<(nat, bool)>)
    requires count > 0
    ensures var l := Run(New(count, [Cancel, CountDown(0)]), schedule);
            l.threads[0] == Done(Cancel, CancelDone(count)) && l.state.Ready? && l.arrived == 0
  {
    var l := New(count, [Cancel, CountDown(0)]);
    var cancel, zero := [(0, false), (0, false), (0, false)], [(1, false), (1, false), (1, false)];
    schedule := cancel + zero;
    ThreeSteps(l, 0);
    var mid := Run(l, cancel);
    ThreeSteps(mid, 1);
    RunConcat(l, cancel, zero);
  }
}
