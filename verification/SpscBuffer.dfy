/**
 The ring as one owner runs it: the calls of `spsc_queue.rs` made without the other
 side stepping in between, on the buffer's own fields. Each call is shown to be a
 run of the atomic steps of `SpscRing`, so the interleaved invariant carries over.
 */
module SpscBuffer {
  import opened Words
  import opened Options
  import opened SpscRing

  function Gulp<T>(s: System<T>, k: nat): (s': System<T>)
    requires |s.mem.slots| > 0
    ensures |s'.mem.slots| == |s.mem.slots|
    decreases k
  {
    if k == 0 then s else Gulp(StepConsumer(s), k - 1)
  }

  lemma {:induction false} GulpKeepsInv<T>(s: System<T>, k: nat)
    requires Inv(s)
    ensures Inv(Gulp(s, k))
    decreases k
  {
    if k != 0 {
      StepConsumerInv(s);
      GulpKeepsInv(StepConsumer(s), k - 1);
    }
  }

  lemma {:induction false} StepsKeepInv<T>(s: System<T>, k: nat)
    requires Inv(s)
    ensures Inv(Steps(s, k))
    decreases k
  {
    if k != 0 {
      StepProducerInv(s);
      StepsKeepInv(StepProducer(s), k - 1);
    }
  }

  ghost predicate AtRest<T>(s: System<T>) {
    && InvSlots(s) && InvCounters(s)
    && s.producer.PIdle? && s.consumer.CIdle? && !s.consumer.reply.Ended? && !s.consumer.reply.Sized?
  }

  /** A pop that nobody interrupts, and any number of steps for which the consumer then rests. */
  function PopAlone<T>(s: System<T>, spare: nat): System<T>
    requires |s.mem.slots| > 0
  {
    Gulp(Apply(s, StartPop), spare + 5)
  }

  lemma ThenGulp<T>(s: System<T>, s': System<T>, k: nat)
    requires |s.mem.slots| > 0 && StepConsumer(s) == s'
    ensures Gulp(s, k + 1) == Gulp(s', k)
  {
  }

  lemma {:induction false} StillResting<T>(s: System<T>, k: nat)
    requires |s.mem.slots| > 0 && s.consumer.CIdle?
    ensures Gulp(s, k) == s
    decreases k
  {
    if k != 0 {
      StillResting(s, k - 1);
    }
  }

  lemma PopEmpty<T>(s: System<T>, k: nat)
    requires |s.mem.slots| > 0 && s.consumer.CIdle?
    requires !s.mem.slots[At(s.mem.head, |s.mem.slots|)].full
    ensures PopAlone(s, k) == s.(consumer := CIdle(Empty))
  {
    var h, done := s.mem.head, s.(consumer := CIdle(Empty));
    ThenGulp(s.(consumer := LoadHead(Pop)), s.(consumer := LoadFlag(Pop, h)), k + 4);
    ThenGulp(s.(consumer := LoadFlag(Pop, h)), done, k + 3);
    StillResting(done, k + 3);
  }

  lemma PopFull<T>(s: System<T>, n: nat)
    requires |s.mem.slots| > 0 && s.consumer.CIdle?
    requires s.mem.slots[At(s.mem.head, |s.mem.slots|)].full
    requires s.mem.slots[At(s.mem.head, |s.mem.slots|)].value.Some?
    ensures var k := At(s.mem.head, |s.mem.slots|);
            var v := s.mem.slots[k].value.value;
            PopAlone(s, n) == s.(mem := s.mem.(slots := s.mem.slots[k := s.mem.slots[k].(full := false)],
                                               head := Wrap(s.mem.head + 1)),
                                 log := s.log.(popped := s.log.popped + [v]), consumer := CIdle(Got(v)))
  {
    var h := s.mem.head;
    var k := At(h, |s.mem.slots|);
    var v := s.mem.slots[k].value.value;
    var cleared := s.(mem := s.mem.(slots := s.mem.slots[k := s.mem.slots[k].(full := false)]),
                      log := s.log.(popped := s.log.popped + [v]));
    var done := cleared.(mem := cleared.mem.(head := Wrap(h + 1)), consumer := CIdle(Got(v)));
    ThenGulp(s.(consumer := LoadHead(Pop)), s.(consumer := LoadFlag(Pop, h)), n + 4);
    ThenGulp(s.(consumer := LoadFlag(Pop, h)), s.(consumer := ReadValue(Pop, h)), n + 3);
    ThenGulp(s.(consumer := ReadValue(Pop, h)), s.(consumer := ClearFlag(Pop, h, v)), n + 2);
    ThenGulp(s.(consumer := ClearFlag(Pop, h, v)), cleared.(consumer := StoreHead(Pop, h, v)), n + 1);
    ThenGulp(cleared.(consumer := StoreHead(Pop, h, v)), done, n);
    StillResting(done, n);
  }

  /** An uninterrupted pop takes the front item, and finds none only when there is none. */
  lemma PopAloneTakesFront<T>(s: System<T>, spare: nat)
    requires AtRest(s)
    ensures var t := PopAlone(s, spare);
            && AtRest(t)
            && t.log.pushed == s.log.pushed
            && (s.mem.slots[At(s.mem.head, |s.mem.slots|)].full <==> Queue(s) != [])
            && (Queue(s) == [] ==> t == s.(consumer := CIdle(Empty)))
            && (Queue(s) != [] ==> t.consumer == CIdle(Got(Queue(s)[0])) && Queue(t) == Queue(s)[1..])
  {
    StartKeepsInv(s, StartPop);
    GulpKeepsInv(Apply(s, StartPop), spare + 5);
    WrappedAt(Emptied(s), 1, |s.mem.slots|);
    InWindow(s, Emptied(s));
    if Queue(s) == [] {
      PopEmpty(s, spare);
    } else {
      PopFull(s, spare);
    }
  }

  /** A push that nobody interrupts, and any number of steps for which the producer then rests. */
  function PushAlone<T>(s: System<T>, v: T, spare: nat): System<T>
    requires |s.mem.slots| > 0
  {
    Steps(s.(producer := PushCheck(v, Push)), spare + 9)
  }

  /** Starting a push records whether the producer had already closed. */
  function Begun<T>(s: System<T>): System<T> {
    s.(log := s.log.(late := s.log.late || s.mem.producerGone))
  }

  lemma BegunRests<T>(s: System<T>)
    requires AtRest(s)
    ensures AtRest(Begun(s)) && Open(Begun(s)) && Queue(Begun(s)) == Queue(s)
  {
  }

  /** The state once the value is written, its flag set and the tail published. */
  function Stored<T>(s: System<T>, v: T): System<T>
    requires |s.mem.slots| > 0
  {
    var k := At(s.mem.tail, |s.mem.slots|);
    s.(mem := s.mem.(slots := s.mem.slots[k := Slot(Some(v), true)], tail := Wrap(s.mem.tail + 1)),
       log := s.log.(pushed := s.log.pushed + [v]), producer := PIdle(Sent))
  }

  lemma Then<T>(s: System<T>, s': System<T>, k: nat)
    requires |s.mem.slots| > 0 && StepProducer(s) == s'
    ensures Steps(s, k + 1) == Steps(s', k)
  {
  }

  lemma StoreAndPublish<T>(s: System<T>, v: T, k: nat)
    requires |s.mem.slots| > 0
    ensures Steps(s.(producer := WriteValue(v, Push, s.mem.tail)), k + 3) == Stored(s, v)
  {
    var i, at := At(s.mem.tail, |s.mem.slots|), s.mem.tail;
    var written := s.(mem := s.mem.(slots := s.mem.slots[i := s.mem.slots[i].(value := Some(v))]));
    var flagged := s.(mem := s.mem.(slots := s.mem.slots[i := Slot(Some(v), true)]),
                      log := s.log.(pushed := s.log.pushed + [v]));
    Then(s.(producer := WriteValue(v, Push, at)), written.(producer := SetFlag(v, Push, at)), k + 2);
    Then(written.(producer := SetFlag(v, Push, at)), flagged.(producer := StoreTail(Push, at)), k + 1);
    Then(flagged.(producer := StoreTail(Push, at)), Stored(s, v), k);
    StillIdle(Stored(s, v), k);
  }

  /** The limit after the push has looked ahead as far as it had to. */
  function Limited<T>(s: System<T>, d: nat): System<T> {
    s.(mem := s.mem.(limit := Wrap(s.mem.tail + d)), log := s.log.(limitAt := Filled(s) + d))
  }

  lemma PushRejected<T>(s: System<T>, v: T, k: nat)
    requires |s.mem.slots| > 0 && s.producer.PIdle? && s.mem.consumerGone
    ensures PushAlone(s, v, k) == s.(producer := PIdle(Rejected))
  {
    Then(s.(producer := PushCheck(v, Push)), s.(producer := PIdle(Rejected)), k + 8);
    StillIdle(s.(producer := PIdle(Rejected)), k + 8);
  }

  lemma PushWithinLimit<T>(s: System<T>, v: T, k: nat)
    requires |s.mem.slots| > 0 && s.producer.PIdle? && !s.mem.consumerGone
    requires s.mem.tail != s.mem.limit
    ensures PushAlone(s, v, k) == Stored(s, v)
  {
    var at := s.mem.tail;
    Then(s.(producer := PushCheck(v, Push)), s.(producer := LoadTail(v, Push)), k + 8);
    Then(s.(producer := LoadTail(v, Push)), s.(producer := LoadLimit(v, Push, at)), k + 7);
    Then(s.(producer := LoadLimit(v, Push, at)), s.(producer := WriteValue(v, Push, at)), k + 6);
    StoreAndPublish(s, v, k + 3);
  }

  lemma {:induction false} ReachProbe<T>(s: System<T>, v: T, k: nat)
    requires |s.mem.slots| > 0 && s.producer.PIdle? && !s.mem.consumerGone
    requires s.mem.tail == s.mem.limit
    ensures PushAlone(s, v, k) == Steps(s.(producer := ProbeFar(v, Push, s.mem.tail)), k + 6)
  {
    var at := s.mem.tail;
    Then(s.(producer := PushCheck(v, Push)), s.(producer := LoadTail(v, Push)), k + 8);
    Then(s.(producer := LoadTail(v, Push)), s.(producer := LoadLimit(v, Push, at)), k + 7);
    Then(s.(producer := LoadLimit(v, Push, at)), s.(producer := ProbeFar(v, Push, at)), k + 6);
  }

  lemma PushFar<T>(s: System<T>, v: T, k: nat)
    requires |s.mem.slots| > 0
    requires !s.mem.slots[At(Wrap(s.mem.tail + Lookahead(|s.mem.slots|)), |s.mem.slots|)].full
    ensures Steps(s.(producer := ProbeFar(v, Push, s.mem.tail)), k + 6)
            == Stored(Limited(s, Lookahead(|s.mem.slots|)), v)
  {
    var at := s.mem.tail;
    var s' := Limited(s, Lookahead(|s.mem.slots|));
    Then(s.(producer := ProbeFar(v, Push, at)), s.(producer := StoreFar(v, Push, at)), k + 5);
    Then(s.(producer := StoreFar(v, Push, at)), s'.(producer := WriteValue(v, Push, at)), k + 4);
    StoreAndPublish(s', v, k + 1);
  }

  lemma PushFull<T>(s: System<T>, v: T, k: nat)
    requires |s.mem.slots| > 0
    requires s.mem.slots[At(Wrap(s.mem.tail + Lookahead(|s.mem.slots|)), |s.mem.slots|)].full
    requires s.mem.slots[At(s.mem.tail, |s.mem.slots|)].full
    ensures Steps(s.(producer := ProbeFar(v, Push, s.mem.tail)), k + 6) == s.(producer := PIdle(Rejected))
  {
    var at := s.mem.tail;
    Then(s.(producer := ProbeFar(v, Push, at)), s.(producer := ProbeNear(v, Push, at)), k + 5);
    Then(s.(producer := ProbeNear(v, Push, at)), s.(producer := PIdle(Rejected)), k + 4);
    StillIdle(s.(producer := PIdle(Rejected)), k + 4);
  }

  lemma PushNear<T>(s: System<T>, v: T, k: nat)
    requires |s.mem.slots| > 0
    requires s.mem.slots[At(Wrap(s.mem.tail + Lookahead(|s.mem.slots|)), |s.mem.slots|)].full
    requires !s.mem.slots[At(s.mem.tail, |s.mem.slots|)].full
    ensures Steps(s.(producer := ProbeFar(v, Push, s.mem.tail)), k + 6) == Stored(Limited(s, 1), v)
  {
    var at := s.mem.tail;
    Then(s.(producer := ProbeFar(v, Push, at)), s.(producer := ProbeNear(v, Push, at)), k + 5);
    Then(s.(producer := ProbeNear(v, Push, at)), s.(producer := StoreNear(v, Push, at)), k + 4);
    Then(s.(producer := StoreNear(v, Push, at)), Limited(s, 1).(producer := WriteValue(v, Push, at)), k + 3);
    StoreAndPublish(Limited(s, 1), v, k);
  }

  /** Whether the push finds the ring full: the cached limit is used up and both probes see a value. */
  predicate SeesFull<T>(s: System<T>)
    requires |s.mem.slots| > 0
  {
    && s.mem.tail == s.mem.limit
    && s.mem.slots[At(Wrap(s.mem.tail + Lookahead(|s.mem.slots|)), |s.mem.slots|)].full
    && s.mem.slots[At(s.mem.tail, |s.mem.slots|)].full
  }

  lemma SeesFullExactly<T>(s: System<T>)
    requires AtRest(s)
    ensures SeesFull(s) <==> |Queue(s)| == |s.mem.slots|
  {
    NextSlot(s);
    WrappedAt(Filled(s), 1, |s.mem.slots|);
    if |Queue(s)| == |s.mem.slots| {
      FarSlotFull(s);
    }
  }

  /** The ring just before the value is written: `limit` has moved as far as the probes allowed. */
  function Probed<T>(s: System<T>): System<T>
    requires |s.mem.slots| > 0
  {
    var far := Lookahead(|s.mem.slots|);
    if s.mem.tail != s.mem.limit then s
    else if !s.mem.slots[At(Wrap(s.mem.tail + far), |s.mem.slots|)].full then Limited(s, far)
    else Limited(s, 1)
  }

  lemma PushOutcome<T>(s: System<T>, v: T, k: nat)
    requires |s.mem.slots| > 0 && s.producer.PIdle?
    ensures PushAlone(s, v, k)
            == if s.mem.consumerGone || SeesFull(s) then s.(producer := PIdle(Rejected)) else Stored(Probed(s), v)
  {
    if s.mem.consumerGone {
      PushRejected(s, v, k);
    } else if s.mem.tail != s.mem.limit {
      PushWithinLimit(s, v, k);
    } else {
      ReachProbe(s, v, k);
      if s.mem.slots[At(Wrap(s.mem.tail + Lookahead(|s.mem.slots|)), |s.mem.slots|)].full {
        if s.mem.slots[At(s.mem.tail, |s.mem.slots|)].full { PushFull(s, v, k); } else { PushNear(s, v, k); }
      } else {
        PushFar(s, v, k);
      }
    }
  }

  lemma PushKeepsInv<T>(s: System<T>, v: T, k: nat)
    requires AtRest(s) && Open(s)
    ensures Inv(PushAlone(s, v, k))
  {
    ProducerMoves(s, PushCheck(v, Push));
    StepsKeepInv(s.(producer := PushCheck(v, Push)), k + 9);
  }

  lemma OutcomeEffect<T>(s: System<T>, v: T, t: System<T>)
    requires AtRest(s) && Inv(t)
    requires t == if s.mem.consumerGone || SeesFull(s) then s.(producer := PIdle(Rejected)) else Stored(Probed(s), v)
    ensures AtRest(t) && t.log.popped == s.log.popped
    ensures s.mem.consumerGone || SeesFull(s) ==> Queue(t) == Queue(s) && t.mem == s.mem
    ensures !s.mem.consumerGone && !SeesFull(s) ==> Queue(t) == Queue(s) + [v] && t.mem == Stored(Probed(s), v).mem
  {
  }

  /** An uninterrupted pop takes the front item: its effect on memory and on the queue. */
  lemma PopResult<T>(s: System<T>, spare: nat) returns (t: System<T>)
    requires AtRest(s)
    ensures t == PopAlone(s, spare)
    ensures var slot := s.mem.slots[At(s.mem.head, |s.mem.slots|)];
            && AtRest(t) && t.log.pushed == s.log.pushed
            && (slot.full <==> Queue(s) != [])
            && (slot.full ==> slot.value == Some(Queue(s)[0]) && Queue(t) == Queue(s)[1..])
    ensures var k := At(s.mem.head, |s.mem.slots|);
            s.mem.slots[k].full ==>
              t.mem == s.mem.(slots := s.mem.slots[k := s.mem.slots[k].(full := false)], head := Wrap(s.mem.head + 1))
  {
    PopAloneTakesFront(s, spare);
    t := PopAlone(s, spare);
    WrappedAt(Emptied(s), 1, |s.mem.slots|);
    InWindow(s, Emptied(s));
    if Queue(s) != [] {
      PopFull(s, spare);
    }
  }

  /** An uninterrupted push appends exactly when there is room and the consumer is still there. */
  lemma PushResult<T>(s: System<T>, v: T, k: nat) returns (t: System<T>)
    requires AtRest(s) && Open(s)
    ensures t == PushAlone(s, v, k) && AtRest(t) && t.log.popped == s.log.popped
    ensures SeesFull(s) <==> |Queue(s)| == |s.mem.slots|
    ensures s.mem.consumerGone || SeesFull(s) ==> Queue(t) == Queue(s) && t.mem == s.mem
    ensures !s.mem.consumerGone && !SeesFull(s) ==> Queue(t) == Queue(s) + [v] && t.mem == Stored(Probed(s), v).mem
  {
    SeesFullExactly(s);
    PushOutcome(s, v, k);
    PushKeepsInv(s, v, k);
    t := PushAlone(s, v, k);
    OutcomeEffect(s, v, t);
  }

  lemma BegunLooksTheSame<T>(s: System<T>, v: T)
    requires |s.mem.slots| > 0
    ensures SeesFull(Begun(s)) == SeesFull(s) && Stored(Probed(Begun(s)), v).mem == Stored(Probed(s), v).mem
  {
    assert Probed(Begun(s)).mem == Probed(s).mem;
    StoredMem(Probed(Begun(s)), Probed(s), v);
  }

  lemma StoredMem<T>(s: System<T>, s': System<T>, v: T)
    requires |s.mem.slots| > 0 && s.mem == s'.mem
    ensures Stored(s, v).mem == Stored(s', v).mem
  {
  }

  lemma PushFromRest<T>(s: System<T>, v: T, k: nat) returns (t: System<T>)
    requires AtRest(s)
    ensures t == PushAlone(Begun(s), v, k) && AtRest(t) && t.log.popped == s.log.popped
    ensures SeesFull(s) <==> |Queue(s)| == |s.mem.slots|
    ensures !s.mem.consumerGone && !SeesFull(s) ==> Queue(t) == Queue(s) + [v] && t.mem == Stored(Probed(s), v).mem
  {
    BegunRests(s);
    BegunLooksTheSame(s, v);
    t := PushResult(Begun(s), v, k);
  }

  // ------------------------------------------------------- a ring that straddles

  lemma {:induction false} RunConcat<T>(s: System<T>, first: seq<Action<T>>, second: seq<Action<T>>)
    requires |s.mem.slots| > 0
    ensures Run(s, first + second) == Run(Run(s, first), second)
    decreases |second|
  {
    if second == [] {
      assert first + second == first;
    } else {
      var n := |second| - 1;
      RunConcat(s, first, second[..n]);
      assert (first + second)[..|first + second| - 1] == first + second[..n];
    }
  }

  lemma {:induction false} OneAction<T>(s: System<T>, a: Action<T>)
    requires |s.mem.slots| > 0
    ensures Run(s, [a]) == Apply(s, a)
  {
    assert [a][..0] == [] && Run(s, [a][..0]) == s;
  }

  /** An action followed by steps of the producer alone. */
  lemma {:induction false} StepsAreRun<T>(s: System<T>, a: Action<T>, k: nat) returns (actions: seq<Action<T>>)
    requires |s.mem.slots| > 0
    ensures Run(s, actions) == Steps(Apply(s, a), k)
    decreases k
  {
    OneAction(s, a);
    if k == 0 {
      actions := [a];
    } else {
      var rest := StepsAreRun(Apply(s, a), ProducerStep, k - 1);
      RunConcat(s, [a], rest);
      actions := [a] + rest;
    }
  }

  lemma {:induction false} GulpsAreRun<T>(s: System<T>, a: Action<T>, k: nat) returns (actions: seq<Action<T>>)
    requires |s.mem.slots| > 0
    ensures Run(s, actions) == Gulp(Apply(s, a), k)
    decreases k
  {
    OneAction(s, a);
    if k == 0 {
      actions := [a];
    } else {
      var rest := GulpsAreRun(Apply(s, a), ConsumerStep, k - 1);
      RunConcat(s, [a], rest);
      actions := [a] + rest;
    }
  }

  lemma {:induction false} SameBase<T>(s: System<T>, actions: seq<Action<T>>)
    requires |s.mem.slots| > 0
    ensures Run(s, actions).log.base == s.log.base
  {
    if actions != [] {
      SameBase(s, actions[..|actions| - 1]);
    }
  }

  /** A ring of one slot whose counters started at zero, at rest, with both sides there. */
  ghost predicate Small<T>(s: System<T>) {
    AtRest(s) && |s.mem.slots| == 1 && s.log.base == 0 && !s.mem.producerGone && !s.mem.consumerGone
  }

  lemma OnePush<T>(s: System<T>, v: T, k: nat) returns (actions: seq<Action<T>>, t: System<T>)
    requires Small(s) && Queue(s) == []
    ensures t == Run(s, actions) && Small(t) && Queue(t) == [v] && Filled(t) == Filled(s) + 1
  {
    t := PushFromRest(s, v, k);
    actions := StepsAreRun(s, StartPush(v), k + 9);
    assert Apply(s, StartPush(v)) == Begun(s).(producer := PushCheck(v, Push));
    SameBase(s, actions);
  }

  lemma OnePop<T>(s: System<T>, k: nat) returns (actions: seq<Action<T>>, t: System<T>)
    requires Small(s) && |Queue(s)| == 1
    ensures t == Run(s, actions) && Small(t) && Queue(t) == [] && Filled(t) == Filled(s)
  {
    t := PopResult(s, k);
    actions := GulpsAreRun(s, StartPop, k + 5);
    SameBase(s, actions);
  }

  /** Pushing and popping one item after the other moves the counters as far as one likes. */
  lemma {:induction false} Rounds<T>(s: System<T>, v: T, k: nat, n: nat) returns (actions: seq<Action<T>>, t: System<T>)
    requires Small(s) && Queue(s) == []
    ensures t == Run(s, actions) && Small(t) && Queue(t) == [] && Filled(t) == Filled(s) + n
    decreases n
  {
    if n == 0 {
      actions, t := [], s;
    } else {
      var push, s1 := OnePush(s, v, k);
      var pop, s2 := OnePop(s1, k);
      var rest;
      rest, t := Rounds(s2, v, k, n - 1);
      RunConcat(s, push, pop);
      RunConcat(s, push + pop, rest);
      actions := push + pop + rest;
    }
  }

  /** For example: a new ring of one slot. After 2^64 - 1 items, one more fills it and wraps the tail. */
  lemma {:induction false} OneItemStraddles<T>(v: T, k: nat) returns (actions: seq<Action<T>>, t: System<T>)
    ensures t == Run(Init(1, 0), actions) && Inv(t) && t.producer.PIdle? && t.consumer.CIdle?
    ensures !t.mem.producerGone && !t.mem.consumerGone && |Queue(t)| == |t.mem.slots| && t.mem.tail < t.mem.head
  {
    var s: System<T> := Init(1, 0);
    InitInv<T>(1, 0);
    var before, mid := Rounds(s, v, k, WORD - 1);
    var last;
    last, t := OnePush(mid, v, k);
    RunConcat(s, before, last);
    actions := before + last;
    Straddles(t);
  }

  lemma Straddles<T>(t: System<T>)
    requires Small(t) && |Queue(t)| == 1 && Filled(t) == WORD
    ensures t.mem.tail < t.mem.head
  {
  }

  /** So a `send` on that ring does not wait for room: it panics. */
  lemma {:induction false} SendCanPanic<T>(v: T, k: nat) returns (actions: seq<Action<T>>)
    ensures Run(Init(1, 0), actions).producer.Panicked?
  {
    var first, t := OneItemStraddles(v, k);
    SendOnFullRing(t, v, k);
    var second := StepsAreRun(t, StartSend(v), k + 11);
    RunConcat(Init(1, 0), first, second);
    actions := first + second;
  }

  class Buffer<T> {
    const slots: array<Slot<T>>
    var head: nat
    var tail: nat
    var limit: nat
    var consumerGone: bool
    var producerGone: bool
    /** The items queued, and the state of the atomic steps that led here. */
    ghost var contents: seq<T>
    ghost var trace: System<T>

    ghost predicate Valid()
      reads this, slots
    {
      && AtRest(trace)
      && contents == Queue(trace)
      && trace.mem == Memory(slots[..], head, tail, limit, consumerGone, producerGone)
    }

    constructor (capacity: nat, initial: nat)
      requires capacity <= HALF_WORD && initial < WORD
      ensures Valid() && contents == [] && fresh(slots) && capacity <= slots.Length
      ensures !consumerGone && !producerGone
    {
      slots := new Slot<T>[NextPow2(capacity, 0)](_ => Slot(None, false));
      head, tail, limit := initial, initial, initial;
      consumerGone, producerGone := false, false;
      trace, contents := Init(capacity, initial), [];
      new;
      InitInv<T>(capacity, initial);
      assert slots[..] == trace.mem.slots;
    }

    method TryPop() returns (r: Option<T>)
      requires Valid()
      modifies this, slots
      ensures Valid() && trace.log.pushed == old(trace.log.pushed)
      ensures old(contents) == [] ==> r == None && contents == []
      ensures old(contents) != [] ==> r == Some(old(contents)[0]) && contents == old(contents)[1..]
      ensures consumerGone == old(consumerGone) && producerGone == old(producerGone)
    {
      var h := head;
      var k := At(h, slots.Length);
      ghost var spare: nat :| true;
      ghost var after := PopResult(trace, spare);
      if !slots[k].full {
        return None;
      }
      r := slots[k].value;
      slots[k] := slots[k].(full := false);
      head := Wrap(h + 1);
      trace, contents := after, contents[1..];
    }

    /** Appends when there is room and the consumer is still there; otherwise hands the value back. */
    method TryPush(v: T) returns (r: Option<T>)
      requires Valid()
      modifies this, slots
      ensures Valid() && trace.log.popped == old(trace.log.popped)
      ensures r == None <==> !consumerGone && |old(contents)| < slots.Length
      ensures r == None ==> contents == old(contents) + [v]
      ensures r != None ==> r == Some(v) && contents == old(contents)
      ensures consumerGone == old(consumerGone) && producerGone == old(producerGone)
    {
      if consumerGone {
        return Some(v);
      }
      SeesFullExactly(trace);
      var room := FindRoom(trace);
      if !room {
        return Some(v);
      }
      ghost var spare: nat :| true;
      ghost var after := PushFromRest(trace, v, spare);
      Store(Probed(trace), v);
      trace, contents := after, contents + [v];
      return None;
    }

    /** The first half of `try_push`: decides whether the slot at `tail` may be written, moving `limit` if it must. */
    method FindRoom(ghost s: System<T>) returns (room: bool)
      requires slots.Length > 0
      requires s.mem == Memory(slots[..], head, tail, limit, consumerGone, producerGone)
      modifies this`limit
      ensures room == !SeesFull(s)
      ensures limit == if room then Probed(s).mem.limit else old(limit)
    {
      var cap := slots.Length;
      if tail == limit {
        var idx := Wrap(tail + Lookahead(cap));
        if !slots[At(idx, cap)].full {
          limit := idx;
        } else {
          if slots[At(tail, cap)].full {
            return false;
          }
          limit := Wrap(tail + 1);
        }
      }
      return true;
    }

    /** The second half of `try_push`: writes the value, sets the flag, publishes the tail. */
    method Store(ghost s: System<T>, v: T)
      requires slots.Length > 0
      requires s.mem == Memory(slots[..], head, tail, limit, consumerGone, producerGone)
      modifies this`tail, slots
      ensures Stored(s, v).mem == Memory(slots[..], head, tail, limit, consumerGone, producerGone)
    {
      slots[At(tail, slots.Length)] := Slot(Some(v), true);
      tail := Wrap(tail + 1);
    }

    /** `Drop`: popping until nothing comes out removes exactly the items still queued, in order. */
    method Drop() returns (dropped: seq<T>)
      requires Valid()
      modifies this, slots
      ensures Valid() && contents == []
      ensures dropped == old(contents)
      ensures trace.log.pushed == old(trace.log.pushed)
    {
      dropped := [];
      ghost var all := contents;
      var r := TryPop();
      while r.Some?
        invariant Valid() && trace.log.pushed == old(trace.log.pushed)
        invariant all == if r.Some? then dropped + [r.value] + contents else dropped
        invariant r.None? ==> contents == []
        decreases |contents|, r.Some?
      {
        dropped := dropped + [r.value];
        r := TryPop();
      }
    }
  }
}
