/**
 What the calls on the ring answer. Each call is followed through any interleaving with
 the other side, from its first step to its answer; nothing the other side does can keep
 it from getting there. What it answers when it is left alone is then an exact case split.
 */
module SpscAnswers {
  import opened Words
  import opened Options
  import opened SpscRing

  // ------------------------------------------------------------------ moments

  predicate FullNow<T>(s: System<T>) {
    |s.log.popped| <= |s.log.pushed| && |Queue(s)| == |s.mem.slots|
  }

  /** Empty, and nothing has been taken since `s`. */
  ghost predicate EmptyNow<T>(s: System<T>, t: System<T>) {
    t.log.popped == s.log.popped == t.log.pushed
  }

  /** Full, or only an item short of that while the consumer has not yet published that it took one. */
  predicate TightNow<T>(s: System<T>) {
    && |s.log.popped| <= |s.log.pushed|
    && (FullNow(s) || (s.consumer.StoreHead? && |Queue(s)| + 1 == |s.mem.slots|))
  }

  /** What the ring has been like meanwhile. */
  datatype Seen = Seen(full: bool, tight: bool)

  function SeesNow<T>(s: System<T>): Seen {
    Seen(FullNow(s), TightNow(s))
  }

  function Either(a: Seen, b: Seen): Seen {
    Seen(a.full || b.full, a.tight || b.tight)
  }

  predicate Within(a: Seen, b: Seen) {
    (a.full ==> b.full) && (a.tight ==> b.tight)
  }

  /** What it was like at some moment of the run. */
  function Saw<T>(s: System<T>, actions: seq<Action<T>>): Seen
    requires |s.mem.slots| > 0
  {
    if actions == [] then SeesNow(s) else Either(Saw(s, actions[..|actions| - 1]), SeesNow(Run(s, actions)))
  }

  /** At some moment of the run, before anything was taken, the ring was empty. */
  ghost predicate OnceEmpty<T>(s: System<T>, actions: seq<Action<T>>)
    requires |s.mem.slots| > 0
  {
    EmptyNow(s, Run(s, actions)) || (actions != [] && OnceEmpty(s, actions[..|actions| - 1]))
  }

  // ---------------------------------------------------------------- the producer

  /** No other call of the producer starts. */
  ghost predicate OneSend<T>(actions: seq<Action<T>>) {
    forall a | a in actions :: !a.StartPush? && !a.StartTrySend? && !a.StartSend?
  }

  /** Both sides were there when the call began; the bare push looks only at the consumer. */
  predicate Welcome<T>(s: System<T>, call: Call) {
    call.Push? || (!s.mem.consumerGone && !s.mem.producerGone)
  }

  /** The call goes on with `v`, which has not been appended. */
  ghost predicate Carries<T>(s: System<T>, t: System<T>, v: T, call: Call, v': T, call': Call) {
    v' == v && call' == call && t.log.pushed == s.log.pushed && t.mem.producerGone == s.mem.producerGone
  }

  /** The same, past the checks. */
  ghost predicate Admitted<T>(s: System<T>, t: System<T>, v: T, call: Call, v': T, call': Call) {
    Carries(s, t, v, call, v', call') && Welcome(s, call) && !s.mem.consumerGone
  }

  /** What the steps so far of a call that began at `s` have done; `seen` is what the ring was like. */
  ghost predicate Sending<T>(s: System<T>, t: System<T>, seen: Seen, v: T, call: Call) {
    && (s.mem.consumerGone ==> t.mem.consumerGone) && (s.mem.producerGone ==> t.mem.producerGone)
    && match t.producer
       case WaitTail(u) => Carries(s, t, v, call, u, Send)
       case WaitHead(u, _) => Carries(s, t, v, call, u, Send)
       case WaitProducer(u) => Carries(s, t, v, call, u, Send) && seen.tight
       case WaitConsumer(u) => Carries(s, t, v, call, u, Send) && seen.tight && !s.mem.producerGone
       case CheckConsumer(u, c) => Carries(s, t, v, call, u, c) && !c.Push?
       case CheckProducer(u, c) => Carries(s, t, v, call, u, c) && !c.Push? && !s.mem.consumerGone
       case PushCheck(u, c) => Carries(s, t, v, call, u, c) && Welcome(s, c)
       case LoadTail(u, c) => Admitted(s, t, v, call, u, c)
       case LoadLimit(u, c, _) => Admitted(s, t, v, call, u, c)
       case ProbeFar(u, c, _) => Admitted(s, t, v, call, u, c)
       case StoreFar(u, c, _) => Admitted(s, t, v, call, u, c)
       case ProbeNear(u, c, _) => Admitted(s, t, v, call, u, c)
       case StoreNear(u, c, _) => Admitted(s, t, v, call, u, c)
       case WriteValue(u, c, _) => Admitted(s, t, v, call, u, c)
       case SetFlag(u, c, _) => Admitted(s, t, v, call, u, c)
       case StoreTail(c, _) => c == call && Answered(s, t, seen, v, call, Sent)
       case RecheckConsumer(u, c) =>
         Carries(s, t, v, call, u, c) && !c.Push? && Welcome(s, c) && (t.mem.consumerGone || seen.full)
       case RecheckProducer(u, c) => Carries(s, t, v, call, u, c) && !c.Push? && Welcome(s, c) && seen.full
       case PIdle(answer) => Answered(s, t, seen, v, call, answer)
       case Panicked => call.Send? && t.log.pushed == s.log.pushed && Welcome(s, call) && seen.full
  }

  /**
   When each answer is given. `Sent` means that the value was appended, any other answer
   that it was not; `Closed` that a side is gone; the others that, at some moment of the
   call, the ring was full (or looked it), or for the bare push that the consumer is gone.
   */
  ghost predicate Answered<T>(s: System<T>, t: System<T>, seen: Seen, v: T, call: Call, answer: Answer) {
    match answer
    case Sent => t.log.pushed == s.log.pushed + [v] && Welcome(s, call) && !s.mem.consumerGone
    case Rejected => call.Push? && t.log.pushed == s.log.pushed && (t.mem.consumerGone || seen.full)
    case Closed => !call.Push? && t.log.pushed == s.log.pushed && (t.mem.consumerGone || t.mem.producerGone)
    case WouldBlock => call.TrySend? && t.log.pushed == s.log.pushed && Welcome(s, call) && seen.full
    case Waiting => call.Send? && t.log.pushed == s.log.pushed && Welcome(s, call) && seen.tight
    case NoAnswer => false
  }

  lemma AsksSends<T>(s: System<T>, t: System<T>, seen: Seen, v: T, call: Call)
    requires |t.mem.slots| > 0 && Sending(s, t, seen, v, call)
    requires t.producer.WaitTail? || t.producer.WaitHead? || t.producer.WaitProducer? || t.producer.WaitConsumer?
             || t.producer.CheckConsumer? || t.producer.CheckProducer?
             || t.producer.RecheckConsumer? || t.producer.RecheckProducer? || t.producer.PIdle? || t.producer.Panicked?
    requires t.producer.WaitHead? && StepProducer(t).producer.WaitProducer? ==> seen.tight
    ensures Sending(s, StepProducer(t), seen, v, call)
  {
  }

  lemma ProbesSends<T>(s: System<T>, t: System<T>, seen: Seen, v: T, call: Call)
    requires |t.mem.slots| > 0 && Sending(s, t, seen, v, call)
    requires t.producer.PushCheck? || t.producer.LoadTail? || t.producer.LoadLimit? || t.producer.ProbeFar?
             || t.producer.ProbeNear?
    requires StepProducer(t).producer.PIdle? || StepProducer(t).producer.RecheckConsumer? ==>
               t.mem.consumerGone || seen.full
    ensures Sending(s, StepProducer(t), seen, v, call)
  {
  }

  lemma StoresSends<T>(s: System<T>, t: System<T>, seen: Seen, v: T, call: Call)
    requires |t.mem.slots| > 0 && Sending(s, t, seen, v, call)
    requires t.producer.StoreFar? || t.producer.StoreNear? || t.producer.WriteValue? || t.producer.SetFlag?
             || t.producer.StoreTail?
    ensures Sending(s, StepProducer(t), seen, v, call)
  {
  }

  lemma {:induction false} HalfAtMost(word: nat, cap: nat)
    requires 0 < cap < word && Rem(word, cap) == 0
    ensures word - cap >= cap
  {
    assert Rem(word, cap) == Rem(word - cap, cap);
  }

  /** A producer that sees no free space is right, but for an item that is just being taken. */
  lemma NoSpaceIsTight<T>(t: System<T>)
    requires Inv(t) && t.producer.WaitHead? && StepProducer(t).producer.WaitProducer?
    ensures TightNow(t)
  {
    var cap := |t.mem.slots|;
    var x := if t.consumer.StoreHead? then Emptied(t) - 1 else Emptied(t);
    HalfAtMost(WORD, cap);
    RemDifference(x, Filled(t), WORD);
  }

  lemma ProducerStepSends<T>(s: System<T>, t: System<T>, seen: Seen, v: T, call: Call)
    requires Inv(t) && Sending(s, t, seen, v, call) && Within(SeesNow(t), seen)
    ensures Sending(s, StepProducer(t), seen, v, call)
  {
    var p := t.producer;
    if p.PushCheck? || p.LoadTail? || p.LoadLimit? || p.ProbeFar? || p.ProbeNear? {
      ProducerRefinesQueue(t);
      ProbesSends(s, t, seen, v, call);
    } else if p.StoreFar? || p.StoreNear? || p.WriteValue? || p.SetFlag? || p.StoreTail? {
      StoresSends(s, t, seen, v, call);
    } else {
      if p.WaitHead? && StepProducer(t).producer.WaitProducer? {
        NoSpaceIsTight(t);
      }
      AsksSends(s, t, seen, v, call);
    }
  }

  lemma OthersLeave<T>(t: System<T>, a: Action<T>)
    requires |t.mem.slots| > 0 && !a.ProducerStep? && !a.StartPush? && !a.StartTrySend? && !a.StartSend?
    ensures var t' := Apply(t, a);
            && t'.producer == t.producer && t'.log.pushed == t.log.pushed
            && (t.mem.consumerGone ==> t'.mem.consumerGone)
            && (t'.mem.producerGone == t.mem.producerGone || (t.producer.PIdle? && t'.mem.producerGone))
  {
  }

  lemma OtherStepSends<T>(s: System<T>, t: System<T>, t': System<T>, seen: Seen, v: T, call: Call)
    requires Sending(s, t, seen, v, call) && t'.producer == t.producer && t'.log.pushed == t.log.pushed
    requires t.mem.consumerGone ==> t'.mem.consumerGone
    requires t'.mem.producerGone == t.mem.producerGone || (t.producer.PIdle? && t'.mem.producerGone)
    ensures Sending(s, t', seen, v, call)
  {
  }

  lemma MoreSends<T>(s: System<T>, t: System<T>, v: T, call: Call, seen: Seen, more: Seen)
    requires Sending(s, t, seen, v, call) && Within(seen, more)
    ensures Sending(s, t, more, v, call)
  {
  }

  lemma {:induction false} SawLast<T>(s: System<T>, actions: seq<Action<T>>)
    requires |s.mem.slots| > 0
    ensures Within(SeesNow(Run(s, actions)), Saw(s, actions))
  {
  }

  lemma {:induction false} RunSends<T>(s: System<T>, actions: seq<Action<T>>, v: T, call: Call)
    requires Inv(s) && Sending(s, s, SeesNow(s), v, call) && OneSend(actions)
    ensures Inv(Run(s, actions)) && Sending(s, Run(s, actions), Saw(s, actions), v, call)
  {
    if actions != [] {
      var before, a := actions[..|actions| - 1], actions[|actions| - 1];
      var t := Run(s, before);
      RunSends(s, before, v, call);
      ApplyKeepsInv(t, a);
      assert a in actions;
      if a.ProducerStep? {
        SawLast(s, before);
        ProducerStepSends(s, t, Saw(s, before), v, call);
      } else {
        OthersLeave(t, a);
        OtherStepSends(s, t, Apply(t, a), Saw(s, before), v, call);
      }
      MoreSends(s, Apply(t, a), v, call, Saw(s, before), Saw(s, actions));
    }
  }

  // ---------------------------------------------------------------- the consumer

  /** No other call of the consumer starts. */
  ghost predicate OneReceive<T>(actions: seq<Action<T>>) {
    forall a | a in actions :: !a.StartPop? && !a.StartRecv? && !a.StartSize?
  }

  predicate Fits(mode: Mode, recv: bool) {
    recv <==> !mode.Pop?
  }

  /** What the steps so far of a `recv`, or of a pop, have done; `empty` is whether the ring was empty meanwhile. */
  ghost predicate Receiving<T>(s: System<T>, t: System<T>, empty: bool, recv: bool) {
    && (s.mem.producerGone ==> t.mem.producerGone)
    && match t.consumer
       case LoadHead(mode) => Fits(mode, recv) && t.log.popped == s.log.popped
       case LoadFlag(mode, _) => Fits(mode, recv) && t.log.popped == s.log.popped
       case ReadValue(mode, _) => Fits(mode, recv) && t.log.popped == s.log.popped
       case ClearFlag(mode, _, _) => Fits(mode, recv) && t.log.popped == s.log.popped
       case StoreHead(mode, _, v) => Fits(mode, recv) && Replied(s, t, empty, recv, Got(v))
       case CheckGone => recv && t.log.popped == s.log.popped && empty
       case CIdle(reply) => Replied(s, t, empty, recv, reply)
       case _ => false
  }

  /**
   When each answer is given: an item if it was taken, and otherwise, nothing having been
   taken, the ring was empty at some moment; `Pending` if the producer was there when the
   call began, and `Ended` only if it is gone.
   */
  ghost predicate Replied<T>(s: System<T>, t: System<T>, empty: bool, recv: bool, reply: Reply<T>) {
    match reply
    case Got(v) => t.log.popped == s.log.popped + [v]
    case Empty => !recv && t.log.popped == s.log.popped && empty
    case Pending => recv && t.log.popped == s.log.popped && empty && !s.mem.producerGone
    case Ended => recv && t.log.popped == s.log.popped && empty && t.mem.producerGone
    case _ => false
  }

  lemma ConsumerStepReceives<T>(s: System<T>, t: System<T>, empty: bool, recv: bool, more: bool)
    requires |t.mem.slots| > 0 && Receiving(s, t, empty, recv)
    requires t.consumer.LoadFlag? && !StepConsumer(t).consumer.ReadValue? ==> more
    requires (t.consumer.LoadFlag? && t.consumer.mode.RecvAgain? ==> t.mem.producerGone)
    requires (t.consumer.ReadValue? ==> !StepConsumer(t).consumer.UninitializedRead?)
    ensures Receiving(s, StepConsumer(t), empty || more, recv)
  {
  }

  lemma OthersLeaveReceiver<T>(t: System<T>, a: Action<T>)
    requires |t.mem.slots| > 0 && !a.ConsumerStep? && !a.StartPop? && !a.StartRecv? && !a.StartSize?
    ensures var t' := Apply(t, a);
            && t'.consumer == t.consumer && t'.log.popped == t.log.popped
            && (t.mem.producerGone ==> t'.mem.producerGone)
  {
  }

  lemma OtherStepReceives<T>(s: System<T>, t: System<T>, t': System<T>, empty: bool, recv: bool, more: bool)
    requires Receiving(s, t, empty, recv) && t'.consumer == t.consumer && t'.log.popped == t.log.popped
    requires (t.mem.producerGone ==> t'.mem.producerGone) && (empty ==> more)
    ensures Receiving(s, t', more, recv)
  {
  }

  lemma SeesEmpty<T>(s: System<T>, t: System<T>, empty: bool, recv: bool)
    requires Inv(t) && Receiving(s, t, empty, recv)
    ensures t.consumer.LoadFlag? && !StepConsumer(t).consumer.ReadValue? ==> EmptyNow(s, t)
    ensures t.consumer.LoadFlag? && t.consumer.mode.RecvAgain? ==> t.mem.producerGone
    ensures t.consumer.ReadValue? ==> !StepConsumer(t).consumer.UninitializedRead?
  {
    ConsumerRefinesQueue(t);
    CellsSafeAlways(t);
  }

  lemma {:induction false} RunReceives<T>(s: System<T>, actions: seq<Action<T>>, recv: bool)
    requires Inv(s) && Receiving(s, s, EmptyNow(s, s), recv) && OneReceive(actions)
    ensures Inv(Run(s, actions)) && Receiving(s, Run(s, actions), OnceEmpty(s, actions), recv)
  {
    if actions != [] {
      var before, a := actions[..|actions| - 1], actions[|actions| - 1];
      var t := Run(s, before);
      RunReceives(s, before, recv);
      ApplyKeepsInv(t, a);
      assert a in actions;
      if a.ConsumerStep? {
        SeesEmpty(s, t, OnceEmpty(s, before), recv);
        ConsumerStepReceives(s, t, OnceEmpty(s, before), recv, EmptyNow(s, t));
        var t' := StepConsumer(t);
        OtherStepReceives(s, t', t', OnceEmpty(s, before) || EmptyNow(s, t), recv, OnceEmpty(s, actions));
      } else {
        OthersLeaveReceiver(t, a);
        OtherStepReceives(s, t, Apply(t, a), OnceEmpty(s, before), recv, OnceEmpty(s, actions));
      }
    }
  }

  // ------------------------------------------------------------------ finishing

  /** How many steps of its own a call has at most before it. */
  function ProducerLeft<T>(p: Producer<T>): nat {
    match p
    case PIdle(_) => 0
    case WaitTail(_) => 15
    case WaitHead(_, _) => 14
    case WaitProducer(_) => 13
    case WaitConsumer(_) => 12
    case CheckConsumer(_, _) => 11
    case CheckProducer(_, _) => 10
    case PushCheck(_, _) => 9
    case LoadTail(_, _) => 8
    case LoadLimit(_, _, _) => 7
    case ProbeFar(_, _, _) => 6
    case StoreFar(_, _, _) => 4
    case ProbeNear(_, _, _) => 5
    case StoreNear(_, _, _) => 4
    case WriteValue(_, _, _) => 3
    case SetFlag(_, _, _) => 2
    case StoreTail(_, _) => 1
    case RecheckConsumer(_, _) => 2
    case RecheckProducer(_, _) => 1
    case Panicked => 0
  }

  function ConsumerLeft<T>(c: Consumer<T>): nat {
    match c
    case CIdle(_) => 0
    case LoadHead(mode) => if mode.RecvFirst? then 8 else 5
    case LoadFlag(mode, _) => if mode.RecvFirst? then 7 else 4
    case ReadValue(_, _) => 3
    case ClearFlag(_, _, _) => 2
    case StoreHead(_, _, _) => 1
    case CheckGone => 6
    case SizeTail => 2
    case SizeHead(_) => 1
    case UninitializedRead => 0
  }

  function Count<T>(actions: seq<Action<T>>, producer: bool): nat {
    if actions == [] then 0
    else
      var a := actions[|actions| - 1];
      var own := if producer then a.ProducerStep? else a.ConsumerStep?;
      Count(actions[..|actions| - 1], producer) + if own then 1 else 0
  }

  /** A call ends after so many steps of its own, whatever the other side does or fails to do. */
  lemma {:induction false} SendFinishes<T>(s: System<T>, actions: seq<Action<T>>)
    requires |s.mem.slots| > 0 && OneSend(actions)
    ensures var left := ProducerLeft(Run(s, actions).producer);
            left == 0 || left + Count(actions, true) <= ProducerLeft(s.producer)
    ensures Count(actions, true) >= ProducerLeft(s.producer) ==>
              Run(s, actions).producer.PIdle? || Run(s, actions).producer.Panicked?
  {
    if actions != [] {
      var before, a := actions[..|actions| - 1], actions[|actions| - 1];
      SendFinishes(s, before);
      assert a in actions;
      if !a.ProducerStep? {
        OthersLeave(Run(s, before), a);
      }
    }
  }

  lemma {:induction false} ReceiveFinishes<T>(s: System<T>, actions: seq<Action<T>>)
    requires Inv(s) && OneReceive(actions)
    ensures var left := ConsumerLeft(Run(s, actions).consumer);
            left == 0 || left + Count(actions, false) <= ConsumerLeft(s.consumer)
    ensures Count(actions, false) >= ConsumerLeft(s.consumer) ==> Run(s, actions).consumer.CIdle?
  {
    RunKeepsInv(s, actions);
    if actions != [] {
      var before, a := actions[..|actions| - 1], actions[|actions| - 1];
      ReceiveFinishes(s, before);
      assert a in actions;
      if !a.ConsumerStep? {
        OthersLeaveReceiver(Run(s, before), a);
      }
    }
  }

  // ------------------------------------------------------------------- theorems

  /** The first step of a call of the producer. */
  function Begin<T>(s: System<T>, v: T, call: Call): System<T>
    requires |s.mem.slots| > 0
  {
    Apply(s, match call case Push => StartPush(v) case TrySend => StartTrySend(v) case Send => StartSend(v))
  }

  /**
   In every interleaving a call of the producer ends within fifteen steps of its own, and
   says what happened: `Sent` if and only if its value was appended, which is the only thing it
   can append; never `Sent` or `WouldBlock` if a side was gone when it began; `Closed` only if one is
   gone now; and `Rejected`, `WouldBlock` and the panic of `send` only if the ring was full meanwhile.
   */
  lemma {:induction false} SendAnswers<T>(s: System<T>, v: T, call: Call, during: seq<Action<T>>)
    requires Inv(s) && s.producer.PIdle? && OneSend(during)
    ensures var b, t := Begin(s, v, call), Run(Begin(s, v, call), during);
            && (Count(during, true) >= 15 ==> t.producer.PIdle? || t.producer.Panicked?)
            && (t.producer.PIdle? ==> Answered(b, t, Saw(b, during), v, call, t.producer.answer))
            && (t.producer.Panicked? ==>
                  call.Send? && t.log.pushed == s.log.pushed && Welcome(s, call) && Saw(b, during).full)
  {
    var b := Begin(s, v, call);
    if call.Push? {
      StartPushKeepsInv(s, v);
    } else {
      StartKeepsInv(s, if call.Send? then StartSend(v) else StartTrySend(v));
    }
    RunSends(b, during, v, call);
    SendFinishes(b, during);
  }

  ghost predicate OnlyProducer<T>(actions: seq<Action<T>>) {
    forall a | a in actions :: a.ProducerStep?
  }

  /** Left alone, a call changes nothing but what it appends. */
  lemma {:induction false} ProducerAlone<T>(s: System<T>, actions: seq<Action<T>>)
    requires |s.mem.slots| > 0 && OnlyProducer(actions)
    ensures var t := Run(s, actions);
            && OneSend(actions) && Count(actions, true) == |actions|
            && t.log.popped == s.log.popped && s.log.pushed <= t.log.pushed && t.consumer == s.consumer
            && t.mem.consumerGone == s.mem.consumerGone && t.mem.producerGone == s.mem.producerGone
            && (t.log.pushed == s.log.pushed ==> Saw(s, actions) == SeesNow(s))
  {
    if actions != [] {
      ProducerAlone(s, actions[..|actions| - 1]);
      assert actions[|actions| - 1] in actions;
    }
  }

  /** Left alone, `try_send` answers `Closed` if a side is gone, else `WouldBlock` if the ring is full, else `Sent`. */
  lemma {:induction false} TrySendAlone<T>(s: System<T>, v: T, during: seq<Action<T>>)
    requires Inv(s) && s.producer.PIdle? && OnlyProducer(during) && |during| >= 11
    ensures var t := Run(Apply(s, StartTrySend(v)), during);
            && t.producer == PIdle(if s.mem.consumerGone || s.mem.producerGone then Closed
                                   else if |Queue(s)| == |s.mem.slots| then WouldBlock else Sent)
            && t.log.popped <= t.log.pushed
            && Queue(t) == if t.producer.answer.Sent? then Queue(s) + [v] else Queue(s)
  {
    var b := Begin(s, v, TrySend);
    ProducerAlone(b, during);
    SendFinishes(b, during);
    SendAnswers(s, v, TrySend, during);
    StartKeepsInv(s, StartTrySend(v));
    RunKeepsInv(b, during);
  }

  /** After either side has closed, `try_send` answers `Closed` and appends nothing. */
  lemma {:induction false} TrySendAfterClose<T>(s: System<T>, v: T, close: Action<T>, during: seq<Action<T>>)
    requires Inv(s) && s.producer.PIdle? && s.consumer.CIdle? && (close.CloseProducer? || close.CloseConsumer?)
    requires OnlyProducer(during) && |during| >= 11
    ensures var t := Run(Apply(Apply(s, close), StartTrySend(v)), during);
            t.producer == PIdle(Closed) && t.log.pushed == s.log.pushed
  {
    CloseKeepsInv(s, close);
    TrySendAlone(Apply(s, close), v, during);
    SendAnswers(Apply(s, close), v, TrySend, during);
    ProducerAlone(Begin(Apply(s, close), v, TrySend), during);
  }

  /** Left alone, with the consumer at rest, `send` does the same, except that on a full ring it waits or panics. */
  lemma {:induction false} SendAlone<T>(s: System<T>, v: T, during: seq<Action<T>>)
    requires Inv(s) && s.producer.PIdle? && s.consumer.CIdle? && OnlyProducer(during) && |during| >= 15
    ensures var t := Run(Apply(s, StartSend(v)), during);
            var gone, full := s.mem.consumerGone || s.mem.producerGone, |Queue(s)| == |s.mem.slots|;
            && (gone ==> t.producer == PIdle(Closed))
            && (!gone && !full ==> t.producer == PIdle(Sent))
            && (!gone && full ==> t.producer == PIdle(Waiting) || t.producer.Panicked?)
            && t.log.popped <= t.log.pushed
            && Queue(t) == if !gone && !full then Queue(s) + [v] else Queue(s)
  {
    var b := Begin(s, v, Send);
    ProducerAlone(b, during);
    SendAnswers(s, v, Send, during);
    StartKeepsInv(s, StartSend(v));
    RunKeepsInv(b, during);
  }

  /** Whether the call is `recv` or the bare pop. */
  function BeginReceive<T>(s: System<T>, recv: bool): System<T>
    requires |s.mem.slots| > 0
  {
    Apply(s, if recv then StartRecv else StartPop)
  }

  /**
   In every interleaving a `recv` or pop ends within eight steps of its own. It answers with
   the oldest item, which it takes, or takes nothing and answers that at some moment the ring was empty:
   `Pending` only if the producer was there when it began, `Ended` only if the producer is gone.
   */
  lemma {:induction false} ReceiveAnswers<T>(s: System<T>, recv: bool, during: seq<Action<T>>)
    requires Inv(s) && s.consumer.CIdle? && OneReceive(during)
    ensures var b, t := BeginReceive(s, recv), Run(BeginReceive(s, recv), during);
            && t.log.popped <= t.log.pushed
            && (Count(during, false) >= 8 ==> t.consumer.CIdle?)
            && (t.consumer.CIdle? ==> Replied(b, t, OnceEmpty(b, during), recv, t.consumer.reply))
  {
    var b := BeginReceive(s, recv);
    StartKeepsInv(s, if recv then StartRecv else StartPop);
    RunReceives(b, during, recv);
    ReceiveFinishes(b, during);
  }

  /** A `recv` that starts after the producer closed never waits: it answers with an item or that the stream ended. */
  lemma {:induction false} RecvAfterClose<T>(s: System<T>, during: seq<Action<T>>)
    requires Inv(s) && s.producer.PIdle? && s.consumer.CIdle? && OneReceive(during) && Count(during, false) >= 8
    ensures var t := Run(Apply(Apply(s, CloseProducer), StartRecv), during);
            && t.consumer.CIdle? && (t.consumer.reply.Got? || t.consumer.reply.Ended?)
            && t.log.popped == if t.consumer.reply.Got? then s.log.popped + [t.consumer.reply.v] else s.log.popped
  {
    var closed := Apply(s, CloseProducer);
    CloseKeepsInv(s, CloseProducer);
    ReceiveAnswers(closed, true, during);
  }

  ghost predicate OnlyConsumer<T>(actions: seq<Action<T>>) {
    forall a | a in actions :: a.ConsumerStep?
  }

  lemma {:induction false} ConsumerAlone<T>(s: System<T>, actions: seq<Action<T>>)
    requires |s.mem.slots| > 0 && OnlyConsumer(actions)
    ensures var t := Run(s, actions);
            && OneReceive(actions) && Count(actions, false) == |actions|
            && t.log.pushed == s.log.pushed && s.log.popped <= t.log.popped
            && t.mem.producerGone == s.mem.producerGone && t.mem.tail == s.mem.tail && t.producer == s.producer
            && (OnceEmpty(s, actions) ==> s.log.popped == s.log.pushed)
  {
    if actions != [] {
      ConsumerAlone(s, actions[..|actions| - 1]);
      assert actions[|actions| - 1] in actions;
    }
  }

  /** Left alone, `recv` gives the oldest item if there is one, else `Ended` if the producer is gone, else `Pending`. */
  lemma {:induction false} RecvAlone<T>(s: System<T>, during: seq<Action<T>>)
    requires Inv(s) && s.consumer.CIdle? && OnlyConsumer(during) && |during| >= 8
    ensures var t := Run(Apply(s, StartRecv), during);
            && t.consumer == CIdle(if Queue(s) != [] then Got(Queue(s)[0])
                                   else if s.mem.producerGone then Ended else Pending)
            && t.log.popped <= t.log.pushed && Queue(t) == if Queue(s) != [] then Queue(s)[1..] else []
  {
    var b := BeginReceive(s, true);
    ConsumerAlone(b, during);
    ReceiveAnswers(s, true, during);
  }

  lemma {:induction false} SizeSteps<T>(s: System<T>, actions: seq<Action<T>>)
    requires |s.mem.slots| > 0 && s.consumer.SizeTail? && OnlyConsumer(actions)
    ensures var t, n := Run(s, actions), Size(|s.mem.slots|, s.mem.tail, s.mem.head);
            && t.mem == s.mem
            && t.consumer == (if actions == [] then SizeTail
                              else if |actions| == 1 then SizeHead(s.mem.tail) else CIdle(Sized(n)))
  {
    if actions != [] {
      SizeSteps(s, actions[..|actions| - 1]);
      assert actions[|actions| - 1] in actions;
    }
  }

  /** Left alone, with the producer at rest, `size` answers, and is right if and only if head does not exceed tail. */
  lemma {:induction false} SizeAlone<T>(s: System<T>, during: seq<Action<T>>)
    requires Inv(s) && s.producer.PIdle? && s.consumer.CIdle? && OnlyConsumer(during) && |during| >= 2
    ensures var t := Run(Apply(s, StartSize), during);
            && t.consumer.CIdle? && t.consumer.reply.Sized?
            && (t.consumer.reply.n == |Queue(s)| <==> s.mem.head <= s.mem.tail)
  {
    SizeSteps(Apply(s, StartSize), during);
    SizeExactAtRest(s);
  }
}
