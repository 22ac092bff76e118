/**
 The cross-thread ring of `channels/spsc_queue.rs` together with the send and
 receive paths that `channels/shared_channel.rs` puts on top of it.

 One producer and one consumer share a memory of slots and counters. Every atomic
 load or store, and every access to a value cell, is one step; a run is any
 sequence of steps of the two sides. Counters wrap at the word size. Atomics are
 taken to be sequentially consistent.
 */
module SpscRing {
  import opened Words
  import opened Options

  datatype Slot<+T> = Slot(value: Option<T>, full: bool)

  /** What the two sides share: `Buffer`, `ProducerCacheline` and `ConsumerCacheline`. */
  datatype Memory<+T> = Memory(slots: seq<Slot<T>>, head: nat, tail: nat, limit: nat,
                               consumerGone: bool, producerGone: bool)

  /** The three ways to put a value in: the bare queue, `try_send` and `send`. */
  datatype Call = Push | TrySend | Send

  datatype Answer = NoAnswer | Sent | Rejected | Closed | WouldBlock | Waiting

  /** Where the producer is. Each constructor names the access it is about to make. */
  datatype Producer<+T> =
    | PIdle(answer: Answer)
    | WaitTail(v: T)
    | WaitHead(v: T, seen: nat)
    | WaitProducer(v: T)
    | WaitConsumer(v: T)
    | CheckConsumer(v: T, call: Call)
    | CheckProducer(v: T, call: Call)
    | PushCheck(v: T, call: Call)
    | LoadTail(v: T, call: Call)
    | LoadLimit(v: T, call: Call, at: nat)
    | ProbeFar(v: T, call: Call, at: nat)
    | StoreFar(v: T, call: Call, at: nat)
    | ProbeNear(v: T, call: Call, at: nat)
    | StoreNear(v: T, call: Call, at: nat)
    | WriteValue(v: T, call: Call, at: nat)
    | SetFlag(v: T, call: Call, at: nat)
    | StoreTail(call: Call, at: nat)
    | RecheckConsumer(v: T, call: Call)
    | RecheckProducer(v: T, call: Call)
    | Panicked

  /** `try_pop` alone, the first attempt of `do_recv_one`, and its second attempt. */
  datatype Mode = Pop | RecvFirst | RecvAgain

  datatype Reply<+T> = NoReply | Got(v: T) | Empty | Pending | Ended | Sized(n: nat)

  datatype Consumer<+T> =
    | CIdle(reply: Reply<T>)
    | LoadHead(mode: Mode)
    | LoadFlag(mode: Mode, at: nat)
    | ReadValue(mode: Mode, at: nat)
    | ClearFlag(mode: Mode, at: nat, v: T)
    | StoreHead(mode: Mode, at: nat, v: T)
    | CheckGone
    | SizeTail
    | SizeHead(seen: nat)
    | UninitializedRead

  /**
   History: the items whose flag was set, the items whose flag was cleared, the
   counters' starting value, the unwrapped value of `limit`, and whether a bare push
   ever started after the producer closed.
   */
  datatype Log<+T> = Log(pushed: seq<T>, popped: seq<T>, base: nat, limitAt: nat, late: bool)

  datatype System<+T> = System(mem: Memory<T>, producer: Producer<T>, consumer: Consumer<T>, log: Log<T>)

  datatype Action<+T> =
    | StartPush(v: T)
    | StartTrySend(v: T)
    | StartSend(v: T)
    | CloseProducer
    | ProducerStep
    | StartPop
    | StartRecv
    | StartSize
    | CloseConsumer
    | ConsumerStep

  const MAX_LOOKAHEAD: nat := 4096

  /** The slot of position `i`, and the word that counts up to it. */
  function At(i: nat, cap: nat): (k: nat)
    requires cap > 0
    ensures k < cap
  {
    Rem(i, cap)
  }

  function Wrap(i: nat): (w: nat)
    ensures w < WORD
  {
    Rem(i, WORD)
  }

  function Lookahead(cap: nat): nat {
    Max(1, Min(cap / 4, MAX_LOOKAHEAD))
  }

  /** The smallest power of two that is not below `n`, searched from `Pow2(k)` up. */
  function NextPow2(n: nat, k: nat): (p: nat)
    requires n <= HALF_WORD && k <= 63
    ensures n <= p && 0 < p <= HALF_WORD && Rem(WORD, p) == 0
    ensures p == Pow2(k) || p < 2 * n
    decreases 63 - k
  {
    WordIsPow2();
    Pow2Divides(k, 63);
    Pow2Divides(k, 64);
    if n <= Pow2(k) then Pow2(k) else NextPow2(n, k + 1)
  }

  function Init<T>(capacity: nat, base: nat): System<T>
    requires capacity <= HALF_WORD && base < WORD
  {
    System(Memory(seq(NextPow2(capacity, 0), _ => Slot(None, false)), base, base, base, false, false),
           PIdle(NoAnswer), CIdle(NoReply), Log([], [], base, base, false))
  }

  /** `size()`: saturating, not wrapping, subtraction of two counters read one after the other. */
  function Size(cap: nat, tail: nat, head: nat): (n: nat)
    ensures n <= cap
  {
    Min(cap, SaturatingSub(tail, head))
  }

  /** Where the producer goes once `try_push` has handed the value back. */
  function AfterReject<T>(v: T, call: Call): Producer<T> {
    if call.Push? then PIdle(Rejected) else RecheckConsumer(v, call)
  }

  function StepProducer<T>(s: System<T>): System<T>
    requires |s.mem.slots| > 0
  {
    var m := s.mem;
    var cap := |m.slots|;
    match s.producer
    case PIdle(_) => s
    // wait_for_room
    case WaitTail(v) => s.(producer := WaitHead(v, m.tail))
    case WaitHead(v, seen) =>
      s.(producer := if cap - Size(cap, seen, m.head) > 0 then CheckConsumer(v, Send) else WaitProducer(v))
    case WaitProducer(v) => s.(producer := if m.producerGone then CheckConsumer(v, Send) else WaitConsumer(v))
    case WaitConsumer(v) => s.(producer := if m.consumerGone then CheckConsumer(v, Send) else PIdle(Waiting))
    // try_send, before the push
    case CheckConsumer(v, call) => s.(producer := if m.consumerGone then PIdle(Closed) else CheckProducer(v, call))
    case CheckProducer(v, call) => s.(producer := if m.producerGone then PIdle(Closed) else PushCheck(v, call))
    // try_push
    case PushCheck(v, call) => s.(producer := if m.consumerGone then AfterReject(v, call) else LoadTail(v, call))
    case LoadTail(v, call) => s.(producer := LoadLimit(v, call, m.tail))
    case LoadLimit(v, call, at) =>
      s.(producer := if at == m.limit then ProbeFar(v, call, at) else WriteValue(v, call, at))
    case ProbeFar(v, call, at) =>
      s.(producer := if m.slots[At(Wrap(at + Lookahead(cap)), cap)].full
                     then ProbeNear(v, call, at) else StoreFar(v, call, at))
    case StoreFar(v, call, at) =>
      s.(mem := m.(limit := Wrap(at + Lookahead(cap))),
         log := s.log.(limitAt := Filled(s) + Lookahead(cap)),
         producer := WriteValue(v, call, at))
    case ProbeNear(v, call, at) =>
      s.(producer := if m.slots[At(at, cap)].full then AfterReject(v, call) else StoreNear(v, call, at))
    case StoreNear(v, call, at) =>
      s.(mem := m.(limit := Wrap(at + 1)),
         log := s.log.(limitAt := Filled(s) + 1),
         producer := WriteValue(v, call, at))
    case WriteValue(v, call, at) =>
      var k := At(at, cap);
      s.(mem := m.(slots := m.slots[k := m.slots[k].(value := Some(v))]), producer := SetFlag(v, call, at))
    case SetFlag(v, call, at) =>
      var k := At(at, cap);
      s.(mem := m.(slots := m.slots[k := m.slots[k].(full := true)]), log := s.log.(pushed := s.log.pushed + [v]),
         producer := StoreTail(call, at))
    case StoreTail(call, at) =>
      s.(mem := m.(tail := Wrap(at + 1)), producer := PIdle(Sent))
    // try_send, after a push that handed the value back
    case RecheckConsumer(v, call) =>
      s.(producer := if m.consumerGone then PIdle(Closed) else RecheckProducer(v, call))
    case RecheckProducer(v, call) =>
      s.(producer := if m.producerGone then PIdle(Closed)
                     else if call.Send? then Panicked else PIdle(WouldBlock))
    case Panicked => s
  }

  function StepConsumer<T>(s: System<T>): System<T>
    requires |s.mem.slots| > 0
  {
    var m := s.mem;
    var cap := |m.slots|;
    match s.consumer
    case CIdle(_) => s
    // try_pop
    case LoadHead(mode) => s.(consumer := LoadFlag(mode, m.head))
    case LoadFlag(mode, at) =>
      s.(consumer := if m.slots[At(at, cap)].full then ReadValue(mode, at)
                     else match mode
                          case Pop => CIdle(Empty)
                          case RecvFirst => CheckGone
                          case RecvAgain => CIdle(Ended))
    case ReadValue(mode, at) =>
      var cell := m.slots[At(at, cap)].value;
      s.(consumer := if cell.Some? then ClearFlag(mode, at, cell.value) else UninitializedRead)
    case ClearFlag(mode, at, v) =>
      var k := At(at, cap);
      s.(mem := m.(slots := m.slots[k := m.slots[k].(full := false)]), log := s.log.(popped := s.log.popped + [v]),
         consumer := StoreHead(mode, at, v))
    case StoreHead(mode, at, v) =>
      s.(mem := m.(head := Wrap(at + 1)), consumer := CIdle(Got(v)))
    // do_recv_one, after an empty first attempt
    case CheckGone => s.(consumer := if m.producerGone then LoadHead(RecvAgain) else CIdle(Pending))
    // size
    case SizeTail => s.(consumer := SizeHead(m.tail))
    case SizeHead(seen) => s.(consumer := CIdle(Sized(Size(cap, seen, m.head))))
    case UninitializedRead => s
  }

  /** An action that is not enabled leaves the state alone. */
  function Apply<T>(s: System<T>, a: Action<T>): (s': System<T>)
    requires |s.mem.slots| > 0
    ensures |s'.mem.slots| == |s.mem.slots|
  {
    match a
    case StartPush(v) =>
      if s.producer.PIdle? then
        s.(producer := PushCheck(v, Push), log := s.log.(late := s.log.late || s.mem.producerGone))
      else s
    case StartTrySend(v) => if s.producer.PIdle? then s.(producer := CheckConsumer(v, TrySend)) else s
    case StartSend(v) => if s.producer.PIdle? then s.(producer := WaitTail(v)) else s
    case CloseProducer => if s.producer.PIdle? then s.(mem := s.mem.(producerGone := true)) else s
    case ProducerStep => StepProducer(s)
    case StartPop => if s.consumer.CIdle? then s.(consumer := LoadHead(Pop)) else s
    case StartRecv => if s.consumer.CIdle? then s.(consumer := LoadHead(RecvFirst)) else s
    case StartSize => if s.consumer.CIdle? then s.(consumer := SizeTail) else s
    case CloseConsumer => if s.consumer.CIdle? then s.(mem := s.mem.(consumerGone := true)) else s
    case ConsumerStep => StepConsumer(s)
  }

  /** The state after any interleaving of the two sides' actions. */
  function Run<T>(s: System<T>, actions: seq<Action<T>>): (s': System<T>)
    requires |s.mem.slots| > 0
    ensures |s'.mem.slots| == |s.mem.slots|
  {
    if actions == [] then s else Apply(Run(s, actions[..|actions| - 1]), actions[|actions| - 1])
  }

  /** Unwrapped positions of the next item to be filled and the next to be emptied. */
  function Filled<T>(s: System<T>): nat { s.log.base + |s.log.pushed| }
  function Emptied<T>(s: System<T>): nat { s.log.base + |s.log.popped| }

  /** The bounded queue the ring stands for. */
  function Queue<T>(s: System<T>): seq<T>
    requires |s.log.popped| <= |s.log.pushed|
  {
    s.log.pushed[|s.log.popped|..]
  }

  // ---------------------------------------------------------------- invariant

  ghost predicate InvSlots<T>(s: System<T>) {
    var cap := |s.mem.slots|;
    && 0 < cap < WORD && Rem(WORD, cap) == 0
    && s.log.popped <= s.log.pushed
    && Filled(s) <= Emptied(s) + cap
    && (forall i | Emptied(s) <= i < Filled(s) ::
          s.mem.slots[At(i, cap)] == Slot(Some(s.log.pushed[i - s.log.base]), true))
    && (forall i | Filled(s) <= i < Emptied(s) + cap :: !s.mem.slots[At(i, cap)].full)
  }

  ghost predicate InvCounters<T>(s: System<T>) {
    && Filled(s) <= s.log.limitAt <= Emptied(s) + |s.mem.slots|
    && s.mem.limit == Wrap(s.log.limitAt)
    && (s.producer.StoreTail? ==> |s.log.pushed| > 0)
    && (s.consumer.StoreHead? ==> |s.log.popped| > 0)
    && s.mem.tail == Wrap(if s.producer.StoreTail? then Filled(s) - 1 else Filled(s))
    && s.mem.head == Wrap(if s.consumer.StoreHead? then Emptied(s) - 1 else Emptied(s))
  }

  /** Room seen before a `send` counts only while the counters have not wrapped. */
  ghost predicate Roomy<T>(s: System<T>) {
    Filled(s) < WORD ==> Filled(s) < Emptied(s) + |s.mem.slots|
  }

  /** A push under way after the producer closed is one of the late ones. */
  ghost predicate Open<T>(s: System<T>) {
    s.mem.producerGone ==> s.log.late
  }

  ghost predicate InvProducer<T>(s: System<T>) {
    var cap := |s.mem.slots|;
    var here := Wrap(Filled(s));
    match s.producer
    case PIdle(_) => true
    case WaitTail(_) => true
    case WaitHead(_, seen) => seen == here
    case WaitProducer(_) => true
    case WaitConsumer(_) => true
    case CheckConsumer(_, call) => call.Send? ==> s.mem.consumerGone || s.mem.producerGone || Roomy(s)
    case CheckProducer(_, call) => call.Send? ==> s.mem.producerGone || Roomy(s)
    case PushCheck(_, call) => Open(s) && (call.Send? ==> Roomy(s))
    case LoadTail(_, call) => Open(s) && (call.Send? ==> Roomy(s))
    case LoadLimit(_, call, at) => at == here && Open(s) && (call.Send? ==> Roomy(s))
    case ProbeFar(_, call, at) => at == here && Open(s) && (call.Send? ==> Roomy(s))
    case StoreFar(_, _, at) => at == here && Open(s) && Filled(s) + Lookahead(cap) <= Emptied(s) + cap
    case ProbeNear(_, call, at) => at == here && Open(s) && (call.Send? ==> Roomy(s))
    case StoreNear(_, _, at) => at == here && Open(s) && Filled(s) < Emptied(s) + cap
    case WriteValue(_, _, at) => at == here && Open(s) && Filled(s) < s.log.limitAt
    case SetFlag(v, _, at) =>
      && at == here && Open(s) && Filled(s) < s.log.limitAt
      && cap > 0 && s.mem.slots[At(at, cap)].value == Some(v)
    case StoreTail(_, at) => Open(s) && |s.log.pushed| > 0 && at == Wrap(Filled(s) - 1)
    case RecheckConsumer(_, call) =>
      call.Send? && Filled(s) < WORD ==> s.mem.consumerGone
    case RecheckProducer(_, call) => call.Send? ==> Filled(s) >= WORD
    case Panicked => Filled(s) >= WORD
  }

  ghost predicate InvConsumer<T>(s: System<T>) {
    var here := Wrap(Emptied(s));
    match s.consumer
    case CIdle(reply) =>
      && (reply.Ended? ==> s.mem.producerGone && (s.log.popped == s.log.pushed || s.log.late))
      && (reply.Sized? && reply.n > 0 && Filled(s) < WORD ==> Emptied(s) < Filled(s))
    case LoadHead(mode) => mode.RecvAgain? ==> s.mem.producerGone
    case LoadFlag(mode, at) => at == here && (mode.RecvAgain? ==> s.mem.producerGone)
    case ReadValue(mode, at) => at == here && Emptied(s) < Filled(s) && (mode.RecvAgain? ==> s.mem.producerGone)
    case ClearFlag(mode, at, v) =>
      && at == here && Emptied(s) < Filled(s) && v == s.log.pushed[|s.log.popped|]
      && (mode.RecvAgain? ==> s.mem.producerGone)
    case StoreHead(mode, at, v) =>
      && |s.log.popped| > 0 && at == Wrap(Emptied(s) - 1) && v == s.log.popped[|s.log.popped| - 1]
      && (mode.RecvAgain? ==> s.mem.producerGone)
    case CheckGone => true
    case SizeTail => true
    case SizeHead(seen) => Filled(s) < WORD ==> seen <= Filled(s)
    case UninitializedRead => false
  }

  ghost predicate Inv<T>(s: System<T>) {
    && InvSlots(s) && InvCounters(s) && InvProducer(s) && InvConsumer(s)
  }

  // ------------------------------------------------------------ preservation

  /** Writing one position of a lap leaves the others alone. */
  lemma OthersKept<T>(slots: seq<Slot<T>>, lo: nat, p: nat, slot: Slot<T>)
    requires |slots| > 0 && lo <= p < lo + |slots|
    ensures forall i | lo <= i < lo + |slots| && i != p ::
              slots[At(p, |slots|) := slot][At(i, |slots|)] == slots[At(i, |slots|)]
  {
    forall i | lo <= i < lo + |slots| && i != p
      ensures At(i, |slots|) != At(p, |slots|)
    {
      if i < p {
        RemDistinct(i, p, |slots|);
      } else {
        RemDistinct(p, i, |slots|);
      }
    }
  }

  lemma InWindow<T>(s: System<T>, i: nat)
    requires InvSlots(s) && Emptied(s) <= i < Emptied(s) + |s.mem.slots|
    ensures s.mem.slots[At(i, |s.mem.slots|)].full <==> i < Filled(s)
  {
  }

  /** The slot at the fill position is full exactly when the ring is. */
  lemma NextSlot<T>(s: System<T>)
    requires InvSlots(s)
    ensures s.mem.slots[At(Filled(s), |s.mem.slots|)].full <==> Filled(s) == Emptied(s) + |s.mem.slots|
  {
    if Filled(s) == Emptied(s) + |s.mem.slots| {
      InWindow(s, Emptied(s));
      assert At(Filled(s), |s.mem.slots|) == At(Emptied(s), |s.mem.slots|);
    }
  }

  /** The lookahead argument: one empty slot far ahead proves the whole run up to it empty. */
  lemma FarProbe<T>(s: System<T>)
    requires InvSlots(s)
    requires !s.mem.slots[At(Filled(s) + Lookahead(|s.mem.slots|), |s.mem.slots|)].full
    ensures Filled(s) + Lookahead(|s.mem.slots|) <= Emptied(s) + |s.mem.slots|
  {
    var cap := |s.mem.slots|;
    var far := Filled(s) + Lookahead(cap);
    if far > Emptied(s) + cap {
      var p: nat := if cap == 1 then Emptied(s) else far - cap;
      InWindow(s, p);
    }
  }

  /** The slot a wrapped counter selects is the slot of the unwrapped position. */
  lemma {:induction false} WrappedAt(i: nat, d: nat, cap: nat)
    requires cap > 0 && Rem(WORD, cap) == 0
    ensures At(Wrap(i), cap) == At(i, cap)
    ensures Wrap(Wrap(i) + d) == Wrap(i + d)
    ensures At(Wrap(Wrap(i) + d), cap) == At(i + d, cap)
  {
    RemSum(i, d, WORD);
    RemOfRem(i, WORD, cap);
    RemOfRem(i + d, WORD, cap);
  }

  /** A step that moves only the producer's program counter. */
  lemma ProducerMoves<T>(s: System<T>, p: Producer<T>)
    requires Inv(s) && !s.producer.StoreTail? && !p.StoreTail? && InvProducer(s.(producer := p))
    ensures Inv(s.(producer := p))
  {
    var s' := s.(producer := p);
    assert InvSlots(s');
  }

  lemma ConsumerMoves<T>(s: System<T>, c: Consumer<T>)
    requires Inv(s) && !s.consumer.StoreHead? && !c.StoreHead? && InvConsumer(s.(consumer := c))
    ensures Inv(s.(consumer := c))
  {
    var s' := s.(consumer := c);
    assert InvSlots(s');
  }

  /** A step that advances `limit` to `d` past the fill position. */
  lemma LimitMoves<T>(s: System<T>, d: nat, p: Producer<T>)
    requires Inv(s) && 0 < d && Filled(s) + d <= Emptied(s) + |s.mem.slots| && Open(s)
    requires !s.producer.StoreTail? && p.WriteValue? && p.at == Wrap(Filled(s))
    ensures Inv(s.(mem := s.mem.(limit := Wrap(Filled(s) + d)), log := s.log.(limitAt := Filled(s) + d), producer := p))
  {
    var s' := s.(mem := s.mem.(limit := Wrap(Filled(s) + d)), log := s.log.(limitAt := Filled(s) + d), producer := p);
    assert InvSlots(s');
  }

  lemma WaitKeepsInv<T>(s: System<T>)
    requires Inv(s)
    requires s.producer.WaitTail? || s.producer.WaitHead? || s.producer.WaitProducer? || s.producer.WaitConsumer?
    ensures Inv(StepProducer(s))
  {
    ProducerMoves(s, StepProducer(s).producer);
  }

  lemma CheckKeepsInv<T>(s: System<T>)
    requires Inv(s)
    requires s.producer.CheckConsumer? || s.producer.CheckProducer? || s.producer.PushCheck?
             || s.producer.RecheckConsumer? || s.producer.RecheckProducer? || s.producer.LoadTail?
    ensures Inv(StepProducer(s))
  {
    ProducerMoves(s, StepProducer(s).producer);
  }

  lemma LoadLimitKeepsInv<T>(s: System<T>)
    requires Inv(s) && s.producer.LoadLimit?
    ensures Inv(StepProducer(s))
  {
    if s.producer.at == s.mem.limit && Filled(s) < s.log.limitAt {
      RemDistinct(Filled(s), s.log.limitAt, WORD);
    }
    ProducerMoves(s, StepProducer(s).producer);
  }

  lemma ProbeFarSees<T>(s: System<T>)
    requires InvSlots(s) && InvProducer(s) && s.producer.ProbeFar?
    ensures InvProducer(s.(producer := StepProducer(s).producer))
  {
    var cap := |s.mem.slots|;
    WrappedAt(Filled(s), Lookahead(cap), cap);
    if !s.mem.slots[At(Filled(s) + Lookahead(cap), cap)].full {
      FarProbe(s);
    }
  }

  lemma ProbeFarKeepsInv<T>(s: System<T>)
    requires Inv(s) && s.producer.ProbeFar?
    ensures Inv(StepProducer(s))
  {
    ProbeFarSees(s);
    ProducerMoves(s, StepProducer(s).producer);
  }

  lemma ProbeNearKeepsInv<T>(s: System<T>)
    requires Inv(s) && s.producer.ProbeNear?
    ensures Inv(StepProducer(s))
  {
    WrappedAt(Filled(s), 1, |s.mem.slots|);
    NextSlot(s);
    ProducerMoves(s, StepProducer(s).producer);
  }

  lemma StoreFarKeepsInv<T>(s: System<T>)
    requires Inv(s) && s.producer.StoreFar?
    ensures Inv(StepProducer(s))
  {
    RemSum(Filled(s), Lookahead(|s.mem.slots|), WORD);
    LimitMoves(s, Lookahead(|s.mem.slots|), StepProducer(s).producer);
  }

  lemma StoreNearKeepsInv<T>(s: System<T>)
    requires Inv(s) && s.producer.StoreNear?
    ensures Inv(StepProducer(s))
  {
    RemSum(Filled(s), 1, WORD);
    LimitMoves(s, 1, StepProducer(s).producer);
  }

  lemma WriteKeepsSlots<T>(s: System<T>)
    requires InvSlots(s) && InvCounters(s) && InvProducer(s) && s.producer.WriteValue?
    ensures InvSlots(StepProducer(s))
  {
    var cap := |s.mem.slots|;
    var s' := StepProducer(s);
    WrappedAt(Filled(s), 1, cap);
    InWindow(s, Filled(s));
    OthersKept(s.mem.slots, Emptied(s), Filled(s), s'.mem.slots[At(Filled(s), cap)]);
  }

  lemma WriteKeepsInv<T>(s: System<T>)
    requires Inv(s) && s.producer.WriteValue?
    ensures Inv(StepProducer(s))
  {
    WriteKeepsSlots(s);
  }

  lemma FillKeepsSlots<T>(s: System<T>)
    requires InvSlots(s) && InvCounters(s) && InvProducer(s) && s.producer.SetFlag?
    ensures InvSlots(StepProducer(s))
  {
    var cap := |s.mem.slots|;
    var s' := StepProducer(s);
    WrappedAt(Filled(s), 1, cap);
    OthersKept(s.mem.slots, Emptied(s), Filled(s), s'.mem.slots[At(Filled(s), cap)]);
  }

  lemma FillKeepsConsumer<T>(s: System<T>)
    requires InvSlots(s) && InvProducer(s) && InvConsumer(s) && s.producer.SetFlag?
    ensures InvConsumer(StepProducer(s))
  {
  }

  lemma FillKeepsInv<T>(s: System<T>)
    requires Inv(s) && s.producer.SetFlag?
    ensures Inv(StepProducer(s))
  {
    FillKeepsSlots(s);
    FillKeepsConsumer(s);
  }

  lemma StoreTailKeepsInv<T>(s: System<T>)
    requires Inv(s) && s.producer.StoreTail?
    ensures Inv(StepProducer(s))
  {
    var s' := StepProducer(s);
    RemSum(Filled(s) - 1, 1, WORD);
    assert InvSlots(s');
  }

  lemma StepProducerInv<T>(s: System<T>)
    requires Inv(s)
    ensures Inv(StepProducer(s))
  {
    match s.producer {
      case PIdle(_) =>
      case WaitTail(_) => WaitKeepsInv(s);
      case WaitHead(_, _) => WaitKeepsInv(s);
      case WaitProducer(_) => WaitKeepsInv(s);
      case WaitConsumer(_) => WaitKeepsInv(s);
      case LoadLimit(_, _, _) => LoadLimitKeepsInv(s);
      case ProbeFar(_, _, _) => ProbeFarKeepsInv(s);
      case ProbeNear(_, _, _) => ProbeNearKeepsInv(s);
      case StoreFar(_, _, _) => StoreFarKeepsInv(s);
      case StoreNear(_, _, _) => StoreNearKeepsInv(s);
      case WriteValue(_, _, _) => WriteKeepsInv(s);
      case SetFlag(_, _, _) => FillKeepsInv(s);
      case StoreTail(_, _) => StoreTailKeepsInv(s);
      case Panicked =>
      case _ => CheckKeepsInv(s);
    }
  }

  lemma LookKeepsInv<T>(s: System<T>)
    requires Inv(s) && (s.consumer.LoadFlag? || s.consumer.ReadValue?)
    ensures Inv(StepConsumer(s))
  {
    WrappedAt(Emptied(s), 1, |s.mem.slots|);
    InWindow(s, Emptied(s));
    ConsumerMoves(s, StepConsumer(s).consumer);
  }

  lemma ReceiveKeepsInv<T>(s: System<T>)
    requires Inv(s)
    requires s.consumer.LoadHead? || s.consumer.CheckGone? || s.consumer.SizeTail? || s.consumer.SizeHead?
    ensures Inv(StepConsumer(s))
  {
    ConsumerMoves(s, StepConsumer(s).consumer);
  }

  lemma ClearKeepsSlots<T>(s: System<T>)
    requires Inv(s) && s.consumer.ClearFlag?
    ensures InvSlots(StepConsumer(s))
  {
    var cap := |s.mem.slots|;
    var s' := StepConsumer(s);
    WrappedAt(Emptied(s), 1, cap);
    OthersKept(s.mem.slots, Emptied(s), Emptied(s), s'.mem.slots[At(Emptied(s), cap)]);
    forall i | Filled(s') <= i < Emptied(s') + cap
      ensures !s'.mem.slots[At(i, cap)].full
    {
      if i == Emptied(s) + cap {
        assert At(i, cap) == At(Emptied(s), cap);
      }
    }
  }

  lemma SlotsApart<T>(s: System<T>)
    requires InvSlots(s) && Emptied(s) < Filled(s) < Emptied(s) + |s.mem.slots|
    ensures At(Wrap(Emptied(s)), |s.mem.slots|) != At(Wrap(Filled(s)), |s.mem.slots|)
  {
    var cap := |s.mem.slots|;
    WrappedAt(Filled(s), 1, cap);
    WrappedAt(Emptied(s), 1, cap);
    RemDistinct(Emptied(s), Filled(s), cap);
  }

  /** A step of the consumer that frees room never disturbs the producer. */
  lemma ProducerUndisturbed<T>(s: System<T>)
    requires InvSlots(s) && InvCounters(s) && InvProducer(s) && InvConsumer(s)
    requires s.consumer.ClearFlag? || s.consumer.StoreHead?
    ensures InvProducer(StepConsumer(s))
  {
    if s.producer.SetFlag? && s.consumer.ClearFlag? {
      SlotsApart(s);
    }
  }

  lemma ClearKeepsInv<T>(s: System<T>)
    requires Inv(s) && s.consumer.ClearFlag?
    ensures Inv(StepConsumer(s))
  {
    ClearKeepsSlots(s);
    ProducerUndisturbed(s);
  }

  lemma StoreHeadKeepsInv<T>(s: System<T>)
    requires Inv(s) && s.consumer.StoreHead?
    ensures Inv(StepConsumer(s))
  {
    RemSum(Emptied(s) - 1, 1, WORD);
    ProducerUndisturbed(s);
  }

  lemma StepConsumerInv<T>(s: System<T>)
    requires Inv(s)
    ensures Inv(StepConsumer(s))
  {
    match s.consumer {
      case CIdle(_) =>
      case ClearFlag(_, _, _) => ClearKeepsInv(s);
      case StoreHead(_, _, _) => StoreHeadKeepsInv(s);
      case LoadFlag(_, _) => LookKeepsInv(s);
      case ReadValue(_, _) => LookKeepsInv(s);
      case _ => ReceiveKeepsInv(s);
    }
  }

  lemma CloseKeepsInv<T>(s: System<T>, a: Action<T>)
    requires Inv(s) && (a.CloseProducer? || a.CloseConsumer?)
    ensures Inv(Apply(s, a))
  {
    var s' := Apply(s, a);
    assert InvSlots(s');
  }

  lemma StartPushKeepsInv<T>(s: System<T>, v: T)
    requires Inv(s)
    ensures Inv(Apply(s, StartPush(v)))
  {
    if s.producer.PIdle? {
      var s' := s.(log := s.log.(late := s.log.late || s.mem.producerGone));
      assert InvSlots(s');
      ProducerMoves(s', PushCheck(v, Push));
    }
  }

  lemma StartKeepsInv<T>(s: System<T>, a: Action<T>)
    requires Inv(s) && !a.ProducerStep? && !a.ConsumerStep?
    requires !a.StartPush? && !a.CloseProducer? && !a.CloseConsumer?
    ensures Inv(Apply(s, a))
  {
    var s' := Apply(s, a);
    if s' == s {
    } else if s'.consumer == s.consumer {
      ProducerMoves(s, s'.producer);
    } else {
      ConsumerMoves(s, s'.consumer);
    }
  }

  lemma ApplyKeepsInv<T>(s: System<T>, a: Action<T>)
    requires Inv(s)
    ensures Inv(Apply(s, a))
  {
    if a.ProducerStep? {
      StepProducerInv(s);
    } else if a.ConsumerStep? {
      StepConsumerInv(s);
    } else if a.CloseProducer? || a.CloseConsumer? {
      CloseKeepsInv(s, a);
    } else if a.StartPush? {
      StartPushKeepsInv(s, a.v);
    } else {
      StartKeepsInv(s, a);
    }
  }

  lemma InitInv<T>(capacity: nat, base: nat)
    requires capacity <= HALF_WORD && base < WORD
    ensures Inv(Init<T>(capacity, base))
  {
  }

  lemma {:induction false} RunKeepsInv<T>(s: System<T>, actions: seq<Action<T>>)
    requires Inv(s)
    ensures Inv(Run(s, actions))
  {
    if actions != [] {
      RunKeepsInv(s, actions[..|actions| - 1]);
      ApplyKeepsInv(Run(s, actions[..|actions| - 1]), actions[|actions| - 1]);
    }
  }

  // ----------------------------------------------------------------- theorems

  /** No value cell is written while its slot is full, read while it is empty, or used by both sides at once. */
  ghost predicate CellsSafe<T>(s: System<T>)
    requires |s.mem.slots| > 0
  {
    var cap := |s.mem.slots|;
    var p, c := s.producer, s.consumer;
    && (p.WriteValue? || p.SetFlag? ==> !s.mem.slots[At(p.at, cap)].full)
    && (c.ReadValue? ==> s.mem.slots[At(c.at, cap)].full && s.mem.slots[At(c.at, cap)].value.Some?)
    && !c.UninitializedRead?
    && ((p.WriteValue? || p.SetFlag?) && (c.ReadValue? || c.ClearFlag?) ==> At(p.at, cap) != At(c.at, cap))
  }

  lemma CellsSafeAlways<T>(s: System<T>)
    requires Inv(s)
    ensures CellsSafe(s)
  {
    var cap := |s.mem.slots|;
    WrappedAt(Filled(s), 1, cap);
    WrappedAt(Emptied(s), 1, cap);
    InWindow(s, Emptied(s));
    if Filled(s) < s.log.limitAt {
      InWindow(s, Filled(s));
    }
  }

  /**
   Items come out in the order they went in, the full slots are one contiguous window
   of at most `capacity` positions that holds the queue, every position below `limit`
   is free, and the value cells are used safely.
   */
  ghost predicate Safe<T>(s: System<T>) {
    var cap := |s.mem.slots|;
    && cap > 0
    && s.log.popped <= s.log.pushed && |Queue(s)| <= cap
    && (forall i | Emptied(s) <= i < Emptied(s) + cap :: s.mem.slots[At(i, cap)].full <==> i < Filled(s))
    && (forall i | Emptied(s) <= i < Filled(s) ::
          s.mem.slots[At(i, cap)].value == Some(Queue(s)[i - Emptied(s)]))
    && (forall i | Filled(s) <= i < s.log.limitAt :: !s.mem.slots[At(i, cap)].full)
    && s.mem.limit == Wrap(s.log.limitAt)
    && CellsSafe(s)
  }

  lemma InvIsSafe<T>(s: System<T>)
    requires Inv(s)
    ensures Safe(s)
  {
    CellsSafeAlways(s);
  }

  /** Every interleaving of the two sides, from any starting counter value, is safe. */
  lemma {:induction false} RingSafety<T>(capacity: nat, base: nat, actions: seq<Action<T>>)
    requires capacity <= HALF_WORD && base < WORD
    ensures Safe(Run(Init(capacity, base), actions))
    ensures capacity <= |Run(Init(capacity, base), actions).mem.slots|
  {
    InitInv<T>(capacity, base);
    RunKeepsInv(Init(capacity, base), actions);
    InvIsSafe(Run(Init(capacity, base), actions));
  }

  /**
   Each step of the producer appends one item while there is room or leaves the queue
   alone. A push is turned down only when the queue is full or the consumer has gone.
   */
  lemma ProducerRefinesQueue<T>(s: System<T>)
    requires Inv(s)
    ensures var s' := StepProducer(s);
            && s'.log.popped <= s'.log.pushed
            && (if s.producer.SetFlag?
                then |Queue(s)| < |s.mem.slots| && Queue(s') == Queue(s) + [s.producer.v]
                else Queue(s') == Queue(s))
            && ((s.producer.PushCheck? || s.producer.ProbeNear?)
                && (s'.producer.PIdle? || s'.producer.RecheckConsumer?) ==>
                  s.mem.consumerGone || |Queue(s)| == |s.mem.slots|)
  {
    if s.producer.ProbeNear? {
      NextSlot(s);
      WrappedAt(Filled(s), 1, |s.mem.slots|);
    }
  }

  /** Each step of the consumer removes the front item or leaves the queue alone; a pop fails only on an empty queue. */
  lemma ConsumerRefinesQueue<T>(s: System<T>)
    requires Inv(s)
    ensures var s' := StepConsumer(s);
            && s'.log.popped <= s'.log.pushed
            && (if s.consumer.ClearFlag?
                then Queue(s) == [s.consumer.v] + Queue(s')
                else Queue(s') == Queue(s))
            && (s.consumer.LoadFlag? && !s'.consumer.ReadValue? ==> Queue(s) == [])
  {
    match s.consumer {
      case LoadFlag(_, _) =>
        InWindow(s, Emptied(s));
        WrappedAt(Emptied(s), 1, |s.mem.slots|);
      case ClearFlag(_, _, v) =>
        assert Queue(s) == [v] + s.log.pushed[|s.log.popped| + 1..];
      case _ =>
    }
  }

  /** `send` never reaches its "operation would block" panic while the counters have not wrapped. */
  lemma {:induction false} SendNeverPanics<T>(capacity: nat, base: nat, actions: seq<Action<T>>)
    requires capacity <= HALF_WORD && base < WORD
    ensures var s := Run(Init(capacity, base), actions);
            s.log.base + |s.log.pushed| < WORD ==> !s.producer.Panicked?
  {
    InitInv<T>(capacity, base);
    RunKeepsInv(Init(capacity, base), actions);
  }

  /** A non-zero size read by the consumer means the next pop finds an item. */
  lemma {:induction false} SizeSeenMeansItem<T>(capacity: nat, base: nat, actions: seq<Action<T>>)
    requires capacity <= HALF_WORD && base < WORD
    ensures var s := Run(Init(capacity, base), actions);
            && s.log.popped <= s.log.pushed
            && (s.consumer.CIdle? && s.consumer.reply.Sized? && s.consumer.reply.n > 0
                && s.log.base + |s.log.pushed| < WORD ==>
                  |Queue(s)| > 0 && s.mem.slots[At(s.mem.head, |s.mem.slots|)].full)
  {
    var s := Run(Init(capacity, base), actions);
    InitInv<T>(capacity, base);
    RunKeepsInv(Init(capacity, base), actions);
    WrappedAt(Emptied(s), 1, |s.mem.slots|);
    InWindow(s, Emptied(s));
  }

  /**
   Once `recv` has answered that the stream ended, everything ever pushed has been
   received, and nothing more arrives, unless the bare queue was pushed to after its
   producer closed, which `try_send` and `send` never do.
   */
  lemma {:induction false} EndedMeansDrained<T>(capacity: nat, base: nat, actions: seq<Action<T>>,
                                                later: seq<Action<T>>)
    requires capacity <= HALF_WORD && base < WORD
    requires Run(Init(capacity, base), actions).consumer == CIdle(Ended)
    ensures var s := Run(Init(capacity, base), actions);
            var t := Run(s, later);
            !t.log.late ==> s.log.popped == s.log.pushed && t.log.pushed == s.log.pushed && t.log.popped == s.log.pushed
    ensures var s := Run(Init(capacity, base), actions);
            (forall a | a in actions + later :: !a.StartPush?) ==> !Run(s, later).log.late
  {
    var s := Run(Init(capacity, base), actions);
    InitInv<T>(capacity, base);
    RunKeepsInv(Init(capacity, base), actions);
    LateIsForever(s, later);
    if !Run(s, later).log.late {
      ClosedStaysDrained(s, later);
    }
    if forall a | a in actions + later :: !a.StartPush? {
      OnlyBarePushesAreLate(Init(capacity, base), actions);
      OnlyBarePushesAreLate(s, later);
    }
  }

  lemma {:induction false} LateIsForever<T>(s: System<T>, later: seq<Action<T>>)
    requires |s.mem.slots| > 0
    ensures s.log.late ==> Run(s, later).log.late
  {
    if later != [] {
      LateIsForever(s, later[..|later| - 1]);
    }
  }

  lemma {:induction false} OnlyBarePushesAreLate<T>(s: System<T>, actions: seq<Action<T>>)
    requires |s.mem.slots| > 0 && !s.log.late && forall a | a in actions :: !a.StartPush?
    ensures !Run(s, actions).log.late
  {
    if actions != [] {
      OnlyBarePushesAreLate(s, actions[..|actions| - 1]);
      assert actions[|actions| - 1] in actions;
    }
  }

  lemma {:induction false} ClosedStaysDrained<T>(s: System<T>, later: seq<Action<T>>)
    requires Inv(s) && s.mem.producerGone && s.log.popped == s.log.pushed && !Run(s, later).log.late
    ensures Inv(Run(s, later)) && Run(s, later).mem.producerGone
    ensures Run(s, later).log.pushed == s.log.pushed && Run(s, later).log.popped == s.log.pushed
  {
    if later != [] {
      var t := Run(s, later[..|later| - 1]);
      ClosedStaysDrained(s, later[..|later| - 1]);
      StaysDrained(t, later[|later| - 1]);
      ApplyKeepsInv(t, later[|later| - 1]);
    }
  }

  lemma StaysDrained<T>(s: System<T>, a: Action<T>)
    requires Inv(s) && s.mem.producerGone && s.log.popped == s.log.pushed && !s.log.late
    ensures var s' := Apply(s, a);
            s'.mem.producerGone && s'.log.pushed == s.log.pushed && s'.log.popped == s.log.popped
  {
  }

  lemma {:induction false} RemDifference(x: nat, y: nat, m: nat)
    requires m > 0 && x <= y < x + m
    ensures Rem(x, m) <= Rem(y, m) ==> Rem(y, m) - Rem(x, m) == y - x
    ensures Rem(x, m) > Rem(y, m) ==> x < y
  {
    if x >= m {
      RemDifference(x - m, y - m, m);
    }
  }

  /** At rest, `size` tells the truth exactly when the counters do not straddle the word boundary. */
  lemma SizeExactAtRest<T>(s: System<T>)
    requires Inv(s) && s.producer.PIdle? && s.consumer.CIdle?
    ensures Size(|s.mem.slots|, s.mem.tail, s.mem.head) == |Queue(s)| <==> s.mem.head <= s.mem.tail
  {
    RemDifference(Emptied(s), Filled(s), WORD);
  }

  function Steps<T>(s: System<T>, k: nat): (s': System<T>)
    requires |s.mem.slots| > 0
    ensures |s'.mem.slots| == |s.mem.slots|
    decreases k
  {
    if k == 0 then s else Steps(StepProducer(s), k - 1)
  }

  lemma FullEverywhere<T>(s: System<T>, i: nat)
    requires InvSlots(s) && |Queue(s)| == |s.mem.slots|
    requires Filled(s) <= i < Filled(s) + |s.mem.slots|
    ensures s.mem.slots[At(i, |s.mem.slots|)].full
  {
    InWindow(s, i - |s.mem.slots|);
    assert At(i, |s.mem.slots|) == At(i - |s.mem.slots|, |s.mem.slots|);
  }

  /**
   A `send` that starts on a full ring, with the consumer at rest, waits exactly when
   the counters do not straddle the word boundary; when they do it panics.
   */
  lemma SendOnFullRing<T>(s: System<T>, v: T, k: nat)
    requires Inv(s) && s.producer.PIdle? && s.consumer.CIdle?
    requires !s.mem.producerGone && !s.mem.consumerGone && |Queue(s)| == |s.mem.slots|
    ensures s.mem.head <= s.mem.tail ==> Steps(Apply(s, StartSend(v)), k + 4).producer == PIdle(Waiting)
    ensures Steps(Apply(s, StartSend(v)), k + 11).producer.Panicked? <==> s.mem.tail < s.mem.head
  {
    SizeExactAtRest(s);
    FarSlotFull(s);
    if s.mem.head <= s.mem.tail {
      WaitPath(s, v, k);
      WaitPath(s, v, k + 7);
    } else {
      PanicPath(s, v, k);
    }
  }

  lemma {:induction false} ThenStep<T>(s: System<T>, p: Producer<T>, k: nat)
    requires |s.mem.slots| > 0 && StepProducer(s) == s.(producer := p)
    ensures Steps(s, k + 1) == Steps(s.(producer := p), k)
  {
  }

  lemma WaitPath<T>(s: System<T>, v: T, k: nat)
    requires |s.mem.slots| > 0 && s.producer.PIdle? && !s.mem.producerGone && !s.mem.consumerGone
    requires Size(|s.mem.slots|, s.mem.tail, s.mem.head) == |s.mem.slots|
    ensures Steps(Apply(s, StartSend(v)), k + 4).producer == PIdle(Waiting)
  {
    ThenStep(s.(producer := WaitTail(v)), WaitHead(v, s.mem.tail), k + 3);
    ThenStep(s.(producer := WaitHead(v, s.mem.tail)), WaitProducer(v), k + 2);
    ThenStep(s.(producer := WaitProducer(v)), WaitConsumer(v), k + 1);
    ThenStep(s.(producer := WaitConsumer(v)), PIdle(Waiting), k);
    StillIdle(s.(producer := PIdle(Waiting)), k);
  }

  lemma PanicPath<T>(s: System<T>, v: T, k: nat)
    requires |s.mem.slots| > 0 && s.producer.PIdle? && !s.mem.producerGone && !s.mem.consumerGone
    requires Size(|s.mem.slots|, s.mem.tail, s.mem.head) < |s.mem.slots|
    requires s.mem.tail == s.mem.limit && s.mem.slots[At(s.mem.tail, |s.mem.slots|)].full
    requires s.mem.slots[At(Wrap(s.mem.tail + Lookahead(|s.mem.slots|)), |s.mem.slots|)].full
    ensures Steps(Apply(s, StartSend(v)), k + 11).producer.Panicked?
  {
    PushReached(s, v, k + 6);
    PushOnFull(s, v, k);
    StillPanicked(s.(producer := Panicked), k);
  }

  /** A `send` that sees room goes on to push. */
  lemma {:induction false} PushReached<T>(s: System<T>, v: T, k: nat)
    requires |s.mem.slots| > 0 && s.producer.PIdle? && !s.mem.producerGone && !s.mem.consumerGone
    requires Size(|s.mem.slots|, s.mem.tail, s.mem.head) < |s.mem.slots|
    ensures Steps(Apply(s, StartSend(v)), k + 5) == Steps(s.(producer := LoadTail(v, Send)), k)
  {
    ThenStep(s.(producer := WaitTail(v)), WaitHead(v, s.mem.tail), k + 4);
    ThenStep(s.(producer := WaitHead(v, s.mem.tail)), CheckConsumer(v, Send), k + 3);
    ThenStep(s.(producer := CheckConsumer(v, Send)), CheckProducer(v, Send), k + 2);
    ThenStep(s.(producer := CheckProducer(v, Send)), PushCheck(v, Send), k + 1);
    ThenStep(s.(producer := PushCheck(v, Send)), LoadTail(v, Send), k);
  }

  lemma {:induction false} StillPanicked<T>(s: System<T>, k: nat)
    requires |s.mem.slots| > 0 && s.producer.Panicked?
    ensures Steps(s, k) == s
    decreases k
  {
    if k != 0 {
      StillPanicked(s, k - 1);
    }
  }

  lemma {:induction false} PushOnFull<T>(s: System<T>, v: T, k: nat)
    requires |s.mem.slots| > 0 && !s.mem.producerGone && !s.mem.consumerGone
    requires s.mem.tail == s.mem.limit && s.mem.slots[At(s.mem.tail, |s.mem.slots|)].full
    requires s.mem.slots[At(Wrap(s.mem.tail + Lookahead(|s.mem.slots|)), |s.mem.slots|)].full
    ensures Steps(s.(producer := LoadTail(v, Send)), k + 6) == Steps(s.(producer := Panicked), k)
  {
    var at := s.mem.tail;
    ThenStep(s.(producer := LoadTail(v, Send)), LoadLimit(v, Send, at), k + 5);
    ThenStep(s.(producer := LoadLimit(v, Send, at)), ProbeFar(v, Send, at), k + 4);
    ThenStep(s.(producer := ProbeFar(v, Send, at)), ProbeNear(v, Send, at), k + 3);
    RecheckAndPanic(s, v, k);
  }

  lemma {:induction false} RecheckAndPanic<T>(s: System<T>, v: T, k: nat)
    requires |s.mem.slots| > 0 && !s.mem.producerGone && !s.mem.consumerGone
    requires s.mem.slots[At(s.mem.tail, |s.mem.slots|)].full
    ensures Steps(s.(producer := ProbeNear(v, Send, s.mem.tail)), k + 3) == Steps(s.(producer := Panicked), k)
  {
    ThenStep(s.(producer := ProbeNear(v, Send, s.mem.tail)), RecheckConsumer(v, Send), k + 2);
    ThenStep(s.(producer := RecheckConsumer(v, Send)), RecheckProducer(v, Send), k + 1);
    ThenStep(s.(producer := RecheckProducer(v, Send)), Panicked, k);
  }

  lemma {:induction false} StillIdle<T>(s: System<T>, k: nat)
    requires |s.mem.slots| > 0 && s.producer.PIdle?
    ensures Steps(s, k) == s
    decreases k
  {
    if k != 0 {
      StillIdle(s, k - 1);
    }
  }

  lemma FarSlotFull<T>(s: System<T>)
    requires InvSlots(s) && |Queue(s)| == |s.mem.slots|
    ensures var cap := |s.mem.slots|;
            && s.mem.slots[At(Wrap(Filled(s)), cap)].full
            && s.mem.slots[At(Wrap(Wrap(Filled(s)) + Lookahead(cap)), cap)].full
  {
    var cap := |s.mem.slots|;
    WrappedAt(Filled(s), Lookahead(cap), cap);
    FullEverywhere(s, Filled(s));
    if Lookahead(cap) < cap {
      FullEverywhere(s, Filled(s) + Lookahead(cap));
    } else {
      assert cap == 1;
    }
  }
}
