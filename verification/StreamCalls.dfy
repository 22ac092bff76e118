/**
 The calls of the stream writer that wait: what `flush`, `sync` and `close` assert when they
 wake up, and who wakes a caller that was told to wait.
 */
module StreamCalls {
  import opened Words
  import opened Options
  import opened FlushState
  import opened StreamWriter
  import opened StreamDurability
  import opened StreamOrder

  // ------------------------------------------------------- what the future keeps

  /** History only grows. */
  ghost predicate Later(w: World, w': World) {
    w.issued <= w'.issued && w.landed <= w'.landed
  }

  lemma StepIsLater(w: World, e: Event)
    requires Inv(w) && Enabled(w, e)
    ensures Later(w, Apply(w, e))
  {
    if w.writer.status.Open? && !e.DoLand? && !e.DoSyncEnd? {
      CallsAdd(w, e);
    }
  }

  lemma {:induction false} RunIsLater(w: World, events: seq<Event>)
    requires Inv(w) && IsRun(w, events)
    ensures Later(w, After(w, events))
    decreases |events|
  {
    if events != [] {
      ApplyKeepsInv(w, events[0]);
      StepIsLater(w, events[0]);
      RunIsLater(Apply(w, events[0]), events[1..]);
    }
  }

  /** In flight, and some other caller holds its handle. */
  ghost predicate Orphan(w: World, i: nat) {
    InFlight(w, i) && w.issued[i].pos in w.taken
  }

  /** Another caller waits for a write in flight at or before `t`. */
  ghost predicate HeldUpTo(w: World, t: nat) {
    exists i | 0 <= i < |w.issued| :: Orphan(w, i) && w.issued[i].pos <= t
  }

  lemma Reached(w: World, n: nat)
    requires Inv(w) && n < |w.issued|
    ensures w.writer.flushes.flushedPos >= w.issued[n].pos <==> forall i | 0 <= i <= n :: w.issued[i].pos in w.landed
  {
    var started := Positions(w.issued);
    ReachedIff(w.writer.flushes, started, w.landed, w.taken, n);
    assert (forall i | 0 <= i <= n :: started[i] in w.landed)
      <==> (forall i | 0 <= i <= n :: w.issued[i].pos in w.landed);
  }

  /** Writes taken by a call are exactly those in flight that nobody waited for. */
  lemma TakesTheRest(w: World, i: nat)
    requires Inv(w) && i < |w.issued|
    ensures w.issued[i].pos in Handles(w.writer.flushes.entries) <==> InFlight(w, i) && !Orphan(w, i)
  {
    TakeKeepsInv(w);
    assert Positions(w.issued)[i] == w.issued[i].pos;
  }

  /**
   If what was nobody's at `c` has landed at `w`, and nobody else held anything up to the
   `n`-th write, it is reached.
   */
  lemma CaughtUp(c: World, w: World, n: nat)
    requires Inv(c) && Inv(w) && Later(c, w) && n < |c.issued|
    requires Handles(c.writer.flushes.entries) <= w.landed && !HeldUpTo(c, c.issued[n].pos)
    ensures w.writer.flushes.flushedPos >= c.issued[n].pos
  {
    forall i | 0 <= i <= n
      ensures w.issued[i].pos in w.landed
    {
      assert w.issued[i] == c.issued[i];
      TakesTheRest(c, i);
      if i < n {
        PositionsIncrease(c, i, n);
      }
    }
    Reached(w, n);
  }

  // ---------------------------------------------------------- landings as a run

  function Landings(order: seq<nat>): seq<Event> {
    if order == [] then [] else [DoLand(order[0])] + Landings(order[1..])
  }

  lemma {:induction false} LandThenRun(w: World, k: nat, rest: seq<Event>) returns (w1: World)
    requires Inv(w) && InFlight(w, k)
    ensures w1 == Land(w, k) && Inv(w1)
    ensures IsRun(w1, rest) ==> IsRun(w, [DoLand(k)] + rest) && After(w, [DoLand(k)] + rest) == After(w1, rest)
  {
    w1 := Land(w, k);
    LandKeepsInv(w, k);
    if IsRun(w1, rest) {
      RunCons(w, DoLand(k), rest);
    }
  }

  /** An order of landings is a run. */
  lemma {:induction false} OrderIsRun(w: World, order: seq<nat>)
    requires Inv(w) && IsOrder(w, order)
    ensures IsRun(w, Landings(order)) && After(w, Landings(order)) == LandAll(w, order)
    decreases |order|
  {
    if order != [] {
      var w1 := LandThenRun(w, order[0], Landings(order[1..]));
      OrderIsRun(w1, order[1..]);
    }
  }

  /** The writes at positions `s`, all in flight, can land before anything else happens. */
  lemma {:induction false} RunThese(w: World, s: set<nat>) returns (events: seq<Event>, w': World)
    requires Inv(w) && Landable(w.issued, w.landed, s)
    ensures IsRun(w, events) && w' == After(w, events)
    ensures w'.landed == w.landed + s && w'.issued == w.issued
  {
    var order;
    order, w' := LandThese(w, s);
    events := Landings(order);
    OrderIsRun(w, order);
    OrderOnlyLands(w, order);
  }

  /** While another caller's write stays in flight, `flushed_pos` stays before it. */
  lemma OrphanHoldsBack(w: World, i: nat) returns (events: seq<Event>)
    requires Inv(w) && InFlight(w, i) && w.issued[i].pos !in Handles(w.writer.flushes.entries)
    ensures Inv(TakeAll(w)) && IsRun(TakeAll(w), events)
    ensures var w' := After(TakeAll(w), events);
            Handles(w.writer.flushes.entries) <= w'.landed && w'.writer.flushes.flushedPos < w.issued[i].pos
  {
    TakeKeepsInv(w);
    var w';
    events, w' := RunThese(TakeAll(w), Handles(w.writer.flushes.entries));
    RunKeepsInv(TakeAll(w), events);
    Reached(w', i);
  }

  /**
   A call collects the handles at `c` and waits for them: whatever happens until they have
   landed, `flushed_pos` reaches `target`.
   */
  ghost predicate KeepsPromise(c: World, target: nat)
    requires Inv(TakeAll(c))
  {
    forall events | IsRun(TakeAll(c), events) ::
      Handles(c.writer.flushes.entries) <= After(TakeAll(c), events).landed ==>
        After(TakeAll(c), events).writer.flushes.flushedPos >= target
  }

  /** It does so exactly when nobody else waits for a write in flight up to the target. */
  lemma PromiseIff(c: World, target: nat, n: nat)
    requires Inv(c) && (target > 0 ==> n < |c.issued| && c.issued[n].pos == target)
    ensures Inv(TakeAll(c)) && (KeepsPromise(c, target) <==> !HeldUpTo(c, target))
  {
    TakeKeepsInv(c);
    if HeldUpTo(c, target) {
      PromiseBroken(c, target);
    } else if target > 0 {
      forall events | IsRun(TakeAll(c), events) && Handles(c.writer.flushes.entries) <= After(TakeAll(c), events).landed
        ensures After(TakeAll(c), events).writer.flushes.flushedPos >= target
      {
        RunIsLater(TakeAll(c), events);
        RunKeepsInv(TakeAll(c), events);
        CaughtUp(c, After(TakeAll(c), events), n);
      }
    }
  }

  lemma PromiseBroken(c: World, target: nat)
    requires Inv(c) && HeldUpTo(c, target)
    ensures Inv(TakeAll(c)) && !KeepsPromise(c, target)
  {
    var i :| 0 <= i < |c.issued| && Orphan(c, i) && c.issued[i].pos <= target;
    TakesTheRest(c, i);
    var events := OrphanHoldsBack(c, i);
  }

  // ------------------------------------------------------------------ flush calls

  /** After a padded flush everything handed over has been started, and the new write is nobody's yet. */
  lemma PaddedStartsAll(w: World, junk: nat -> Byte)
    requires Inv(w) && (w.writer.bufferPos > 0 ==> w.writer.buffer.Some?)
    ensures var c := FlushPadded(w, junk);
            && Inv(c) && Later(w, c) && c.landed == w.landed && c.taken == w.taken
            && CurrentPos(c.writer) == CurrentPos(w.writer) == LastPos(c.writer.flushes)
            && (forall i | |w.issued| <= i < |c.issued| :: c.issued[i].pos !in c.taken)
  {
    PaddedKeepsInv(w, junk);
    LastNotBeyond(w);
    if LastPos(w.writer.flushes) < CurrentPos(w.writer) {
      NotYetLanded(w, CurrentPos(w.writer));
    }
  }

  /** Starting the padded write changes nothing about whom the writes in flight belong to. */
  lemma SameHolders(w: World, c: World, t: nat)
    requires Later(w, c) && c.landed == w.landed && c.taken == w.taken
    requires forall i | |w.issued| <= i < |c.issued| :: c.issued[i].pos !in c.taken
    ensures HeldUpTo(c, t) <==> HeldUpTo(w, t)
  {
    if HeldUpTo(w, t) {
      var i :| 0 <= i < |w.issued| && Orphan(w, i) && w.issued[i].pos <= t;
      assert c.issued[i] == w.issued[i] && Orphan(c, i);
    }
    if HeldUpTo(c, t) {
      var i :| 0 <= i < |c.issued| && Orphan(c, i) && c.issued[i].pos <= t;
      assert c.issued[i] == w.issued[i] && Orphan(w, i);
    }
  }

  /** Some write ended exactly where the current block begins. */
  lemma {:induction false} BlockEnd(w: World, n: nat) returns (k: nat)
    requires Inv(w) && n <= |w.issued| && 0 < w.writer.alignedPos <= PosBefore(w.issued, n)
    ensures k < |w.issued| && w.issued[k].pos == w.writer.alignedPos
    decreases n
  {
    k := n - 1;
    var x := w.issued[k];
    assert Earlier(w.writer, x) && Carries(w.writer.size, w.accepted, x);
    if x.at == w.writer.alignedPos {
      assert NoGap(w.issued, k);
      k := BlockEnd(w, k);
    }
  }

  /** The position a flush call promises is that of a write already started (or zero). */
  lemma CollectingKeeps(w: World, partial: bool, junk: nat -> Byte) returns (n: nat)
    requires Inv(w) && w.writer.status.Open?
    ensures var c, t := Collecting(w, partial, junk), FlushCall(w, partial, junk).1;
            && Inv(c) && FlushCall(w, partial, junk).0 == TakeAll(c) && (HeldUpTo(c, t) <==> HeldUpTo(w, t))
            && (t > 0 ==> n < |c.issued| && c.issued[n].pos == t)
  {
    n := 0;
    if partial && w.writer.bufferPos > 0 {
      PaddedStartsAll(w, junk);
      var c := FlushPadded(w, junk);
      SameHolders(w, c, CurrentPos(w.writer));
      LastNotBeyond(c);
      n := |c.issued| - 1;
    } else if w.writer.alignedPos > 0 {
      n := BlockEnd(w, |w.issued|);
    }
  }

  /**
   `flush`, `flush_aligned` and `sync` keep their promise exactly when, at the call, no other
   caller already waits for a write in flight at or before the promised position. Otherwise
   the assertion at the end of `flush_inner` can panic.
   */
  lemma FlushAssertIff(w: World, partial: bool, junk: nat -> Byte)
    requires Inv(w) && w.writer.status.Open?
    ensures var c, target := Collecting(w, partial, junk), FlushCall(w, partial, junk).1;
            && FlushCall(w, partial, junk).0 == TakeAll(c) && Inv(TakeAll(c))
            && (KeepsPromise(c, target) <==> !HeldUpTo(w, target))
    ensures FlushCall(w, partial, junk).1 == if partial then CurrentPos(w.writer) else w.writer.alignedPos
    ensures !partial ==> FlushCall(w, partial, junk).0.issued == w.issued
  {
    var n := CollectingKeeps(w, partial, junk);
    PromiseIff(Collecting(w, partial, junk), FlushCall(w, partial, junk).1, n);
  }

  /**
   `poll_flush` empties the slot if everything has been flushed. Otherwise its caller takes the
   slot and, if it was free, everything handed over is on its way.
   */
  lemma PollFlushExact(w: World, caller: nat, junk: nat -> Byte)
    requires Inv(w) && w.writer.status.Open?
    ensures var w' := PollFlush(w, caller, junk);
            && w'.accepted == w.accepted
            && (caller in w'.waiting <==> w.writer.flushes.flushedPos != CurrentPos(w.writer))
            && w'.writer.waker == (if w.writer.flushes.flushedPos == CurrentPos(w.writer) then None else Some(caller))
            && (w'.writer.waker.Some? && w.writer.waker.None? ==> LastPos(w'.writer.flushes) == CurrentPos(w.writer))
  {
    PaddedStartsAll(w, junk);
  }

  // ------------------------------------------------------------------------- sync

  /** The writes up to `flushed_pos` at `w`, and that they are synced at `w'`. */
  ghost predicate SyncedUpTo(w: World, w': World) {
    forall i | 0 <= i < |w.issued| :: w.issued[i].pos <= w.writer.flushes.flushedPos ==> w.issued[i].pos in w'.stable
  }

  lemma FlushedHasLanded(w: World, i: nat)
    requires Inv(w) && i < |w.issued|
    ensures w.issued[i].pos <= w.writer.flushes.flushedPos ==> w.issued[i].pos in w.landed
    ensures w.issued[i].pos <= w.writer.syncedPos ==> w.issued[i].pos in w.stable
    ensures w.writer.syncedPos <= w.writer.flushes.flushedPos
  {
    var started := Positions(w.issued);
    assert started[i] == w.issued[i].pos && started[i] in started;
    FlushedPosExact(w.writer.flushes, started, w.landed, w.taken);
  }

  lemma StableOrLanded(w: World)
    requires Inv(w)
    ensures w.writer.syncedPos <= w.writer.flushes.flushedPos
    ensures w.writer.syncedPos == w.writer.flushes.flushedPos ==> SyncedUpTo(w, w)
    ensures forall w': World :: w.landed <= w'.stable ==> SyncedUpTo(w, w')
  {
    forall i | 0 <= i < |w.issued|
      ensures w.issued[i].pos <= w.writer.flushes.flushedPos ==> w.issued[i].pos in w.landed
      ensures w.issued[i].pos <= w.writer.syncedPos ==> w.issued[i].pos in w.stable
    {
      FlushedHasLanded(w, i);
    }
  }

  /**
   A sync either finds that everything flushed is synced already, or starts one; whenever
   that one ends, everything that was flushed when it began is synced, and it says so.
   */
  lemma SyncExact(w: World, later: World, i: nat)
    requires Inv(w) && w.writer.status.Open?
    ensures if w.writer.syncedPos == w.writer.flushes.flushedPos then SyncStart(w) == w && SyncedUpTo(w, w)
            else |SyncStart(w).syncing| == |w.syncing| + 1
    ensures w.writer.syncedPos != w.writer.flushes.flushedPos
            && i < |later.syncing| && later.syncing[i] == SyncStart(w).syncing[|w.syncing|] ==>
              SyncEnd(later, i).writer.syncedPos == w.writer.flushes.flushedPos && SyncedUpTo(w, SyncEnd(later, i))
    ensures i < |later.syncing| ==>
              multiset(later.syncing) == multiset(SyncEnd(later, i).syncing) + multiset{later.syncing[i]}
  {
    StableOrLanded(w);
    if i < |later.syncing| {
      assert later.syncing == later.syncing[..i] + [later.syncing[i]] + later.syncing[i + 1..];
    }
  }

  // ------------------------------------------------------------------------ close

  lemma {:induction false} ClosingKeepsPos(w: World, events: seq<Event>)
    requires Inv(w) && !w.writer.status.Open? && IsRun(w, events)
    ensures CurrentPos(After(w, events).writer) == CurrentPos(w.writer)
    decreases |events|
  {
    if events != [] {
      ApplyKeepsInv(w, events[0]);
      ClosingKeepsPos(Apply(w, events[0]), events[1..]);
    }
  }

  /** The state in which a close collects its handles. */
  function CloseCollecting(w: World, caller: nat, junk: nat -> Byte): World
    requires Layout(w.writer, w.accepted) && w.writer.status.Open?
  {
    FlushPadded(BeginClose(w, caller), junk)
  }

  /** Whatever happens until what the closing task awaits has landed, everything has then been flushed. */
  ghost predicate CloseKeepsPromise(w1: World)
    requires Inv(w1)
  {
    forall events | IsRun(w1, events) :: w1.awaited <= After(w1, events).landed ==> AllFlushed(After(w1, events))
  }

  lemma CloseCollects(w: World, caller: nat, junk: nat -> Byte) returns (c: World)
    requires Inv(w) && w.writer.status.Open?
    ensures c == CloseCollecting(w, caller, junk) && Inv(c) && !c.writer.status.Open?
    ensures Inv(CloseStart(w, caller, junk))
    ensures CloseStart(w, caller, junk) == TakeAll(c).(awaited := Handles(c.writer.flushes.entries))
    ensures CurrentPos(c.writer) == LastPos(c.writer.flushes) == CurrentPos(w.writer)
    ensures HeldUpTo(c, CurrentPos(w.writer)) <==> HeldUpTo(w, CurrentPos(w.writer))
  {
    var w0 := BeginClose(w, caller);
    c := CloseCollecting(w, caller, junk);
    PaddedStartsAll(w0, junk);
    PaddedKeepsLayout(w0, junk);
    SameHolders(w, c, CurrentPos(w.writer));
    TakeKeepsInv(c);
  }

  /**
   The assertion of the closing task cannot fail exactly when, at the call, no other caller
   waits for a write in flight.
   */
  lemma CloseAssertIff(w: World, caller: nat, junk: nat -> Byte)
    requires Inv(w) && w.writer.status.Open?
    ensures Inv(CloseStart(w, caller, junk))
    ensures CloseKeepsPromise(CloseStart(w, caller, junk)) <==> !HeldUpTo(w, CurrentPos(w.writer))
  {
    var c := CloseCollects(w, caller, junk);
    var w1 := CloseStart(w, caller, junk);
    if HeldUpTo(c, CurrentPos(c.writer)) {
      CloseCanPanic(c, w1);
    } else {
      forall events | IsRun(w1, events) && w1.awaited <= After(w1, events).landed
        ensures AllFlushed(After(w1, events))
      {
        CloseFlushesAll(c, w1, events);
      }
    }
  }

  lemma CloseCanPanic(c: World, w1: World)
    requires Inv(c) && Inv(w1) && HeldUpTo(c, CurrentPos(c.writer))
    requires w1 == TakeAll(c).(awaited := Handles(c.writer.flushes.entries))
    ensures !CloseKeepsPromise(w1)
  {
    var i :| 0 <= i < |c.issued| && Orphan(c, i);
    TakesTheRest(c, i);
    TakeKeepsInv(c);
    var events, w2 := RunThese(w1, w1.awaited);
    RunKeepsInv(w1, events);
    NotAllFlushed(w2, i);
  }

  lemma NotAllFlushed(w: World, i: nat)
    requires Inv(w) && InFlight(w, i)
    ensures !AllFlushed(w)
  {
    Reached(w, i);
    assert Carries(w.writer.size, w.accepted, w.issued[i]);
  }

  lemma {:induction false} CloseFlushesAll(c: World, w1: World, events: seq<Event>)
    requires Inv(c) && Inv(w1) && !c.writer.status.Open? && !HeldUpTo(c, CurrentPos(c.writer))
    requires CurrentPos(c.writer) == LastPos(c.writer.flushes)
    requires w1 == TakeAll(c).(awaited := Handles(c.writer.flushes.entries))
    requires IsRun(w1, events) && w1.awaited <= After(w1, events).landed
    ensures AllFlushed(After(w1, events))
  {
    RunIsLater(w1, events);
    RunKeepsInv(w1, events);
    ClosingKeepsPos(w1, events);
    EverythingReached(c, After(w1, events));
  }

  lemma EverythingReached(c: World, w: World)
    requires Inv(c) && Inv(w) && Later(c, w)
    requires CurrentPos(w.writer) == CurrentPos(c.writer) == LastPos(c.writer.flushes)
    requires Handles(c.writer.flushes.entries) <= w.landed && !HeldUpTo(c, CurrentPos(c.writer))
    ensures AllFlushed(w)
  {
    LastNotBeyond(c);
    LastNotBeyond(w);
    if c.issued != [] {
      CaughtUp(c, w, |c.issued| - 1);
    }
  }

  /** Once the handles are taken, every write in flight is somebody's. */
  lemma TakenIsOrphan(c: World, n: nat)
    requires Inv(c) && InFlight(c, n)
    ensures Orphan(TakeAll(c), n)
  {
    TakesTheRest(c, n);
  }

  /** A partial flush leaves its caller holding the handle of the padded write, which is in flight. */
  lemma FlushHoldsUp(w: World, junk: nat -> Byte) returns (w1: World)
    requires Inv(w) && Good(w) && Bounded(w) && w.writer.status.Open? && w.writer.waker.None?
    requires w.writer.bufferPos > 0 && LastPos(w.writer.flushes) != CurrentPos(w.writer)
    ensures w1 == Apply(w, DoFlushCall(true, junk)) && Inv(w1) && w1.writer.status.Open? && w1.writer.bufferPos > 0
    ensures HeldUpTo(w1, CurrentPos(w1.writer))
  {
    w1 := FlushedUp(w, junk);
    PaddedKeepsInv(w, junk);
    var n := |w.issued|;
    TakenIsOrphan(FlushPadded(w, junk), n);
    assert Carries(w1.writer.size, w1.accepted, w1.issued[n]);
  }

  /**
   For example: write a byte and start a partial flush; while that waits, the assertion of
   a second partial flush can panic, and so can that of a close.
   */
  lemma {:induction false} SecondFlushCanPanic(w0: World, caller: nat, b: Byte, junk: nat -> Byte)
    requires w0.writer.size > 1 && w0.writer.writeBehind > 0
    requires w0 == New(w0.writer.size, w0.writer.writeBehind, w0.writer.syncOnClose)
    ensures Inv(w0) && IsRun(w0, [DoWrite(caller, [b], junk), DoFlushCall(true, junk)])
    ensures var w := After(w0, [DoWrite(caller, [b], junk), DoFlushCall(true, junk)]);
            && Inv(w) && w.writer.status.Open?
            && Inv(TakeAll(Collecting(w, true, junk))) && Inv(CloseStart(w, caller, junk))
            && !KeepsPromise(Collecting(w, true, junk), FlushCall(w, true, junk).1)
            && !CloseKeepsPromise(CloseStart(w, caller, junk))
  {
    var w1 := FirstByte(w0, caller, b, junk);
    var w2 := FlushHoldsUp(w1, junk);
    TwoSteps(w0, DoWrite(caller, [b], junk), w1, DoFlushCall(true, junk), w2);
    FlushAssertIff(w2, true, junk);
    CloseAssertIff(w2, caller, junk);
  }

  // ----------------------------------------------------------------------- wakers

  /** A write that can take anything takes at least one byte. */
  lemma {:induction false} FillTakesSome(w: World, buf: seq<Byte>, junk: nat -> Byte)
    requires Inv(w) && w.writer.status.Open? && GoesOn(w, buf)
    ensures |Fill(w, buf, junk).accepted| > |w.accepted|
  {
    FillLength(w, buf, junk);
  }

  /**
   Whoever was told to wait is the one in the slot, and while the file is open some write is
   in flight whose end wakes that caller.
   */
  ghost predicate Served(w: World) {
    && w.waiting == Slot(w.writer)
    && (w.writer.status.Open? && w.waiting != {} ==> w.writer.flushes.pendingCount > 0)
  }

  /** Some other caller waits. */
  predicate OthersWait(w: World, caller: nat) {
    w.waiting - {caller} != {}
  }

  /** A poll while another caller waits, or a write of nothing while nothing is in flight. */
  predicate Strands(w: World, e: Event) {
    match e
    case DoWrite(caller, buf, _) => OthersWait(w, caller) || (buf == [] && w.writer.flushes.pendingCount == 0)
    case DoPollFlush(caller, _) => OthersWait(w, caller)
    case DoCloseAgain(caller) => OthersWait(w, caller)
    case _ => false
  }

  lemma LandWakes(w: World, k: nat)
    requires k < |w.issued| && w.writer.status.Open?
    ensures Land(w, k).waiting == w.waiting - Slot(w.writer) && Land(w, k).writer.waker.None?
  {
  }

  lemma PendingIsInFlight(w: World) returns (k: nat)
    requires Inv(w) && w.writer.flushes.pendingCount > 0
    ensures InFlight(w, k)
    ensures w.writer.status.Open? ==> Land(w, k).waiting == w.waiting - Slot(w.writer)
  {
    FlushedPosExact(w.writer.flushes, Positions(w.issued), w.landed, w.taken);
    var p :| p in Positions(w.issued) && p !in w.landed;
    k :| 0 <= k < |w.issued| && w.issued[k].pos == p;
    if w.writer.status.Open? {
      LandWakes(w, k);
    }
  }

  lemma {:induction false} FillKeepsWaker(w: World, buf: seq<Byte>, junk: nat -> Byte)
    requires Inv(w) && w.writer.status.Open?
    ensures Fill(w, buf, junk).writer.waker == w.writer.waker && Fill(w, buf, junk).waiting == w.waiting
    decreases |buf|, w.writer.buffer.None?
  {
    if GoesOn(w, buf) {
      var w', n := FillTurn(w, buf, junk);
      FillKeepsWaker(w', buf[n..], junk);
    }
  }

  /** A write that finds the slot empty. */
  lemma FreeWrite(w: World, caller: nat, buf: seq<Byte>, junk: nat -> Byte)
    requires Inv(w) && w.writer.status.Open? && w.writer.waker.None? && w.waiting == {}
    ensures Served(PollWrite(w, caller, buf, junk)) <==> !(buf == [] && w.writer.flushes.pendingCount == 0)
  {
    FlushedPosExact(w.writer.flushes, Positions(w.issued), w.landed, w.taken);
    FillKeepsWaker(w, buf, junk);
    if GoesOn(w, buf) {
      FillTakesSome(w, buf, junk);
    }
  }

  /** A poll that finds somebody in the slot takes their place. */
  lemma TakesThePlace(w: World, caller: nat)
    requires Served(w) && w.writer.waker.Some?
    ensures Served(Wait(w, caller)) <==> !OthersWait(w, caller)
  {
    var t := w.writer.waker.value;
    assert t in w.waiting;
    if t != caller {
      assert t in Wait(w, caller).waiting && t in w.waiting - {caller};
    } else {
      assert w.waiting - {caller} == {} && Wait(w, caller).waiting == {caller};
    }
  }

  lemma WriteServed(w: World, caller: nat, buf: seq<Byte>, junk: nat -> Byte)
    requires Inv(w) && w.writer.status.Open? && Served(w)
    ensures Served(PollWrite(w, caller, buf, junk)) <==> !Strands(w, DoWrite(caller, buf, junk))
  {
    if w.writer.waker.Some? {
      assert w.writer.waker.value in w.waiting;
      TakesThePlace(w, caller);
    } else {
      FreeWrite(w, caller, buf, junk);
    }
  }

  lemma FlushedIsIdle(w: World)
    requires Inv(w) && w.writer.flushes.flushedPos == CurrentPos(w.writer)
    ensures w.writer.flushes.pendingCount == 0
  {
    LastNotBeyond(w);
    LastPosExact(w.writer.flushes, Positions(w.issued), w.landed, w.taken);
    FlushedPosExact(w.writer.flushes, Positions(w.issued), w.landed, w.taken);
  }

  lemma PollFlushServed(w: World, caller: nat, junk: nat -> Byte)
    requires Inv(w) && w.writer.status.Open? && Served(w)
    ensures Served(PollFlush(w, caller, junk)) <==> !Strands(w, DoPollFlush(caller, junk))
  {
    if w.writer.flushes.flushedPos == CurrentPos(w.writer) {
      FlushedIsIdle(w);
    } else if w.writer.waker.Some? {
      TakesThePlace(w, caller);
    } else {
      PaddedPends(w, junk);
    }
  }

  lemma PaddedKeepsSlot(w: World, junk: nat -> Byte)
    requires Layout(w.writer, w.accepted) && w.writer.status.Open?
    ensures var c := FlushPadded(w, junk);
            c.writer.waker == w.writer.waker && c.waiting == w.waiting && c.writer.status.Open?
            && c.writer.flushes.flushedPos == w.writer.flushes.flushedPos
  {
  }

  /** After a padded flush, either everything is flushed or a write is in flight. */
  lemma PaddedPends(w: World, junk: nat -> Byte)
    requires Inv(w) && w.writer.status.Open? && w.writer.flushes.flushedPos != CurrentPos(w.writer)
    ensures var c := FlushPadded(w, junk);
            && c.writer.flushes.pendingCount > 0 && c.writer.waker == w.writer.waker && c.waiting == w.waiting
            && c.writer.status.Open?
  {
    PaddedStartsAll(w, junk);
    PaddedKeepsSlot(w, junk);
    LastAhead(FlushPadded(w, junk));
  }

  lemma LastAhead(c: World)
    requires Inv(c) && LastPos(c.writer.flushes) != c.writer.flushes.flushedPos
    ensures c.writer.flushes.pendingCount > 0
  {
    LastPosExact(c.writer.flushes, Positions(c.issued), c.landed, c.taken);
    FlushedPosExact(c.writer.flushes, Positions(c.issued), c.landed, c.taken);
  }

  lemma CloseServed(w: World, e: Event)
    requires Inv(w) && Enabled(w, e) && Served(w) && (e.DoCloseStart? || e.DoCloseAgain?)
    ensures Served(Apply(w, e)) <==> !Strands(w, e)
  {
    match e
    case DoCloseStart(caller, junk) =>
      assert CloseStart(w, caller, junk).waiting == {caller};
      assert Slot(CloseStart(w, caller, junk).writer) == {caller};
    case DoCloseAgain(caller) => TakesThePlace(w, caller);
  }

  /**
   A call strands a caller, who then waits with nothing to wake them, exactly if another
   caller waits at the time, or if it writes nothing while nothing is in flight.
   */
  lemma StuckIff(w: World, e: Event)
    requires Inv(w) && Enabled(w, e) && Served(w)
    ensures Served(Apply(w, e)) <==> !Strands(w, e)
  {
    match e
    case DoWrite(caller, buf, junk) => WriteServed(w, caller, buf, junk);
    case DoPollFlush(caller, junk) => PollFlushServed(w, caller, junk);
    case DoCloseStart(_, _) => CloseServed(w, e);
    case DoCloseAgain(_) => CloseServed(w, e);
    case _ =>
  }

  /** For example: a write of no bytes to a new stream waits, and nothing will wake it. */
  lemma EmptyWriteSticks(size: nat, writeBehind: nat, syncOnClose: bool, caller: nat, junk: nat -> Byte)
    requires size > 0 && writeBehind > 0
    ensures var w := New(size, writeBehind, syncOnClose);
            Inv(w) && Served(w) && !Served(Apply(w, DoWrite(caller, [], junk)))
  {
    NewInv(size, writeBehind, syncOnClose);
    StuckIff(New(size, writeBehind, syncOnClose), DoWrite(caller, [], junk));
  }

  /** No call of the run strands a caller. */
  ghost predicate Considerate(w: World, events: seq<Event>)
    requires Inv(w) && IsRun(w, events)
    decreases |events|
  {
    events == [] ||
    (!Strands(w, events[0]) && (ApplyKeepsInv(w, events[0]); Considerate(Apply(w, events[0]), events[1..])))
  }

  lemma {:induction false} RunServed(w: World, events: seq<Event>)
    requires Inv(w) && Served(w) && IsRun(w, events) && Considerate(w, events)
    ensures Served(After(w, events))
    decreases |events|
  {
    if events != [] {
      ApplyKeepsInv(w, events[0]);
      StuckIff(w, events[0]);
      RunServed(Apply(w, events[0]), events[1..]);
    }
  }

  /** On every such run of a stream, whoever waits while it is open has a write in flight that will wake them. */
  lemma {:induction false} WaitersAreWoken(size: nat, writeBehind: nat, syncOnClose: bool, events: seq<Event>, t: nat)
    requires size > 0 && writeBehind > 0
    requires Inv(New(size, writeBehind, syncOnClose)) && IsRun(New(size, writeBehind, syncOnClose), events)
    requires Considerate(New(size, writeBehind, syncOnClose), events)
    ensures var w := After(New(size, writeBehind, syncOnClose), events);
            t in w.waiting && w.writer.status.Open? ==> exists k: nat :: InFlight(w, k) && t !in Land(w, k).waiting
  {
    RunServed(New(size, writeBehind, syncOnClose), events);
    RunKeepsInv(New(size, writeBehind, syncOnClose), events);
    var w := After(New(size, writeBehind, syncOnClose), events);
    if t in w.waiting && w.writer.status.Open? {
      var k := PendingIsInFlight(w);
    }
  }

  // ------------------------------------------------------------- a displaced caller

  /** The caller waits, and there is no waker of theirs. */
  predicate Displaced(w: World, t: nat) {
    t in w.waiting && t !in Slot(w.writer)
  }

  /** A poll by this caller. */
  predicate PolledBy(e: Event, t: nat) {
    match e
    case DoWrite(caller, _, _) => caller == t
    case DoPollFlush(caller, _) => caller == t
    case DoCloseStart(caller, _) => caller == t
    case DoCloseAgain(caller) => caller == t
    case DoClosed(caller) => caller == t
    case _ => false
  }

  lemma StepDisplaced(w: World, e: Event, t: nat)
    requires Inv(w) && Enabled(w, e) && Displaced(w, t) && !PolledBy(e, t)
    ensures Displaced(Apply(w, e), t)
  {
    match e
    case DoWrite(_, buf, junk) => FillKeepsWaker(w, buf, junk);
    case _ =>
  }

  /** Unless they poll of their own accord, such a caller waits for ever, whatever the others do. */
  lemma {:induction false} DisplacedForEver(w: World, events: seq<Event>, t: nat)
    requires Inv(w) && IsRun(w, events) && Displaced(w, t) && forall e | e in events :: !PolledBy(e, t)
    ensures Displaced(After(w, events), t)
    decreases |events|
  {
    if events != [] {
      ApplyKeepsInv(w, events[0]);
      assert events[0] in events;
      StepDisplaced(w, events[0], t);
      DisplacedForEver(Apply(w, events[0]), events[1..], t);
    }
  }

  /** A write that exactly fills the first buffer of a stream. */
  lemma {:induction false} SendsBlock(w: World, bytes: seq<Byte>, junk: nat -> Byte) returns (w': World)
    requires Inv(w) && w.writer.status.Open? && w.writer.buffer.Some? && |bytes| == w.writer.size - w.writer.bufferPos
    requires w.issued == [] && w.writer.flushes == NO_FLUSHES
    ensures w' == Fill(w, bytes, junk) && Inv(w') && w'.accepted == w.accepted + bytes && bytes != []
    ensures w'.writer.buffer.None? && w'.writer.flushes.pendingCount == 1 && |w'.issued| == 1
    ensures w'.landed == w.landed && w'.writer.writeBehind == w.writer.writeBehind
    ensures w'.writer.status.Open? && w'.writer.waker == w.writer.waker && w'.waiting == w.waiting
  {
    var n;
    w', n := FillTurn(w, bytes, junk);
    assert bytes[n..] == [] && bytes[..n] == bytes;
  }

  lemma {:induction false} FirstAlloc(w0: World, bytes: seq<Byte>, junk: nat -> Byte) returns (w1: World)
    requires w0.writer.size > 0 && w0.writer.writeBehind > 0 && |bytes| == w0.writer.size
    requires w0 == New(w0.writer.size, w0.writer.writeBehind, w0.writer.syncOnClose)
    ensures Inv(w0) && w1 == Alloc(w0, junk) && Inv(w1) && Fill(w0, bytes, junk) == Fill(w1, bytes, junk)
  {
    NewInv(w0.writer.size, w0.writer.writeBehind, w0.writer.syncOnClose);
    var n;
    w1, n := FillTurn(w0, bytes, junk);
    assert bytes[n..] == bytes;
  }

  /** The first block of a new stream is written at once. */
  lemma FirstBlock(w0: World, caller: nat, bytes: seq<Byte>, junk: nat -> Byte) returns (w: World)
    requires w0.writer.size > 0 && w0.writer.writeBehind > 0 && |bytes| == w0.writer.size
    requires w0 == New(w0.writer.size, w0.writer.writeBehind, w0.writer.syncOnClose)
    ensures Inv(w0) && w == PollWrite(w0, caller, bytes, junk) && Inv(w)
    ensures w.writer.buffer.None? && w.writer.flushes.pendingCount == 1 && |w.issued| == 1 && InFlight(w, 0)
    ensures w.writer.writeBehind == w0.writer.writeBehind
    ensures w.writer.status.Open? && w.writer.waker.None? && w.waiting == {}
  {
    var w1 := FirstAlloc(w0, bytes, junk);
    var w2 := SendsBlock(w1, bytes, junk);
    w := w2.(waiting := w2.waiting - {caller});
    assert w == w2;
  }

  lemma {:induction false} WaitsForRoom(w: World, caller: nat, buf: seq<Byte>, junk: nat -> Byte)
    requires Inv(w) && w.writer.status.Open? && w.writer.waker.None?
    requires w.writer.buffer.None? && w.writer.flushes.pendingCount >= w.writer.writeBehind
    ensures Apply(w, DoWrite(caller, buf, junk)) == Wait(w, caller) && Inv(Wait(w, caller))
  {
    ApplyKeepsInv(w, DoWrite(caller, buf, junk));
  }

  /** `b` takes the slot of `a`, who waits, and is woken in their place. */
  lemma {:induction false} Displaces(w: World, a: nat, b: nat, bytes: seq<Byte>, junk: nat -> Byte) returns (w': World)
    requires Inv(w) && w.writer.status.Open? && w.writer.waker == Some(a) && w.waiting == {a} && a != b
    requires |w.issued| == 1 && InFlight(w, 0)
    ensures IsRun(w, [DoWrite(b, bytes, junk), DoLand(0)]) && w' == After(w, [DoWrite(b, bytes, junk), DoLand(0)])
    ensures Inv(w') && AtRest(w') && w'.writer.status.Open? && Displaced(w', a) && w'.waiting == {a}
  {
    var w1 := Wait(w, b);
    ApplyKeepsInv(w, DoWrite(b, bytes, junk));
    LandKeepsInv(w1, 0);
    LandWakes(w1, 0);
    w' := Land(w1, 0);
    TwoSteps(w, DoWrite(b, bytes, junk), w1, DoLand(0), w');
  }

  /**
   For example: with room for one write in flight, `a` fills a block and waits to write
   more; `b` polls and takes the slot; the write lands and wakes `b`. Nothing is in flight
   any more, and `a` waits.
   */
  lemma {:induction false} SecondCallerDisplaces(w0: World, a: nat, b: nat, bytes: seq<Byte>, junk: nat -> Byte)
    requires w0.writer.size > 0 && w0.writer.writeBehind == 1 && |bytes| == w0.writer.size && a != b
    requires w0 == New(w0.writer.size, w0.writer.writeBehind, w0.writer.syncOnClose)
    ensures Inv(w0)
    ensures var fill, steal := [DoWrite(a, bytes, junk), DoWrite(a, bytes, junk)], [DoWrite(b, bytes, junk), DoLand(0)];
            && IsRun(w0, fill) && Inv(After(w0, fill)) && IsRun(After(w0, fill), steal)
            && (var w := After(After(w0, fill), steal);
                Inv(w) && AtRest(w) && w.writer.status.Open? && Displaced(w, a) && w.waiting == {a})
  {
    var w1 := FirstBlock(w0, a, bytes, junk);
    WaitsForRoom(w1, a, bytes, junk);
    var w2 := Wait(w1, a);
    TwoSteps(w0, DoWrite(a, bytes, junk), w1, DoWrite(a, bytes, junk), w2);
    var w := Displaces(w2, a, b, bytes, junk);
  }
}
