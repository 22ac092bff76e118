/**
 What a reader finds in the file below a stream writer: while it is open, everything up to
 `flushed_pos`; after close, exactly the bytes handed over. Both hold exactly as long as no
 stale write to a block lands on top of a newer one.
 */
module StreamDurability {
  import opened Words
  import opened Options
  import opened FlushState
  import opened StreamWriter

  ghost predicate OnDisk(disk: seq<Byte>, accepted: seq<Byte>, x: Write) {
    && x.at <= x.pos <= |accepted| && x.pos <= |disk|
    && disk[x.at..x.pos] == accepted[x.at..x.pos]
  }

  /** Every write that has landed can be read back. */
  ghost predicate Good(w: World) {
    forall i | 0 <= i < |w.issued| :: w.issued[i].pos in w.landed ==> OnDisk(w.disk, w.accepted, w.issued[i])
  }

  /** What `current_flushed_pos` promises to readers of the file. */
  ghost predicate Durable(w: World) {
    var p := w.writer.flushes.flushedPos;
    p <= |w.accepted| && p <= |w.disk| && w.disk[..p] == w.accepted[..p]
  }

  /** Where the last block touched so far ends. */
  function End(w: Writer): nat {
    w.alignedPos + if w.bufferPos > 0 then w.size else 0
  }

  ghost predicate Bounded(w: World) {
    |w.disk| <= End(w.writer)
  }

  // ---------------------------------------------------- from writes to a prefix

  lemma PositionsIncrease(w: World, i: nat, j: nat)
    requires Inv(w) && i < j < |w.issued|
    ensures w.issued[i].pos < w.issued[j].pos
  {
    StartedIncrease(w.writer.flushes, Positions(w.issued), w.landed, w.taken);
    assert Below(Positions(w.issued), i, j);
  }

  /** The writes leave no gap: each byte before the `m`-th position is carried by some earlier write. */
  lemma {:induction false} Covering(issued: seq<Write>, m: nat, p: nat) returns (i: nat)
    requires m <= |issued| && (forall i | 0 <= i < |issued| :: NoGap(issued, i)) && p < PosBefore(issued, m)
    ensures i < m && issued[i].at <= p < issued[i].pos
  {
    if p < PosBefore(issued, m - 1) {
      i := Covering(issued, m - 1, p);
    } else {
      i := m - 1;
      assert NoGap(issued, i);
    }
  }

  lemma CoveredPrefix(issued: seq<Write>, disk: seq<Byte>, accepted: seq<Byte>, m: nat)
    requires m < |issued| && (forall i | 0 <= i < |issued| :: NoGap(issued, i))
    requires forall i | 0 <= i <= m :: OnDisk(disk, accepted, issued[i])
    ensures var p := issued[m].pos; p <= |disk| && p <= |accepted| && disk[..p] == accepted[..p]
  {
    assert OnDisk(disk, accepted, issued[m]);
    forall p | 0 <= p < issued[m].pos
      ensures disk[p] == accepted[p]
    {
      var i := Covering(issued, m + 1, p);
      var x := issued[i];
      assert OnDisk(disk, accepted, x);
      assert disk[p] == disk[x.at..x.pos][p - x.at] && accepted[p] == accepted[x.at..x.pos][p - x.at];
    }
  }

  /** `flushed_pos` ends a run of writes all of which have landed. */
  lemma FlushedRun(w: World) returns (m: nat)
    requires Inv(w) && w.writer.flushes.flushedPos > 0
    ensures m < |w.issued| && w.issued[m].pos == w.writer.flushes.flushedPos
    ensures forall i | 0 <= i <= m :: w.issued[i].pos in w.landed
  {
    var started := Positions(w.issued);
    FlushedPosExact(w.writer.flushes, started, w.landed, w.taken);
    m :| 0 <= m < |started| && started[m] == w.writer.flushes.flushedPos;
    forall i | 0 <= i <= m
      ensures w.issued[i].pos in w.landed
    {
      if i < m {
        PositionsIncrease(w, i, m);
      }
      assert started[i] in started;
    }
  }

  lemma GoodIsDurable(w: World)
    requires Inv(w) && Good(w)
    ensures Durable(w)
  {
    if w.writer.flushes.flushedPos > 0 {
      var m := FlushedRun(w);
      CoveredPrefix(w.issued, w.disk, w.accepted, m);
    }
  }

  /** When nothing is in flight the two promises are the same one. */
  lemma AtRestSame(w: World)
    requires Inv(w) && forall i | 0 <= i < |w.issued| :: w.issued[i].pos in w.landed
    ensures Durable(w) <==> Good(w)
  {
    if Good(w) {
      GoodIsDurable(w);
    }
    if Durable(w) {
      forall i | 0 <= i < |w.issued|
        ensures OnDisk(w.disk, w.accepted, w.issued[i])
      {
        AtRestFlushed(w, i);
        PrefixOnDisk(w.disk, w.accepted, w.writer.flushes.flushedPos, w.issued[i]);
      }
    }
  }

  lemma PrefixOnDisk(disk: seq<Byte>, accepted: seq<Byte>, p: nat, x: Write)
    requires x.at <= x.pos <= p <= |disk| && p <= |accepted| && disk[..p] == accepted[..p]
    ensures OnDisk(disk, accepted, x)
  {
    assert disk[x.at..x.pos] == disk[..p][x.at..x.pos];
    assert accepted[x.at..x.pos] == accepted[..p][x.at..x.pos];
  }

  lemma AtRestFlushed(w: World, i: nat)
    requires Inv(w) && (forall i | 0 <= i < |w.issued| :: w.issued[i].pos in w.landed) && i < |w.issued|
    ensures w.issued[i].at < w.issued[i].pos <= w.writer.flushes.flushedPos
  {
    var started := Positions(w.issued);
    assert Carries(w.writer.size, w.accepted, w.issued[i]) && started[i] in started;
    FlushedPosExact(w.writer.flushes, started, w.landed, w.taken);
    assert AllDone(started, w.landed, started[i]);
  }

  // ------------------------------------------------------------ steps that only add

  /** A step that touches neither the file nor what has landed, and only adds bytes and writes. */
  ghost predicate Adds(w: World, w': World) {
    && w'.landed == w.landed && w'.disk == w.disk
    && w.issued <= w'.issued && w.accepted <= w'.accepted
    && (forall i | |w.issued| <= i < |w'.issued| :: w'.issued[i].pos !in w.landed)
    && End(w.writer) <= End(w'.writer) && w'.writer.syncOnClose == w.writer.syncOnClose
  }

  lemma AddsKeepsGood(w: World, w': World)
    requires Inv(w) && Good(w) && Bounded(w) && Adds(w, w')
    ensures Good(w') && Bounded(w')
  {
    forall i | 0 <= i < |w'.issued| && w'.issued[i].pos in w'.landed
      ensures OnDisk(w'.disk, w'.accepted, w'.issued[i])
    {
      var x := w'.issued[i];
      assert x == w.issued[i] && OnDisk(w.disk, w.accepted, x);
      assert w'.accepted[x.at..x.pos] == w.accepted[x.at..x.pos];
    }
  }

  lemma AddsTransitive(w: World, w': World, w'': World)
    requires Adds(w, w') && Adds(w', w'')
    ensures Adds(w, w'')
  {
    forall i | |w.issued| <= i < |w''.issued|
      ensures w''.issued[i].pos !in w.landed
    {
      assert i >= |w'.issued| || w''.issued[i] == w'.issued[i];
    }
  }

  lemma NotYetLanded(w: World, pos: nat)
    requires Inv(w) && pos > LastPos(w.writer.flushes)
    ensures pos !in w.landed && pos !in w.taken && forall i | 0 <= i < |w.issued| :: w.issued[i].pos < pos
  {
    LastNotBeyond(w);
    forall i | 0 <= i < |w.issued|
      ensures w.issued[i].pos < pos
    {
      if i < |w.issued| - 1 {
        PositionsIncrease(w, i, |w.issued| - 1);
      }
    }
    assert pos !in Positions(w.issued);
  }

  lemma TurnAdds(w: World, buf: seq<Byte>, junk: nat -> Byte)
    requires Inv(w) && w.writer.status.Open? && GoesOn(w, buf)
    ensures Adds(w, Turn(w, buf, junk))
  {
    LastNotBeyond(w);
    NotYetLanded(w, w.writer.alignedPos + w.writer.size);
  }

  lemma {:induction false} FillAdds(w: World, buf: seq<Byte>, junk: nat -> Byte)
    requires Inv(w) && w.writer.status.Open?
    ensures Adds(w, Fill(w, buf, junk))
    decreases |buf|, w.writer.buffer.None?
  {
    if GoesOn(w, buf) {
      TurnAdds(w, buf, junk);
      var w', n := FillTurn(w, buf, junk);
      FillAdds(w', buf[n..], junk);
      AddsTransitive(w, w', Fill(w, buf, junk));
    }
  }

  lemma PaddedAdds(w: World, junk: nat -> Byte)
    requires Inv(w) && (w.writer.bufferPos > 0 ==> w.writer.buffer.Some?)
    ensures Adds(w, FlushPadded(w, junk))
  {
    LastNotBeyond(w);
    if LastPos(w.writer.flushes) < CurrentPos(w.writer) {
      NotYetLanded(w, CurrentPos(w.writer));
    }
  }

  // ------------------------------------------------------------------- landing

  /** The older write `x` has the same bytes as `y` where `y` carries the caller's. */
  ghost predicate SameBytes(x: Write, y: Write) {
    y.at <= y.pos && y.pos - y.at <= |x.data| && y.pos - y.at <= |y.data|
    && x.data[..y.pos - y.at] == y.data[..y.pos - y.at]
  }

  /** The `j`-th write is newer than the `k`-th, to the same block, and has landed. */
  ghost predicate Overtakes(w: World, j: nat, k: nat)
    requires j < |w.issued| && k < |w.issued|
  {
    k < j && w.issued[j].at == w.issued[k].at && w.issued[j].pos in w.landed
  }

  /** No newer write to the block has landed, or none whose bytes this one would change. */
  ghost predicate Harmless(w: World, k: nat)
    requires k < |w.issued|
  {
    forall j | 0 <= j < |w.issued| :: Overtakes(w, j, k) ==> SameBytes(w.issued[k], w.issued[j])
  }

  lemma OverlayElsewhere(disk: seq<Byte>, accepted: seq<Byte>, x: Write, y: Write)
    requires OnDisk(disk, accepted, y) && (y.pos <= x.at || x.at + |x.data| <= y.at)
    ensures OnDisk(Overlay(disk, x.at, x.data), accepted, y)
  {
    assert Overlay(disk, x.at, x.data)[y.at..y.pos] == disk[y.at..y.pos];
  }

  /** After `x` lands, `y` to the same block reads back exactly if `x` carries `y`'s bytes. */
  lemma OverlaySame(disk: seq<Byte>, accepted: seq<Byte>, x: Write, y: Write)
    requires y.at == x.at && y.at <= y.pos <= |accepted| && |y.data| == |x.data| && y.pos <= y.at + |x.data|
    requires y.data[..y.pos - y.at] == accepted[y.at..y.pos]
    ensures OnDisk(Overlay(disk, x.at, x.data), accepted, y) <==> SameBytes(x, y)
  {
    var d := Overlay(disk, x.at, x.data);
    assert d[y.at..y.pos] == d[x.at..x.at + |x.data|][..y.pos - y.at] == x.data[..y.pos - y.at];
  }

  lemma PrefixOfCarried(data: seq<Byte>, accepted: seq<Byte>, at: nat, p: nat, q: nat)
    requires at <= p <= q <= |accepted| && q - at <= |data| && data[..q - at] == accepted[at..q]
    ensures data[..p - at] == accepted[at..p]
  {
    assert data[..p - at] == data[..q - at][..p - at];
    assert accepted[at..p] == accepted[at..q][..p - at];
  }

  /** An older write's bytes are a prefix of a newer one's. */
  lemma OlderIsPrefix(w: World, i: nat, k: nat)
    requires Inv(w) && i < k < |w.issued| && w.issued[i].at == w.issued[k].at
    ensures SameBytes(w.issued[k], w.issued[i])
  {
    var x, y := w.issued[k], w.issued[i];
    PositionsIncrease(w, i, k);
    assert Carries(w.writer.size, w.accepted, x) && Carries(w.writer.size, w.accepted, y);
    PrefixOfCarried(x.data, w.accepted, x.at, y.pos, x.pos);
  }

  lemma OthersElsewhere(w: World, i: nat, k: nat)
    requires Inv(w) && i < |w.issued| && k < |w.issued| && w.issued[i].at != w.issued[k].at
    ensures w.issued[i].pos <= w.issued[k].at || w.issued[k].at + |w.issued[k].data| <= w.issued[i].at
  {
    assert Carries(w.writer.size, w.accepted, w.issued[k]) && Carries(w.writer.size, w.accepted, w.issued[i]);
    assert if i < k then Aligned(w.writer.size, w.issued, i, k) else Aligned(w.writer.size, w.issued, k, i);
  }

  lemma LandOne(w: World, k: nat, i: nat)
    requires Inv(w) && Good(w) && k < |w.issued| && w.issued[k].pos !in w.landed
    requires i < |w.issued| && w.issued[i].pos in w.landed + {w.issued[k].pos}
    ensures OnDisk(Land(w, k).disk, w.accepted, w.issued[i])
            <==> (Overtakes(w, i, k) ==> SameBytes(w.issued[k], w.issued[i]))
  {
    var x, y := w.issued[k], w.issued[i];
    assert Carries(w.writer.size, w.accepted, x) && Carries(w.writer.size, w.accepted, y);
    if i != k {
      if i < k { PositionsIncrease(w, i, k); } else { PositionsIncrease(w, k, i); }
    }
    if x.at == y.at {
      OverlaySame(w.disk, w.accepted, x, y);
      if i < k { OlderIsPrefix(w, i, k); }
    } else {
      OthersElsewhere(w, i, k);
      OverlayElsewhere(w.disk, w.accepted, x, y);
    }
  }

  /** A landing keeps every landed write readable exactly when it is harmless. */
  lemma LandExact(w: World, k: nat)
    requires Inv(w) && Good(w) && k < |w.issued| && w.issued[k].pos !in w.landed
    ensures Good(Land(w, k)) <==> Harmless(w, k)
  {
    var w' := Land(w, k);
    forall i | 0 <= i < |w.issued| && w.issued[i].pos in w'.landed
      ensures OnDisk(w'.disk, w.accepted, w.issued[i])
              <==> (Overtakes(w, i, k) ==> SameBytes(w.issued[k], w.issued[i]))
    {
      LandOne(w, k, i);
    }
    if Good(w') {
      forall j | 0 <= j < |w.issued| && Overtakes(w, j, k)
        ensures SameBytes(w.issued[k], w.issued[j])
      {
        assert OnDisk(w'.disk, w'.accepted, w'.issued[j]);
      }
    }
  }

  lemma LandBounded(w: World, k: nat)
    requires Inv(w) && Bounded(w) && k < |w.issued|
    ensures Bounded(Land(w, k))
  {
    assert Earlier(w.writer, w.issued[k]) && Carries(w.writer.size, w.accepted, w.issued[k]);
  }

  // ---------------------------------------------------------------- whole runs

  /** The closing task is done, whether or not the caller has heard of it. */
  predicate Finished(w: Writer) {
    w.status.Closed? || (w.status.Closing? && w.waker.None?)
  }

  ghost predicate AllStable(w: World) {
    forall p | p in Positions(w.issued) :: p in w.stable
  }

  /** After close the file is exactly what was handed over, and synced if that was asked for. */
  ghost predicate Sealed(w: World) {
    AllFlushed(w) && w.disk == w.accepted && (w.writer.syncOnClose ==> AllStable(w))
  }

  ghost predicate Faithful(w: World) {
    Good(w) && Bounded(w) && (Finished(w.writer) ==> Sealed(w))
  }

  lemma NothingInFlight(w: World)
    requires Inv(w) && AllFlushed(w)
    ensures forall i | 0 <= i < |w.issued| :: w.issued[i].pos in w.landed
  {
    LastNotBeyond(w);
    var started := Positions(w.issued);
    LastPosExact(w.writer.flushes, started, w.landed, w.taken);
    FlushedPosExact(w.writer.flushes, started, w.landed, w.taken);
    forall i | 0 <= i < |w.issued|
      ensures w.issued[i].pos in w.landed
    {
      assert started[i] in started;
    }
  }

  lemma AllInStable(w: World)
    requires Inv(w) && AllFlushed(w) && w.writer.syncOnClose
    ensures AllStable(CloseFinish(w))
  {
    NothingInFlight(w);
    forall p | p in Positions(w.issued)
      ensures p in CloseFinish(w).stable
    {
      var i :| 0 <= i < |w.issued| && w.issued[i].pos == p;
      assert Carries(w.writer.size, w.accepted, w.issued[i]);
    }
  }

  /** The last step of a close cuts the padding off and nothing else. */
  lemma CloseIsExact(w: World)
    requires Inv(w) && Faithful(w) && w.writer.status.Closing? && AllFlushed(w)
    ensures Sealed(CloseFinish(w))
    ensures if w.writer.syncOnClose then CloseFinish(w).writer.syncedPos == CurrentPos(w.writer)
            else CloseFinish(w).writer.syncedPos == w.writer.syncedPos && CloseFinish(w).stable == w.stable
  {
    GoodIsDurable(w);
    LastNotBeyond(w);
    var w' := CloseFinish(w);
    assert w.accepted == w.accepted[..CurrentPos(w.writer)] && w'.disk == w.accepted;
    if w.writer.syncOnClose {
      AllInStable(w);
    }
  }

  lemma CloseFinishFaithful(w: World)
    requires Inv(w) && Faithful(w) && w.writer.status.Closing? && AllFlushed(w)
    ensures Faithful(CloseFinish(w))
  {
    CloseIsExact(w);
    var w' := CloseFinish(w);
    forall i | 0 <= i < |w'.issued| && w'.issued[i].pos in w'.landed
      ensures OnDisk(w'.disk, w'.accepted, w'.issued[i])
    {
      assert Carries(w.writer.size, w.accepted, w.issued[i]);
    }
  }

  /** Harmful landings are the only events that can spoil the file. */
  ghost predicate Spares(w: World, e: Event) {
    e.DoLand? ==> e.k < |w.issued| && Harmless(w, e.k)
  }

  /** A writer that is still open, or has just begun to close. */
  ghost predicate AddsOnly(w: World, w': World) {
    Adds(w, w') && !Finished(w'.writer)
  }

  lemma SlotAdds(w: World, f: World, w': World)
    requires Adds(w, f) && f.writer.status.Open? && SameButSlot(f, w')
    ensures AddsOnly(w, w')
  {
  }

  lemma WriteAdds(w: World, caller: nat, buf: seq<Byte>, junk: nat -> Byte)
    requires Inv(w) && w.writer.status.Open?
    ensures AddsOnly(w, PollWrite(w, caller, buf, junk))
  {
    if w.writer.waker.Some? {
      SlotAdds(w, w, PollWrite(w, caller, buf, junk));
    } else {
      FillAdds(w, buf, junk);
      FillKeepsInv(w, buf, junk);
      SlotAdds(w, Fill(w, buf, junk), PollWrite(w, caller, buf, junk));
    }
  }

  lemma PollFlushAdds(w: World, caller: nat, junk: nat -> Byte)
    requires Inv(w) && w.writer.status.Open?
    ensures AddsOnly(w, PollFlush(w, caller, junk))
  {
    PaddedAdds(w, junk);
    PaddedKeepsLayout(w, junk);
    var w' := PollFlush(w, caller, junk);
    if w'.issued == w.issued {
      SlotAdds(w, w, w');
    } else {
      SlotAdds(w, FlushPadded(w, junk), w');
    }
  }

  lemma FlushCallAdds(w: World, partial: bool, junk: nat -> Byte)
    requires Inv(w) && w.writer.status.Open?
    ensures AddsOnly(w, FlushCall(w, partial, junk).0)
  {
    PaddedAdds(w, junk);
    PaddedKeepsLayout(w, junk);
  }

  lemma CloseStartAdds(w: World, caller: nat, junk: nat -> Byte)
    requires Inv(w) && w.writer.status.Open?
    ensures AddsOnly(w, CloseStart(w, caller, junk))
  {
    var c := BeginClose(w, caller);
    PaddedAdds(c, junk);
    assert Adds(w, c);
    AddsTransitive(w, c, FlushPadded(c, junk));
  }

  lemma CallsAdd(w: World, e: Event)
    requires Inv(w) && Enabled(w, e) && w.writer.status.Open? && !e.DoLand? && !e.DoSyncEnd?
    ensures AddsOnly(w, Apply(w, e))
  {
    match e
    case DoWrite(caller, buf, junk) => WriteAdds(w, caller, buf, junk);
    case DoCloseStart(caller, junk) => CloseStartAdds(w, caller, junk);
    case DoPollFlush(caller, junk) => PollFlushAdds(w, caller, junk);
    case DoFlushCall(partial, junk) => FlushCallAdds(w, partial, junk);
    case DoSyncStart =>
  }

  lemma StepFaithful(w: World, e: Event)
    requires Inv(w) && Faithful(w) && Enabled(w, e) && Spares(w, e)
    ensures Faithful(Apply(w, e)) && Apply(w, e).writer.syncOnClose == w.writer.syncOnClose
  {
    match e
    case DoLand(k) =>
      LandExact(w, k);
      LandBounded(w, k);
      if Finished(w.writer) { NothingInFlight(w); }
    case DoSyncEnd(i) =>
    case DoCloseFinish => CloseFinishFaithful(w);
    case DoCloseAgain(_) =>
    case DoClosed(_) =>
    case _ =>
      CallsAdd(w, e);
      AddsKeepsGood(w, Apply(w, e));
  }

  ghost predicate IsCalm(w: World, events: seq<Event>)
    requires Inv(w) && IsRun(w, events)
    decreases |events|
  {
    events == [] ||
    (Spares(w, events[0]) && (ApplyKeepsInv(w, events[0]); IsCalm(Apply(w, events[0]), events[1..])))
  }

  lemma {:induction false} RunFaithful(w: World, events: seq<Event>)
    requires Inv(w) && Faithful(w) && IsRun(w, events) && IsCalm(w, events)
    ensures Faithful(After(w, events)) && After(w, events).writer.syncOnClose == w.writer.syncOnClose
    decreases |events|
  {
    if events != [] {
      ApplyKeepsInv(w, events[0]);
      StepFaithful(w, events[0]);
      RunFaithful(Apply(w, events[0]), events[1..]);
    }
  }

  /**
   On every run without a harmful landing: what `flushed_pos` promises can be read back at
   any time, and a closed file holds exactly the bytes handed over, synced if asked for.
   */
  lemma {:induction false} ReadersSeeTheStream(size: nat, writeBehind: nat, syncOnClose: bool, events: seq<Event>)
    requires size > 0 && writeBehind > 0
    requires Inv(New(size, writeBehind, syncOnClose)) && IsRun(New(size, writeBehind, syncOnClose), events)
    requires IsCalm(New(size, writeBehind, syncOnClose), events)
    ensures var w := After(New(size, writeBehind, syncOnClose), events);
            Durable(w) && (Finished(w.writer) ==> w.disk == w.accepted && (syncOnClose ==> AllStable(w)))
  {
    var w := New(size, writeBehind, syncOnClose);
    RunFaithful(w, events);
    RunKeepsInv(w, events);

    GoodIsDurable(After(w, events));
  }
}
