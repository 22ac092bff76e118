/**
 When the order in which writes land does not matter to the readers of the file: exactly
 when no write in flight is stale, and in particular for callers that wait for a padded
 write before they go on.
 */
module StreamOrder {
  import opened Words
  import opened Options
  import opened FlushState
  import opened StreamWriter
  import opened StreamDurability

  // ----------------------------------------------------------------- every order

  ghost predicate InFlight(w: World, k: nat) {
    k < |w.issued| && w.issued[k].pos !in w.landed
  }

  /** A sequence of landings that can happen. */
  ghost predicate IsOrder(w: World, order: seq<nat>)
    decreases |order|
  {
    order == [] || (InFlight(w, order[0]) && IsOrder(Land(w, order[0]), order[1..]))
  }

  ghost function LandAll(w: World, order: seq<nat>): World
    requires IsOrder(w, order)
    decreases |order|
  {
    if order == [] then w else LandAll(Land(w, order[0]), order[1..])
  }

  /** The older write is in flight, to the block of the newer one, with other bytes than it. */
  ghost predicate Clash(w: World, i: nat, j: nat)
    requires i < |w.issued| && j < |w.issued|
  {
    w.issued[i].pos !in w.landed && w.issued[i].at == w.issued[j].at && !SameBytes(w.issued[i], w.issued[j])
  }

  ghost predicate NoClash(w: World) {
    forall i, j | 0 <= i < j < |w.issued| :: !Clash(w, i, j)
  }

  lemma NoClashLands(w: World, k: nat)
    requires Inv(w) && Good(w) && NoClash(w) && InFlight(w, k)
    ensures Good(Land(w, k)) && NoClash(Land(w, k))
  {
    forall j | 0 <= j < |w.issued| && Overtakes(w, j, k)
      ensures SameBytes(w.issued[k], w.issued[j])
    {
      assert !Clash(w, k, j);
    }
    LandExact(w, k);
    forall i, j | 0 <= i < j < |w.issued|
      ensures !Clash(Land(w, k), i, j)
    {
      assert !Clash(w, i, j);
    }
  }

  lemma {:induction false} NoClashAnyOrder(w: World, order: seq<nat>)
    requires Inv(w) && Good(w) && NoClash(w) && IsOrder(w, order)
    ensures Good(LandAll(w, order))
    decreases |order|
  {
    if order != [] {
      LandKeepsInv(w, order[0]);
      NoClashLands(w, order[0]);
      NoClashAnyOrder(Land(w, order[0]), order[1..]);
    }
  }

  lemma {:induction false} NoClashDurable(w: World, order: seq<nat>)
    requires Inv(w) && Good(w) && NoClash(w) && IsOrder(w, order)
    ensures Durable(LandAll(w, order))
  {
    NoClashAnyOrder(w, order);
    OrderOnlyLands(w, order);
    GoodIsDurable(LandAll(w, order));
  }

  /** Every write has landed. */
  ghost predicate AtRest(w: World) {
    forall i | 0 <= i < |w.issued| :: w.issued[i].pos in w.landed
  }

  /** An order in which every write in flight lands. */
  ghost predicate IsFullOrder(w: World, order: seq<nat>) {
    IsOrder(w, order) && AtRest(LandAll(w, order))
  }

  /** Landings change the file and the bookkeeping, and let a waiting caller go on. */
  ghost predicate OnlyLands(w: World, w': World) {
    && w'.issued == w.issued && w'.accepted == w.accepted && w.landed <= w'.landed
    && w'.writer == w.writer.(flushes := w'.writer.flushes, waker := w'.writer.waker)
    && LastPos(w'.writer.flushes) == LastPos(w.writer.flushes)
    && (w.writer.waker.None? ==> w'.writer.waker.None?)
    && (!w.writer.status.Open? ==> w'.writer.waker == w.writer.waker)
    && w'.awaited == w.awaited
    && (Bounded(w) ==> Bounded(w'))
  }

  lemma LandOnlyLands(w: World, k: nat)
    requires Inv(w) && InFlight(w, k)
    ensures Inv(Land(w, k)) && OnlyLands(w, Land(w, k))
  {
    LandKeepsInv(w, k);
    LastNotBeyond(w);
    LastNotBeyond(Land(w, k));
    if Bounded(w) {
      LandBounded(w, k);
    }
  }

  lemma {:induction false} OrderOnlyLands(w: World, order: seq<nat>)
    requires Inv(w) && IsOrder(w, order)
    ensures Inv(LandAll(w, order)) && OnlyLands(w, LandAll(w, order))
    decreases |order|
  {
    if order != [] {
      LandOnlyLands(w, order[0]);
      OrderOnlyLands(Land(w, order[0]), order[1..]);
    }
  }

  lemma {:induction false} OrderCons(w: World, k: nat, rest: seq<nat>)
    requires InFlight(w, k) && IsOrder(Land(w, k), rest)
    ensures IsOrder(w, [k] + rest) && LandAll(w, [k] + rest) == LandAll(Land(w, k), rest)
  {
    assert ([k] + rest)[1..] == rest;
  }

  lemma {:induction false} FirstLanding(w: World, order: seq<nat>) returns (w1: World)
    requires order != [] && IsOrder(w, order)
    ensures InFlight(w, order[0]) && w1 == Land(w, order[0])
    ensures IsOrder(w1, order[1..]) && LandAll(w1, order[1..]) == LandAll(w, order)
  {
    w1 := Land(w, order[0]);
  }

  lemma {:induction false} OneMoreLanding(w: World, order: seq<nat>, k: nat)
    requires IsOrder(w, order) && InFlight(LandAll(w, order), k)
    ensures IsOrder(w, order + [k]) && LandAll(w, order + [k]) == Land(LandAll(w, order), k)
    decreases |order|
  {
    if order == [] {
      assert order + [k] == [k];
      OneLanding(w, k);
    } else {
      var w1 := FirstLanding(w, order);
      OneMoreLanding(w1, order[1..], k);
      OrderCons(w, order[0], order[1..] + [k]);
      assert order + [k] == [order[0]] + (order[1..] + [k]);
    }
  }

  /** All these writes are in flight. */
  ghost predicate Landable(issued: seq<Write>, landed: set<nat>, s: set<nat>) {
    forall p | p in s :: p in Positions(issued) && p !in landed
  }

  lemma OneLess(issued: seq<Write>, landed: set<nat>, s: set<nat>, p: nat)
    requires Landable(issued, landed, s) && p in s
    ensures Landable(issued, landed + {p}, s - {p}) && landed + {p} + (s - {p}) == landed + s && |s - {p}| < |s|
  {
  }

  /** The writes at positions `s`, all in flight, can land before anything else happens. */
  lemma {:induction false} LandThese(w: World, s: set<nat>) returns (order: seq<nat>, w': World)
    requires Landable(w.issued, w.landed, s)
    ensures IsOrder(w, order) && w' == LandAll(w, order) && w'.landed == w.landed + s
    decreases |s|
  {
    if s == {} {
      order, w' := [], w;
    } else {
      var p :| p in s;
      var k :| 0 <= k < |w.issued| && w.issued[k].pos == p;
      OneLess(w.issued, w.landed, s, p);
      var rest;
      rest, w' := LandThese(Land(w, k), s - {p});
      OrderCons(w, k, rest);
      order := [k] + rest;
    }
  }

  /** Every write in flight but the `i`-th lands. */
  lemma LandOthers(w: World, i: nat) returns (order: seq<nat>, w': World)
    requires Inv(w) && InFlight(w, i)
    ensures IsOrder(w, order) && w' == LandAll(w, order) && Inv(w') && OnlyLands(w, w') && InFlight(w', i)
    ensures forall j | 0 <= j < |w.issued| && j != i :: w.issued[j].pos in w'.landed
  {
    var s := set j | 0 <= j < |w.issued| && j != i && w.issued[j].pos !in w.landed :: w.issued[j].pos;
    forall p | p in s
      ensures p in Positions(w.issued) && p !in w.landed && p != w.issued[i].pos
    {
      var j :| 0 <= j < |w.issued| && j != i && w.issued[j].pos == p && p !in w.landed;
      assert Positions(w.issued)[j] == p;
      if j < i { PositionsIncrease(w, j, i); } else { PositionsIncrease(w, i, j); }
    }
    order, w' := LandThese(w, s);
    OrderOnlyLands(w, order);
  }

  /** The bytes of `y` cannot be read back, though the file is long enough. */
  ghost predicate Spoiled(w: World, y: Write) {
    y in w.issued && y.at <= y.pos <= |w.disk| && !OnDisk(w.disk, w.accepted, y)
  }

  /** A clash can be brought out: let everything else land before the older write. */
  lemma ClashSpoils(w: World, i: nat, j: nat) returns (order: seq<nat>)
    requires Inv(w) && i < j < |w.issued| && Clash(w, i, j)
    ensures IsFullOrder(w, order) && Inv(LandAll(w, order)) && Spoiled(LandAll(w, order), w.issued[j])
  {
    var first, w1 := LandOthers(w, i);
    order := first + [i];
    OneMoreLanding(w, first, i);
    LandOnlyLands(w1, i);
    StaleSpoils(w1, i, j);
  }

  lemma StaleSpoils(w: World, i: nat, j: nat)
    requires Inv(w) && i < j < |w.issued| && Clash(w, i, j)
    ensures Spoiled(Land(w, i), w.issued[j])
  {
    var x, y := w.issued[i], w.issued[j];
    assert Carries(w.writer.size, w.accepted, x) && Carries(w.writer.size, w.accepted, y);
    OverlaySame(w.disk, w.accepted, x, y);
  }

  /** With everything landed, an unreadable write breaks the promise of `flushed_pos`. */
  lemma SpoiledIsNotDurable(w: World, y: Write)
    requires Inv(w) && AtRest(w) && Spoiled(w, y)
    ensures !Durable(w)
  {
    var j :| 0 <= j < |w.issued| && w.issued[j] == y;
    AtRestSame(w);
  }

  lemma {:induction false} OneLanding(w: World, k: nat)
    requires InFlight(w, k)
    ensures IsOrder(w, [k]) && LandAll(w, [k]) == Land(w, k)
  {
    var none: seq<nat> := [k][1..];
    assert none == [] && IsOrder(Land(w, k), none) && LandAll(Land(w, k), none) == Land(w, k);
  }

  /** The promise of `flushed_pos` holds after these landings. */
  ghost predicate StaysDurable(w: World, order: seq<nat>)
    requires IsOrder(w, order)
  {
    Durable(LandAll(w, order))
  }

  lemma {:induction false} SomeOrderBreaks(w: World) returns (order: seq<nat>)
    requires Inv(w) && !NoClash(w)
    ensures IsFullOrder(w, order) && !StaysDurable(w, order)
  {
    var i, j :| 0 <= i < j < |w.issued| && Clash(w, i, j);
    order := ClashSpoils(w, i, j);
    SpoiledIsNotDurable(LandAll(w, order), w.issued[j]);
  }

  /**
   What `flushed_pos` promises holds after every order of landings, finished or not, exactly
   when no write in flight clashes with a newer one; otherwise the promise is broken when
   everything has landed in some order.
   */
  lemma {:induction false} AnyOrderSafeIff(w: World)
    requires Inv(w) && Good(w)
    ensures (forall order | IsOrder(w, order) :: StaysDurable(w, order)) <==> NoClash(w)
    ensures (forall order | IsFullOrder(w, order) :: StaysDurable(w, order)) <==> NoClash(w)
  {
    if NoClash(w) {
      forall order | IsOrder(w, order)
        ensures StaysDurable(w, order)
      {
        NoClashDurable(w, order);
      }
    } else {
      var order := SomeOrderBreaks(w);
    }
  }

  // -------------------------------------------------------------- the closed file

  lemma RestIsFlushed(w: World)
    requires Inv(w) && AtRest(w)
    ensures w.writer.flushes.flushedPos == LastPos(w.writer.flushes)
  {
    LastNotBeyond(w);
    if w.issued != [] {
      AtRestFlushed(w, |w.issued| - 1);
    }
  }

  lemma CloseOfDurable(w: World)
    requires Inv(w) && Durable(w) && Bounded(w) && AllFlushed(w)
    ensures CloseFinish(w).disk == w.accepted
  {
    assert w.accepted == w.accepted[..CurrentPos(w.writer)];
  }

  lemma CloseOfSpoiled(w: World, y: Write)
    requires Inv(w) && Spoiled(w, y)
    ensures CloseFinish(w).disk != w.accepted
  {
    var i :| 0 <= i < |w.issued| && w.issued[i] == y;
    assert Carries(w.writer.size, w.accepted, y);
    var d := CloseFinish(w).disk;
    assert d[y.at..y.pos] == w.disk[y.at..y.pos];
  }

  /** The state in which a close collects its handles: everything handed over has been started. */
  lemma CloseWrites(w: World, caller: nat, junk: nat -> Byte) returns (f: World)
    requires Inv(w) && Enabled(w, DoCloseStart(caller, junk))
    ensures f == FlushPadded(BeginClose(w, caller), junk) && Inv(f) && f.accepted == w.accepted
    ensures LastPos(f.writer.flushes) == CurrentPos(f.writer)
    ensures f.writer.status.Closing? && f.writer.waker == Some(caller)
  {
    f := FlushPadded(BeginClose(w, caller), junk);
    PaddedKeepsInv(BeginClose(w, caller), junk);
    LastNotBeyond(w);
  }

  /** What a close adds to the writes in flight, and what it leaves as it was. */
  lemma CloseAdds(w: World, caller: nat, junk: nat -> Byte) returns (w1: World)
    requires Inv(w) && Enabled(w, DoCloseStart(caller, junk))
    ensures w1 == CloseStart(w, caller, junk) && Inv(w1) && Adds(w, w1) && w1.accepted == w.accepted
    ensures LastPos(w1.writer.flushes) == CurrentPos(w1.writer) && w1.writer.status.Closing?
    ensures w1.writer.waker.Some? && w1.awaited <= (set p | p in Positions(w1.issued))
  {
    var f := CloseWrites(w, caller, junk);
    CloseStartAdds(w, caller, junk);
    w1 := Collected(f);
  }

  lemma Collected(f: World) returns (w1: World)
    requires Inv(f)
    ensures w1 == TakeAll(f).(awaited := Handles(f.writer.flushes.entries)) && Inv(w1)
    ensures w1.issued == f.issued && LastPos(w1.writer.flushes) == LastPos(f.writer.flushes)
    ensures w1.writer == f.writer.(flushes := w1.writer.flushes) && w1.accepted == f.accepted
    ensures w1.awaited <= (set p | p in Positions(f.issued))
  {
    w1 := TakeAll(f).(awaited := Handles(f.writer.flushes.entries));
    TakeKeepsInv(f);
    LastNotBeyond(f);
    LastNotBeyond(w1);
  }

  /** A close begins after the landings `early`; then `late` are all the others. */
  ghost predicate IsClosing(w: World, caller: nat, junk: nat -> Byte, early: seq<nat>, late: seq<nat>)
    requires Inv(w) && w.writer.status.Open?
  {
    IsOrder(w, early) && (OrderOnlyLands(w, early); IsFullOrder(CloseStart(LandAll(w, early), caller, junk), late))
  }

  /** The state in which the closing task goes on, and the file it leaves. */
  ghost function Closable(w: World, caller: nat, junk: nat -> Byte, early: seq<nat>, late: seq<nat>): World
    requires Inv(w) && w.writer.status.Open? && IsClosing(w, caller, junk, early, late)
  {
    OrderOnlyLands(w, early);
    LandAll(CloseStart(LandAll(w, early), caller, junk), late)
  }

  ghost function FileAfter(w: World, caller: nat, junk: nat -> Byte, early: seq<nat>, late: seq<nat>): seq<Byte>
    requires Inv(w) && w.writer.status.Open? && IsClosing(w, caller, junk, early, late)
  {
    CloseFinish(Closable(w, caller, junk, early, late)).disk
  }

  /** Once they have all landed, the closing task can go on, and then the caller finds the file closed. */
  lemma {:induction false} CloseCanFinish(w: World, caller: nat, junk: nat -> Byte, early: seq<nat>, late: seq<nat>)
    requires Inv(w) && Enabled(w, DoCloseStart(caller, junk)) && IsClosing(w, caller, junk, early, late)
    ensures var c := Closable(w, caller, junk, early, late);
            && Inv(c) && c.accepted == w.accepted
            && Enabled(c, DoCloseFinish) && Enabled(CloseFinish(c), DoClosed(caller))
            && Ends(c, caller)
  {
    OrderOnlyLands(w, early);
    var w1 := CloseAdds(LandAll(w, early), caller, junk);
    LateCanFinish(w1, late);
    EndsClosed(LandAll(w1, late), caller);
  }

  /** The last two steps of a close leave the file closed, and the caller is not waiting. */
  ghost predicate Ends(c: World, caller: nat) {
    && Layout(c.writer, c.accepted) && Enabled(c, DoCloseFinish)
    && Layout(CloseFinish(c).writer, c.accepted) && CloseFinish(c).accepted == c.accepted
    && Enabled(CloseFinish(c), DoClosed(caller))
    && (var d := Apply(CloseFinish(c), DoClosed(caller));
        d.writer.status.Closed? && caller !in d.waiting && d.disk == CloseFinish(c).disk)
  }

  lemma EndsClosed(c: World, caller: nat)
    requires Inv(c) && Enabled(c, DoCloseFinish)
    ensures Ends(c, caller)
  {
    CloseFinishKeepsInv(c);
  }

  lemma {:induction false} LateCanFinish(w1: World, late: seq<nat>)
    requires Inv(w1) && IsFullOrder(w1, late) && w1.writer.status.Closing? && w1.writer.waker.Some?
    requires LastPos(w1.writer.flushes) == CurrentPos(w1.writer)
    requires w1.awaited <= (set p | p in Positions(w1.issued))
    ensures var c := LandAll(w1, late); Inv(c) && OnlyLands(w1, c) && Enabled(c, DoCloseFinish)
  {
    var c := LandAll(w1, late);
    OrderOnlyLands(w1, late);
    RestIsFlushed(c);
    forall p | p in c.awaited
      ensures p in c.landed
    {
      assert p in Positions(w1.issued);
    }
  }

  /** The close has a padded write to start. */
  predicate Pads(w: Writer) {
    w.bufferPos > 0 && LastPos(w.flushes) != CurrentPos(w)
  }

  /** What the close would start. */
  function LastWrite(w: Writer): Write
    requires w.buffer.Some? && w.bufferPos <= |w.buffer.value| && w.bufferPos <= w.size
  {
    Write(w.alignedPos, PaddedData(w), CurrentPos(w))
  }

  lemma PaddedIssues(w: World, junk: nat -> Byte)
    requires Layout(w.writer, w.accepted) && (w.writer.bufferPos > 0 ==> w.writer.buffer.Some?)
    ensures var f := FlushPadded(w, junk);
            && f.landed == w.landed
            && f.issued == if Pads(w.writer) then w.issued + [LastWrite(w.writer)] else w.issued
  {
  }

  lemma CloseIssues(w: World, caller: nat, junk: nat -> Byte)
    requires Layout(w.writer, w.accepted) && w.writer.status.Open?
    ensures var w1 := CloseStart(w, caller, junk);
            && w1.landed == w.landed
            && w1.issued == if Pads(w.writer) then w.issued + [LastWrite(w.writer)] else w.issued
  {
    PaddedIssues(BeginClose(w, caller), junk);
  }

  /** A close writes the same, whatever has landed before it. */
  lemma CloseSameWrites(w: World, w': World, caller: nat, junk: nat -> Byte)
    requires Layout(w.writer, w.accepted) && Layout(w'.writer, w'.accepted)
    requires OnlyLands(w, w') && w.writer.status.Open?
    ensures CloseStart(w', caller, junk).issued == CloseStart(w, caller, junk).issued
    ensures CloseStart(w', caller, junk).landed == w'.landed && CloseStart(w, caller, junk).landed == w.landed
  {
    CloseIssues(w, caller, junk);
    CloseIssues(w', caller, junk);
  }

  /** Fewer writes, or more of them landed, clash less. */
  lemma NoClashFewer(w: World, w': World)
    requires NoClash(w) && w'.issued <= w.issued && w.landed <= w'.landed
    ensures NoClash(w')
  {
    forall i, j | 0 <= i < j < |w'.issued|
      ensures !Clash(w', i, j)
    {
      assert !Clash(w, i, j);
    }
  }

  lemma {:induction false} EarlyIsGood(w: World, caller: nat, junk: nat -> Byte, early: seq<nat>) returns (w1: World)
    requires Inv(w) && Good(w) && Bounded(w) && Enabled(w, DoCloseStart(caller, junk)) && IsOrder(w, early)
    requires NoClash(CloseStart(w, caller, junk))
    ensures Inv(LandAll(w, early)) && LandAll(w, early).writer.status.Open?
    ensures w1 == CloseStart(LandAll(w, early), caller, junk) && Inv(w1) && Good(w1) && Bounded(w1) && NoClash(w1)
    ensures w1.accepted == w.accepted
  {
    var w0 := CloseAdds(w, caller, junk);
    NoClashFewer(w0, w);
    NoClashAnyOrder(w, early);
    OrderOnlyLands(w, early);
    var w' := LandAll(w, early);
    w1 := CloseAdds(w', caller, junk);
    AddsKeepsGood(w', w1);
    CloseSameWrites(w, w', caller, junk);
    NoClashFewer(w0, w1);
  }

  /** Whenever the close came, the file is right if nothing clashes. */
  lemma {:induction false} CloseIsRight(w: World, caller: nat, junk: nat -> Byte, early: seq<nat>, late: seq<nat>)
    requires Inv(w) && Good(w) && Bounded(w) && Enabled(w, DoCloseStart(caller, junk))
    requires NoClash(CloseStart(w, caller, junk)) && IsClosing(w, caller, junk, early, late)
    ensures FileAfter(w, caller, junk, early, late) == w.accepted
  {
    var w1 := EarlyIsGood(w, caller, junk, early);
    CloseCanFinish(w, caller, junk, early, late);
    NoClashDurable(w1, late);
    OrderOnlyLands(w1, late);
    CloseOfDurable(LandAll(w1, late));
  }

  /** A clash can spoil the file of a close that comes before everything lands. */
  lemma {:induction false} CloseLoses(w: World, caller: nat, junk: nat -> Byte, i: nat, j: nat)
    returns (late: seq<nat>)
    requires Inv(w) && Enabled(w, DoCloseStart(caller, junk)) && i < j < |CloseStart(w, caller, junk).issued|
    requires Clash(CloseStart(w, caller, junk), i, j)
    ensures IsClosing(w, caller, junk, [], late) && FileAfter(w, caller, junk, [], late) != w.accepted
  {
    var w1 := CloseAdds(w, caller, junk);
    late := ClashSpoils(w1, i, j);
    assert LandAll(w, []) == w;
    CloseOfSpoiled(LandAll(w1, late), w1.issued[j]);
    OrderOnlyLands(w1, late);
  }

  /**
   The file that a close leaves is exactly the bytes handed over, whatever lands before it and
   in whatever order the rest lands after it, exactly when no write in flight, with the last
   padded one that the close itself may start, clashes with a newer one.
   */
  lemma {:induction false} ClosedFileExactIff(w: World, caller: nat, junk: nat -> Byte)
    requires Inv(w) && Good(w) && Bounded(w) && Enabled(w, DoCloseStart(caller, junk))
    ensures (forall early, late | IsClosing(w, caller, junk, early, late) ::
               FileAfter(w, caller, junk, early, late) == w.accepted)
            <==> NoClash(CloseStart(w, caller, junk))
  {
    var w1 := CloseStart(w, caller, junk);
    if NoClash(w1) {
      forall early, late | IsClosing(w, caller, junk, early, late)
        ensures FileAfter(w, caller, junk, early, late) == w.accepted
      {
        CloseIsRight(w, caller, junk, early, late);
      }
    } else {
      var i, j :| 0 <= i < j < |w1.issued| && Clash(w1, i, j);
      var late := CloseLoses(w, caller, junk, i, j);
    }
  }

  /** The write carries all the bytes handed over for the current block. */
  ghost predicate UpToDate(w: World, x: Write)
    requires Layout(w.writer, w.accepted)
  {
    w.writer.bufferPos <= |x.data| && x.data[..w.writer.bufferPos] == w.accepted[w.writer.alignedPos..]
  }

  /** A write clashes with that one exactly if it is in flight to the block and not up to date. */
  lemma ClashWithPadded(w: World, x: Write)
    requires Layout(w.writer, w.accepted) && w.writer.buffer.Some? && Pads(w.writer)
    requires Carries(w.writer.size, w.accepted, x)
    ensures SameBytes(x, LastWrite(w.writer)) <==> UpToDate(w, x)
  {
    assert PaddedData(w.writer)[..w.writer.bufferPos] == w.accepted[w.writer.alignedPos..];
  }

  /** The same condition, as it can be seen before the close. */
  lemma CloseClashIff(w: World, caller: nat, junk: nat -> Byte)
    requires Inv(w) && Enabled(w, DoCloseStart(caller, junk))
    ensures NoClash(CloseStart(w, caller, junk)) <==>
            && NoClash(w)
            && (Pads(w.writer) ==> forall i | 0 <= i < |w.issued| ::
                  InFlight(w, i) && w.issued[i].at == w.writer.alignedPos ==> UpToDate(w, w.issued[i]))
  {
    var w1 := CloseStart(w, caller, junk);
    CloseIssues(w, caller, junk);
    if Pads(w.writer) {
      PaddedClashes(w, w1);
    } else {
      if NoClash(w) { NoClashFewer(w, w1); } else if NoClash(w1) { NoClashFewer(w1, w); }
    }
  }

  lemma PaddedClashes(w: World, w1: World)
    requires Inv(w) && w.writer.buffer.Some? && Pads(w.writer)
    requires w1.issued == w.issued + [LastWrite(w.writer)] && w1.landed == w.landed
    ensures NoClash(w1) <==>
            && NoClash(w)
            && forall i | 0 <= i < |w.issued| ::
                 InFlight(w, i) && w.issued[i].at == w.writer.alignedPos ==> UpToDate(w, w.issued[i])
  {
    var n := |w.issued|;
    forall i | 0 <= i < n
      ensures Clash(w1, i, n) <==>
              InFlight(w, i) && w.issued[i].at == w.writer.alignedPos && !UpToDate(w, w.issued[i])
    {
      assert Carries(w.writer.size, w.accepted, w.issued[i]);
      ClashWithPadded(w, w.issued[i]);
    }
    ClashWithLast(w, w1);
  }

  lemma ClashWithLast(w: World, w1: World)
    requires |w1.issued| == |w.issued| + 1
    requires forall i, j | 0 <= i < j < |w.issued| :: Clash(w1, i, j) <==> Clash(w, i, j)
    ensures NoClash(w1) <==> NoClash(w) && forall i | 0 <= i < |w.issued| :: !Clash(w1, i, |w.issued|)
  {
    var n := |w.issued|;
    if NoClash(w) && forall i | 0 <= i < n :: !Clash(w1, i, n) {
      forall i, j | 0 <= i < j < |w1.issued|
        ensures !Clash(w1, i, j)
      {
        assert j == n || !Clash(w, i, j);
      }
    }
    if NoClash(w1) {
      forall i, j | 0 <= i < j < n
        ensures !Clash(w, i, j)
      {
        assert !Clash(w1, i, j);
      }
    }
  }

  // ------------------------------------------------------------- patient callers

  ghost predicate SettledPair(w: World, i: nat, j: nat)
    requires i < |w.issued| && j < |w.issued|
  {
    w.issued[i].at == w.issued[j].at ==> w.issued[i].pos in w.landed
  }

  /** Before a newer write to a block was issued, the older one had landed. */
  ghost predicate Settled(w: World) {
    forall i, j | 0 <= i < j < |w.issued| :: SettledPair(w, i, j)
  }

  /** No padded write of the current block is in flight. */
  ghost predicate Clear(w: World) {
    forall i | 0 <= i < |w.issued| :: w.issued[i].at == w.writer.alignedPos ==> w.issued[i].pos in w.landed
  }

  /** The caller writes, flushes or closes only when no padded write of the current block is in flight. */
  ghost predicate Patient(w: World, e: Event) {
    e.DoWrite? || e.DoPollFlush? || e.DoFlushCall? || e.DoCloseStart? ==> Clear(w)
  }

  ghost predicate IsPatient(w: World, events: seq<Event>)
    requires Inv(w) && IsRun(w, events)
    decreases |events|
  {
    events == [] ||
    (Patient(w, events[0]) && (ApplyKeepsInv(w, events[0]); IsPatient(Apply(w, events[0]), events[1..])))
  }

  lemma SettledIsHarmless(w: World, k: nat)
    requires Settled(w) && InFlight(w, k)
    ensures Harmless(w, k)
  {
    forall j | 0 <= j < |w.issued|
      ensures !Overtakes(w, j, k)
    {
      if k < j {
        assert SettledPair(w, k, j);
      }
    }
  }

  lemma IssueSettled(w: World, w': World, x: Write)
    requires Settled(w) && Clear(w) && x.at == w.writer.alignedPos
    requires w'.issued == w.issued + [x] && w'.landed == w.landed
    ensures Settled(w')
  {
    forall i, j | 0 <= i < j < |w'.issued|
      ensures SettledPair(w', i, j)
    {
      assert j == |w.issued| || SettledPair(w, i, j);
    }
  }

  lemma SameIssuedSettled(w: World, w': World)
    requires Settled(w) && w'.issued == w.issued && w.landed <= w'.landed
    ensures Settled(w')
  {
    forall i, j | 0 <= i < j < |w'.issued|
      ensures SettledPair(w', i, j)
    {
      assert SettledPair(w, i, j);
    }
  }

  lemma TurnSettled(w: World, buf: seq<Byte>, junk: nat -> Byte)
    requires Inv(w) && w.writer.status.Open? && GoesOn(w, buf) && Settled(w) && Clear(w)
    ensures Settled(Turn(w, buf, junk)) && Clear(Turn(w, buf, junk))
  {
    var w' := Turn(w, buf, junk);
    if w'.issued == w.issued {
      SameIssuedSettled(w, w');
    } else {
      IssueSettled(w, w', w'.issued[|w.issued|]);
      forall i | 0 <= i < |w'.issued|
        ensures w'.issued[i].at != w'.writer.alignedPos
      {
        assert i == |w.issued| || Earlier(w.writer, w.issued[i]);
      }
    }
  }

  lemma {:induction false} FillSettled(w: World, buf: seq<Byte>, junk: nat -> Byte)
    requires Inv(w) && w.writer.status.Open? && Settled(w) && Clear(w)
    ensures Settled(Fill(w, buf, junk))
    decreases |buf|, w.writer.buffer.None?
  {
    if GoesOn(w, buf) {
      TurnSettled(w, buf, junk);
      var w', n := FillTurn(w, buf, junk);
      FillSettled(w', buf[n..], junk);
    }
  }

  lemma PaddedSettled(w: World, junk: nat -> Byte)
    requires Inv(w) && (w.writer.bufferPos > 0 ==> w.writer.buffer.Some?) && Settled(w) && Clear(w)
    ensures Settled(FlushPadded(w, junk))
  {
    var w' := FlushPadded(w, junk);
    if w'.issued != w.issued {
      IssueSettled(w, w', w'.issued[|w.issued|]);
    }
  }

  lemma CallSettled(w: World, e: Event)
    requires Inv(w) && Settled(w) && Enabled(w, e) && Patient(w, e)
    requires e.DoWrite? || e.DoPollFlush? || e.DoFlushCall? || e.DoCloseStart?
    ensures Settled(Apply(w, e))
  {
    var w' := Apply(w, e);
    match e
    case DoWrite(_, buf, junk) =>
      FillSettled(w, buf, junk);
      SameIssuedSettled(if w.writer.waker.Some? then w else Fill(w, buf, junk), w');
    case DoPollFlush(_, junk) =>
      PaddedSettled(w, junk);
      SameIssuedSettled(if w'.issued == w.issued then w else FlushPadded(w, junk), w');
    case DoFlushCall(_, junk) =>
      PaddedSettled(w, junk);
      SameIssuedSettled(if w'.issued == w.issued then w else FlushPadded(w, junk), w');
    case DoCloseStart(caller, junk) =>
      var c := BeginClose(w, caller);
      SameIssuedSettled(w, c);
      PaddedSettled(c, junk);
      SameIssuedSettled(FlushPadded(c, junk), w');
  }

  lemma StepSettled(w: World, e: Event)
    requires Inv(w) && Settled(w) && Enabled(w, e) && Patient(w, e)
    ensures Settled(Apply(w, e)) && Spares(w, e)
  {
    if e.DoWrite? || e.DoPollFlush? || e.DoFlushCall? || e.DoCloseStart? {
      CallSettled(w, e);
    } else {
      if e.DoLand? { SettledIsHarmless(w, e.k); }
      SameIssuedSettled(w, Apply(w, e));
    }
  }

  lemma {:induction false} PatientIsCalm(w: World, events: seq<Event>)
    requires Inv(w) && Settled(w) && IsRun(w, events) && IsPatient(w, events)
    ensures IsCalm(w, events)
    decreases |events|
  {
    if events != [] {
      ApplyKeepsInv(w, events[0]);
      StepSettled(w, events[0]);
      PatientIsCalm(Apply(w, events[0]), events[1..]);
    }
  }

  /** For patient callers the file is right whatever order the device completes writes in. */
  lemma {:induction false} PatientCallersAreSafe(size: nat, writeBehind: nat, syncOnClose: bool, events: seq<Event>)
    requires size > 0 && writeBehind > 0
    requires Inv(New(size, writeBehind, syncOnClose)) && IsRun(New(size, writeBehind, syncOnClose), events)
    requires IsPatient(New(size, writeBehind, syncOnClose), events)
    ensures var w := After(New(size, writeBehind, syncOnClose), events);
            Durable(w) && (Finished(w.writer) ==> w.disk == w.accepted)
  {
    PatientIsCalm(New(size, writeBehind, syncOnClose), events);
    ReadersSeeTheStream(size, writeBehind, syncOnClose, events);
  }

  // ------------------------------------------------------------- a stale write wins

  /** A partial flush issues the padded buffer and leaves everything else in place. */
  lemma FlushIssuesPadded(w: World, junk: nat -> Byte)
    requires Inv(w) && w.writer.status.Open? && w.writer.bufferPos > 0
    requires LastPos(w.writer.flushes) != CurrentPos(w.writer)
    ensures var w', n := FlushCall(w, true, junk).0, |w.issued|;
            && |w'.issued| == n + 1 && w'.issued[..n] == w.issued && w'.landed == w.landed
            && w'.issued[n].at == w.writer.alignedPos && w'.issued[n].pos !in w.landed
            && |w'.issued[n].data| == w.writer.size
            && w'.issued[n].data[w.writer.bufferPos..] == Zeros(w.writer.size - w.writer.bufferPos)
            && w'.writer.buffer.Some? && w'.accepted == w.accepted
            && w'.writer == w.writer.(buffer := w'.writer.buffer, flushes := w'.writer.flushes)
  {
    LastNotBeyond(w);
    NotYetLanded(w, CurrentPos(w.writer));
  }

  /** A write that exactly fills the buffer is issued at once. */
  lemma WriteIssuesFull(w: World, caller: nat, bytes: seq<Byte>, junk: nat -> Byte)
    requires Inv(w) && w.writer.status.Open? && w.writer.waker.None? && w.writer.buffer.Some?
    requires |bytes| == w.writer.size - w.writer.bufferPos
    ensures var w', n := PollWrite(w, caller, bytes, junk), |w.issued|;
            && |w'.issued| == n + 1 && w'.issued[..n] == w.issued && w'.landed == w.landed
            && w'.issued[n].at == w.writer.alignedPos && w'.issued[n].pos == w.writer.alignedPos + w.writer.size
            && |w'.issued[n].data| == w.writer.size && w'.issued[n].data[w.writer.bufferPos..] == bytes
            && CurrentPos(w'.writer) == w'.issued[n].pos && w'.writer.status.Open? && w'.writer.waker.None?
  {
    TurnKeepsLayout(w, bytes, junk);
    assert bytes[..|bytes|] == bytes && bytes[|bytes|..] == [];
    var t := Turn(w, bytes, junk);
    assert Fill(t, [], junk) == t == Fill(w, bytes, junk);
    assert t.accepted != w.accepted;
  }

  lemma DifferInTail(x: Write, y: Write, size: nat, from: nat)
    requires |x.data| == |y.data| == size && y.pos == y.at + size && from <= size
    requires x.data[from..] != y.data[from..]
    ensures !SameBytes(x, y)
  {
    assert x.data[..size] == x.data && y.data[..size] == y.data;
  }

  /** After some order of landings `flushed_pos` promises what cannot be read, and a close leaves a wrong file. */
  ghost predicate Loses(w: World, caller: nat, junk: nat -> Byte, order: seq<nat>, late: seq<nat>) {
    && Inv(w) && Enabled(w, DoCloseStart(caller, junk))
    && IsFullOrder(w, order) && !Durable(LandAll(w, order))
    && IsClosing(w, caller, junk, [], late) && FileAfter(w, caller, junk, [], late) != w.accepted
  }

  lemma {:induction false} ClashLoses(w: World, caller: nat, junk: nat -> Byte, i: nat, j: nat)
    returns (order: seq<nat>, late: seq<nat>)
    requires Inv(w) && Enabled(w, DoCloseStart(caller, junk)) && i < j < |w.issued| && Clash(w, i, j)
    ensures Loses(w, caller, junk, order, late)
  {
    order := ClashSpoils(w, i, j);
    SpoiledIsNotDurable(LandAll(w, order), w.issued[j]);
    var w1 := CloseAdds(w, caller, junk);
    assert Clash(w1, i, j);
    late := CloseLoses(w, caller, junk, i, j);
  }

  /**
   A caller that starts a partial flush and, without waiting, fills the block with bytes
   that are not all zero: when everything has landed in some order, what `flushed_pos`
   promises cannot be read, and a close can leave a file that is not what was handed over.
   */
  lemma ImpatientCallerCanLose(w: World, caller: nat, bytes: seq<Byte>, junk: nat -> Byte)
    returns (order: seq<nat>, late: seq<nat>)
    requires Inv(w) && Good(w) && Bounded(w) && w.writer.status.Open? && w.writer.waker.None?
    requires w.writer.bufferPos > 0 && LastPos(w.writer.flushes) != CurrentPos(w.writer)
    requires |bytes| == w.writer.size - w.writer.bufferPos && bytes != Zeros(|bytes|)
    ensures IsRun(w, [DoFlushCall(true, junk), DoWrite(caller, bytes, junk)])
    ensures Loses(After(w, [DoFlushCall(true, junk), DoWrite(caller, bytes, junk)]), caller, junk, order, late)
  {
    var w1 := FlushedUp(w, junk);
    var w2 := FilledUp(w, w1, caller, bytes, junk);
    TwoSteps(w, DoFlushCall(true, junk), w1, DoWrite(caller, bytes, junk), w2);
    order, late := ClashLoses(w2, caller, junk, |w.issued|, |w.issued| + 1);
  }

  lemma FlushedUp(w: World, junk: nat -> Byte) returns (w1: World)
    requires Inv(w) && Good(w) && Bounded(w) && w.writer.status.Open? && w.writer.waker.None?
    requires w.writer.bufferPos > 0 && LastPos(w.writer.flushes) != CurrentPos(w.writer)
    ensures w1 == Apply(w, DoFlushCall(true, junk)) && Inv(w1) && Good(w1) && Bounded(w1)
    ensures w1.writer == w.writer.(buffer := w1.writer.buffer, flushes := w1.writer.flushes) && w1.writer.buffer.Some?
    ensures var n := |w.issued|;
            && |w1.issued| == n + 1 && w1.issued[n].at == w.writer.alignedPos && w1.issued[n].pos !in w1.landed
            && |w1.issued[n].data| == w.writer.size
            && w1.issued[n].data[w.writer.bufferPos..] == Zeros(w.writer.size - w.writer.bufferPos)
  {
    w1 := Apply(w, DoFlushCall(true, junk));
    FlushIssuesPadded(w, junk);
    ApplyKeepsInv(w, DoFlushCall(true, junk));
    FlushCallAdds(w, true, junk);
    AddsKeepsGood(w, w1);
  }

  lemma FilledUp(w: World, w1: World, caller: nat, bytes: seq<Byte>, junk: nat -> Byte) returns (w2: World)
    requires Inv(w1) && Good(w1) && Bounded(w1) && w1.writer.status.Open? && w1.writer.waker.None?
    requires w1.writer.buffer.Some? && |bytes| == w1.writer.size - w1.writer.bufferPos && bytes != Zeros(|bytes|)
    requires var n := |w.issued|;
             && |w1.issued| == n + 1 && w1.issued[n].at == w1.writer.alignedPos && w1.issued[n].pos !in w1.landed
             && |w1.issued[n].data| == w1.writer.size && w1.issued[n].data[w1.writer.bufferPos..] == Zeros(|bytes|)
    ensures w2 == PollWrite(w1, caller, bytes, junk) && Inv(w2) && w2.writer.status.Open? && w2.writer.waker.None?
    ensures |w2.issued| == |w.issued| + 2 && Clash(w2, |w.issued|, |w.issued| + 1)
  {
    w2 := PollWrite(w1, caller, bytes, junk);
    ApplyKeepsInv(w1, DoWrite(caller, bytes, junk));
    WriteIssuesFull(w1, caller, bytes, junk);
    var n := |w.issued|;
    assert w2.issued[n] == w1.issued[n];
    DifferInTail(w2.issued[n], w2.issued[n + 1], w1.writer.size, w1.writer.bufferPos);
  }

  /** The first byte of a new stream stays in the buffer when there is room for more. */
  lemma FirstByte(w0: World, caller: nat, b: Byte, junk: nat -> Byte) returns (w: World)
    requires w0.writer.size > 1 && w0.writer.writeBehind > 0
    requires w0 == New(w0.writer.size, w0.writer.writeBehind, w0.writer.syncOnClose)
    ensures Inv(w0) && w == PollWrite(w0, caller, [b], junk) && Inv(w)
    ensures w.writer.size == w0.writer.size && w.writer.bufferPos == 1 && w.writer.alignedPos == 0
    ensures w.issued == [] && w.disk == [] && w.writer.flushes == NO_FLUSHES
    ensures w.writer.status.Open? && w.writer.waker.None?
  {
    NewInv(w0.writer.size, w0.writer.writeBehind, w0.writer.syncOnClose);
    var w1, n1 := FillTurn(w0, [b], junk);
    assert [b][n1..] == [b];
    var n2;
    w, n2 := FillTurn(w1, [b], junk);
    assert [b][n2..] == [] && w.accepted == [b];
  }

  /** For example: blocks of two bytes; write a byte, flush without waiting, write a byte that is not zero, close. */
  lemma LosesAByte(w0: World, caller: nat, b: Byte, c: Byte, junk: nat -> Byte)
    returns (order: seq<nat>, late: seq<nat>)
    requires w0.writer.size == 2 && w0.writer.writeBehind > 0 && c != 0
    requires w0 == New(w0.writer.size, w0.writer.writeBehind, w0.writer.syncOnClose)
    ensures Inv(w0)
    ensures var events := [DoWrite(caller, [b], junk), DoFlushCall(true, junk), DoWrite(caller, [c], junk)];
            IsRun(w0, events) && Loses(After(w0, events), caller, junk, order, late)
  {
    var w1 := FirstByte(w0, caller, b, junk);
    assert [c][0] != Zeros(1)[0];
    order, late := ImpatientCallerCanLose(w1, caller, [c], junk);
    var e0, e1, e2 := DoWrite(caller, [b], junk), DoFlushCall(true, junk), DoWrite(caller, [c], junk);
    RunCons(w0, e0, [e1, e2]);
    assert [e0] + [e1, e2] == [e0, e1, e2];
  }

  /** A byte that leaves room in the buffer is only kept. */
  lemma KeepsAByte(w: World, caller: nat, c: Byte, junk: nat -> Byte) returns (w': World)
    requires Inv(w) && w.writer.status.Open? && w.writer.waker.None? && w.writer.buffer.Some?
    requires w.writer.bufferPos + 1 < w.writer.size
    ensures w' == PollWrite(w, caller, [c], junk) && Inv(w') && Enabled(w', DoCloseStart(caller, junk))
    ensures w'.issued == w.issued && w'.landed == w.landed && w'.accepted == w.accepted + [c]
    ensures w'.writer == w.writer.(buffer := w'.writer.buffer, bufferPos := w.writer.bufferPos + 1)
    ensures Pads(w'.writer)
  {
    var t, n := FillTurn(w, [c], junk);
    assert [c][n..] == [] && [c][..n] == [c];
    assert Fill(t, [], junk) == t;
    w' := PollWrite(w, caller, [c], junk);
    ApplyKeepsInv(w, DoWrite(caller, [c], junk));
    LastNotBeyond(w);
  }

  /** The same caller, if the block is not filled: the padded write that the close starts can lose to the older one. */
  lemma {:induction false} ImpatientCloseCanLose(w: World, caller: nat, c: Byte, junk: nat -> Byte)
    returns (late: seq<nat>)
    requires Inv(w) && Good(w) && Bounded(w) && w.writer.status.Open? && w.writer.waker.None?
    requires w.writer.bufferPos > 0 && LastPos(w.writer.flushes) != CurrentPos(w.writer)
    requires w.writer.bufferPos + 1 < w.writer.size && c != 0
    ensures IsRun(w, [DoFlushCall(true, junk), DoWrite(caller, [c], junk)])
    ensures var w2 := After(w, [DoFlushCall(true, junk), DoWrite(caller, [c], junk)]);
            && Inv(w2) && Enabled(w2, DoCloseStart(caller, junk))
            && IsClosing(w2, caller, junk, [], late) && FileAfter(w2, caller, junk, [], late) != w2.accepted
  {
    var w1, w2 := StaleByte(w, caller, c, junk);
    TwoSteps(w, DoFlushCall(true, junk), w1, DoWrite(caller, [c], junk), w2);
    late := StaleClose(w2, caller, junk, |w.issued|);
  }

  lemma StaleByte(w: World, caller: nat, c: Byte, junk: nat -> Byte) returns (w1: World, w2: World)
    requires Inv(w) && Good(w) && Bounded(w) && w.writer.status.Open? && w.writer.waker.None?
    requires w.writer.bufferPos > 0 && LastPos(w.writer.flushes) != CurrentPos(w.writer)
    requires w.writer.bufferPos + 1 < w.writer.size && c != 0
    ensures w1 == Apply(w, DoFlushCall(true, junk)) && Inv(w1) && Enabled(w1, DoWrite(caller, [c], junk))
    ensures w2 == Apply(w1, DoWrite(caller, [c], junk)) && Inv(w2) && Enabled(w2, DoCloseStart(caller, junk))
    ensures var n := |w.issued|;
            && InFlight(w2, n) && w2.issued[n].at == w2.writer.alignedPos && !UpToDate(w2, w2.issued[n])
            && Pads(w2.writer)
  {
    w1 := FlushedUp(w, junk);
    w2 := KeepsAByte(w1, caller, c, junk);
    NotUpToDate(w2, w2.issued[|w.issued|], w.writer.bufferPos, c);
  }

  lemma {:induction false} StaleClose(w: World, caller: nat, junk: nat -> Byte, n: nat) returns (late: seq<nat>)
    requires Inv(w) && Enabled(w, DoCloseStart(caller, junk)) && Pads(w.writer)
    requires InFlight(w, n) && w.issued[n].at == w.writer.alignedPos && !UpToDate(w, w.issued[n])
    ensures IsClosing(w, caller, junk, [], late) && FileAfter(w, caller, junk, [], late) != w.accepted
  {
    var w1 := CloseStart(w, caller, junk);
    CloseClashIff(w, caller, junk);
    var i, j :| 0 <= i < j < |w1.issued| && Clash(w1, i, j);
    late := CloseLoses(w, caller, junk, i, j);
  }

  lemma NotUpToDate(w: World, x: Write, p: nat, c: Byte)
    requires Layout(w.writer, w.accepted) && w.writer.bufferPos == p + 1 && |x.data| == w.writer.size
    requires x.data[p..] == Zeros(w.writer.size - p) && c != 0 && w.accepted[w.writer.alignedPos + p] == c
    ensures !UpToDate(w, x)
  {
    assert x.data[..p + 1][p] == x.data[p] == x.data[p..][0] == 0;
    assert w.accepted[w.writer.alignedPos..][p] == c;
  }
}
