/**
 The stream writer of `io/dma_file_stream.rs` and the file below it: bytes are collected in a
 buffer, every full buffer is written behind the caller's back, a partial buffer is written
 padded with zeros when a flush asks for it, and writes land in any order.
 */
module StreamWriter {
  import opened Words
  import opened Options
  import opened FlushState

  /** A write of one buffer at file offset `at`; it carries the stream's bytes up to `pos`. */
  datatype Write = Write(at: nat, data: seq<Byte>, pos: nat)

  datatype FileStatus = Open | Closing | Closed

  /** `DmaStreamWriterState` */
  datatype Writer = Writer(
    size: nat, writeBehind: nat, syncOnClose: bool,
    buffer: Option<seq<Byte>>, alignedPos: nat, bufferPos: nat,
    flushes: Flushes, status: FileStatus, waker: Option<nat>, syncedPos: nat)

  /** A running `fdatasync`: the position it will report and the writes that had landed when it began. */
  datatype Sync = Sync(pos: nat, covered: set<nat>)

  /**
   The writer, the file and the history. Writes are identified by their stream position:
   `landed` are in the file, `taken` have had their handles handed out, `stable` have been
   synced, `awaited` are those the closing task waits for. `waiting` are the callers that were
   told to wait and have not been woken since.
   */
  datatype World = World(
    writer: Writer, issued: seq<Write>, landed: set<nat>, taken: set<nat>,
    disk: seq<Byte>, accepted: seq<Byte>, syncing: seq<Sync>, stable: set<nat>, awaited: set<nat>,
    waiting: set<nat>)

  function New(size: nat, writeBehind: nat, syncOnClose: bool): World {
    World(
      Writer(size, writeBehind, syncOnClose, None, 0, 0, NO_FLUSHES, Open, None, 0),
      [], {}, {}, [], [], [], {}, {}, {})
  }

  function CurrentPos(w: Writer): nat {
    w.alignedPos + w.bufferPos
  }

  function Positions(issued: seq<Write>): (r: seq<nat>)
    ensures |r| == |issued| && forall i | 0 <= i < |r| :: r[i] == issued[i].pos
  {
    seq(|issued|, i requires 0 <= i < |issued| => issued[i].pos)
  }

  // ------------------------------------------------------------------ the steps

  /** A buffer as allocated: its contents are whatever the memory held. */
  function Fresh(w: Writer, junk: nat -> Byte): seq<Byte> {
    seq(w.size, i requires 0 <= i => junk(w.alignedPos + i))
  }

  function Zeros(n: nat): seq<Byte> {
    seq(n, i => 0)
  }

  /** `flush_one_buffer`: start writing `data` at the aligned position. */
  function Issue(w: World, data: seq<Byte>): World {
    var pos := CurrentPos(w.writer);
    w.(writer := w.writer.(flushes := Started(w.writer.flushes, pos)),
       issued := w.issued + [Write(w.writer.alignedPos, data, pos)])
  }

  function Put(w: World, bytes: seq<Byte>): World
    requires w.writer.buffer.Some? && |w.writer.buffer.value| == w.writer.size
    requires w.writer.bufferPos + |bytes| <= w.writer.size
  {
    var b, n := w.writer.buffer.value, w.writer.bufferPos + |bytes|;
    w.(writer := w.writer.(buffer := Some(b[..w.writer.bufferPos] + bytes + b[n..]), bufferPos := n),
       accepted := w.accepted + bytes)
  }

  /** A buffer that has become full is written, and the next block begins. */
  function PutAndSend(w: World, bytes: seq<Byte>): World
    requires w.writer.buffer.Some? && |w.writer.buffer.value| == w.writer.size
    requires w.writer.bufferPos + |bytes| <= w.writer.size
  {
    var p := Put(w, bytes);
    if p.writer.bufferPos < p.writer.size then p
    else
      var i := Issue(p, p.writer.buffer.value);
      i.(writer := i.writer.(buffer := None, alignedPos := i.writer.alignedPos + i.writer.size, bufferPos := 0))
  }

  /** Whether the loop of `poll_write` goes on: there are bytes left, and a buffer or room for one more flush. */
  predicate GoesOn(w: World, buf: seq<Byte>) {
    buf != [] && (w.writer.buffer.Some? || w.writer.flushes.pendingCount < w.writer.writeBehind)
  }

  /** How much one turn of the loop takes: nothing when it allocates, otherwise what fits. */
  function Bite(w: Writer, buf: seq<Byte>): nat
    requires w.bufferPos <= w.size
  {
    if w.buffer.None? then 0 else Min(|buf|, w.size - w.bufferPos)
  }

  function Turn(w: World, buf: seq<Byte>, junk: nat -> Byte): World
    requires Layout(w.writer, w.accepted)
  {
    if w.writer.buffer.None? then Alloc(w, junk) else PutAndSend(w, buf[..Bite(w.writer, buf)])
  }

  /** The loop of `poll_write`. */
  function Fill(w: World, buf: seq<Byte>, junk: nat -> Byte): World
    requires Layout(w.writer, w.accepted) && w.writer.status.Open?
    decreases |buf|, w.writer.buffer.None?
  {
    if !GoesOn(w, buf) then w
    else TurnKeepsLayout(w, buf, junk); Fill(Turn(w, buf, junk), buf[Bite(w.writer, buf)..], junk)
  }

  function Alloc(w: World, junk: nat -> Byte): World {
    w.(writer := w.writer.(buffer := Some(Fresh(w.writer, junk))))
  }

  /** Whose waker is kept: there is room for one. */
  function Slot(w: Writer): set<nat> {
    if w.waker.Some? then {w.waker.value} else {}
  }

  /** `add_waker`, by a caller that is told to wait. Whoever was in the slot is forgotten. */
  function Wait(w: World, caller: nat): World {
    w.(writer := w.writer.(waker := Some(caller)), waiting := w.waiting + {caller})
  }

  /** The caller in the slot is woken. */
  function Wake(w: World): World {
    w.(writer := w.writer.(waker := None), waiting := w.waiting - Slot(w.writer))
  }

  /** `poll_write`: while a waker is kept nothing is written; a call that takes nothing waits. */
  function PollWrite(w: World, caller: nat, buf: seq<Byte>, junk: nat -> Byte): World
    requires Layout(w.writer, w.accepted) && w.writer.status.Open?
  {
    if w.writer.waker.Some? then Wait(w, caller)
    else
      var f := Fill(w, buf, junk);
      if f.accepted == w.accepted then Wait(f, caller) else f.(waiting := f.waiting - {caller})
  }

  /** The partial buffer, padded with zeros. */
  function PaddedData(w: Writer): seq<Byte>
    requires w.buffer.Some? && w.bufferPos <= |w.buffer.value| && w.bufferPos <= w.size
  {
    w.buffer.value[..w.bufferPos] + Zeros(w.size - w.bufferPos)
  }

  /** What the writer goes on with: a copy while the file is open. */
  function NextBuffer(w: Writer, junk: nat -> Byte): Option<seq<Byte>>
    requires w.buffer.Some? && w.bufferPos <= |w.buffer.value| && w.bufferPos <= w.size
  {
    if w.status.Open? then Some(w.buffer.value[..w.bufferPos] + Fresh(w, junk)[w.bufferPos..]) else None
  }

  function WithBuffer(w: World, buffer: Option<seq<Byte>>): World {
    w.(writer := w.writer.(buffer := buffer))
  }

  /** `flush_padded`: write the partial buffer, padded, unless that has already been done. */
  function FlushPadded(w: World, junk: nat -> Byte): World
    requires Layout(w.writer, w.accepted) && (w.writer.bufferPos > 0 ==> w.writer.buffer.Some?)
  {
    if w.writer.bufferPos == 0 || LastPos(w.writer.flushes) == CurrentPos(w.writer) then w
    else WithBuffer(Issue(w, PaddedData(w.writer)), NextBuffer(w.writer, junk))
  }

  /** `poll_flush`: the slot is emptied first, and taken by the caller unless everything has been flushed. */
  function PollFlush(w: World, caller: nat, junk: nat -> Byte): World
    requires Layout(w.writer, w.accepted) && w.writer.status.Open?
  {
    if w.writer.flushes.flushedPos == CurrentPos(w.writer)
    then w.(writer := w.writer.(waker := None), waiting := w.waiting - {caller})
    else Wait(if w.writer.waker.Some? then w else FlushPadded(w, junk), caller)
  }

  /** `take_pending_handles` */
  function TakeAll(w: World): World {
    w.(writer := w.writer.(flushes := w.writer.flushes.(entries := Taken(w.writer.flushes.entries))),
       taken := w.taken + Handles(w.writer.flushes.entries))
  }

  /** The state in which a flush call collects its handles. */
  function Collecting(w: World, partial: bool, junk: nat -> Byte): World
    requires Layout(w.writer, w.accepted) && w.writer.status.Open?
  {
    if partial && w.writer.bufferPos > 0 then FlushPadded(w, junk) else w
  }

  /** `flush_inner` up to the point where it waits: the new state, and which position it promises. */
  function FlushCall(w: World, partial: bool, junk: nat -> Byte): (World, nat)
    requires Layout(w.writer, w.accepted) && w.writer.status.Open?
  {
    (TakeAll(Collecting(w, partial, junk)),
     if partial && w.writer.bufferPos > 0 then CurrentPos(w.writer) else w.writer.alignedPos)
  }

  /** What `write_at` does to a file: bytes beyond the end appear, and a hole reads as zeros. */
  function Overlay(disk: seq<Byte>, at: nat, data: seq<Byte>): (r: seq<Byte>)
    ensures |r| == Max(|disk|, at + |data|) && r[at..at + |data|] == data
    ensures forall i | 0 <= i < |disk| :: i < at || at + |data| <= i ==> r[i] == disk[i]
  {
    seq(Max(|disk|, at + |data|), i requires 0 <= i < Max(|disk|, at + |data|) =>
      if at <= i < at + |data| then data[i - at] else if i < |disk| then disk[i] else 0)
  }

  /** Write `k` reaches the file, and the bookkeeping learns of it. */
  function Written(w: World, k: nat): World
    requires k < |w.issued|
  {
    var x := w.issued[k];
    w.(writer := w.writer.(flushes := Completed(w.writer.flushes, x.pos)),
       landed := w.landed + {x.pos},
       disk := Overlay(w.disk, x.at, x.data))
  }

  /** The same, and then a caller is woken if the file is open. */
  function Land(w: World, k: nat): World
    requires k < |w.issued|
  {
    if w.writer.status.Open? then Wake(Written(w, k)) else Written(w, k)
  }

  /** `sync_inner` before and after its `fdatasync`. */
  function SyncStart(w: World): World {
    if w.writer.syncedPos < w.writer.flushes.flushedPos
    then w.(syncing := w.syncing + [Sync(w.writer.flushes.flushedPos, w.landed)])
    else w
  }

  function SyncEnd(w: World, i: nat): World
    requires i < |w.syncing|
  {
    w.(writer := w.writer.(syncedPos := w.syncing[i].pos),
       stable := w.stable + w.syncing[i].covered,
       syncing := w.syncing[..i] + w.syncing[i + 1..])
  }

  /** `poll_close` of an open file: the caller waits, and nothing more is accepted. */
  function BeginClose(w: World, caller: nat): World {
    Wait(w.(writer := w.writer.(status := Closing)), caller)
  }

  /** `initiate_close` up to the point where its task waits. */
  function CloseStart(w: World, caller: nat, junk: nat -> Byte): World
    requires Layout(w.writer, w.accepted) && w.writer.status.Open?
  {
    var f := FlushPadded(BeginClose(w, caller), junk);
    TakeAll(f).(awaited := Handles(f.writer.flushes.entries))
  }

  /** The closing task once the awaited writes have landed: sync if asked and needed, then cut the padding off. */
  function CloseFinish(w: World): World {
    var final := CurrentPos(w.writer);
    var mustSync := w.writer.syncOnClose && w.writer.syncedPos < final;
    var mustTruncate := w.writer.flushes.flushedPos > w.writer.alignedPos;
    Wake(w.(writer := w.writer.(syncedPos := if mustSync then final else w.writer.syncedPos),
            stable := if mustSync then w.stable + w.landed else w.stable,
            disk := if mustTruncate then Overlay(w.disk, final, [])[..final] else w.disk))
  }

  /** What the closing task asserts and relies on: everything the caller handed over has been flushed. */
  ghost predicate AllFlushed(w: World) {
    w.writer.flushes.flushedPos == CurrentPos(w.writer)
  }

  datatype Event =
    | DoWrite(caller: nat, buf: seq<Byte>, junk: nat -> Byte)
    | DoPollFlush(caller: nat, junk: nat -> Byte)
    | DoFlushCall(partial: bool, junk: nat -> Byte)
    | DoLand(k: nat)
    | DoSyncStart
    | DoSyncEnd(i: nat)
    | DoCloseStart(caller: nat, junk: nat -> Byte)
    | DoCloseAgain(caller: nat)
    | DoCloseFinish
    | DoClosed(caller: nat)

  /**
   When an event can happen: calls while the file is open, a close by a caller that is
   not waiting (otherwise `poll_close` panics), and the end of its task once what it awaits
   has landed (if the caller's bytes are not all flushed by then, its assertion panics).
   */
  ghost predicate Enabled(w: World, e: Event) {
    match e
    case DoWrite(_, _, _) => w.writer.status.Open?
    case DoPollFlush(_, _) => w.writer.status.Open?
    case DoFlushCall(_, _) => w.writer.status.Open?
    case DoLand(k) => k < |w.issued| && w.issued[k].pos !in w.landed
    case DoSyncStart => w.writer.status.Open?
    case DoSyncEnd(i) => i < |w.syncing|
    case DoCloseStart(_, _) => w.writer.status.Open? && w.writer.waker.None?
    case DoCloseAgain(_) => w.writer.status.Closing? && w.writer.waker.Some?
    case DoCloseFinish => w.writer.status.Closing? && w.writer.waker.Some? && w.awaited <= w.landed && AllFlushed(w)
    case DoClosed(_) => w.writer.status.Closing? && w.writer.waker.None?
  }

  function Apply(w: World, e: Event): World
    requires Layout(w.writer, w.accepted) && Enabled(w, e)
  {
    match e
    case DoWrite(caller, buf, junk) => PollWrite(w, caller, buf, junk)
    case DoPollFlush(caller, junk) => PollFlush(w, caller, junk)
    case DoFlushCall(partial, junk) => FlushCall(w, partial, junk).0
    case DoLand(k) => Land(w, k)
    case DoSyncStart => SyncStart(w)
    case DoSyncEnd(i) => SyncEnd(w, i)
    case DoCloseStart(caller, junk) => CloseStart(w, caller, junk)
    case DoCloseAgain(caller) => Wait(w, caller)
    case DoCloseFinish => CloseFinish(w)
    case DoClosed(caller) => w.(writer := w.writer.(status := Closed), waiting := w.waiting - {caller})
  }

  // ------------------------------------------------------------------ invariants

  /** The buffer holds the tail of what the caller has handed over. */
  ghost predicate Layout(w: Writer, accepted: seq<Byte>) {
    && w.bufferPos < w.size && |accepted| == w.alignedPos + w.bufferPos
    && (w.status.Open? && w.bufferPos > 0 ==> w.buffer.Some?)
    && (w.buffer.Some? ==>
          |w.buffer.value| == w.size && w.buffer.value[..w.bufferPos] == accepted[w.alignedPos..])
  }

  /** A write carries exactly the caller's bytes of its range. */
  ghost predicate Carries(size: nat, accepted: seq<Byte>, x: Write) {
    && x.at < x.pos <= x.at + size && x.pos <= |accepted|
    && |x.data| == size && x.data[..x.pos - x.at] == accepted[x.at..x.pos]
  }

  /** Writes are to whole blocks. */
  ghost predicate Aligned(size: nat, issued: seq<Write>, i: nat, j: nat)
    requires i < |issued| && j < |issued|
  {
    issued[i].at == issued[j].at || issued[i].at + size <= issued[j].at
  }

  function PosBefore(issued: seq<Write>, i: nat): nat
    requires i <= |issued|
  {
    if i == 0 then 0 else issued[i - 1].pos
  }

  /** Each write starts no later than where the one before it ended, so together they leave no gap. */
  ghost predicate NoGap(issued: seq<Write>, i: nat)
    requires i < |issued|
  {
    issued[i].at <= PosBefore(issued, i)
  }

  ghost predicate IssuedOk(size: nat, issued: seq<Write>, accepted: seq<Byte>) {
    && (forall i | 0 <= i < |issued| :: Carries(size, accepted, issued[i]))
    && (forall i, j | 0 <= i < j < |issued| :: Aligned(size, issued, i, j))
    && (forall i | 0 <= i < |issued| :: NoGap(issued, i))
  }

  /** Writes issued so far are to blocks before the current one, or padded writes of the current one. */
  ghost predicate Earlier(w: Writer, x: Write) {
    x.at + w.size <= w.alignedPos || (x.at == w.alignedPos && w.bufferPos > 0)
  }

  ghost predicate TailOk(w: Writer, issued: seq<Write>) {
    && (forall i | 0 <= i < |issued| :: Earlier(w, issued[i]))
    && w.alignedPos <= PosBefore(issued, |issued|)
  }

  ghost predicate SyncsOk(w: Writer, started: seq<nat>, syncing: seq<Sync>, stable: set<nat>) {
    && w.syncedPos <= w.flushes.flushedPos && AllDone(started, stable, w.syncedPos)
    && forall i | 0 <= i < |syncing| :: SyncOk(w.flushes.flushedPos, started, syncing[i])
  }

  ghost predicate SyncOk(flushedPos: nat, started: seq<nat>, s: Sync) {
    s.pos <= flushedPos && AllDone(started, s.covered, s.pos)
  }

  /** Everything but the contents of the file. */
  ghost predicate Inv(w: World) {
    && w.writer.writeBehind > 0
    && Layout(w.writer, w.accepted)
    && IssuedOk(w.writer.size, w.issued, w.accepted)
    && TailOk(w.writer, w.issued)
    && Agrees(w.writer.flushes, Positions(w.issued), w.landed, w.taken)
    && SyncsOk(w.writer, Positions(w.issued), w.syncing, w.stable)
  }

  lemma NewInv(size: nat, writeBehind: nat, syncOnClose: bool)
    requires size > 0 && writeBehind > 0
    ensures Inv(New(size, writeBehind, syncOnClose))
    ensures var w := New(size, writeBehind, syncOnClose);
            && w.writer.size == size && w.writer.writeBehind == writeBehind && w.writer.syncOnClose == syncOnClose
            && w.writer.status.Open? && w.writer.waker.None? && w.accepted == [] && w.disk == []
  {
    var none: seq<nat> := [];
    assert none + none == Positions([]) && Tracks(NO_FLUSHES, none, none, {}, {});
  }

  // --------------------------------------------------------------- steps keep them

  lemma PutKeepsLayout(w: World, bytes: seq<Byte>)
    requires Layout(w.writer, w.accepted) && w.writer.buffer.Some? && w.writer.bufferPos + |bytes| <= w.writer.size
    ensures var p := PutAndSend(w, bytes); Layout(p.writer, p.accepted) && p.accepted == w.accepted + bytes
  {
    var p := Put(w, bytes);
    assert p.writer.buffer.value[..p.writer.bufferPos] == p.accepted[w.writer.alignedPos..];
  }

  lemma TurnKeepsLayout(w: World, buf: seq<Byte>, junk: nat -> Byte)
    requires Layout(w.writer, w.accepted) && w.writer.status.Open? && GoesOn(w, buf)
    ensures var w', n := Turn(w, buf, junk), Bite(w.writer, buf);
            && Layout(w'.writer, w'.accepted) && w'.writer.status.Open? && w'.accepted == w.accepted + buf[..n]
            && (n == 0 ==> w.writer.buffer.None? && w'.writer.buffer.Some?)
  {
    if w.writer.buffer.Some? {
      PutKeepsLayout(w, buf[..Bite(w.writer, buf)]);
    }
  }

  lemma AcceptedMore(size: nat, issued: seq<Write>, accepted: seq<Byte>, bytes: seq<Byte>)
    requires IssuedOk(size, issued, accepted)
    ensures IssuedOk(size, issued, accepted + bytes)
  {
    forall i | 0 <= i < |issued|
      ensures Carries(size, accepted + bytes, issued[i])
    {
      var x := issued[i];
      assert Carries(size, accepted, x);
      assert (accepted + bytes)[x.at..x.pos] == accepted[x.at..x.pos];
    }
  }

  lemma IssuedMore(size: nat, issued: seq<Write>, accepted: seq<Byte>, x: Write)
    requires IssuedOk(size, issued, accepted) && Carries(size, accepted, x) && x.at <= PosBefore(issued, |issued|)
    requires forall i | 0 <= i < |issued| :: issued[i].at == x.at || issued[i].at + size <= x.at
    ensures IssuedOk(size, issued + [x], accepted)
  {
    var more := issued + [x];
    forall i, j | 0 <= i < j < |more|
      ensures Aligned(size, more, i, j)
    {
      assert j == |issued| || Aligned(size, issued, i, j);
    }
    forall i | 0 <= i < |more|
      ensures NoGap(more, i)
    {
      assert i == |issued| || NoGap(issued, i);
    }
  }

  /**
   Synced, flushed, started and accepted: each position never passes the next, so the
   position assertions of `on_start`, `flush_padded` and `sync_inner` never fail.
   */
  lemma LastNotBeyond(w: World)
    requires Inv(w)
    ensures w.writer.syncedPos <= w.writer.flushes.flushedPos <= LastPos(w.writer.flushes)
    ensures LastPos(w.writer.flushes) == PosBefore(w.issued, |w.issued|) <= CurrentPos(w.writer)
  {
    LastPosExact(w.writer.flushes, Positions(w.issued), w.landed, w.taken);
    if w.issued != [] {
      assert Carries(w.writer.size, w.accepted, w.issued[|w.issued| - 1]);
    }
  }

  lemma SyncsMore(w: Writer, started: seq<nat>, syncing: seq<Sync>, stable: set<nat>, pos: nat)
    requires SyncsOk(w, started, syncing, stable) && pos > w.flushes.flushedPos
    ensures SyncsOk(w.(flushes := Started(w.flushes, pos)), started + [pos], syncing, stable)
  {
    forall i | 0 <= i < |syncing|
      ensures SyncOk(w.flushes.flushedPos, started + [pos], syncing[i])
    {
      assert SyncOk(w.flushes.flushedPos, started, syncing[i]);
    }
  }

  lemma IssueBookkeeping(w: World, x: Write)
    requires Inv(w) && x.pos > LastPos(w.writer.flushes)
    ensures var started, f := Positions(w.issued + [x]), Started(w.writer.flushes, x.pos);
            && Agrees(f, started, w.landed, w.taken)
            && SyncsOk(w.writer.(flushes := f), started, w.syncing, w.stable)
  {
    LastNotBeyond(w);
    assert Positions(w.issued + [x]) == Positions(w.issued) + [x.pos];
    StartAgrees(w.writer.flushes, Positions(w.issued), w.landed, w.taken, x.pos);
    SyncsMore(w.writer, Positions(w.issued), w.syncing, w.stable, x.pos);
  }

  lemma PutKeepsInv(w: World, bytes: seq<Byte>)
    requires Inv(w) && w.writer.buffer.Some? && bytes != [] && w.writer.bufferPos + |bytes| <= w.writer.size
    ensures Inv(PutAndSend(w, bytes))
  {
    PutKeepsLayout(w, bytes);
    AcceptedMore(w.writer.size, w.issued, w.accepted, bytes);
    var p := Put(w, bytes);
    if p.writer.bufferPos == p.writer.size {
      LastNotBeyond(w);
      var x := Write(w.writer.alignedPos, p.writer.buffer.value, CurrentPos(p.writer));
      FullCarries(w, bytes);
      IssuedMore(w.writer.size, w.issued, p.accepted, x);
      IssueBookkeeping(w, x);
    }
  }

  lemma FullCarries(w: World, bytes: seq<Byte>)
    requires Layout(w.writer, w.accepted) && w.writer.buffer.Some? && w.writer.bufferPos + |bytes| == w.writer.size
    ensures var p := Put(w, bytes);
            Carries(w.writer.size, p.accepted, Write(w.writer.alignedPos, p.writer.buffer.value, CurrentPos(p.writer)))
  {
    var p := Put(w, bytes);
    assert p.writer.buffer.value[..w.writer.size] == p.accepted[w.writer.alignedPos..CurrentPos(p.writer)];
  }

  lemma AllocKeepsInv(w: World, junk: nat -> Byte)
    requires Inv(w) && w.writer.status.Open? && w.writer.buffer.None?
    ensures Inv(Alloc(w, junk))
  {
  }

  /** One turn of the loop of `poll_write`. */
  lemma FillTurn(w: World, buf: seq<Byte>, junk: nat -> Byte) returns (w': World, n: nat)
    requires Inv(w) && w.writer.status.Open? && GoesOn(w, buf)
    ensures n == Bite(w.writer, buf) && w' == Turn(w, buf, junk)
    ensures n == 0 ==> w.writer.buffer.None? && w'.writer.buffer.Some?
    ensures Inv(w') && w'.writer.status.Open? && w'.accepted == w.accepted + buf[..n]
    ensures Fill(w, buf, junk) == Fill(w', buf[n..], junk)
  {
    n, w' := Bite(w.writer, buf), Turn(w, buf, junk);
    TurnKeepsLayout(w, buf, junk);
    if w.writer.buffer.None? {
      AllocKeepsInv(w, junk);
    } else {
      PutKeepsInv(w, buf[..n]);
    }
  }

  /** How many more writes may be started behind the caller's back. */
  function WritesLeft(writeBehind: nat, pending: int): nat {
    if pending < writeBehind then writeBehind - pending else 0
  }

  /** How many bytes a write can take: what is left of the buffer, and a block for each write that may be started. */
  function Room(w: Writer): nat
    requires w.bufferPos <= w.size
  {
    if w.buffer.Some? then w.size - w.bufferPos + Times(WritesLeft(w.writeBehind, w.flushes.pendingCount + 1), w.size)
    else Times(WritesLeft(w.writeBehind, w.flushes.pendingCount), w.size)
  }

  /** Each turn uses up what it takes, and allocating a buffer uses up nothing. */
  lemma TurnUsesRoom(w: World, buf: seq<Byte>, junk: nat -> Byte)
    requires Layout(w.writer, w.accepted) && w.writer.status.Open? && GoesOn(w, buf)
    ensures var w', n := Turn(w, buf, junk), Bite(w.writer, buf);
            w'.writer.bufferPos <= w'.writer.size && n <= |buf| && Room(w'.writer) + n == Room(w.writer)
  {
    TurnKeepsLayout(w, buf, junk);
  }

  /** The same, for callers that do not care how the turn went. */
  lemma FillSome(w: World, buf: seq<Byte>, junk: nat -> Byte) returns (w': World, n: nat)
    requires Inv(w) && w.writer.status.Open? && GoesOn(w, buf)
    ensures n <= |buf| && (n == 0 ==> w.writer.buffer.None? && w'.writer.buffer.Some?)
    ensures Inv(w') && w'.writer.status.Open? && w'.accepted == w.accepted + buf[..n]
    ensures Room(w'.writer) + n == Room(w.writer)
    ensures Fill(w, buf, junk) == Fill(w', buf[n..], junk)
  {
    w', n := FillTurn(w, buf, junk);
    TurnUsesRoom(w, buf, junk);
  }

  lemma {:induction false} FillKeepsInv(w: World, buf: seq<Byte>, junk: nat -> Byte)
    requires Inv(w) && w.writer.status.Open?
    ensures Inv(Fill(w, buf, junk)) && Fill(w, buf, junk).writer.status.Open?
    decreases |buf|, w.writer.buffer.None?
  {
    if GoesOn(w, buf) {
      var w', n := FillSome(w, buf, junk);
      FillKeepsInv(w', buf[n..], junk);
    }
  }

  lemma Slices(acc: seq<Byte>, buf: seq<Byte>, k: nat, m: nat)
    requires k <= |buf| && m <= |buf| - k
    ensures acc + buf[..k] + buf[k..][..m] == acc + buf[..k + m] && buf[k..][m..] == buf[k + m..]
    ensures acc + buf[..0] == acc && buf[0..] == buf
  {
  }

  lemma NoRoom(w: World, buf: seq<Byte>)
    requires Layout(w.writer, w.accepted) && !GoesOn(w, buf)
    ensures Min(|buf|, Room(w.writer)) == 0
  {
  }

  lemma {:induction false} FillPrefix(w: World, buf: seq<Byte>, junk: nat -> Byte) returns (n: nat)
    requires Inv(w) && w.writer.status.Open?
    ensures n <= |buf| && Fill(w, buf, junk).accepted == w.accepted + buf[..n]
    decreases |buf|, w.writer.buffer.None?
  {
    if GoesOn(w, buf) {
      var w', k := FillSome(w, buf, junk);
      var m := FillPrefix(w', buf[k..], junk);
      n := k + m;
      Slices(w.accepted, buf, k, m);
    } else {
      n := 0;
      Slices(w.accepted, buf, 0, 0);
    }
  }

  lemma {:induction false} FillLength(w: World, buf: seq<Byte>, junk: nat -> Byte)
    requires Inv(w) && w.writer.status.Open?
    ensures |Fill(w, buf, junk).accepted| == |w.accepted| + Min(|buf|, Room(w.writer))
    decreases |buf|, w.writer.buffer.None?
  {
    if GoesOn(w, buf) {
      var w', k := FillSome(w, buf, junk);
      FillLength(w', buf[k..], junk);
    } else {
      NoRoom(w, buf);
    }
  }

  /** What a write takes is a prefix of what it was given: all of it, or as much as there is room for. */
  lemma FillTakes(w: World, buf: seq<Byte>, junk: nat -> Byte) returns (f: World, n: nat)
    requires Inv(w) && w.writer.status.Open?
    ensures f == Fill(w, buf, junk) && n == Min(|buf|, Room(w.writer))
    ensures f.accepted == w.accepted + buf[..n]
  {
    f := Fill(w, buf, junk);
    n := FillPrefix(w, buf, junk);
    FillLength(w, buf, junk);
  }

  /** How many bytes a poll takes: none while a waker is kept. */
  function Takes(w: Writer, buf: seq<Byte>): nat
    requires w.bufferPos <= w.size
  {
    if w.waker.Some? then 0 else Min(|buf|, Room(w))
  }

  /** A write takes as much as there is room for, and waits exactly if that is nothing. */
  lemma WriteExact(w: World, caller: nat, buf: seq<Byte>, junk: nat -> Byte)
    requires Inv(w) && w.writer.status.Open?
    ensures var w', n := PollWrite(w, caller, buf, junk), Takes(w.writer, buf);
            && w'.accepted == w.accepted + buf[..n]
            && (caller in w'.waiting <==> n == 0)
    ensures buf != [] ==> (Takes(w.writer, buf) == 0 <==>
              w.writer.waker.Some? || (w.writer.buffer.None? && w.writer.flushes.pendingCount >= w.writer.writeBehind))
  {
    var f, n := FillTakes(w, buf, junk);
    assert buf[..0] == [] && w.accepted + [] == w.accepted;
    assert |f.accepted| == |w.accepted| + n;
  }

  lemma PaddedCarries(w: World)
    requires Layout(w.writer, w.accepted) && w.writer.buffer.Some? && w.writer.bufferPos > 0
    ensures Carries(w.writer.size, w.accepted, Write(w.writer.alignedPos, PaddedData(w.writer), CurrentPos(w.writer)))
  {
    var head := w.writer.buffer.value[..w.writer.bufferPos];
    assert PaddedData(w.writer)[..w.writer.bufferPos] == head == w.accepted[w.writer.alignedPos..CurrentPos(w.writer)];
  }

  lemma NextBufferKeepsLayout(w: Writer, accepted: seq<Byte>, junk: nat -> Byte)
    requires Layout(w, accepted) && w.buffer.Some?
    ensures Layout(w.(buffer := NextBuffer(w, junk)), accepted)
  {
    var next := NextBuffer(w, junk);
    if next.Some? {
      assert next.value[..w.bufferPos] == w.buffer.value[..w.bufferPos];
    }
  }

  lemma PaddedKeepsLayout(w: World, junk: nat -> Byte)
    requires Layout(w.writer, w.accepted) && (w.writer.bufferPos > 0 ==> w.writer.buffer.Some?)
    ensures var p := FlushPadded(w, junk); Layout(p.writer, p.accepted) && p.writer.status == w.writer.status
  {
    if w.writer.bufferPos > 0 {
      NextBufferKeepsLayout(w.writer, w.accepted, junk);
    }
  }

  lemma IssueKeepsInv(w: World, data: seq<Byte>)
    requires Inv(w) && w.writer.bufferPos > 0 && LastPos(w.writer.flushes) < CurrentPos(w.writer)
    requires Carries(w.writer.size, w.accepted, Write(w.writer.alignedPos, data, CurrentPos(w.writer)))
    ensures Inv(Issue(w, data))
  {
    LastNotBeyond(w);
    var x := Write(w.writer.alignedPos, data, CurrentPos(w.writer));
    IssuedMore(w.writer.size, w.issued, w.accepted, x);
    IssueBookkeeping(w, x);
  }

  /** Only the layout depends on the buffer. */
  lemma RebufferKeepsInv(w: World, buffer: Option<seq<Byte>>)
    requires Inv(w) && Layout(w.writer.(buffer := buffer), w.accepted)
    ensures Inv(WithBuffer(w, buffer))
  {
  }

  lemma PaddedKeepsInv(w: World, junk: nat -> Byte)
    requires Inv(w) && (w.writer.bufferPos > 0 ==> w.writer.buffer.Some?)
    ensures Inv(FlushPadded(w, junk))
  {
    LastNotBeyond(w);
    if w.writer.bufferPos > 0 && LastPos(w.writer.flushes) != CurrentPos(w.writer) {
      PaddedCarries(w);
      IssueKeepsInv(w, PaddedData(w.writer));
      NextBufferKeepsLayout(w.writer, w.accepted, junk);
      RebufferKeepsInv(Issue(w, PaddedData(w.writer)), NextBuffer(w.writer, junk));
    }
  }

  lemma TakeKeepsInv(w: World)
    requires Inv(w)
    ensures Inv(TakeAll(w))
    ensures Handles(w.writer.flushes.entries) ==
            (set p | p in Positions(w.issued) && p !in w.landed && p !in w.taken)
  {
    TakeAgrees(w.writer.flushes, Positions(w.issued), w.landed, w.taken);
  }

  /** Completions never move `flushed_pos` back. */
  lemma FlushedPosGrows(f: Flushes, started: seq<nat>, done: set<nat>, taken: set<nat>, pos: nat)
    requires Agrees(f, started, done, taken) && pos in started && pos !in done
    ensures Agrees(Completed(f, pos), started, done + {pos}, taken)
    ensures f.flushedPos <= Completed(f, pos).flushedPos
  {
    CompleteAgrees(f, started, done, taken, pos);
    FlushedPosExact(f, started, done, taken);
    FlushedPosExact(Completed(f, pos), started, done + {pos}, taken);
    assert AllDone(started, done + {pos}, f.flushedPos);
  }

  /** Only who waits, and for whom there is a waker, differs. */
  predicate SameButSlot(w: World, w': World) {
    w' == w.(writer := w.writer.(waker := w'.writer.waker), waiting := w'.waiting)
  }

  lemma SlotKeepsInv(w: World, w': World)
    requires Inv(w) && SameButSlot(w, w')
    ensures Inv(w')
  {
  }

  lemma WrittenKeepsInv(w: World, k: nat)
    requires Inv(w) && k < |w.issued| && w.issued[k].pos !in w.landed
    ensures Inv(Written(w, k))
    ensures w.writer.flushes.flushedPos <= Written(w, k).writer.flushes.flushedPos
  {
    assert Positions(w.issued)[k] == w.issued[k].pos;
    FlushedPosGrows(w.writer.flushes, Positions(w.issued), w.landed, w.taken, w.issued[k].pos);
    var w' := Written(w, k);
    forall i | 0 <= i < |w.syncing|
      ensures SyncOk(w'.writer.flushes.flushedPos, Positions(w.issued), w.syncing[i])
    {
      assert SyncOk(w.writer.flushes.flushedPos, Positions(w.issued), w.syncing[i]);
    }
  }

  lemma LandKeepsInv(w: World, k: nat)
    requires Inv(w) && k < |w.issued| && w.issued[k].pos !in w.landed
    ensures Inv(Land(w, k))
    ensures w.writer.flushes.flushedPos <= Land(w, k).writer.flushes.flushedPos
  {
    WrittenKeepsInv(w, k);
    SlotKeepsInv(Written(w, k), Land(w, k));
  }

  lemma SyncStartKeepsInv(w: World)
    requires Inv(w)
    ensures Inv(SyncStart(w))
  {
    FlushedPosExact(w.writer.flushes, Positions(w.issued), w.landed, w.taken);
  }

  lemma SyncEndKeepsInv(w: World, i: nat)
    requires Inv(w) && i < |w.syncing|
    ensures Inv(SyncEnd(w, i))
  {
    assert SyncOk(w.writer.flushes.flushedPos, Positions(w.issued), w.syncing[i]);
  }

  lemma CloseFinishKeepsInv(w: World)
    requires Inv(w) && w.writer.status.Closing? && AllFlushed(w)
    ensures Inv(CloseFinish(w))
  {
    FlushedPosExact(w.writer.flushes, Positions(w.issued), w.landed, w.taken);
  }

  lemma FlushCallKeepsInv(w: World, partial: bool, junk: nat -> Byte)
    requires Inv(w) && w.writer.status.Open?
    ensures Inv(FlushCall(w, partial, junk).0)
  {
    PaddedKeepsInv(w, junk);
    TakeKeepsInv(Collecting(w, partial, junk));
  }

  lemma PollFlushKeepsInv(w: World, caller: nat, junk: nat -> Byte)
    requires Inv(w) && w.writer.status.Open?
    ensures Inv(PollFlush(w, caller, junk))
  {
    if AllFlushed(w) || w.writer.waker.Some? {
      SlotKeepsInv(w, PollFlush(w, caller, junk));
    } else {
      PaddedKeepsInv(w, junk);
      SlotKeepsInv(FlushPadded(w, junk), Wait(FlushPadded(w, junk), caller));
    }
  }

  lemma WriteKeepsInv(w: World, caller: nat, buf: seq<Byte>, junk: nat -> Byte)
    requires Inv(w) && w.writer.status.Open?
    ensures Inv(PollWrite(w, caller, buf, junk))
  {
    if w.writer.waker.Some? {
      SlotKeepsInv(w, PollWrite(w, caller, buf, junk));
    } else {
      FillKeepsInv(w, buf, junk);
      SlotKeepsInv(Fill(w, buf, junk), PollWrite(w, caller, buf, junk));
    }
  }

  lemma CloseStartKeepsInv(w: World, caller: nat, junk: nat -> Byte)
    requires Inv(w) && w.writer.status.Open?
    ensures Inv(CloseStart(w, caller, junk))
  {
    PaddedKeepsInv(BeginClose(w, caller), junk);
    TakeKeepsInv(FlushPadded(BeginClose(w, caller), junk));
  }

  lemma ApplyKeepsInv(w: World, e: Event)
    requires Inv(w) && Enabled(w, e)
    ensures Inv(Apply(w, e))
  {
    match e
    case DoWrite(caller, buf, junk) => WriteKeepsInv(w, caller, buf, junk);
    case DoLand(k) => LandKeepsInv(w, k);
    case DoSyncStart => SyncStartKeepsInv(w);
    case DoSyncEnd(i) => SyncEndKeepsInv(w, i);
    case DoCloseFinish => CloseFinishKeepsInv(w);
    case DoCloseAgain(caller) => SlotKeepsInv(w, Wait(w, caller));
    case DoClosed(_) =>
    case DoFlushCall(partial, junk) => FlushCallKeepsInv(w, partial, junk);
    case DoPollFlush(caller, junk) => PollFlushKeepsInv(w, caller, junk);
    case DoCloseStart(caller, junk) => CloseStartKeepsInv(w, caller, junk);
  }

  // ------------------------------------------------------------------------ runs

  ghost predicate IsRun(w: World, events: seq<Event>)
    requires Inv(w)
    decreases |events|
  {
    events == [] || (Enabled(w, events[0]) && (ApplyKeepsInv(w, events[0]); IsRun(Apply(w, events[0]), events[1..])))
  }

  ghost function After(w: World, events: seq<Event>): World
    requires Inv(w) && IsRun(w, events)
    decreases |events|
  {
    if events == [] then w else ApplyKeepsInv(w, events[0]); After(Apply(w, events[0]), events[1..])
  }

  lemma {:induction false} RunKeepsInv(w: World, events: seq<Event>)
    requires Inv(w) && IsRun(w, events)
    ensures Inv(After(w, events))
    decreases |events|
  {
    if events != [] {
      ApplyKeepsInv(w, events[0]);
      RunKeepsInv(Apply(w, events[0]), events[1..]);
    }
  }

  lemma {:induction false} RunCons(w: World, e: Event, rest: seq<Event>)
    requires Inv(w) && Enabled(w, e) && Inv(Apply(w, e)) && IsRun(Apply(w, e), rest)
    ensures IsRun(w, [e] + rest) && After(w, [e] + rest) == After(Apply(w, e), rest)
  {
    assert ([e] + rest)[1..] == rest;
  }

  lemma {:induction false} TwoSteps(w: World, e1: Event, w1: World, e2: Event, w2: World)
    requires Inv(w) && Enabled(w, e1) && w1 == Apply(w, e1) && Inv(w1)
    requires Enabled(w1, e2) && w2 == Apply(w1, e2) && Inv(w2)
    ensures IsRun(w, [e1, e2]) && After(w, [e1, e2]) == w2
  {
    RunCons(w1, e2, []);
    RunCons(w, e1, [e2]);
    assert [e1] + [e2] == [e1, e2];
  }
}
