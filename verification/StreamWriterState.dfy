/** `DmaStreamWriterState` as an object, proved against the steps of module StreamWriter. */
module StreamWriterState {
  import opened Words
  import opened Options
  import opened FlushState
  import opened StreamWriter

  /** `DmaBuffer::write_at` */
  method WriteAt(b: array<Byte>, pos: nat, src: seq<Byte>) returns (n: nat)
    requires pos <= b.Length
    modifies b
    ensures n == Min(|src|, b.Length - pos) && b[..] == old(b[..pos]) + src[..n] + old(b[pos + n..])
  {
    n := Min(|src|, b.Length - pos);
    forall i | 0 <= i < n {
      b[pos + i] := src[i];
    }
  }

  /** The two halves of a flush call: the padded write, and the taking of handles. */
  lemma FlushParts(w: World, partial: bool, junk: nat -> Byte) returns (c: World, goal: World)
    requires Inv(w) && w.writer.status.Open?
    ensures c == Collecting(w, partial, junk)
    ensures goal == TakeAll(c) && Inv(goal) && goal == FlushCall(w, partial, junk).0
  {
    c := Collecting(w, partial, junk);
    goal := TakeAll(c);
    ApplyKeepsInv(w, DoFlushCall(partial, junk));
  }

  lemma CloseParts(w: World, caller: nat, junk: nat -> Byte) returns (c: World, goal: World)
    requires Inv(w) && w.writer.status.Open? && w.writer.waker.None?
    ensures Inv(BeginClose(w, caller)) && c == FlushPadded(BeginClose(w, caller), junk)
    ensures goal == TakeAll(c).(awaited := Handles(c.writer.flushes.entries)) && Inv(goal)
    ensures goal == CloseStart(w, caller, junk)
  {
    var w0 := BeginClose(w, caller);
    c := FlushPadded(w0, junk);
    goal := TakeAll(c).(awaited := Handles(c.writer.flushes.entries));
    ApplyKeepsInv(w, DoCloseStart(caller, junk));
  }

  /** What `poll_write` leads to, and what its loop leaves before that. */
  lemma WriteParts(w: World, caller: nat, buf: seq<Byte>, junk: nat -> Byte) returns (goal: World, n: nat)
    requires Inv(w) && w.writer.status.Open?
    ensures goal == StreamWriter.PollWrite(w, caller, buf, junk) && Inv(goal)
    ensures n == Takes(w.writer, buf) && goal.accepted == w.accepted + buf[..n]
    ensures w.writer.waker.Some? ==> n == 0 && goal == Wait(w, caller)
    ensures var f := Fill(w, buf, junk);
            w.writer.waker.None? ==> goal == if n == 0 then Wait(f, caller) else f.(waiting := f.waiting - {caller})
  {
    goal, n := StreamWriter.PollWrite(w, caller, buf, junk), Takes(w.writer, buf);
    ApplyKeepsInv(w, DoWrite(caller, buf, junk));
    WriteExact(w, caller, buf, junk);
    FillLength(w, buf, junk);
  }

  lemma Landed(w: World, k: nat) returns (w': World)
    requires Inv(w) && k < |w.issued| && w.issued[k].pos !in w.landed
    ensures w' == Land(w, k) && Inv(w')
    ensures w'.writer == w.writer.(flushes := Completed(w.writer.flushes, w.issued[k].pos),
                                   waker := if w.writer.status.Open? then None else w.writer.waker)
  {
    w' := Land(w, k);
    LandKeepsInv(w, k);
  }

  class WriterState {
    const size: nat
    const writeBehind: nat
    const syncOnClose: bool
    const flushState: WriterFlushState
    var buffer: array?<Byte>
    var alignedPos: nat
    var bufferPos: nat
    var status: FileStatus
    var waker: Option<nat>
    var syncedPos: nat
    /** The file and the history. */
    ghost var world: World

    ghost function Buffers(): set<object>
      reads this
    {
      if buffer == null then {} else {buffer}
    }

    ghost function Core(): Writer
      reads this, flushState, Buffers()
    {
      Writer(size, writeBehind, syncOnClose, if buffer == null then None else Some(buffer[..]),
             alignedPos, bufferPos, flushState.Snapshot(), status, waker, syncedPos)
    }

    ghost predicate Matches()
      reads this, flushState, Buffers()
    {
      Core() == world.writer && flushState.Valid()
    }

    ghost predicate Valid()
      reads this, flushState, Buffers()
    {
      Matches() && Inv(world)
    }

    constructor (size: nat, writeBehind: nat, syncOnClose: bool)
      requires size > 0 && writeBehind > 0
      ensures Valid() && fresh(flushState) && world == New(size, writeBehind, syncOnClose)
    {
      NewInv(size, writeBehind, syncOnClose);
      this.size, this.writeBehind, this.syncOnClose := size, writeBehind, syncOnClose;
      flushState := new WriterFlushState();
      buffer, alignedPos, bufferPos, status, waker, syncedPos := null, 0, 0, Open, None, 0;
      world := New(size, writeBehind, syncOnClose);
    }

    /** `flush_one_buffer`: the buffer belongs to the write from here on. */
    method FlushOneBuffer(data: seq<Byte>)
      requires Matches() && LastPos(flushState.Snapshot()) < alignedPos + bufferPos
      modifies this`world, flushState
      ensures Matches() && world == Issue(old(world), data)
    {
      flushState.OnStart(alignedPos + bufferPos);
      world := Issue(world, data);
    }

    /** One turn of the loop of `poll_write` with a buffer in hand. */
    method PutBytes(buf: seq<Byte>) returns (n: nat)
      requires Valid() && buffer != null && buf != []
      modifies this, flushState, Buffers()
      ensures Matches() && n == Bite(old(world.writer), buf) && world == PutAndSend(old(world), buf[..n])
      ensures buffer == null || buffer == old(buffer)
    {
      LastNotBeyond(world);
      n := WriteAt(buffer, bufferPos, buf);
      world := Put(world, buf[..n]);
      bufferPos := bufferPos + n;
      if bufferPos == size {
        FlushOneBuffer(buffer[..]);
        buffer := null;
        alignedPos := alignedPos + size;
        bufferPos := 0;
        world := world.(writer := world.writer.(buffer := None, alignedPos := alignedPos, bufferPos := 0));
      }
    }

    /** `alloc_dma_buffer` hands out memory with whatever it held. */
    method NewBuffer(junk: nat -> Byte)
      requires Matches() && buffer == null
      modifies this`buffer, this`world
      ensures Matches() && buffer != null && fresh(buffer) && world == Alloc(old(world), junk)
    {
      var base := alignedPos;
      buffer := new Byte[size](i requires 0 <= i => junk(base + i));
      world := Alloc(world, junk);
      assert buffer[..] == Fresh(world.writer, junk);
    }

    /** `poll_write`; `None` is `Poll::Pending`. */
    method PollWrite(caller: nat, buf: seq<Byte>, junk: nat -> Byte) returns (r: Option<nat>)
      requires Valid() && status.Open?
      modifies this, flushState, Buffers()
      ensures Valid() && world == StreamWriter.PollWrite(old(world), caller, buf, junk)
      ensures var n := Takes(old(world.writer), buf);
              r == (if n == 0 then None else Some(n)) && world.accepted == old(world.accepted) + buf[..n]
    {
      ghost var goal, n := WriteParts(world, caller, buf, junk);
      if waker.Some? {
        waker := Some(caller);
        world := Wait(world, caller);
        return None;
      }
      var written := Absorb(buf, junk);
      if written == 0 {
        waker := Some(caller);
        world := Wait(world, caller);
        r := None;
      } else {
        world := world.(waiting := world.waiting - {caller});
        r := Some(written);
      }
    }

    /** The loop of `poll_write`. */
    method Absorb(buf: seq<Byte>, junk: nat -> Byte) returns (written: nat)
      requires Valid() && status.Open?
      modifies this, flushState, Buffers()
      ensures Matches() && world == Fill(old(world), buf, junk)
      ensures written == Min(|buf|, Room(old(world.writer))) && world.accepted == old(world.accepted) + buf[..written]
    {
      ghost var goal, n := FillTakes(world, buf, junk);
      var rest := buf;
      while rest != []
        invariant |rest| <= |buf| && Valid() && status.Open?
        invariant buffer != null ==> buffer == old(buffer) || fresh(buffer)
        invariant Fill(world, rest, junk) == goal
        invariant |world.accepted| == |old(world.accepted)| + |buf| - |rest|
        decreases |rest|, buffer == null
      {
        var more, k := OneTurn(rest, junk, goal);
        if !more {
          break;
        }
        rest := rest[k..];
      }
      written := |buf| - |rest|;
    }

    method OneTurn(rest: seq<Byte>, junk: nat -> Byte, ghost goal: World) returns (more: bool, n: nat)
      requires Valid() && status.Open? && rest != [] && Fill(world, rest, junk) == goal
      modifies this, flushState, Buffers()
      ensures Valid() && status.Open? && n <= |rest| && |world.accepted| == |old(world.accepted)| + n
      ensures if more then Fill(world, rest[n..], junk) == goal else n == 0 && world == goal
      ensures more && n == 0 ==> old(buffer) == null && buffer != null
      ensures buffer != null ==> buffer == old(buffer) || fresh(buffer)
    {
      if buffer == null && flushState.pendingFlushCount >= writeBehind {
        more, n := false, 0;
      } else {
        ghost var w', k := FillTurn(world, rest, junk);
        more := true;
        if buffer == null {
          n := 0;
          NewBuffer(junk);
        } else {
          n := PutBytes(rest);
        }
        assert world == w' && n == k;
      }
    }

    /** `flush_padded` */
    method FlushPadded(junk: nat -> Byte) returns (flushed: bool)
      requires Valid() && (bufferPos > 0 ==> buffer != null)
      modifies this, flushState, Buffers()
      ensures Matches() && world == StreamWriter.FlushPadded(old(world), junk)
      ensures flushed <==> bufferPos > 0 && LastPos(old(flushState.Snapshot())) != old(alignedPos + bufferPos)
      ensures buffer != null ==> buffer == old(buffer) || fresh(buffer)
    {
      LastNotBeyond(world);
      if bufferPos == 0 {
        return false;
      }
      var last := flushState.LastFlushPos();
      if last == alignedPos + bufferPos {
        return false;
      }
      var data := PadAndCopy(junk);
      SendPadded(data);
      flushed := true;
    }

    /** Pads the buffer with zeros and gives it away; an open writer goes on with a copy of its contents. */
    method PadAndCopy(junk: nat -> Byte) returns (data: seq<Byte>)
      requires buffer != null && buffer.Length == size && bufferPos <= size
      modifies this`buffer, buffer
      ensures data == PaddedData(old(Core())) && Core().buffer == NextBuffer(old(Core()), junk)
      ensures buffer != null ==> fresh(buffer)
    {
      ghost var head, fresh' := buffer[..bufferPos], Fresh(Core(), junk);
      var n := WriteAt(buffer, bufferPos, Zeros(size - bufferPos));
      data := buffer[..];
      assert Zeros(size - bufferPos)[..n] == Zeros(size - bufferPos);
      buffer := null;
      if status.Open? {
        var base := alignedPos;
        buffer := new Byte[size](i requires 0 <= i => junk(base + i));
        assert buffer[..] == fresh';
        var k := WriteAt(buffer, 0, data[..bufferPos]);
        assert data[..bufferPos][..k] == head && fresh'[..0] == [];
        assert buffer[..] == head + fresh'[bufferPos..];
      }
    }

    method SendPadded(data: seq<Byte>)
      requires flushState.Valid() && LastPos(flushState.Snapshot()) < alignedPos + bufferPos
      requires Core() == world.writer.(buffer := Core().buffer)
      modifies this`world, flushState
      ensures Matches() && world == WithBuffer(Issue(old(world), data), Core().buffer)
    {
      flushState.OnStart(alignedPos + bufferPos);
      world := WithBuffer(Issue(world, data), Core().buffer);
    }

    /** `poll_flush`; true is `Poll::Ready`. */
    method PollFlush(caller: nat, junk: nat -> Byte) returns (ready: bool)
      requires Valid() && status.Open?
      modifies this, flushState, Buffers()
      ensures Valid() && world == StreamWriter.PollFlush(old(world), caller, junk)
      ensures ready <==> old(flushState.flushedPos == alignedPos + bufferPos)
    {
      ApplyKeepsInv(world, DoPollFlush(caller, junk));
      var previous := waker;
      if flushState.flushedPos == alignedPos + bufferPos {
        waker := None;
        world := world.(writer := world.writer.(waker := None), waiting := world.waiting - {caller});
        return true;
      }
      if previous.None? {
        var flushed := FlushPadded(junk);
      }
      waker := Some(caller);
      world := Wait(world, caller);
      ready := false;
    }

    method TakeHandles() returns (handles: set<nat>)
      requires Matches()
      modifies this`world, flushState
      ensures Matches() && world == TakeAll(old(world)) && handles == Handles(old(world.writer.flushes.entries))
    {
      world := TakeAll(world);
      handles := flushState.TakePendingHandles();
    }

    /** `flush_inner` up to where it waits for `handles`. */
    method FlushInner(partial: bool, junk: nat -> Byte) returns (target: nat, handles: set<nat>)
      requires Valid() && status.Open?
      modifies this, flushState, Buffers()
      ensures Valid() && (world, target) == FlushCall(old(world), partial, junk)
      ensures handles == Handles(Collecting(old(world), partial, junk).writer.flushes.entries)
      ensures target == if partial then CurrentPos(old(world.writer)) else old(alignedPos)
    {
      ghost var collecting, goal := FlushParts(world, partial, junk);
      target := PrepareFlush(partial, junk);
      handles := TakeHandles();
    }

    method PrepareFlush(partial: bool, junk: nat -> Byte) returns (target: nat)
      requires Valid() && status.Open?
      modifies this, flushState, Buffers()
      ensures Matches() && target == FlushCall(old(world), partial, junk).1
      ensures world == Collecting(old(world), partial, junk)
    {
      if partial && bufferPos > 0 {
        target := alignedPos + bufferPos;
        var flushed := FlushPadded(junk);
      } else {
        target := alignedPos;
      }
    }

    method CompleteAndWake(flushPos: nat, ghost goal: World)
      requires Matches()
      requires goal.writer == world.writer.(flushes := Completed(world.writer.flushes, flushPos),
                                            waker := if status.Open? then None else world.writer.waker)
      modifies this`waker, this`world, flushState
      ensures Matches() && world == goal
    {
      var flushed := flushState.OnComplete(flushPos);
      if status.Open? {
        waker := None;
      }
      world := goal;
    }

    /** What a spawned write does once it is in the file. */
    method OnWritten(ghost k: nat, flushPos: nat)
      requires Valid() && k < |world.issued| && world.issued[k].pos == flushPos && flushPos !in world.landed
      modifies this, flushState
      ensures Valid() && world == Land(old(world), k)
    {
      ghost var goal := Landed(world, k);
      CompleteAndWake(flushPos, goal);
    }

    /** `initiate_close`, called by a `poll_close` that found no caller waiting, up to where its task waits. */
    method InitiateClose(caller: nat, junk: nat -> Byte) returns (finalPos: nat, handles: set<nat>)
      requires Valid() && status.Open? && waker.None?
      modifies this, flushState, Buffers()
      ensures Valid() && world == CloseStart(old(world), caller, junk) && finalPos == CurrentPos(old(world.writer))
      ensures handles == world.awaited
    {
      ghost var collecting, goal := CloseParts(world, caller, junk);
      waker, status := Some(caller), Closing;
      world := BeginClose(world, caller);
      finalPos := alignedPos + bufferPos;
      var flushed := FlushPadded(junk);
      assert world == collecting;
      handles := TakeHandles();
      world := world.(awaited := handles);
    }
  }
}
