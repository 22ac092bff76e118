/** `DmaStreamReader` as an object, proved against the steps of module StreamReader. */
module StreamReaderState {
  import opened Words
  import opened Options
  import opened StreamReader

  lemma PollKeepsInv(r: Reader, len: nat)
    requires r.size > 0 && r.currentPos <= r.end
    ensures Inv(r) ==> Inv(Poll(r, len).0)
  {
    if Inv(r) {
      var p, res := PollExact(r, len);
    }
  }

  lemma SkipKeeps(r: Reader, bytes: nat)
    requires r.size > 0 && r.currentPos <= r.end
    ensures Inv(r) ==> Inv(Skip(r, bytes)) && Skip(r, bytes).currentPos == Min(r.currentPos + bytes, r.end)
    ensures Inv(r) ==> Extends(r, Skip(r, bytes), Skipped(Min(r.currentPos + bytes, r.end) - r.currentPos))
  {
    if Inv(r) {
      SkipExact(r, bytes);
    }
  }

  /** What a poll that asks for something leads to. */
  lemma PollParts(r: Reader, len: nat) returns (hit: bool, goal: Reader)
    requires r.size > 0 && r.currentPos <= r.end && Min(len, r.end - r.currentPos) > 0
    ensures var id := Div(r.currentPos, r.size);
            var cached := Cached(r, id);
            && (hit <==> cached.Some? && cached.value.0 == id) && goal == Poll(r, len).0
            && (if hit then
                  var bytes := Slice(r, cached.value.1, Wanted(r, len));
                  && Poll(r, len).1 == Some(bytes)
                  && goal == AdvanceTo(r.(cached := cached), Target(r, |bytes|), Delivered(bytes))
                else
                  && Poll(r, len).1 == None
                  && goal == if id in r.wakers then r
                             else FillBuffer(r.(wakers := r.wakers + {id}, waited := r.waited + {id})))
  {
    var id := Div(r.currentPos, r.size);
    var cached := Cached(r, id);
    hit, goal := cached.Some? && cached.value.0 == id, Poll(r, len).0;
  }

  class ReaderState {
    const size: nat
    const readAhead: nat
    const maxPos: nat
    var currentPos: nat
    var aheadPos: nat
    var wakers: set<nat>
    var pending: set<nat>
    var buffers: map<nat, seq<Byte>>
    var cached: Option<(nat, seq<Byte>)>
    /** The file and the history. */
    ghost const file: seq<Byte>
    ghost const start: nat
    ghost var view: seq<Option<Byte>>
    ghost var waited: set<nat>

    ghost function Snapshot(): Reader
      reads this
    {
      Reader(file, size, readAhead, start, maxPos, currentPos, aheadPos, wakers, pending, buffers, cached, view, waited)
    }

    ghost predicate Valid()
      reads this
    {
      Inv(Snapshot())
    }

    constructor (size: nat, readAhead: nat, start: nat, end: nat, ghost file: seq<Byte>)
      requires size > 0 && start <= end
      ensures Valid() && Snapshot() == New(file, size, readAhead, start, end)
    {
      this.size, this.readAhead, this.start, maxPos, this.file := size, readAhead, start, end, file;
      currentPos, aheadPos := start, start - Rem(start, size);
      wakers, pending, buffers, cached, view, waited := {}, {}, map[], None, [], {};
      new;
      NewInv(file, size, readAhead, start, end);
      ReplenishReadAhead();
    }

    /** `fill_buffer` */
    method FillBuffer()
      requires size > 0
      modifies this`pending, this`aheadPos
      ensures Snapshot() == StreamReader.FillBuffer(old(Snapshot()))
    {
      var pos := aheadPos;
      var id := Div(pos, size);
      if pos > maxPos {
        return;
      }
      if id in pending || id in buffers {
        return;
      }
      pending := pending + {id};
      aheadPos := aheadPos + size;
    }

    /** `replenish_read_ahead`: the number of turns is fixed before the first. */
    method ReplenishReadAhead()
      requires size > 0
      modifies this`pending, this`aheadPos
      ensures Snapshot() == Replenish(old(Snapshot()))
    {
      var turns := SaturatingSub(readAhead, |buffers| + |pending|);
      var i := 0;
      while i < turns
        invariant 0 <= i <= turns
        invariant FillTimes(Snapshot(), turns - i) == FillTimes(old(Snapshot()), turns)
      {
        FillBuffer();
        i := i + 1;
      }
    }

    /** The loop of `skip`: `discard_buffer` for every block left behind. */
    method DiscardBuffers(lo: nat, hi: nat)
      requires lo <= hi
      modifies this`pending, this`buffers
      ensures buffers == Outside(old(buffers), lo, hi)
      ensures pending == set id | id in old(pending) && !(lo <= id < hi)
    {
      var id := lo;
      while id < hi
        invariant lo <= id <= hi
        invariant buffers == Outside(old(buffers), lo, id)
        invariant pending == set k | k in old(pending) && !(lo <= k < id)
      {
        buffers := buffers - {id};
        pending := pending - {id};
        id := id + 1;
      }
    }

    /** `skip` to `pos`, with what the caller makes of the positions passed. */
    method AdvanceTo(pos: nat, ghost passed: seq<Option<Byte>>)
      requires size > 0 && currentPos <= pos
      modifies this
      ensures Snapshot() == StreamReader.AdvanceTo(old(Snapshot()), pos, passed)
    {
      ghost var before := Snapshot();
      var id := Div(currentPos, size);
      currentPos := pos;
      view := view + passed;
      var newId := Div(currentPos, size);
      if id != newId {
        DivMonotone(before.currentPos, currentPos, size);
        DivRem(currentPos, size);
        aheadPos := Max(aheadPos, currentPos - Rem(currentPos, size));
        DiscardBuffers(id, newId);
        assert Snapshot() == Moved(before, currentPos, passed);
        ReplenishReadAhead();
      }
    }

    method Skip(bytes: nat)
      requires size > 0 && currentPos <= maxPos
      modifies this
      ensures Snapshot() == StreamReader.Skip(old(Snapshot()), bytes)
      ensures old(Valid()) ==> Valid() && currentPos == Min(old(currentPos) + bytes, maxPos)
      ensures old(Valid()) ==> view == old(view) + Skipped(currentPos - old(currentPos))
    {
      ghost var before := Snapshot();
      SkipKeeps(before, bytes);
      var pos := Min(currentPos + bytes, maxPos);
      assert pos == Target(before, bytes);
      AdvanceTo(pos, Skipped(pos - currentPos));
    }

    /** `get_cached_buffer` */
    method GetCachedBuffer(id: nat) returns (buffer: Option<seq<Byte>>)
      modifies this`cached
      ensures cached == Cached(old(Snapshot()), id)
      ensures buffer == if cached.Some? && cached.value.0 == id then Some(cached.value.1) else None
    {
      if cached.None? || cached.value.0 != id {
        if id in buffers {
          cached := Some((id, buffers[id]));
        }
      }
      buffer := if cached.Some? && cached.value.0 == id then Some(cached.value.1) else None;
    }

    /** `poll_get_buffer` */
    method PollGetBuffer(len: nat, id: nat) returns (r: Option<seq<Byte>>)
      requires size > 0 && id == Div(currentPos, size)
      modifies this
      ensures var before, cached' := old(Snapshot()), Cached(old(Snapshot()), id);
              if cached'.Some? && cached'.value.0 == id then
                Snapshot() == before.(cached := cached') && r == Some(Slice(before, cached'.value.1, len))
              else
                && r == None
                && Snapshot() == if id in before.wakers then before
                                 else StreamReader.FillBuffer(before.(wakers := before.wakers + {id},
                                                                      waited := before.waited + {id}))
    {
      var found := GetCachedBuffer(id);
      if found.None? {
        if id !in wakers {
          wakers := wakers + {id};
          waited := waited + {id};
          FillBuffer();
        }
        return None;
      }
      var offset := Rem(currentPos, size);
      if |found.value| <= offset {
        r := Some([]);
      } else {
        r := Some(found.value[offset..offset + Min(len, |found.value| - offset)]);
      }
    }

    /** `poll_get_buffer_aligned`; `None` is `Poll::Pending`. */
    method PollGetBufferAligned(len: nat) returns (r: Option<seq<Byte>>)
      requires size > 0 && currentPos <= maxPos
      modifies this
      ensures (Snapshot(), r) == Poll(old(Snapshot()), len)
      ensures old(Valid()) ==> Valid()
    {
      PollKeepsInv(Snapshot(), len);
      r := ServeOrWait(len);
    }

    method ServeOrWait(len: nat) returns (r: Option<seq<Byte>>)
      requires size > 0 && currentPos <= maxPos
      modifies this
      ensures (Snapshot(), r) == Poll(old(Snapshot()), len)
    {
      var left := Min(len, maxPos - currentPos);
      if left == 0 {
        return Some([]);
      }
      ghost var before := Snapshot();
      ghost var asked := Wanted(before, len);
      ghost var hit, goal := PollParts(before, len);
      var wanted := Min(size - Rem(currentPos, size), left);
      assert wanted == asked;
      r := PollGetBuffer(wanted, Div(currentPos, size));
      assert r.Some? <==> hit;
      if r.Some? {
        assert Target(Snapshot(), |r.value|) == Target(before, |r.value|);
        Deliver(r.value);
      }
      assert Snapshot() == goal;
    }

    method Deliver(bytes: seq<Byte>)
      requires size > 0 && currentPos <= maxPos
      modifies this
      ensures Snapshot() == StreamReader.AdvanceTo(old(Snapshot()), Target(old(Snapshot()), |bytes|), Delivered(bytes))
    {
      ghost var target := Target(Snapshot(), |bytes|);
      var pos := Min(currentPos + |bytes|, maxPos);
      assert pos == target;
      AdvanceTo(pos, Delivered(bytes));
    }

    /** What a spawned read does once the block is in memory. */
    method OnArrival(id: nat, buffer: seq<Byte>)
      requires Valid() && id in pending && buffer == Block(file, size, id)
      modifies this
      ensures Valid() && Snapshot() == Arrive(old(Snapshot()), id)
    {
      ArriveKeepsInv(Snapshot(), id);
      buffers := buffers[id := buffer];
      pending := pending - {id};
      wakers := wakers - {id};
    }
  }
}
