/** `OrderedBulkIo` and `ReadManyResult` as objects, proved against module BulkRead. */
module BulkStream {
  import opened Words
  import opened Options
  import opened CoalescedReads
  import opened BulkRead
  import CoalescedStream

  class OrderedBulkIo {
    const inner: CoalescedStream.Stream
    const cap: nat
    const memoryCap: nat
    var inflight: seq<Group>
    var memory: int
    var terminated: bool

    ghost function Parts(): set<object>
      reads this, inner
    {
      {this, inner} + inner.Parts()
    }

    ghost function Snapshot(): Bulk
      reads Parts()
    {
      Bulk(inner.Snapshot(), inflight, memory, cap, memoryCap, terminated)
    }

    constructor (inner: CoalescedStream.Stream, cap: nat, memoryCap: nat)
      requires cap > 0 && memoryCap > 0
      ensures this.inner == inner && Snapshot() == Bulk(inner.Snapshot(), [], 0, cap, memoryCap, false)
    {
      this.inner, this.cap, this.memoryCap := inner, cap, memoryCap;
      inflight, memory, terminated := [], 0, false;
    }

    /** `poll_inner` */
    method PollInner()
      requires inner.Valid()
      modifies Parts()
      ensures inner.Valid() && Snapshot() == BulkRead.PollInner(old(Snapshot()))
      ensures inner.merger == null || inner.merger == old(inner.merger)
    {
      var r := inner.PollNext();
      if r.Ready? {
        if r.value.Some? {
          memory := memory + r.value.value.range.size;
          inflight := [r.value.value] + inflight;
        } else {
          terminated := true;
        }
      }
    }

    /** The loop that fills the window. */
    method FillUp()
      requires inner.Valid()
      modifies Parts()
      ensures inner.Valid() && Snapshot() == BulkRead.FillUp(old(Snapshot()))
      ensures inner.merger == null || inner.merger == old(inner.merger)
    {
      while |inflight| != cap && memory <= memoryCap && !terminated
        invariant inner.Valid() && (inner.merger == null || inner.merger == old(inner.merger))
        invariant BulkRead.FillUp(Snapshot()) == BulkRead.FillUp(old(Snapshot()))
        decreases |inner.script|, inner.merger != null, inner.last.Some?, !terminated
      {
        PollInner();
      }
    }

    /** `poll_buffer`; `ready` is whether the oldest read has its result. */
    method PollBuffer(ready: bool) returns (r: Poll<Option<Group>>)
      requires inner.Valid() && inflight != []
      modifies Parts()
      ensures inner.Valid() && (Snapshot(), r) == BulkRead.PollBuffer(old(Snapshot()), ready)
      ensures inner.merger == null || inner.merger == old(inner.merger)
    {
      if !ready {
        return Pending;
      }
      var back := |inflight| - 1;
      var ret := inflight[back];
      inflight := inflight[..back];
      if !terminated {
        PollInner();
      }
      memory := memory - ret.range.size;
      r := Ready(Some(ret));
    }

    /** `poll_next` */
    method PollNext(ready: bool, ghost l: Limits) returns (r: Poll<Option<Group>>)
      requires BulkOk(Snapshot(), l)
      modifies Parts()
      ensures BulkRead.FillUp(old(Snapshot())).inflight == [] ==> BulkRead.FillUp(old(Snapshot())).memory <= memoryCap
      ensures BulkOk(Snapshot(), l) && (Snapshot(), r) == PollBulk(old(Snapshot()), ready)
      ensures inner.merger == null || inner.merger == old(inner.merger)
    {
      ghost var before := Snapshot();
      ghost var n, p := PollBulkKeeps(before, ready, l);
      FullIsNotEmpty(before, l);
      if |inflight| == cap || memory > memoryCap || (terminated && inflight != []) {
        r := PollBuffer(ready);
      } else {
        FillUp();
        FilledIsNotEmpty(before, Snapshot(), l);
        if !terminated || inflight != [] {
          r := PollBuffer(ready);
        } else {
          r := Ready(None);
        }
      }
    }

    static lemma {:induction false} FilledIsNotEmpty(b: Bulk, f: Bulk, l: Limits)
      requires BulkOk(b, l) && f == BulkRead.FillUp(b)
      ensures f.inflight == [] ==> f.memory <= f.memoryCap && !IsFull(f) && f.terminated
    {
      var f' := FillUpKeeps(b, l);
      FullIsNotEmpty(f', l);
    }
  }

  class ReadManyResult {
    const inner: OrderedBulkIo
    var current: Option<Group>

    ghost function Parts(): set<object>
      reads this, inner, inner.inner
    {
      {this} + inner.Parts()
    }

    ghost function Snapshot(): ReadMany
      reads Parts()
    {
      ReadMany(inner.Snapshot(), current)
    }

    constructor (inner: OrderedBulkIo)
      ensures this.inner == inner && Snapshot() == ReadMany(inner.Snapshot(), None)
    {
      this.inner, current := inner, None;
    }

    /** Hands the next request of the current read its slice of the read. */
    method Serve(file: seq<Byte>) returns (r: Poll<Option<Result>>)
      requires current.Some? && current.value.ios != [] && current.value.range.pos <= current.value.ios[0].pos
      modifies this`current
      ensures (Snapshot(), r) == Answer(old(Snapshot()), file)
    {
      var g := current.value;
      current := Some(g.(ios := g.ios[1..]));
      r := Ready(Some(Result(g.ios[0], Share(Data(file, g.range), g.range, g.ios[0]))));
    }

    /** `poll_next`; `file` is what the reads find in the file, `ready` whether the oldest has its result. */
    method PollNext(file: seq<Byte>, ready: bool, ghost l: Limits) returns (r: Poll<Option<Result>>)
      requires ManyOk(Snapshot(), l)
      modifies Parts()
      ensures ManyOk(Snapshot(), l) && (Snapshot(), r) == PollMany(old(Snapshot()), file, ready, l)
    {
      StillOk(Snapshot(), file, ready, l);
      if current.Some? && current.value.ios != [] {
        assert Inside(current.value.ios[0], current.value.range);
        r := Serve(file);
      } else {
        r := PollFurther(file, ready, l);
      }
    }

    /** The part of `poll_next` that turns to the reads in flight. */
    method PollFurther(file: seq<Byte>, ready: bool, ghost l: Limits) returns (r: Poll<Option<Result>>)
      requires ManyOk(Snapshot(), l) && (current.Some? ==> current.value.ios == [])
      modifies Parts()
      ensures (Snapshot(), r) == PollMany(old(Snapshot()), file, ready, l)
    {
      BulkIsPollable(inner.Snapshot(), ready, l);
      var g := inner.PollNext(ready, l);
      if g.Pending? {
        r := Pending;
      } else if g.value.None? {
        r := Ready(None);
      } else {
        FirstInside(g.value.value, l);
        current := g.value;
        r := Serve(file);
      }
    }
  }
}
