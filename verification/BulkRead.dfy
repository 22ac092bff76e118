/**
 Many reads at once, `io/bulk_io.rs` and `read_many` of `io/dma_file.rs`: coalesced reads are
 kept in flight up to a limit and handed back in order, and every request gets its bytes.
 */
module BulkRead {
  import opened Words
  import opened Options
  import opened CoalescedReads

  /**
   `OrderedBulkIo` over coalesced reads. A read in flight is its group: the requests it
   serves and the range read. The newest is at the front, the oldest at the back.
   */
  datatype Bulk = Bulk(inner: Coalescer, inflight: seq<Group>, memory: int, cap: nat, memoryCap: nat, terminated: bool)

  predicate IsFull(b: Bulk) {
    |b.inflight| == b.cap || b.memory > b.memoryCap
  }

  predicate Pollable(c: Coalescer) {
    (c.merger.Some? || c.script == []) && (c.align.Some? ==> c.align.value > 0)
  }

  /** `poll_inner` */
  function PollInner(b: Bulk): (r: Bulk)
    requires Pollable(b.inner)
    ensures Pollable(r.inner) && r.cap == b.cap && r.memoryCap == b.memoryCap
    ensures Shrinks(b.inner, r.inner) || (r.inner == b.inner.(last := None) && (b.inner.last.Some? || r.terminated))
  {
    var (c, r) := PollNext(b.inner);
    if r.Pending? then b.(inner := c)
    else if r.value.None? then b.(inner := c, terminated := true)
    else b.(inner := c, memory := b.memory + r.value.value.range.size, inflight := [r.value.value] + b.inflight)
  }

  /** The loop that fills the window. A pending stream is asked again and again. */
  function FillUp(b: Bulk): (r: Bulk)
    requires Pollable(b.inner)
    ensures Pollable(r.inner) && r.cap == b.cap && r.memoryCap == b.memoryCap && (IsFull(r) || r.terminated)
    decreases |b.inner.script|, b.inner.merger.Some?, b.inner.last.Some?, !b.terminated
  {
    if IsFull(b) || b.terminated then b else FillUp(PollInner(b))
  }

  /** `poll_buffer`: the oldest read, if its result is there, and then one more is started. */
  function PollBuffer(b: Bulk, ready: bool): (Bulk, Poll<Option<Group>>)
    requires Pollable(b.inner) && b.inflight != []
  {
    if !ready then (b, Pending)
    else
      var back := |b.inflight| - 1;
      var popped := b.(inflight := b.inflight[..back]);
      var refilled := if b.terminated then popped else PollInner(popped);
      (refilled.(memory := refilled.memory - b.inflight[back].range.size), Ready(Some(b.inflight[back])))
  }

  /** `poll_next` of `OrderedBulkIo`; `ready` says whether the oldest read in flight has its result. */
  function PollBulk(b: Bulk, ready: bool): (Bulk, Poll<Option<Group>>)
    requires Pollable(b.inner) && b.cap > 0 && (b.inflight == [] ==> b.memory <= b.memoryCap)
    requires FillUp(b).inflight == [] ==> FillUp(b).memory <= FillUp(b).memoryCap
  {
    if IsFull(b) || (b.terminated && b.inflight != []) then PollBuffer(b, ready)
    else
      var f := FillUp(b);
      if !f.terminated || f.inflight != [] then PollBuffer(f, ready) else (f, Ready(None))
  }

  // ------------------------------------------------------------------ invariants

  function TotalSize(inflight: seq<Group>): nat {
    if inflight == [] then 0 else inflight[0].range.size + TotalSize(inflight[1..])
  }

  /** The requests in flight, those of the oldest read first. */
  function Oldest(inflight: seq<Group>): seq<Io> {
    if inflight == [] then [] else Oldest(inflight[1..]) + inflight[0].ios
  }

  function Waiting(b: Bulk): seq<Io> {
    Oldest(b.inflight) + Content(b.inner)
  }

  /** `extra` is memory still on the books for a read that has just been handed back. */
  ghost predicate WindowOk(b: Bulk, l: Limits, extra: nat) {
    && Obeys(b.inner, l) && b.cap > 0 && b.memoryCap > 0 && |b.inflight| <= b.cap
    && b.memory == TotalSize(b.inflight) + extra
    && (forall i | 0 <= i < |b.inflight| :: Emittable(b.inflight[i], l))
    && (b.terminated ==> Content(b.inner) == [])
  }

  ghost predicate BulkOk(b: Bulk, l: Limits) {
    WindowOk(b, l, 0)
  }

  lemma {:induction false} PopBack(inflight: seq<Group>)
    requires inflight != []
    ensures var back := |inflight| - 1;
            && TotalSize(inflight) == TotalSize(inflight[..back]) + inflight[back].range.size
            && Oldest(inflight) == inflight[back].ios + Oldest(inflight[..back])
  {
    var back := |inflight| - 1;
    if back > 0 {
      PopBack(inflight[1..]);
      assert inflight[1..][..back - 1] == inflight[..back][1..];
      var rest := inflight[..back][1..];
      assert inflight[back].ios + Oldest(rest) + inflight[0].ios
          == inflight[back].ios + (Oldest(rest) + inflight[0].ios);
    }
  }

  /** A step of the window loses no request, changes no order and keeps the books. */
  ghost predicate Keeps(b: Bulk, n: Bulk, l: Limits, extra: nat) {
    WindowOk(n, l, extra) && Waiting(n) == Waiting(b) && n.cap == b.cap && n.memoryCap == b.memoryCap
  }

  lemma Regroup(a: seq<Io>, b: seq<Io>, c: seq<Io>)
    ensures a + b + c == a + (b + c)
  {
  }

  lemma StartRead(b: Bulk, c: Coalescer, g: Group, l: Limits, extra: nat)
    requires WindowOk(b, l, extra) && |b.inflight| < b.cap && !b.terminated
    requires Obeys(c, l) && Content(b.inner) == g.ios + Content(c) && Emittable(g, l)
    ensures Keeps(b, b.(inner := c, memory := b.memory + g.range.size, inflight := [g] + b.inflight), l, extra)
  {
    PushFront(g, b.inflight);
    Regroup(Oldest(b.inflight), g.ios, Content(c));
  }

  lemma StartNone(b: Bulk, c: Coalescer, l: Limits, extra: nat, ended: bool)
    requires WindowOk(b, l, extra) && !b.terminated
    requires Obeys(c, l) && Content(b.inner) == Content(c) && (ended ==> Content(c) == [])
    ensures Keeps(b, b.(inner := c, terminated := ended), l, extra)
  {
  }

  lemma PollInnerKeeps(b: Bulk, l: Limits, extra: nat) returns (n: Bulk)
    requires WindowOk(b, l, extra) && |b.inflight| < b.cap && !b.terminated
    ensures n == PollInner(b) && Keeps(b, n, l, extra)
    ensures n.inflight == b.inflight || (n.inflight != [] && n.inflight[1..] == b.inflight)
  {
    n := PollInner(b);
    var c, r := PollNextKeeps(b.inner, l);
    if r.Ready? && r.value.Some? {
      StartRead(b, c, r.value.value, l, extra);
    } else {
      StartNone(b, c, l, extra, r.Ready?);
    }
  }

  lemma {:induction false} PushFront(g: Group, inflight: seq<Group>)
    ensures TotalSize([g] + inflight) == TotalSize(inflight) + g.range.size
    ensures Oldest([g] + inflight) == Oldest(inflight) + g.ios
  {
    assert ([g] + inflight)[1..] == inflight;
  }

  /** The reads in flight are those of before, or all but the newest are within the memory limit. */
  predicate WithinMemory(b: Bulk, n: Bulk) {
    n.inflight == b.inflight || (n.inflight != [] && TotalSize(n.inflight[1..]) <= n.memoryCap)
  }

  lemma {:induction false} FillUpKeeps(b: Bulk, l: Limits) returns (n: Bulk)
    requires BulkOk(b, l)
    ensures n == FillUp(b) && Keeps(b, n, l, 0) && WithinMemory(b, n)
    decreases |b.inner.script|, b.inner.merger.Some?, b.inner.last.Some?, !b.terminated
  {
    if IsFull(b) || b.terminated {
      n := b;
    } else {
      var m := PollInnerKeeps(b, l, 0);
      n := FillUpKeeps(m, l);
    }
  }

  /** A full window is never empty, so `poll_buffer` always finds a read to look at. */
  lemma FullIsNotEmpty(b: Bulk, l: Limits)
    requires BulkOk(b, l)
    ensures IsFull(b) ==> b.inflight != []
    ensures b.inflight == [] ==> b.memory <= b.memoryCap
  {
  }

  /** What a poll promises: the oldest read and no other, or an end only when nothing is left. */
  ghost predicate PollOk(b: Bulk, n: Bulk, r: Poll<Option<Group>>, l: Limits) {
    && BulkOk(n, l) && Waiting(b) == Emitted(r) + Waiting(n)
    && (r.Ready? && r.value.Some? ==> Emittable(r.value.value, l))
    && (r == Ready(None) ==> Waiting(n) == [])
  }

  lemma PopKeeps(b: Bulk, l: Limits) returns (popped: Bulk, g: Group)
    requires BulkOk(b, l) && b.inflight != []
    ensures g == b.inflight[|b.inflight| - 1] && popped == b.(inflight := b.inflight[..|b.inflight| - 1])
    ensures WindowOk(popped, l, g.range.size) && |popped.inflight| < b.cap && Emittable(g, l)
    ensures Waiting(b) == g.ios + Waiting(popped)
  {
    var back := |b.inflight| - 1;
    g, popped := b.inflight[back], b.(inflight := b.inflight[..back]);
    PopBack(b.inflight);
    Regroup(g.ios, Oldest(popped.inflight), Content(b.inner));
  }

  lemma PollBufferKeeps(b: Bulk, ready: bool, l: Limits) returns (n: Bulk, r: Poll<Option<Group>>)
    requires BulkOk(b, l) && b.inflight != []
    ensures (n, r) == PollBuffer(b, ready) && PollOk(b, n, r, l) && (r.Pending? <==> !ready)
    ensures ready && !b.terminated && PollNext(b.inner).1.Ready? ==> |n.inflight| == |b.inflight| || n.terminated
    ensures |n.inflight| <= |b.inflight| && (!ready ==> n == b)
  {
    n, r := PollBuffer(b, ready).0, PollBuffer(b, ready).1;
    if ready {
      var popped, g := PopKeeps(b, l);
      if !b.terminated {
        var refilled := PollInnerKeeps(popped, l, g.range.size);
      }
    }
  }

  /** As many reads are in flight as may be, or all there are. */
  predicate Busy(b: Bulk) {
    |b.inflight| == b.cap || TotalSize(b.inflight) > b.memoryCap || Content(b.inner) == []
  }

  /**
   Bulk reads come back first in, first out, within the concurrency limit; with the oldest
   result there, a poll never waits, and when it waits, the window is used to the full. A
   window that is beyond the memory limit does not grow, and only the newest read of one that
   was filled up can take it there.
   */
  lemma PollBulkKeeps(b: Bulk, ready: bool, l: Limits) returns (n: Bulk, r: Poll<Option<Group>>)
    requires BulkOk(b, l)
    ensures FillUp(b).inflight == [] ==> FillUp(b).memory <= FillUp(b).memoryCap
    ensures (n, r) == PollBulk(b, ready) && PollOk(b, n, r, l) && (ready ==> r.Ready?)
    ensures r.Pending? ==> Busy(n) && n.inflight != [] && WithinMemory(b, n)
    ensures TotalSize(b.inflight) > b.memoryCap ==> |n.inflight| <= |b.inflight|
  {
    FullIsNotEmpty(b, l);
    var f := FillUpKeeps(b, l);
    FullIsNotEmpty(f, l);
    if IsFull(b) || (b.terminated && b.inflight != []) {
      n, r := PollBufferKeeps(b, ready, l);
    } else if !f.terminated || f.inflight != [] {
      n, r := PollBufferKeeps(f, ready, l);
    } else {
      n, r := f, Ready(None);
    }
  }

  // ------------------------------------------------------------------- the bytes

  /** The bytes of the file in a range, fewer at its end. */
  function Data(file: seq<Byte>, r: Range): seq<Byte> {
    file[Min(r.pos, |file|)..Min(EndOf(r), |file|)]
  }

  /** `bytes_in_range`: of the bytes a shared read returned, how many lie in the part asked for. */
  function BytesInRange(start: nat, len: nat, read: nat): nat {
    Min(SaturatingSub(read, start), len)
  }

  /** A read served from a larger one that was already under way returns the bytes it would have read itself. */
  lemma SharedRead(file: seq<Byte>, whole: Range, part: Range)
    requires whole.pos <= part.pos && EndOf(part) <= EndOf(whole)
    ensures var n := BytesInRange(part.pos - whole.pos, part.size, |Data(file, whole)|);
            && n == |Data(file, part)|
            && (n > 0 ==> Data(file, whole)[part.pos - whole.pos..part.pos - whole.pos + n] == Data(file, part))
  {
    var off := part.pos - whole.pos;
    var n := BytesInRange(off, part.size, |Data(file, whole)|);
    if n > 0 {
      assert Data(file, whole)[off..off + n] == file[part.pos..part.pos + n];
    }
  }

  /** The slice of a read that a request gets. */
  function Share(data: seq<Byte>, read: Range, io: Io): seq<Byte>
    requires read.pos <= io.pos
  {
    var offset := io.pos - read.pos;
    var len := Min(SaturatingSub(|data|, offset), io.size);
    if len == 0 then [] else data[offset..offset + len]
  }

  /** A request inside a read gets exactly its own bytes of the file. */
  lemma ShareIsExact(file: seq<Byte>, read: Range, io: Io)
    requires Inside(io, read)
    ensures Share(Data(file, read), read, io) == Data(file, Range(io.pos, io.size))
  {
    SharedRead(file, read, Range(io.pos, io.size));
  }

  // ------------------------------------------------------------------- read_many

  datatype Result = Result(io: Io, bytes: seq<Byte>)

  /** `ReadManyResult`: the window, and the read whose requests are being answered. */
  datatype ReadMany = ReadMany(bulk: Bulk, current: Option<Group>)

  ghost predicate ManyOk(m: ReadMany, l: Limits) {
    && BulkOk(m.bulk, l)
    && (m.current.Some? ==>
          forall i | 0 <= i < |m.current.value.ios| :: Inside(m.current.value.ios[i], m.current.value.range))
  }

  /** The requests not answered yet, in the caller's order. */
  function Unanswered(m: ReadMany): seq<Io> {
    (if m.current.None? then [] else m.current.value.ios) + Waiting(m.bulk)
  }

  /** Answer the next request of the current read. */
  function Answer(m: ReadMany, file: seq<Byte>): (ReadMany, Poll<Option<Result>>)
    requires m.current.Some? && m.current.value.ios != []
    requires m.current.value.range.pos <= m.current.value.ios[0].pos
  {
    var g := m.current.value;
    (m.(current := Some(g.(ios := g.ios[1..]))),
     Ready(Some(Result(g.ios[0], Share(Data(file, g.range), g.range, g.ios[0])))))
  }

  lemma AnswerExact(m: ReadMany, file: seq<Byte>, l: Limits) returns (n: ReadMany, res: Result)
    requires ManyOk(m, l) && m.current.Some? && m.current.value.ios != []
    ensures Answer(m, file) == (n, Ready(Some(res))) && ManyOk(n, l)
    ensures Unanswered(m) == [res.io] + Unanswered(n) && res.bytes == Data(file, Range(res.io.pos, res.io.size))
  {
    var g := m.current.value;
    n := m.(current := Some(g.(ios := g.ios[1..])));
    assert Inside(g.ios[0], g.range);
    res := Result(g.ios[0], Share(Data(file, g.range), g.range, g.ios[0]));
    ShareIsExact(file, g.range, g.ios[0]);
    assert g.ios == [g.ios[0]] + g.ios[1..];
    Regroup([g.ios[0]], g.ios[1..], Waiting(m.bulk));
  }

  /** `poll_next` of `ReadManyResult`. */
  ghost function PollMany(m: ReadMany, file: seq<Byte>, ready: bool, l: Limits): (ReadMany, Poll<Option<Result>>)
    requires ManyOk(m, l)
  {
    if m.current.Some? && m.current.value.ios != [] then
      assert Inside(m.current.value.ios[0], m.current.value.range);
      Answer(m, file)
    else
      BulkIsPollable(m.bulk, ready, l);
      var (b, r) := PollBulk(m.bulk, ready);
      if r.Pending? then (m.(bulk := b), Pending)
      else if r.value.None? then (m.(bulk := b), Ready(None))
      else
        FirstInside(r.value.value, l);
        Answer(ReadMany(b, Some(r.value.value)), file)
  }

  lemma FirstInside(g: Group, l: Limits)
    requires Emittable(g, l)
    ensures g.ios != [] && forall i | 0 <= i < |g.ios| :: Inside(g.ios[i], g.range)
  {
    forall i | 0 <= i < |g.ios|
      ensures Inside(g.ios[i], g.range)
    {
      PartsInside(g.ios, g.range, l, i);
    }
  }

  lemma {:induction false} BulkIsPollable(b: Bulk, ready: bool, l: Limits)
    requires BulkOk(b, l)
    ensures FillUp(b).inflight == [] ==> FillUp(b).memory <= FillUp(b).memoryCap
    ensures PollBulk(b, ready).1.Ready? && PollBulk(b, ready).1.value.Some? ==>
              Emittable(PollBulk(b, ready).1.value.value, l)
  {
    var n, r := PollBulkKeeps(b, ready, l);
  }

  /**
   Each poll answers the next unanswered request with exactly the bytes of the file it asked
   for, cut at the end of the file; it waits only for the oldest read; it ends only when
   every request has been answered.
   */
  lemma PollManyExact(m: ReadMany, file: seq<Byte>, ready: bool, l: Limits)
    returns (n: ReadMany, r: Poll<Option<Result>>)
    requires ManyOk(m, l)
    ensures (n, r) == PollMany(m, file, ready, l) && ManyOk(n, l) && (ready ==> r.Ready?)
    ensures r.Ready? && r.value.Some? ==>
              && Unanswered(m) == [r.value.value.io] + Unanswered(n)
              && r.value.value.bytes == Data(file, Range(r.value.value.io.pos, r.value.value.io.size))
    ensures r.Pending? ==> Unanswered(n) == Unanswered(m)
    ensures r == Ready(None) ==> Unanswered(m) == []
  {
    if m.current.Some? && m.current.value.ios != [] {
      var res;
      n, res := AnswerExact(m, file, l);
      r := Ready(Some(res));
    } else {
      var b, p := PollBulkKeeps(m.bulk, ready, l);
      if p.Ready? && p.value.Some? {
        FirstInside(p.value.value, l);
        var res;
        n, res := AnswerExact(ReadMany(b, p.value), file, l);
        r := Ready(Some(res));
      } else {
        n, r := m.(bulk := b), if p.Pending? then Pending else Ready(None);
      }
    }
  }

  // --------------------------------------------------------------- from end to end

  /** The answers of a run of polls; each flag says whether the oldest read had its result at that poll. */
  ghost function Answers(m: ReadMany, file: seq<Byte>, flags: seq<bool>, l: Limits): (seq<Result>, bool)
    requires ManyOk(m, l)
    decreases |flags|
  {
    if flags == [] then ([], false)
    else
      StillOk(m, file, flags[0], l);
      var (n, r) := PollMany(m, file, flags[0], l);
      if r == Ready(None) then ([], true)
      else
        var (rest, done) := Answers(n, file, flags[1..], l);
        ((if r.Ready? then [r.value.value] else []) + rest, done)
  }

  lemma StillOk(m: ReadMany, file: seq<Byte>, ready: bool, l: Limits)
    requires ManyOk(m, l)
    ensures ManyOk(PollMany(m, file, ready, l).0, l)
  {
    var n, r := PollManyExact(m, file, ready, l);
  }

  /** Each request, with the bytes it asked for. */
  function Expected(ios: seq<Io>, file: seq<Byte>): seq<Result> {
    if ios == [] then [] else [Result(ios[0], Data(file, Range(ios[0].pos, ios[0].size)))] + Expected(ios[1..], file)
  }

  /** The answers are a prefix of what is expected, and all of it once the stream has ended. */
  lemma {:induction false} AnswersExact(m: ReadMany, file: seq<Byte>, flags: seq<bool>, l: Limits)
    requires ManyOk(m, l)
    ensures Answers(m, file, flags, l).0 <= Expected(Unanswered(m), file)
    ensures Answers(m, file, flags, l).1 ==> Answers(m, file, flags, l).0 == Expected(Unanswered(m), file)
    decreases |flags|
  {
    if flags != [] {
      var n, r := PollManyExact(m, file, flags[0], l);
      if r != Ready(None) {
        AnswersExact(n, file, flags[1..], l);
        if r.Ready? {
          assert Unanswered(m)[1..] == Unanswered(n);
        }
      }
    }
  }

  /** How many of the polls found the oldest result there. */
  function ReadyPolls(flags: seq<bool>): nat {
    if flags == [] then 0 else ReadyPolls(flags[1..]) + if flags[0] then 1 else 0
  }

  /** More such polls than requests reach the end, whatever the other polls did. */
  lemma {:induction false} EndIsReached(m: ReadMany, file: seq<Byte>, flags: seq<bool>, l: Limits)
    requires ManyOk(m, l) && ReadyPolls(flags) > |Unanswered(m)|
    ensures Answers(m, file, flags, l).1
    decreases |flags|
  {
    var n, r := PollManyExact(m, file, flags[0], l);
    if r != Ready(None) {
      EndIsReached(n, file, flags[1..], l);
    }
  }

  function NewReadMany(l: Limits, concurrency: nat, memoryCap: nat, script: seq<Option<Io>>): ReadMany {
    ReadMany(Bulk(NewCoalescer(l.maxMerged, l.maxAmp, l.align, script), [], 0, concurrency, memoryCap, false), None)
  }

  /**
   From end to end: for every stream of requests, every pattern of pending polls and every order in
   which reads complete, `read_many` answers the requests in order, each once, with its own bytes,
   and it ends once more polls than there are requests have found the oldest result there.
   */
  lemma {:induction false} ReadManyExact(l: Limits, concurrency: nat, memoryCap: nat, script: seq<Option<Io>>,
                                         file: seq<Byte>, flags: seq<bool>)
    requires concurrency > 0 && memoryCap > 0 && (l.align.Some? ==> l.align.value > 0)
    ensures var m := NewReadMany(l, concurrency, memoryCap, script);
            && ManyOk(m, l) && Unanswered(m) == Items(script)
            && Answers(m, file, flags, l).0 <= Expected(Items(script), file)
            && (Answers(m, file, flags, l).1 ==> Answers(m, file, flags, l).0 == Expected(Items(script), file))
            && (ReadyPolls(flags) > |Items(script)| ==> Answers(m, file, flags, l).1)
  {
    var m := NewReadMany(l, concurrency, memoryCap, script);
    assert Unanswered(m) == Items(script);
    AnswersExact(m, file, flags, l);
    if ReadyPolls(flags) > |Items(script)| {
      EndIsReached(m, file, flags, l);
    }
  }
}
