/**
 The stream reader of `io/dma_file_stream.rs`: buffers are read ahead and kept by block
 number; the caller sees the bytes of the file one after the other.
 */
module StreamReader {
  import opened Words
  import opened Options

  /**
   `DmaStreamReader` and `DmaStreamReaderState` over an unchanging `file`. `view` is the
   history of the positions passed since `start`: the byte delivered, or nothing when
   skipped. `waited` are the blocks a caller has been told to wait for.
   */
  datatype Reader = Reader(
    file: seq<Byte>, size: nat, readAhead: nat, start: nat, end: nat,
    currentPos: nat, aheadPos: nat, wakers: set<nat>, pending: set<nat>,
    buffers: map<nat, seq<Byte>>, cached: Option<(nat, seq<Byte>)>,
    view: seq<Option<Byte>>, waited: set<nat>)

  function BufferId(r: Reader, pos: nat): nat
    requires r.size > 0
  {
    Div(pos, r.size)
  }

  /** The bytes of a block, fewer at the end of the file. */
  function Block(file: seq<Byte>, size: nat, id: nat): seq<Byte> {
    file[Min(Times(id, size), |file|)..Min(Times(id, size) + size, |file|)]
  }

  /** `fill_buffer`: start reading the next block ahead. */
  function FillBuffer(r: Reader): Reader
    requires r.size > 0
  {
    var id := BufferId(r, r.aheadPos);
    if r.aheadPos > r.end || id in r.pending || id in r.buffers then r
    else r.(pending := r.pending + {id}, aheadPos := r.aheadPos + r.size)
  }

  function FillTimes(r: Reader, n: nat): Reader
    requires r.size > 0
    decreases n
  {
    if n == 0 then r else FillTimes(FillBuffer(r), n - 1)
  }

  /** `replenish_read_ahead` */
  function Replenish(r: Reader): Reader
    requires r.size > 0
  {
    FillTimes(r, SaturatingSub(r.readAhead, |r.buffers| + |r.pending|))
  }

  function New(file: seq<Byte>, size: nat, readAhead: nat, start: nat, end: nat): Reader
    requires size > 0
  {
    Replenish(Reader(file, size, readAhead, start, end, start, start - Rem(start, size), {}, {}, map[], None, [], {}))
  }

  /** A read that was started is in memory. */
  function Arrive(r: Reader, id: nat): Reader {
    r.(pending := r.pending - {id}, buffers := r.buffers[id := Block(r.file, r.size, id)], wakers := r.wakers - {id})
  }

  function Outside<V>(m: map<nat, V>, from: nat, to: nat): map<nat, V> {
    map k | k in m && !(from <= k < to) :: m[k]
  }

  /** Where `skip` of so many bytes ends. */
  function Target(r: Reader, bytes: nat): nat {
    Min(r.currentPos + bytes, r.end)
  }

  /** `skip` to `pos`, with what the caller makes of the positions passed. */
  function AdvanceTo(r: Reader, pos: nat, passed: seq<Option<Byte>>): Reader
    requires r.size > 0
  {
    if BufferId(r, r.currentPos) == BufferId(r, pos) then r.(currentPos := pos, view := r.view + passed)
    else Replenish(Moved(r, pos, passed))
  }

  /** `skip` past the end of a block, before it replenishes. */
  function Moved(r: Reader, pos: nat, passed: seq<Option<Byte>>): Reader
    requires r.size > 0
  {
    var from, to := BufferId(r, r.currentPos), BufferId(r, pos);
    r.(currentPos := pos, view := r.view + passed,
       aheadPos := Max(r.aheadPos, pos - Rem(pos, r.size)),
       buffers := Outside(r.buffers, from, to),
       pending := set id | id in r.pending && !(from <= id < to))
  }

  function Skipped(n: nat): seq<Option<Byte>> {
    seq(n, i => None)
  }

  function Skip(r: Reader, bytes: nat): Reader
    requires r.size > 0 && r.currentPos <= r.end
  {
    AdvanceTo(r, Target(r, bytes), Skipped(Target(r, bytes) - r.currentPos))
  }

  /** `get_cached_buffer`: the buffer, and the new contents of the one-entry cache. */
  function Cached(r: Reader, id: nat): Option<(nat, seq<Byte>)> {
    if r.cached.Some? && r.cached.value.0 == id then r.cached
    else if id in r.buffers then Some((id, r.buffers[id]))
    else r.cached
  }

  /** What `poll_get_buffer_aligned` asks of one block. */
  function Wanted(r: Reader, len: nat): nat
    requires r.size > 0 && r.currentPos <= r.end
  {
    Min(r.size - Rem(r.currentPos, r.size), Min(len, r.end - r.currentPos))
  }

  function Cut(buffer: seq<Byte>, offset: nat, len: nat): seq<Byte> {
    if |buffer| <= offset then [] else buffer[offset..offset + Min(len, |buffer| - offset)]
  }

  function Slice(r: Reader, buffer: seq<Byte>, len: nat): seq<Byte>
    requires r.size > 0
  {
    Cut(buffer, Rem(r.currentPos, r.size), len)
  }

  function Delivered(bytes: seq<Byte>): seq<Option<Byte>> {
    seq(|bytes|, i requires 0 <= i < |bytes| => Some(bytes[i]))
  }

  /** `poll_get_buffer_aligned`; `None` is `Poll::Pending`. */
  function Poll(r: Reader, len: nat): (Reader, Option<seq<Byte>>)
    requires r.size > 0 && r.currentPos <= r.end
  {
    var id := BufferId(r, r.currentPos);
    var cached := Cached(r, id);
    if Min(len, r.end - r.currentPos) == 0 then (r, Some([]))
    else if cached.Some? && cached.value.0 == id then
      var bytes := Slice(r, cached.value.1, Wanted(r, len));
      (AdvanceTo(r.(cached := cached), Target(r, |bytes|), Delivered(bytes)), Some(bytes))
    else if id in r.wakers then (r, None)
    else (FillBuffer(r.(wakers := r.wakers + {id}, waited := r.waited + {id})), None)
  }

  datatype Event = DoPoll(len: nat) | DoSkip(bytes: nat) | DoArrive(id: nat)

  predicate Enabled(r: Reader, e: Event) {
    e.DoArrive? ==> e.id in r.pending
  }

  function Apply(r: Reader, e: Event): Reader
    requires r.size > 0 && r.currentPos <= r.end
  {
    match e
    case DoPoll(len) => Poll(r, len).0
    case DoSkip(bytes) => Skip(r, bytes)
    case DoArrive(id) => Arrive(r, id)
  }

  // ------------------------------------------------------------------ invariants

  /** The block the caller is in. */
  function Here(r: Reader): nat
    requires r.size > 0
  {
    Div(r.currentPos, r.size)
  }

  /** The first block not asked for yet. */
  function Ahead(r: Reader): nat
    requires r.size > 0
  {
    Div(r.aheadPos, r.size)
  }

  /** Exactly the blocks from `here` up to `ahead` are in memory or on their way, and none is both. */
  ghost predicate HeldBlocks(pending: set<nat>, loaded: set<nat>, here: nat, ahead: nat) {
    && here <= ahead && pending !! loaded
    && (forall id :: id in pending + loaded <==> here <= id < ahead)
  }

  ghost predicate RightBytes(file: seq<Byte>, size: nat, buffers: map<nat, seq<Byte>>,
                             cached: Option<(nat, seq<Byte>)>) {
    && (forall id | id in buffers :: buffers[id] == Block(file, size, id))
    && (cached.Some? ==> cached.value.1 == Block(file, size, cached.value.0))
  }

  /** Whoever waits for a block from `here` on waits for one that is on its way; the others have come. */
  ghost predicate WaitersOk(here: nat, wakers: set<nat>, waited: set<nat>, pending: set<nat>, loaded: set<nat>) {
    && (forall id | id in wakers :: id >= here ==> id in pending)
    && (forall id | id in waited :: id >= here ==> id in wakers || id in loaded)
  }

  ghost predicate Seen(file: seq<Byte>, start: nat, view: seq<Option<Byte>>, i: nat)
    requires i < |view|
  {
    view[i].Some? ==> start + i < |file| && view[i].value == file[start + i]
  }

  /** Each position passed was delivered once, in order, with the byte of the file, or skipped. */
  ghost predicate Faithful(file: seq<Byte>, start: nat, pos: nat, view: seq<Option<Byte>>) {
    start <= pos && |view| == pos - start && forall i | 0 <= i < |view| :: Seen(file, start, view, i)
  }

  /** No more than `read_ahead` blocks, or one more while, or after, the caller waited for this one. */
  ghost predicate Modest(readAhead: nat, here: nat, ahead: nat, waited: set<nat>) {
    ahead - here <= readAhead + if here in waited then 1 else 0
  }

  /** Everything but the number of blocks. */
  ghost predicate Core(r: Reader) {
    && r.size > 0 && r.currentPos <= r.end && Rem(r.aheadPos, r.size) == 0
    && HeldBlocks(r.pending, r.buffers.Keys, Here(r), Ahead(r))
    && RightBytes(r.file, r.size, r.buffers, r.cached)
    && WaitersOk(Here(r), r.wakers, r.waited, r.pending, r.buffers.Keys)
    && Faithful(r.file, r.start, r.currentPos, r.view)
  }

  /** At least `read_ahead` blocks, or all there are. */
  ghost predicate Eager(r: Reader)
    requires r.size > 0
  {
    r.aheadPos > r.end || Ahead(r) - Here(r) >= r.readAhead
  }

  ghost predicate Inv(r: Reader) {
    Core(r) && Modest(r.readAhead, Here(r), Ahead(r), r.waited) && Eager(r)
  }

  // ------------------------------------------------------------------ arithmetic

  lemma {:induction false} IntervalCount(s: set<nat>, lo: nat, hi: nat)
    requires lo <= hi && forall id :: id in s <==> lo <= id < hi
    ensures |s| == hi - lo
    decreases hi
  {
    if lo < hi {
      IntervalCount(s - {hi - 1}, lo, hi - 1);
    } else {
      assert s == {};
    }
  }

  /** The blocks held are as many as there are block numbers between the two ends. */
  lemma HeldCount(pending: set<nat>, loaded: set<nat>, here: nat, ahead: nat)
    requires HeldBlocks(pending, loaded, here, ahead)
    ensures |loaded| + |pending| == ahead - here
  {
    IntervalCount(pending + loaded, here, ahead);
    assert pending * loaded == {};
  }

  // ------------------------------------------------------------- steps keep them

  lemma OneMoreHeld(pending: set<nat>, loaded: set<nat>, here: nat, ahead: nat)
    requires HeldBlocks(pending, loaded, here, ahead)
    ensures ahead !in pending && ahead !in loaded && HeldBlocks(pending + {ahead}, loaded, here, ahead + 1)
  {
    assert ahead !in pending + loaded;
  }

  lemma FillExact(r: Reader)
    requires Core(r)
    ensures FillBuffer(r) == if r.aheadPos > r.end then r
                             else r.(pending := r.pending + {Ahead(r)}, aheadPos := r.aheadPos + r.size)
    ensures Core(FillBuffer(r))
    ensures Ahead(FillBuffer(r)) == if r.aheadPos > r.end then Ahead(r) else Ahead(r) + 1
  {
    OneMoreHeld(r.pending, r.buffers.Keys, Here(r), Ahead(r));
  }

  /** `f` is `r` after `n` more blocks at most have been asked for. */
  ghost predicate FilledTo(r: Reader, f: Reader, n: nat)
    requires r.size > 0 && f.size > 0
  {
    && f == r.(pending := f.pending, aheadPos := f.aheadPos) && r.aheadPos <= f.aheadPos
    && Ahead(r) <= Ahead(f) <= Ahead(r) + n
  }

  lemma {:induction false} FillTimesKeeps(r: Reader, n: nat) returns (f: Reader)
    requires Core(r)
    ensures f == FillTimes(r, n) && Core(f) && FilledTo(r, f, n)
    ensures f.aheadPos > f.end || Ahead(f) == Ahead(r) + n
    decreases n
  {
    if n > 0 {
      FillExact(r);
      f := FillTimesKeeps(FillBuffer(r), n - 1);
    } else {
      f := r;
    }
  }

  lemma ReplenishKeeps(r: Reader) returns (f: Reader)
    requires Core(r)
    ensures f == Replenish(r) && Core(f) && FilledTo(r, f, SaturatingSub(r.readAhead, Ahead(r) - Here(r)))
    ensures Eager(f)
  {
    f := Replenish(r);
    var n := Missing(r);
    var f' := FillTimesKeeps(r, n);
    assert f == f';
  }

  lemma Missing(r: Reader) returns (n: nat)
    requires Core(r)
    ensures n == SaturatingSub(r.readAhead, |r.buffers| + |r.pending|) == SaturatingSub(r.readAhead, Ahead(r) - Here(r))
  {
    HeldCount(r.pending, r.buffers.Keys, Here(r), Ahead(r));
    n := SaturatingSub(r.readAhead, |r.buffers| + |r.pending|);
    assert |r.buffers| == |r.buffers.Keys|;
  }

  /** A new reader stands at its start, has passed nothing, and has asked for its first blocks. */
  lemma NewInv(file: seq<Byte>, size: nat, readAhead: nat, start: nat, end: nat)
    requires size > 0 && start <= end
    ensures Inv(New(file, size, readAhead, start, end))
    ensures var r := New(file, size, readAhead, start, end);
            && r.file == file && r.size == size && r.readAhead == readAhead && r.start == start && r.end == end
            && r.currentPos == start && r.view == []
  {
    var r := Reader(file, size, readAhead, start, end, start, start - Rem(start, size), {}, {}, map[], None, [], {});
    DivRem(start, size);
    DivTimes(Div(start, size), size, 0);
    var f := ReplenishKeeps(r);
  }

  lemma ArriveKeepsInv(r: Reader, id: nat)
    requires Inv(r) && id in r.pending
    ensures Inv(Arrive(r, id))
  {
    var a := Arrive(r, id);
    assert a.buffers.Keys == r.buffers.Keys + {id};
    assert r.pending + r.buffers.Keys == a.pending + a.buffers.Keys;
  }

  // ------------------------------------------------------------ moving forward

  /** Dropping the blocks before the new position leaves exactly those from there on. */
  lemma DropBefore(pending: set<nat>, loaded: set<nat>, here: nat, ahead: nat, here': nat)
    requires HeldBlocks(pending, loaded, here, ahead) && here <= here'
    ensures var p, l := set id | id in pending && !(here <= id < here'), set id | id in loaded && !(here <= id < here');
            HeldBlocks(p, l, here', Max(ahead, here'))
  {
    var p, l := set id | id in pending && !(here <= id < here'), set id | id in loaded && !(here <= id < here');
    forall id
      ensures id in p + l <==> here' <= id < Max(ahead, here')
    {
      assert id in p + l <==> id in pending + loaded && !(here <= id < here');
    }
  }

  lemma AheadAfterSkip(aheadPos: nat, pos: nat, size: nat)
    requires size > 0 && Rem(aheadPos, size) == 0
    ensures var a := Max(aheadPos, pos - Rem(pos, size));
            a >= 0 && Rem(a, size) == 0 && Div(a, size) == Max(Div(aheadPos, size), Div(pos, size))
  {
    DivRem(pos, size);
    DivTimes(Div(pos, size), size, 0);
    var c := pos - Rem(pos, size);
    if aheadPos <= c { DivMonotone(aheadPos, c, size); } else { DivMonotone(c, aheadPos, size); }
  }

  lemma ViewGrows(file: seq<Byte>, start: nat, pos: nat, view: seq<Option<Byte>>, passed: seq<Option<Byte>>)
    requires Faithful(file, start, pos, view)
    requires forall i | 0 <= i < |passed| :: Seen(file, pos, passed, i)
    ensures Faithful(file, start, pos + |passed|, view + passed)
  {
    forall i | 0 <= i < |view + passed|
      ensures Seen(file, start, view + passed, i)
    {
      assert if i < |view| then Seen(file, start, view, i) else Seen(file, pos, passed, i - |view|);
    }
  }

  lemma MovedKeeps(r: Reader, pos: nat, passed: seq<Option<Byte>>) returns (m: Reader)
    requires Core(r) && r.currentPos <= pos <= r.end && |passed| == pos - r.currentPos
    requires forall i | 0 <= i < |passed| :: Seen(r.file, r.currentPos, passed, i)
    ensures m == Moved(r, pos, passed) && Core(m)
    ensures m.currentPos == pos && m.readAhead == r.readAhead && m.size == r.size
    ensures Ahead(m) == Max(Ahead(r), Here(m))
  {
    m := Moved(r, pos, passed);
    DivMonotone(r.currentPos, pos, r.size);
    AheadAfterSkip(r.aheadPos, pos, r.size);
    DropBefore(r.pending, r.buffers.Keys, Here(r), Ahead(r), Here(m));
    assert m.buffers.Keys == set id | id in r.buffers.Keys && !(Here(r) <= id < Here(m));
    ViewGrows(r.file, r.start, r.currentPos, r.view, passed);
  }

  /** What never changes, and the history as extended. */
  ghost predicate Extends(r: Reader, r': Reader, passed: seq<Option<Byte>>) {
    && r'.file == r.file && r'.size == r.size && r'.readAhead == r.readAhead && r'.start == r.start && r'.end == r.end
    && r'.view == r.view + passed
  }

  lemma CrossingKeepsInv(r: Reader, pos: nat, passed: seq<Option<Byte>>) returns (f: Reader)
    requires Inv(r) && r.currentPos <= pos <= r.end && |passed| == pos - r.currentPos && Here(r) < Div(pos, r.size)
    requires forall i | 0 <= i < |passed| :: Seen(r.file, r.currentPos, passed, i)
    ensures f == Replenish(Moved(r, pos, passed)) && Inv(f) && f.currentPos == pos && Extends(r, f, passed)
    ensures f.cached == r.cached && f.wakers == r.wakers && f.waited == r.waited
  {
    var m := MovedKeeps(r, pos, passed);
    f := ReplenishKeeps(m);
  }

  lemma StayKeepsInv(r: Reader, pos: nat, passed: seq<Option<Byte>>) returns (f: Reader)
    requires Inv(r) && r.currentPos <= pos <= r.end && |passed| == pos - r.currentPos && Here(r) == Div(pos, r.size)
    requires forall i | 0 <= i < |passed| :: Seen(r.file, r.currentPos, passed, i)
    ensures f == r.(currentPos := pos, view := r.view + passed) && Inv(f)
  {
    f := r.(currentPos := pos, view := r.view + passed);
    ViewGrows(r.file, r.start, r.currentPos, r.view, passed);
  }

  lemma AdvanceToKeepsInv(r: Reader, pos: nat, passed: seq<Option<Byte>>) returns (a: Reader)
    requires Inv(r) && r.currentPos <= pos <= r.end && |passed| == pos - r.currentPos
    requires forall i | 0 <= i < |passed| :: Seen(r.file, r.currentPos, passed, i)
    ensures a == AdvanceTo(r, pos, passed) && Inv(a) && a.currentPos == pos && Extends(r, a, passed)
    ensures a.cached == r.cached && a.wakers == r.wakers && a.waited == r.waited
  {
    a := AdvanceTo(r, pos, passed);
    DivMonotone(r.currentPos, pos, r.size);
    if Here(r) == Div(pos, r.size) {
      var f := StayKeepsInv(r, pos, passed);
    } else {
      var f := CrossingKeepsInv(r, pos, passed);
    }
  }

  // -------------------------------------------------------------------- reading

  /** The `n` bytes of the file at `pos`. */
  function Stretch(file: seq<Byte>, pos: nat, n: nat): seq<Byte> {
    if pos + n <= |file| then file[pos..pos + n] else []
  }

  /** How much a read delivers: what was asked for, up to the end of the block, the range and the file. */
  function ReadLen(r: Reader, len: nat): nat
    requires r.size > 0 && r.currentPos <= r.end
  {
    Min(Min(len, r.size - Rem(r.currentPos, r.size)), Min(r.end - r.currentPos, SaturatingSub(|r.file|, r.currentPos)))
  }

  /** Cutting a block and then a piece of it is cutting the file once. */
  lemma CutTwice(file: seq<Byte>, s: nat, size: nat, offset: nat, wanted: nat)
    requires offset < size && wanted <= size - offset
    ensures Cut(file[Min(s, |file|)..Min(s + size, |file|)], offset, wanted)
            == Stretch(file, s + offset, Min(wanted, SaturatingSub(|file|, s + offset)))
  {
    if s + offset < |file| {
      SubSlice(file, s, Min(s + size, |file|), offset, offset + Min(wanted, |file| - (s + offset)));
    }
  }

  lemma SliceIsFile(r: Reader, len: nat)
    requires r.size > 0 && r.currentPos <= r.end
    ensures Slice(r, Block(r.file, r.size, Here(r)), Wanted(r, len)) == Stretch(r.file, r.currentPos, ReadLen(r, len))
    ensures |Stretch(r.file, r.currentPos, ReadLen(r, len))| == ReadLen(r, len)
  {
    DivRem(r.currentPos, r.size);
    CutTwice(r.file, Times(Here(r), r.size), r.size, Rem(r.currentPos, r.size), Wanted(r, len));
  }

  lemma DeliveredIsSeen(file: seq<Byte>, pos: nat, n: nat)
    ensures forall i | 0 <= i < |Stretch(file, pos, n)| :: Seen(file, pos, Delivered(Stretch(file, pos, n)), i)
  {
  }

  /** A caller told to wait waits for the block it needs, and that block is on its way. */
  lemma WaitKeepsInv(r: Reader) returns (w: Reader)
    requires Inv(r) && r.currentPos < r.end && Here(r) !in r.wakers && Here(r) !in r.buffers
    ensures w == FillBuffer(r.(wakers := r.wakers + {Here(r)}, waited := r.waited + {Here(r)}))
    ensures Inv(w) && Here(r) in w.pending && Here(r) in w.wakers && w.currentPos == r.currentPos
    ensures Extends(r, w, [])
  {
    var here, f := Here(r), FillBuffer(r);
    FillExact(r);
    DivRem(r.currentPos, r.size);
    DivRem(r.aheadPos, r.size);
    assert here < Ahead(r) ==> here in r.pending + r.buffers.Keys;
    assert here in f.pending;
    w := f.(wakers := r.wakers + {here}, waited := r.waited + {here});
    WaitCommutes(r, r.wakers + {here}, r.waited + {here});
  }

  lemma WaitCommutes(r: Reader, wakers: set<nat>, waited: set<nat>)
    requires r.size > 0
    ensures FillBuffer(r.(wakers := wakers, waited := waited)) == FillBuffer(r).(wakers := wakers, waited := waited)
  {
  }

  /** The current block is at hand. */
  ghost predicate AtHand(r: Reader)
    requires r.size > 0
  {
    Here(r) in r.buffers || (r.cached.Some? && r.cached.value.0 == Here(r))
  }

  lemma ServeKeepsInv(r: Reader, len: nat) returns (a: Reader)
    requires Inv(r) && AtHand(r) && Min(len, r.end - r.currentPos) > 0
    ensures Poll(r, len) == (a, Some(Stretch(r.file, r.currentPos, ReadLen(r, len))))
    ensures Inv(a) && a.currentPos == r.currentPos + ReadLen(r, len)
    ensures Extends(r, a, Delivered(Stretch(r.file, r.currentPos, ReadLen(r, len))))
  {
    var cached := Cached(r, Here(r));
    var r0 := r.(cached := cached);
    var bytes := Stretch(r.file, r.currentPos, ReadLen(r, len));
    SliceIsFile(r, len);
    DeliveredIsSeen(r.file, r.currentPos, ReadLen(r, len));
    a := AdvanceToKeepsInv(r0, Target(r, |bytes|), Delivered(bytes));
  }

  /** A read returns the next bytes of the file, or waits for them. */
  lemma PollExact(r: Reader, len: nat) returns (p: Reader, res: Option<seq<Byte>>)
    requires Inv(r)
    ensures (p, res) == Poll(r, len) && Inv(p)
    ensures Extends(r, p, if res.Some? then Delivered(res.value) else [])
    ensures res.Some? <==> Min(len, r.end - r.currentPos) == 0 || AtHand(r)
    ensures res.Some? ==> res.value == Stretch(r.file, r.currentPos, ReadLen(r, len))
                          && p.currentPos == r.currentPos + ReadLen(r, len)
    ensures res.None? ==>
              p.currentPos == r.currentPos && p.size == r.size && Here(r) in p.pending && Here(r) in p.wakers
  {
    if Min(len, r.end - r.currentPos) == 0 {
      p, res := r, Some([]);
      assert Delivered([]) == [];
    } else if AtHand(r) {
      p := ServeKeepsInv(r, len);
      res := Some(Stretch(r.file, r.currentPos, ReadLen(r, len)));
    } else if Here(r) in r.wakers {
      p, res := r, None;
    } else {
      p := WaitKeepsInv(r);
      res := None;
    }
  }

  /** A skip passes so many positions, or all that are left, and delivers none of them. */
  lemma SkipExact(r: Reader, bytes: nat)
    requires Inv(r)
    ensures var k := Skip(r, bytes);
            && Inv(k)
            && k.currentPos == (if r.currentPos + bytes <= r.end then r.currentPos + bytes else r.end)
            && Extends(r, k, seq(k.currentPos - r.currentPos, i => None))
            && k.cached == r.cached && k.wakers == r.wakers && k.waited == r.waited
  {
    var a := AdvanceToKeepsInv(r, Target(r, bytes), Skipped(Target(r, bytes) - r.currentPos));
  }

  lemma ApplyKeepsInv(r: Reader, e: Event)
    requires Inv(r) && Enabled(r, e)
    ensures Inv(Apply(r, e))
  {
    match e
    case DoPoll(len) => var p, res := PollExact(r, len);
    case DoSkip(bytes) => SkipExact(r, bytes);
    case DoArrive(id) => ArriveKeepsInv(r, id);
  }

  // ----------------------------------------------------------------- whole runs

  ghost predicate IsRun(r: Reader, events: seq<Event>)
    requires Inv(r)
    decreases |events|
  {
    events == [] || (Enabled(r, events[0]) && (ApplyKeepsInv(r, events[0]); IsRun(Apply(r, events[0]), events[1..])))
  }

  ghost function After(r: Reader, events: seq<Event>): Reader
    requires Inv(r) && IsRun(r, events)
    decreases |events|
  {
    if events == [] then r else ApplyKeepsInv(r, events[0]); After(Apply(r, events[0]), events[1..])
  }

  lemma {:induction false} RunKeepsInv(r: Reader, events: seq<Event>)
    requires Inv(r) && IsRun(r, events)
    ensures Inv(After(r, events))
    decreases |events|
  {
    if events != [] {
      ApplyKeepsInv(r, events[0]);
      RunKeepsInv(Apply(r, events[0]), events[1..]);
    }
  }

  /** On every run: at most one block more than `read_ahead` is in memory or on its way, and no fewer before the end. */
  lemma MemoryBound(r: Reader)
    requires Inv(r)
    ensures |r.buffers| + |r.pending| <= r.readAhead + 1
    ensures r.readAhead <= |r.buffers| + |r.pending| || r.aheadPos > r.end
  {
    var n := Missing(r);
    HeldCount(r.pending, r.buffers.Keys, Here(r), Ahead(r));
    assert |r.buffers| == |r.buffers.Keys|;
  }

  /** What a call tells the caller of the positions it passes: the bytes of a read, nothing for those of a skip. */
  ghost function Told(r: Reader, e: Event): seq<Option<Byte>>
    requires r.size > 0 && r.currentPos <= r.end
  {
    match e
    case DoPoll(len) => if Poll(r, len).1.Some? then Delivered(Poll(r, len).1.value) else []
    case DoSkip(bytes) => Skipped(Min(bytes, r.end - r.currentPos))
    case DoArrive(_) => []
  }

  ghost function ToldAll(r: Reader, events: seq<Event>): seq<Option<Byte>>
    requires Inv(r) && IsRun(r, events)
    decreases |events|
  {
    if events == [] then []
    else ApplyKeepsInv(r, events[0]); Told(r, events[0]) + ToldAll(Apply(r, events[0]), events[1..])
  }

  lemma StepTells(r: Reader, e: Event)
    requires Inv(r) && Enabled(r, e)
    ensures var a := Apply(r, e);
            && Inv(a) && a.currentPos == r.currentPos + |Told(r, e)| && a.view == r.view + Told(r, e)
            && a.file == r.file && a.start == r.start && a.end == r.end
  {
    match e
    case DoPoll(len) =>
      var p, res := PollExact(r, len);
      SliceIsFile(r, len);
    case DoSkip(bytes) => SkipExact(r, bytes);
    case DoArrive(id) => ArriveKeepsInv(r, id);
  }

  lemma Regroup(a: seq<Option<Byte>>, b: seq<Option<Byte>>, c: seq<Option<Byte>>)
    ensures a + b + c == a + (b + c)
  {
  }

  lemma {:induction false} RunTells(r: Reader, events: seq<Event>)
    requires Inv(r) && IsRun(r, events)
    ensures var a := After(r, events);
            && Inv(a) && a.currentPos == r.currentPos + |ToldAll(r, events)| && a.view == r.view + ToldAll(r, events)
            && a.file == r.file && a.start == r.start && a.end == r.end
    decreases |events|
  {
    if events != [] {
      StepTells(r, events[0]);
      RunTells(Apply(r, events[0]), events[1..]);
      Regroup(r.view, Told(r, events[0]), ToldAll(Apply(r, events[0]), events[1..]));
    }
  }

  /**
   On every run, whatever order blocks arrive in, the calls determine the position, and what
   they told together covers every position from the start to there once, in order: those
   passed by a read with the byte of the file, and those passed by a skip with nothing.
   */
  lemma {:induction false} ScanExact(file: seq<Byte>, size: nat, readAhead: nat, start: nat, end: nat,
                                     events: seq<Event>, i: nat)
    requires size > 0 && start <= end && Inv(New(file, size, readAhead, start, end))
    requires IsRun(New(file, size, readAhead, start, end), events)
    ensures var told, a := ToldAll(New(file, size, readAhead, start, end), events),
                           After(New(file, size, readAhead, start, end), events);
            && a.currentPos == start + |told| <= end
            && (i < |told| && told[i].Some? ==> start + i < |file| && told[i].value == file[start + i])
  {
    var r := New(file, size, readAhead, start, end);
    NewInv(file, size, readAhead, start, end);
    RunTells(r, events);
    var a, told := After(r, events), ToldAll(r, events);
    if i < |told| {
      assert Seen(file, start, a.view, i);
    }
  }

  /** Nothing was skipped. */
  ghost predicate Complete(view: seq<Option<Byte>>) {
    forall i | 0 <= i < |view| :: view[i].Some?
  }

  predicate Skipless(events: seq<Event>) {
    forall i | 0 <= i < |events| :: !events[i].DoSkip?
  }

  lemma StepComplete(r: Reader, e: Event)
    requires Inv(r) && Enabled(r, e) && !e.DoSkip? && Complete(r.view)
    ensures var a := Apply(r, e); Complete(a.view) && a.file == r.file && a.start == r.start && a.end == r.end
  {
    if e.DoPoll? {
      var p, res := PollExact(r, e.len);
    }
  }

  lemma {:induction false} RunComplete(r: Reader, events: seq<Event>)
    requires Inv(r) && IsRun(r, events) && Skipless(events) && Complete(r.view)
    ensures var a := After(r, events); Complete(a.view) && a.file == r.file && a.start == r.start && a.end == r.end
    decreases |events|
  {
    if events != [] {
      ApplyKeepsInv(r, events[0]);
      StepComplete(r, events[0]);
      RunComplete(Apply(r, events[0]), events[1..]);
    }
  }

  lemma CompleteIsFile(file: seq<Byte>, start: nat, pos: nat, view: seq<Option<Byte>>)
    requires Faithful(file, start, pos, view) && Complete(view)
    ensures view == Delivered(Stretch(file, start, pos - start)) && (pos == start || pos <= |file|)
  {
    if view != [] {
      assert Seen(file, start, view, |view| - 1);
      forall i | 0 <= i < |view|
        ensures view[i] == Delivered(Stretch(file, start, pos - start))[i]
      {
        assert Seen(file, start, view, i);
      }
    }
  }

  /**
   Without skips, on every run and whatever order blocks arrive in, the reads together have
   delivered exactly the bytes of the file from the start to the current position.
   */
  lemma LinearScan(r: Reader, events: seq<Event>) returns (a: Reader)
    requires r.size > 0 && r.start <= r.end && r == New(r.file, r.size, r.readAhead, r.start, r.end)
    requires Inv(r) && IsRun(r, events) && Skipless(events)
    ensures a == After(r, events) && r.start <= a.currentPos <= r.end
    ensures a.view == Delivered(Stretch(r.file, r.start, a.currentPos - r.start))
    ensures a.currentPos == r.start || a.currentPos <= |r.file|
  {
    NewInv(r.file, r.size, r.readAhead, r.start, r.end);
    a := ScanFrom(r, events);
  }

  lemma ScanFrom(r: Reader, events: seq<Event>) returns (a: Reader)
    requires Inv(r) && r.view == [] && IsRun(r, events) && Skipless(events)
    ensures a == After(r, events) && r.start <= a.currentPos <= r.end
    ensures a.view == Delivered(Stretch(r.file, r.start, a.currentPos - r.start))
    ensures a.currentPos == r.start || a.currentPos <= |r.file|
  {
    RunComplete(r, events);
    RunKeepsInv(r, events);
    a := After(r, events);
    CompleteIsFile(a.file, a.start, a.currentPos, a.view);
  }

  /** A served read comes back empty exactly when nothing was asked for or nothing is left. */
  lemma EofExact(r: Reader, len: nat)
    requires Inv(r) && Poll(r, len).1.Some?
    ensures Poll(r, len).1.value == [] <==> len == 0 || r.currentPos == r.end || r.currentPos >= |r.file|
  {
    var p, res := PollExact(r, len);
    SliceIsFile(r, len);
    DivRem(r.currentPos, r.size);
  }
}
