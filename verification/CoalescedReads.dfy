/**
 Coalescing of read requests, `io/bulk_io.rs`: requests that lie close together are merged
 into one read, reads are aligned, and equal consecutive reads are made one.
 */
module CoalescedReads {
  import opened Words
  import opened Options

  /** A request of the caller; `tag` stands for whatever else the caller's value carries. */
  datatype Io = Io(pos: nat, size: nat, tag: nat)

  datatype Range = Range(pos: nat, size: nat)

  function EndOf(r: Range): nat {
    r.pos + r.size
  }

  /** `MergedIOVecs` */
  datatype Group = Group(ios: seq<Io>, range: Range)

  /** `IOVecMerger`; no `maxAmp` means no limit. */
  datatype Merger = Merger(maxMerged: nat, maxAmp: Option<nat>, current: Option<Range>, merged: seq<Io>)

  function Hull(cur: Range, io: Io): Range {
    var lo, hi := Min(cur.pos, io.pos), Max(EndOf(cur), io.pos + io.size);
    Range(lo, hi - lo)
  }

  /** Too much would be read between the two. */
  predicate TooFar(maxAmp: Option<nat>, cur: Range, io: Io) {
    maxAmp.Some? &&
    (SaturatingSub(cur.pos, io.pos + io.size) > maxAmp.value || SaturatingSub(io.pos, EndOf(cur)) > maxAmp.value)
  }

  /** `merge`: the request joins the group, or starts a new one and the finished group is handed out. */
  function Merge(m: Merger, io: Io): (Merger, Option<Group>) {
    if m.current.None? then
      (m.(current := Some(Range(io.pos, io.size)), merged := m.merged + [io]), None)
    else if TooFar(m.maxAmp, m.current.value, io) || Hull(m.current.value, io).size > m.maxMerged then
      (m.(current := Some(Range(io.pos, io.size)), merged := [io]), Some(Group(m.merged, m.current.value)))
    else
      (m.(current := Some(Hull(m.current.value, io)), merged := m.merged + [io]), None)
  }

  /** `flush` */
  function Flush(m: Merger): (Merger, Option<Group>) {
    if m.current.None? then (m, None)
    else (m.(current := None, merged := []), Some(Group(m.merged, m.current.value)))
  }

  // ------------------------------------------------------------------- groups

  predicate Inside(io: Io, r: Range) {
    r.pos <= io.pos && io.pos + io.size <= EndOf(r)
  }

  /** The request has a byte between `a` and `b`, or, when empty, lies strictly between them. */
  predicate Touches(io: Io, a: nat, b: nat) {
    io.pos < b && a < io.pos + io.size
  }

  ghost predicate SomeTouches(ios: seq<Io>, a: nat, b: nat) {
    exists i | 0 <= i < |ios| :: Touches(ios[i], a, b)
  }

  /** No stretch longer than the limit is read without being asked for. */
  ghost predicate NoWideGap(ios: seq<Io>, r: Range, amp: nat) {
    forall a: nat, b: nat | r.pos <= a && a + amp < b <= EndOf(r) :: SomeTouches(ios, a, b)
  }

  /** The range is the smallest that holds all the requests. */
  ghost predicate IsHull(ios: seq<Io>, r: Range) {
    && (forall i | 0 <= i < |ios| :: Inside(ios[i], r))
    && (exists i | 0 <= i < |ios| :: ios[i].pos == r.pos)
    && (exists i | 0 <= i < |ios| :: ios[i].pos + ios[i].size == EndOf(r))
  }

  /** What the limits promise of every group before it is aligned. */
  ghost predicate GroupOk(maxMerged: nat, maxAmp: Option<nat>, ios: seq<Io>, r: Range) {
    && IsHull(ios, r)
    && (|ios| > 1 ==> r.size <= maxMerged)
    && (maxAmp.Some? ==> NoWideGap(ios, r, maxAmp.value))
  }

  ghost predicate MergerOk(m: Merger) {
    if m.current.None? then m.merged == [] else GroupOk(m.maxMerged, m.maxAmp, m.merged, m.current.value)
  }

  lemma SingleGroup(maxMerged: nat, maxAmp: Option<nat>, io: Io)
    ensures GroupOk(maxMerged, maxAmp, [io], Range(io.pos, io.size))
  {
    var ios, r := [io], Range(io.pos, io.size);
    assert ios[0].pos == r.pos && ios[0].pos + ios[0].size == EndOf(r);
    forall a: nat, b: nat | maxAmp.Some? && r.pos <= a && a + maxAmp.value < b <= EndOf(r)
      ensures SomeTouches(ios, a, b)
    {
      assert Touches(ios[0], a, b);
    }
  }

  lemma HullGrows(ios: seq<Io>, r: Range, io: Io)
    requires IsHull(ios, r)
    ensures IsHull(ios + [io], Hull(r, io))
  {
    var more, h := ios + [io], Hull(r, io);
    var i :| 0 <= i < |ios| && ios[i].pos == r.pos;
    var j :| 0 <= j < |ios| && ios[j].pos + ios[j].size == EndOf(r);
    assert more[i] == ios[i] && more[j] == ios[j] && more[|ios|] == io;
    assert forall k | 0 <= k < |ios| :: more[k] == ios[k] && Inside(ios[k], r);
  }

  /** Joining a request that is not too far away leaves no wide gap. */
  lemma GapStaysNarrow(ios: seq<Io>, r: Range, io: Io, amp: nat)
    requires IsHull(ios, r) && NoWideGap(ios, r, amp) && !TooFar(Some(amp), r, io)
    ensures NoWideGap(ios + [io], Hull(r, io), amp)
  {
    var more, h := ios + [io], Hull(r, io);
    var i :| 0 <= i < |ios| && ios[i].pos == r.pos;
    var j :| 0 <= j < |ios| && ios[j].pos + ios[j].size == EndOf(r);
    assert Inside(ios[i], r) && Inside(ios[j], r);
    assert more[i] == ios[i] && more[j] == ios[j] && more[|ios|] == io;
    forall a: nat, b: nat | h.pos <= a && a + amp < b <= EndOf(h)
      ensures SomeTouches(more, a, b)
    {
      if r.pos <= a && b <= EndOf(r) {
        assert SomeTouches(ios, a, b);
        var k :| 0 <= k < |ios| && Touches(ios[k], a, b);
        assert Touches(more[k], a, b);
      } else if Touches(io, a, b) {
        assert Touches(more[|ios|], a, b);
      } else if a < r.pos {
        assert Touches(more[i], a, b);
      } else {
        assert Touches(more[j], a, b);
      }
    }
  }

  /** Every group handed out, and the one being built, keeps within the limits. */
  lemma MergeKeeps(m: Merger, io: Io)
    requires MergerOk(m)
    ensures var (m', g) := Merge(m, io);
            && MergerOk(m') && m'.current.Some?
            && (if g.Some? then GroupOk(m.maxMerged, m.maxAmp, g.value.ios, g.value.range)
                                && g.value.ios + m'.merged == m.merged + [io]
                else m'.merged == m.merged + [io])
  {
    SingleGroup(m.maxMerged, m.maxAmp, io);
    if m.current.Some? {
      HullGrows(m.merged, m.current.value, io);
      if m.maxAmp.Some? && !TooFar(m.maxAmp, m.current.value, io) {
        GapStaysNarrow(m.merged, m.current.value, io, m.maxAmp.value);
      }
    } else {
      assert m.merged + [io] == [io];
    }
  }

  /** Joining the request would leave too wide a gap, or make the read too large. */
  predicate Breaks(maxMerged: nat, maxAmp: Option<nat>, r: Range, io: Io) {
    || (maxAmp.Some? && (io.pos + io.size + maxAmp.value < r.pos || r.pos + r.size + maxAmp.value < io.pos))
    || Max(r.pos + r.size, io.pos + io.size) > Min(r.pos, io.pos) + maxMerged
  }

  /** A request joins the group whenever that breaks no limit, and otherwise starts a group of its own. */
  lemma MergeJoins(m: Merger, io: Io)
    requires MergerOk(m)
    ensures var (m', g) := Merge(m, io);
            && (g.Some? <==> m.current.Some? && Breaks(m.maxMerged, m.maxAmp, m.current.value, io))
            && m'.merged == (if g.Some? || m.current.None? then [io] else m.merged + [io])
            && (g.Some? ==> g.value.ios == m.merged && g.value.range == m.current.value)
  {
  }

  // ---------------------------------------------------------------- alignment

  function AlignDown(v: nat, align: nat): nat
    requires align > 0
  {
    RemAtMost(v, align);
    v - Rem(v, align)
  }

  function AlignUp(v: nat, align: nat): nat
    requires align > 0
  {
    AlignDown(v + align - 1, align)
  }

  lemma {:induction false} RemAtMost(v: nat, align: nat)
    requires align > 0
    ensures Rem(v, align) <= v
  {
    DivRem(v, align);
  }

  function AlignRange(r: Range, align: Option<nat>): Range
    requires align.Some? ==> align.value > 0
  {
    if align.None? then r
    else
      var pos := AlignDown(r.pos, align.value);
      RemAtMost(r.pos, align.value);
      Range(pos, AlignUp(r.size + (r.pos - pos), align.value))
  }

  lemma {:induction false} AlignedExactly(v: nat, align: nat)
    requires align > 0
    ensures AlignDown(v, align) <= v < AlignDown(v, align) + align && Rem(AlignDown(v, align), align) == 0
    ensures v <= AlignUp(v, align) < v + align && Rem(AlignUp(v, align), align) == 0
  {
    DivRem(v, align);
    DivTimes(Div(v, align), align, 0);
    var u := v + align - 1;
    DivRem(u, align);
    DivTimes(Div(u, align), align, 0);
  }

  /** The read is aligned, holds the group's range, and reaches less than one unit beyond it on either side. */
  ghost predicate Covers(a: Range, r: Range, align: Option<nat>) {
    if align.None? then a == r
    else
      && align.value > 0 && Rem(a.pos, align.value) == 0 && Rem(a.size, align.value) == 0
      && a.pos <= r.pos < a.pos + align.value && EndOf(r) <= EndOf(a) < EndOf(r) + align.value
  }

  lemma AlignCovers(r: Range, align: Option<nat>)
    requires align.Some? ==> align.value > 0
    ensures Covers(AlignRange(r, align), r, align)
  {
    if align.Some? {
      AlignedExactly(r.pos, align.value);
      AlignedExactly(r.size + (r.pos - AlignDown(r.pos, align.value)), align.value);
    }
  }

  // --------------------------------------------------------------- the stream

  datatype Poll<T> = Ready(value: T) | Pending

  /**
   `CoalescedReads` over a stream of requests. The stream is what its future polls will
   return: a request, or nothing for `Poll::Pending`; after that it has ended for good.
   */
  datatype Coalescer = Coalescer(merger: Option<Merger>, align: Option<nat>, last: Option<Group>,
                                 script: seq<Option<Io>>)

  function NewCoalescer(maxMerged: nat, maxAmp: Option<nat>, align: Option<nat>, script: seq<Option<Io>>): Coalescer {
    Coalescer(Some(Merger(maxMerged, maxAmp, None, [])), align, None, script)
  }

  /** Each turn of the outer loop uses up the stream, or the merger at its end. */
  predicate Shrinks(c: Coalescer, c': Coalescer) {
    |c'.script| < |c.script| || (c'.script == c.script && c.merger.Some? && c'.merger.None?)
  }

  /** The loop of `next_inner`. */
  function NextInner(c: Coalescer): (r: (Coalescer, Poll<Option<Group>>))
    requires c.merger.Some? || c.script == []
    ensures r.0.align == c.align && r.0.last == c.last && (r.0.merger.Some? || r.0.script == [])
    ensures Shrinks(c, r.0) || (r.0 == c && r.1 == Ready(None))
    ensures r.1 == Ready(None) ==> r.0.merger.None?
    decreases |c.script|
  {
    if c.script == [] then
      if c.merger.None? then (c, Ready(None)) else (c.(merger := None), Ready(Flush(c.merger.value).1))
    else if c.script[0].Some? then
      var (m, g) := Merge(c.merger.value, c.script[0].value);
      var c' := c.(merger := Some(m), script := c.script[1..]);
      if g.Some? then (c', Ready(g)) else NextInner(c')
    else
      var (m, g) := Flush(c.merger.value);
      (c.(merger := Some(m), script := c.script[1..]), if g.Some? then Ready(g) else Pending)
  }

  /** One turn of the loop of `poll_next`; no result means that it goes on. */
  function Turn(c: Coalescer): (r: (Coalescer, Option<Poll<Option<Group>>>))
    requires (c.merger.Some? || c.script == []) && (c.align.Some? ==> c.align.value > 0)
    ensures r.0.align == c.align && (r.0.merger.Some? || r.0.script == [])
    ensures Shrinks(c, r.0) || (r.0 == c.(last := None) && r.1 == Some(Ready(c.last)))
  {
    var (n, r) := NextInner(c);
    if r.Pending? then (n, Some(Pending))
    else if r.value.None? then (n.(last := None), Some(Ready(n.last)))
    else
      Hold(n, r.value.value.(range := AlignRange(r.value.value.range, c.align)))
  }

  /** `deduplicate`, and the first group, which is held back too. */
  function Hold(n: Coalescer, g: Group): (Coalescer, Option<Poll<Option<Group>>>) {
    if n.last.None? then (n.(last := Some(g)), None)
    else if n.last.value.range == g.range then
      (n.(last := Some(Group(n.last.value.ios + g.ios, g.range))), None)
    else (n.(last := Some(g)), Some(Ready(n.last)))
  }

  /** `poll_next` */
  function PollNext(c: Coalescer): (r: (Coalescer, Poll<Option<Group>>))
    requires (c.merger.Some? || c.script == []) && (c.align.Some? ==> c.align.value > 0)
    ensures r.0.align == c.align && (r.0.merger.Some? || r.0.script == [])
    ensures Shrinks(c, r.0) || (r.0 == c.(last := None) && r.1 == Ready(c.last))
    decreases |c.script|, c.merger.Some?
  {
    var (n, r) := Turn(c);
    if r.Some? then (n, r.value) else PollNext(n)
  }

  // ---------------------------------------------------------- what every poll keeps

  function IosOf(g: Option<Group>): seq<Io> {
    if g.None? then [] else g.value.ios
  }

  /** The requests the stream will still deliver. */
  function Items(script: seq<Option<Io>>): seq<Io> {
    if script == [] then [] else (if script[0].Some? then [script[0].value] else []) + Items(script[1..])
  }

  /** The requests taken into the merger and those still to come. */
  function Ahead(c: Coalescer): seq<Io> {
    (if c.merger.Some? then c.merger.value.merged else []) + Items(c.script)
  }

  /** Everything not yet handed out, in the caller's order. */
  function Content(c: Coalescer): seq<Io> {
    IosOf(c.last) + Ahead(c)
  }

  function Emitted(r: Poll<Option<Group>>): seq<Io> {
    if r.Ready? then IosOf(r.value) else []
  }

  /** The limits a coalescer was made with. */
  datatype Limits = Limits(maxMerged: nat, maxAmp: Option<nat>, align: Option<nat>)

  ghost predicate Obeys(c: Coalescer, l: Limits) {
    && c.align == l.align && (l.align.Some? ==> l.align.value > 0)
    && (c.merger.Some? || c.script == [])
    && (c.merger.Some? ==>
          c.merger.value.maxMerged == l.maxMerged && c.merger.value.maxAmp == l.maxAmp && MergerOk(c.merger.value))
    && (c.last.Some? ==> Emittable(c.last.value, l))
  }

  /** A part of a group as merged: requests within the limits, whose aligned range is the read. */
  ghost predicate Part(ios: seq<Io>, read: Range, l: Limits) {
    exists r: Range :: GroupOk(l.maxMerged, l.maxAmp, ios, r) && Covers(read, r, l.align)
  }

  /** What is handed out is one or more such groups that all want the same read. */
  ghost predicate Emittable(g: Group, l: Limits) {
    Parts(g.ios, g.range, l)
  }

  ghost predicate Parts(ios: seq<Io>, read: Range, l: Limits)
    decreases |ios|
  {
    exists k | 0 < k <= |ios| :: Part(ios[..k], read, l) && (k == |ios| || Parts(ios[k..], read, l))
  }

  lemma {:induction false} PartsJoin(a: seq<Io>, b: seq<Io>, read: Range, l: Limits)
    requires Parts(a, read, l) && Parts(b, read, l)
    ensures Parts(a + b, read, l)
    decreases |a|
  {
    var k :| 0 < k <= |a| && Part(a[..k], read, l) && (k == |a| || Parts(a[k..], read, l));
    assert (a + b)[..k] == a[..k];
    if k == |a| {
      assert (a + b)[k..] == b;
    } else {
      PartsJoin(a[k..], b, read, l);
      assert (a + b)[k..] == a[k..] + b;
    }
    assert b != [];
  }

  lemma {:induction false} PartIsParts(ios: seq<Io>, read: Range, l: Limits)
    requires ios != [] && Part(ios, read, l)
    ensures Parts(ios, read, l)
  {
    assert ios[..|ios|] == ios;
  }

  /** Every request of a group handed out lies inside its read. */
  lemma {:induction false} PartsInside(ios: seq<Io>, read: Range, l: Limits, i: nat)
    requires Parts(ios, read, l) && i < |ios|
    ensures Inside(ios[i], read)
    decreases |ios|
  {
    var k :| 0 < k <= |ios| && Part(ios[..k], read, l) && (k == |ios| || Parts(ios[k..], read, l));
    if i < k {
      var r: Range :| GroupOk(l.maxMerged, l.maxAmp, ios[..k], r) && Covers(read, r, l.align);
      assert Inside(ios[..k][i], r);
    } else {
      PartsInside(ios[k..], read, l, i - k);
    }
  }

  /** A poll of the inner loop keeps the limits and loses nothing. */
  ghost predicate InnerOk(c: Coalescer, n: Coalescer, r: Poll<Option<Group>>, l: Limits) {
    && Obeys(n, l) && Ahead(c) == Emitted(r) + Ahead(n)
    && (r.Ready? && r.value.Some? ==> GroupOk(l.maxMerged, l.maxAmp, r.value.value.ios, r.value.value.range))
    && (r == Ready(None) ==> Ahead(n) == [])
  }

  /** A request taken in. */
  lemma TakeKeeps(c: Coalescer, l: Limits) returns (n: Coalescer, g: Option<Group>)
    requires Obeys(c, l) && c.script != [] && c.script[0].Some?
    ensures (n.merger.Some? && (n.merger.value, g) == Merge(c.merger.value, c.script[0].value))
    ensures n == c.(merger := n.merger, script := c.script[1..]) && Obeys(n, l) && Ahead(c) == IosOf(g) + Ahead(n)
    ensures g.Some? ==> GroupOk(l.maxMerged, l.maxAmp, g.value.ios, g.value.range)
  {
    var m, io, rest := c.merger.value, c.script[0].value, c.script[1..];
    MergeKeeps(m, io);
    var m';
    m', g := Merge(m, io).0, Merge(m, io).1;
    n := c.(merger := Some(m'), script := rest);
    Glue(m.merged, io, Items(rest), IosOf(g), m'.merged);
  }

  lemma Glue(merged: seq<Io>, io: Io, rest: seq<Io>, out: seq<Io>, merged': seq<Io>)
    requires out + merged' == merged + [io]
    ensures merged + ([io] + rest) == out + (merged' + rest)
  {
    assert merged + ([io] + rest) == merged + [io] + rest;
    assert out + (merged' + rest) == out + merged' + rest;
  }

  lemma {:induction false} NextInnerKeeps(c: Coalescer, l: Limits) returns (n: Coalescer, r: Poll<Option<Group>>)
    requires Obeys(c, l)
    ensures (n, r) == NextInner(c) && InnerOk(c, n, r, l)
    decreases |c.script|
  {
    n, r := NextInner(c).0, NextInner(c).1;
    if c.script != [] && c.script[0].Some? {
      var c', g := TakeKeeps(c, l);
      if g.None? {
        var n', r' := NextInnerKeeps(c', l);
      }
    }
  }

  /** Nothing is kept from the caller while the stream has nothing ready. */
  lemma {:induction false} PendingKeepsNothing(c: Coalescer)
    requires (c.merger.Some? || c.script == []) && NextInner(c).1.Pending?
    ensures var n := NextInner(c).0; n.merger.Some? && n.merger.value.current.None?
    decreases |c.script|
  {
    if c.script != [] && c.script[0].Some? {
      var m := Merge(c.merger.value, c.script[0].value).0;
      PendingKeepsNothing(c.(merger := Some(m), script := c.script[1..]));
    }
  }

  /**
   A group is closed only by the end of the stream, by a stream that has nothing ready, or by a
   request that would break a limit if it joined; that request begins the next group.
   */
  lemma {:induction false} GroupsAreClosedLate(c: Coalescer, l: Limits) returns (k: nat)
    requires Obeys(c, l) && NextInner(c).1.Ready? && NextInner(c).1.value.Some?
    ensures var (n, r) := NextInner(c);
            && k <= |c.script| && n.script == c.script[k..]
            && (forall i | 0 <= i < k - 1 :: c.script[i].Some?)
            && (|| (k == |c.script| && n.merger.None?)
                || (k > 0 && c.script[k - 1].None?)
                || (&& k > 0 && c.script[k - 1].Some?
                    && n.merger.Some? && n.merger.value.merged == [c.script[k - 1].value]
                    && Breaks(l.maxMerged, l.maxAmp, r.value.value.range, c.script[k - 1].value)))
    decreases |c.script|
  {
    if c.script == [] || c.script[0].None? {
      k := if c.script == [] then 0 else 1;
    } else {
      MergeJoins(c.merger.value, c.script[0].value);
      var c', g := TakeKeeps(c, l);
      if g.Some? {
        k := 1;
      } else {
        var j := GroupsAreClosedLate(c', l);
        k := j + 1;
      }
    }
  }

  // ------------------------------------------------------------------- one poll

  function RangeOf(g: Option<Group>): Option<Range> {
    if g.None? then None else Some(g.value.range)
  }

  predicate Finished(c: Coalescer) {
    c.merger.None? && c.script == [] && c.last.None?
  }

  /**
   A poll keeps the limits, loses nothing and keeps the caller's order. What it hands out
   has the range of the group held back before it, and differs from the one now held back.
   */
  ghost predicate PollOk(c: Coalescer, n: Coalescer, r: Poll<Option<Group>>, l: Limits) {
    && Obeys(n, l) && Content(c) == Emitted(r) + Content(n)
    && (r == Ready(None) ==> Content(n) == [])
    && (if r.Ready? && r.value.Some? then
          && Emittable(r.value.value, l) && RangeOf(n.last) != Some(r.value.value.range)
          && (n.last.None? ==> Finished(n))
          && (c.last.Some? ==> RangeOf(c.last) == RangeOf(r.value))
        else
          c.last.Some? ==> RangeOf(n.last) == RangeOf(c.last))
  }

  /** Going on, the loop has lost nothing, and the range held back stays the same. */
  ghost predicate GoesOn(c: Coalescer, n: Coalescer, l: Limits) {
    Obeys(n, l) && Content(c) == Content(n) && (c.last.Some? ==> RangeOf(n.last) == RangeOf(c.last))
  }

  ghost predicate TurnOk(c: Coalescer, n: Coalescer, r: Option<Poll<Option<Group>>>, l: Limits) {
    if r.None? then GoesOn(c, n, l) else PollOk(c, n, r.value, l)
  }

  lemma AlignedIsEmittable(g: Group, l: Limits)
    requires GroupOk(l.maxMerged, l.maxAmp, g.ios, g.range) && (l.align.Some? ==> l.align.value > 0)
    ensures Emittable(g.(range := AlignRange(g.range, l.align)), l)
  {
    var read := AlignRange(g.range, l.align);
    AlignCovers(g.range, l.align);
    assert Part(g.ios, read, l);
    PartIsParts(g.ios, read, l);
  }

  lemma HoldKeeps(c: Coalescer, n: Coalescer, g: Group, l: Limits)
    requires Obeys(n, l) && n.last == c.last && Ahead(c) == g.ios + Ahead(n) && Emittable(g, l)
    ensures TurnOk(c, Hold(n, g).0, Hold(n, g).1, l)
  {
    assert IosOf(c.last) + (g.ios + Ahead(n)) == IosOf(c.last) + g.ios + Ahead(n);
    if n.last.Some? && n.last.value.range == g.range {
      PartsJoin(n.last.value.ios, g.ios, g.range, l);
    }
  }

  lemma EndKeeps(c: Coalescer, n: Coalescer, l: Limits)
    requires Obeys(n, l) && n.last == c.last && Ahead(c) == Ahead(n)
    ensures PollOk(c, n, Pending, l)
    ensures Ahead(n) == [] && n.merger.None? ==> PollOk(c, n.(last := None), Ready(n.last), l)
  {
    assert IosOf(c.last) + [] == IosOf(c.last);
  }

  lemma TurnKeeps(c: Coalescer, l: Limits) returns (n: Coalescer, r: Option<Poll<Option<Group>>>)
    requires Obeys(c, l)
    ensures (n, r) == Turn(c) && TurnOk(c, n, r, l)
  {
    n, r := Turn(c).0, Turn(c).1;
    var n1, r1 := NextInnerKeeps(c, l);
    if r1.Ready? && r1.value.Some? {
      var g := r1.value.value;
      AlignedIsEmittable(g, l);
      HoldKeeps(c, n1, g.(range := AlignRange(g.range, l.align)), l);
    } else {
      EndKeeps(c, n1, l);
    }
  }

  lemma {:induction false} PollNextKeeps(c: Coalescer, l: Limits) returns (n: Coalescer, r: Poll<Option<Group>>)
    requires Obeys(c, l)
    ensures (n, r) == PollNext(c) && PollOk(c, n, r, l)
    decreases |c.script|, c.merger.Some?
  {
    var n1, r1 := TurnKeeps(c, l);
    if r1.None? {
      n, r := PollNextKeeps(n1, l);
    } else {
      n, r := n1, r1.value;
    }
  }

  // ------------------------------------------------------------- the whole stream

  /** All the groups, polling again after each `Poll::Pending`. */
  function AllGroups(c: Coalescer): seq<Group>
    requires (c.merger.Some? || c.script == []) && (c.align.Some? ==> c.align.value > 0)
    decreases |c.script|, c.merger.Some?, c.last.Some?
  {
    var (n, r) := PollNext(c);
    if r == Ready(None) then []
    else (if r.Ready? then [r.value.value] else []) + AllGroups(n)
  }

  function Flatten(groups: seq<Group>): seq<Io> {
    if groups == [] then [] else groups[0].ios + Flatten(groups[1..])
  }

  ghost predicate Differ(groups: seq<Group>, i: nat)
    requires i + 1 < |groups|
  {
    groups[i].range != groups[i + 1].range
  }

  /** Groups within the limits, of which neighbours read different ranges. */
  ghost predicate GroupsOk(groups: seq<Group>, l: Limits) {
    && (forall i | 0 <= i < |groups| :: Emittable(groups[i], l))
    && (forall i | 0 <= i < |groups| - 1 :: Differ(groups, i))
  }

  lemma {:induction false} OneMoreGroup(g: Group, rest: seq<Group>, l: Limits)
    requires Emittable(g, l) && GroupsOk(rest, l) && (rest != [] ==> rest[0].range != g.range)
    ensures GroupsOk([g] + rest, l) && Flatten([g] + rest) == g.ios + Flatten(rest)
  {
    var groups := [g] + rest;
    assert groups[1..] == rest;
    forall i | 0 <= i < |groups| - 1
      ensures Differ(groups, i)
    {
      assert i == 0 || Differ(rest, i - 1);
    }
  }

  /** In order, every request in exactly one group; each group within the limits; neighbours read different ranges. */
  lemma {:induction false} AllGroupsExact(c: Coalescer, l: Limits) returns (groups: seq<Group>)
    requires Obeys(c, l)
    ensures groups == AllGroups(c) && Flatten(groups) == Content(c) && GroupsOk(groups, l)
    ensures c.last.Some? ==> groups != [] && groups[0].range == c.last.value.range
    ensures Finished(c) ==> groups == []
    decreases |c.script|, c.merger.Some?, c.last.Some?
  {
    var n, r := PollNextKeeps(c, l);
    if r == Ready(None) {
      groups := [];
    } else {
      var rest := AllGroupsExact(n, l);
      if r.Ready? {
        groups := [r.value.value] + rest;
        OneMoreGroup(r.value.value, rest, l);
      } else {
        groups := rest;
        assert [] + rest == rest;
      }
    }
  }
}
