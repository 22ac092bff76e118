/** `IOVecMerger` and `CoalescedReads` as objects, proved against module CoalescedReads. */
module CoalescedStream {
  import opened Words
  import opened Options
  import opened CoalescedReads

  class IoVecMerger {
    const maxMerged: nat
    const maxAmp: Option<nat>
    var current: Option<Range>
    var merged: seq<Io>

    ghost function Snapshot(): Merger
      reads this
    {
      Merger(maxMerged, maxAmp, current, merged)
    }

    constructor (maxMerged: nat, maxAmp: Option<nat>)
      ensures Snapshot() == Merger(maxMerged, maxAmp, None, [])
    {
      this.maxMerged, this.maxAmp, current, merged := maxMerged, maxAmp, None, [];
    }

    /** The finished group leaves and the new request stays behind. */
    method Restart(io: Io) returns (g: Option<Group>)
      requires current.Some?
      modifies this
      ensures g == Some(Group(old(merged), old(current.value)))
      ensures Snapshot() == old(Snapshot()).(current := Some(Range(io.pos, io.size)), merged := [io])
    {
      var range := current.value;
      current := Some(Range(io.pos, io.size));
      merged := [io] + merged;
      g := Some(Group(merged[1..], range));
      merged := merged[..1];
    }

    method Merge(io: Io) returns (g: Option<Group>)
      modifies this
      ensures (Snapshot(), g) == CoalescedReads.Merge(old(Snapshot()), io)
    {
      if current.None? {
        current, merged := Some(Range(io.pos, io.size)), merged + [io];
        return None;
      }
      var cur := current.value;
      if maxAmp.Some? {
        var gap := maxAmp.value;
        if SaturatingSub(cur.pos, io.pos + io.size) > gap || SaturatingSub(io.pos, cur.pos + cur.size) > gap {
          g := Restart(io);
          return;
        }
      }
      var lo, hi := Min(cur.pos, io.pos), Max(cur.pos + cur.size, io.pos + io.size);
      if hi - lo > maxMerged {
        g := Restart(io);
        return;
      }
      current, merged := Some(Range(lo, hi - lo)), merged + [io];
      g := None;
    }

    method Flush() returns (g: Option<Group>)
      modifies this
      ensures (Snapshot(), g) == CoalescedReads.Flush(old(Snapshot()))
    {
      if current.None? {
        return None;
      }
      g := Some(Group(merged, current.value));
      current, merged := None, [];
    }
  }

  class Stream {
    var merger: IoVecMerger?
    const align: Option<nat>
    var last: Option<Group>
    /** What the polls of the underlying stream are going to return. */
    var script: seq<Option<Io>>

    ghost function Parts(): set<object>
      reads this
    {
      if merger == null then {} else {merger}
    }

    ghost function Snapshot(): Coalescer
      reads this, Parts()
    {
      Coalescer(if merger == null then None else Some(merger.Snapshot()), align, last, script)
    }

    /** A stream that has ended stays ended, and alignments are not zero. */
    ghost predicate Valid()
      reads this, Parts()
    {
      (merger != null || script == []) && (align.Some? ==> align.value > 0)
    }

    constructor (maxMerged: nat, maxAmp: Option<nat>, align: Option<nat>, script: seq<Option<Io>>)
      requires align.Some? ==> align.value > 0
      ensures Valid() && merger != null && fresh(merger)
      ensures Snapshot() == NewCoalescer(maxMerged, maxAmp, align, script)
    {
      merger := new IoVecMerger(maxMerged, maxAmp);
      this.align, last, this.script := align, None, script;
    }

    /** `next_inner` */
    method NextInner() returns (r: Poll<Option<Group>>)
      requires Valid()
      modifies this, Parts()
      ensures Valid() && (Snapshot(), r) == CoalescedReads.NextInner(old(Snapshot()))
      ensures merger == null || merger == old(merger)
    {
      while script != []
        invariant Valid() && merger == old(merger)
        invariant CoalescedReads.NextInner(Snapshot()) == CoalescedReads.NextInner(old(Snapshot()))
        decreases |script|
      {
        var next := script[0];
        if next.Some? {
          script := script[1..];
          var g := merger.Merge(next.value);
          if g.Some? {
            return Ready(g);
          }
        } else {
          script := script[1..];
          var g := merger.Flush();
          return if g.Some? then Ready(g) else Pending;
        }
      }
      if merger == null {
        return Ready(None);
      }
      var g := merger.Flush();
      merger := null;
      r := Ready(g);
    }

    /** `poll_next` */
    method PollNext() returns (r: Poll<Option<Group>>)
      requires Valid()
      modifies this, Parts()
      ensures Valid() && (Snapshot(), r) == CoalescedReads.PollNext(old(Snapshot()))
      ensures merger == null || merger == old(merger)
    {
      while true
        invariant Valid() && (merger == null || merger == old(merger))
        invariant CoalescedReads.PollNext(Snapshot()) == CoalescedReads.PollNext(old(Snapshot()))
        decreases |script|, merger != null
      {
        ghost var before := Snapshot();
        var inner := NextInner();
        if inner.Pending? {
          return Pending;
        }
        if inner.value.None? {
          r := Ready(last);
          last := None;
          return;
        }
        var g := inner.value.value;
        g := g.(range := AlignRange(g.range, align));
        if last.None? {
          last := Some(g);
        } else if last.value.range == g.range {
          last := Some(Group(last.value.ios + g.ios, g.range));
        } else {
          r := Ready(last);
          last := Some(g);
          return;
        }
      }
    }
  }
}
