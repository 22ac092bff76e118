/**
 The write-behind bookkeeping of `io/dma_file_stream.rs`: flushes start in order of
 position and complete in any order; `flushed_pos` follows the completed prefix.
 */
module FlushState {

  /** A pending flush still has its task handle until some caller takes it to wait for the flush. */
  datatype Status = Pending(handle: bool) | Complete

  datatype Flush = Flush(pos: nat, status: Status)

  datatype Flushes = Flushes(entries: seq<Flush>, pendingCount: int, flushedPos: nat)

  const NO_FLUSHES: Flushes := Flushes([], 0, 0)

  /** `last_flush_pos` */
  function LastPos(f: Flushes): nat {
    if f.entries == [] then f.flushedPos else f.entries[|f.entries| - 1].pos
  }

  function CountPending(entries: seq<Flush>): nat {
    if entries == [] then 0
    else CountPending(entries[..|entries| - 1]) + (if entries[|entries| - 1].status.Complete? then 0 else 1)
  }

  /** `on_start` */
  function Started(f: Flushes, pos: nat): Flushes {
    f.(entries := f.entries + [Flush(pos, Pending(true))], pendingCount := f.pendingCount + 1)
  }

  function Mark(e: Flush, pos: nat): Flush {
    if e.pos == pos then Flush(pos, Complete) else e
  }

  function Marked(entries: seq<Flush>, pos: nat): (r: seq<Flush>)
    ensures |r| == |entries|
    ensures forall i | 0 <= i < |r| :: r[i] == Mark(entries[i], pos)
  {
    seq(|entries|, i requires 0 <= i < |entries| => Mark(entries[i], pos))
  }

  function Take(e: Flush): Flush {
    if e.status.Pending? then e.(status := Pending(false)) else e
  }

  function Taken(entries: seq<Flush>): (r: seq<Flush>)
    ensures |r| == |entries|
    ensures forall i | 0 <= i < |r| :: r[i] == Take(entries[i])
  {
    seq(|entries|, i requires 0 <= i < |entries| => Take(entries[i]))
  }

  /** The positions whose handles `take_pending_handles` hands out. */
  function Handles(entries: seq<Flush>): set<nat> {
    set e | e in entries && e.status == Pending(true) :: e.pos
  }

  /** The end of the completed stretch that starts at `from`. */
  function CompleteUntil(entries: seq<Flush>, from: nat): (n: nat)
    requires from <= |entries|
    ensures from <= n <= |entries|
    ensures forall i | from <= i < n :: entries[i].status.Complete?
    ensures n < |entries| ==> entries[n].status.Pending?
    decreases |entries| - from
  {
    if from == |entries| || entries[from].status.Pending? then from else CompleteUntil(entries, from + 1)
  }

  /** The length of the longest completed prefix. */
  function Leading(entries: seq<Flush>): (n: nat)
    ensures n <= |entries|
    ensures forall i | 0 <= i < n :: entries[i].status.Complete?
    ensures n < |entries| ==> entries[n].status.Pending?
  {
    CompleteUntil(entries, 0)
  }

  /** What `on_complete` must do: mark the flush, then drop the completed prefix and move `flushed_pos` to its end. */
  function Completed(f: Flushes, pos: nat): Flushes {
    var marked := Marked(f.entries, pos);
    var n := Leading(marked);
    Flushes(marked[n..], f.pendingCount - 1, if n == 0 then f.flushedPos else marked[n - 1].pos)
  }

  // ------------------------------------------------------- against the history

  predicate Below(s: seq<nat>, i: nat, j: nat)
    requires i < |s| && j < |s|
  {
    s[i] < s[j]
  }

  predicate Increasing(s: seq<nat>) {
    forall i, j | 0 <= i < j < |s| :: Below(s, i, j)
  }

  function Expected(p: nat, done: set<nat>, taken: set<nat>): Flush {
    Flush(p, if p in done then Complete else Pending(p !in taken))
  }

  /** Entries describe the flushes at positions `live`, in order. */
  ghost predicate Describes(entries: seq<Flush>, live: seq<nat>, done: set<nat>, taken: set<nat>) {
    && |entries| == |live|
    && forall i | 0 <= i < |entries| :: entries[i] == Expected(live[i], done, taken)
  }

  /**
   The bookkeeping agrees with the history: `gone` and then `live` are all positions
   ever started, of which `gone` are no longer tracked; `done` have completed and the
   handles of `taken` have been handed out.
   */
  ghost predicate Tracks(f: Flushes, gone: seq<nat>, live: seq<nat>, done: set<nat>, taken: set<nat>) {
    && Increasing(gone + live) && (forall p | p in gone + live :: p > 0)
    && Describes(f.entries, live, done, taken)
    && (forall p | p in gone :: p in done)
    && f.flushedPos == (if gone == [] then 0 else gone[|gone| - 1])
    && (f.entries != [] ==> f.entries[0].status.Pending?)
    && f.pendingCount == CountPending(f.entries)
  }

  /** As `Tracks`, for a caller that does not care how far the bookkeeping has been trimmed. */
  ghost predicate Agrees(f: Flushes, started: seq<nat>, done: set<nat>, taken: set<nat>) {
    && (forall p | p in done + taken :: p in started)
    && exists gone, live :: gone + live == started && Tracks(f, gone, live, done, taken)
  }

  lemma StartTracks(f: Flushes, gone: seq<nat>, live: seq<nat>, done: set<nat>, taken: set<nat>, pos: nat)
    requires Tracks(f, gone, live, done, taken) && LastPos(f) < pos && pos !in done && pos !in taken
    ensures Tracks(Started(f, pos), gone, live + [pos], done, taken)
  {
    var f' := Started(f, pos);
    assert f'.entries[..|f.entries|] == f.entries;
    var all := gone + live;
    assert gone + (live + [pos]) == all + [pos];
    if all != [] {
      assert all[|all| - 1] == LastPos(f);
    }
    ExtendIncreasing(all, pos);
  }

  /** A flush started beyond the last one keeps the bookkeeping in agreement with the history. */
  lemma StartAgrees(f: Flushes, started: seq<nat>, done: set<nat>, taken: set<nat>, pos: nat)
    requires Agrees(f, started, done, taken) && LastPos(f) < pos
    ensures Agrees(Started(f, pos), started + [pos], done, taken)
  {
    var gone, live :| gone + live == started && Tracks(f, gone, live, done, taken);
    NotStarted(f, gone, live, done, taken, pos);
    StartTracks(f, gone, live, done, taken, pos);
    assert gone + (live + [pos]) == started + [pos];
  }

  lemma NotStarted(f: Flushes, gone: seq<nat>, live: seq<nat>, done: set<nat>, taken: set<nat>, pos: nat)
    requires Tracks(f, gone, live, done, taken) && LastPos(f) < pos
    ensures pos !in gone + live
  {
    if pos in gone + live {
      LastIsLargest(f, gone, live, done, taken, pos);
    }
  }

  lemma LastIsLargest(f: Flushes, gone: seq<nat>, live: seq<nat>, done: set<nat>, taken: set<nat>, p: nat)
    requires Tracks(f, gone, live, done, taken) && p in gone + live
    ensures LastPos(f) == (gone + live)[|gone + live| - 1] >= p
  {
    var all := gone + live;
    var i :| 0 <= i < |all| && all[i] == p;
    assert i == |all| - 1 || Below(all, i, |all| - 1);
  }

  lemma ExtendIncreasing(s: seq<nat>, p: nat)
    requires Increasing(s) && (s != [] ==> s[|s| - 1] < p)
    ensures Increasing(s + [p])
  {
    forall i, j | 0 <= i < j < |s + [p]|
      ensures Below(s + [p], i, j)
    {
      if j < |s| {
        assert Below(s, i, j);
      } else if i < |s| - 1 {
        assert Below(s, i, |s| - 1);
      }
    }
  }

  lemma {:induction false} MarkedCount(entries: seq<Flush>, k: nat)
    requires k < |entries| && entries[k].status.Pending?
    requires forall i | 0 <= i < |entries| :: i != k ==> entries[i].pos != entries[k].pos
    ensures CountPending(Marked(entries, entries[k].pos)) == CountPending(entries) - 1
    decreases |entries|
  {
    var last := |entries| - 1;
    var m := Marked(entries, entries[k].pos);
    if k < last {
      MarkedCount(entries[..last], k);
      assert m[..last] == Marked(entries[..last], entries[k].pos);
    } else {
      assert m[..last] == entries[..last];
    }
  }

  lemma {:induction false} DropCompleteCount(entries: seq<Flush>, n: nat)
    requires n <= |entries| && forall i | 0 <= i < n :: entries[i].status.Complete?
    ensures CountPending(entries[n..]) == CountPending(entries)
    decreases |entries|
  {
    if n == |entries| {
      NonePending(entries);
      assert entries[n..] == [];
    } else {
      var last := |entries| - 1;
      DropCompleteCount(entries[..last], n);
      assert entries[n..][..last - n] == entries[..last][n..];
    }
  }

  lemma {:induction false} NonePending(entries: seq<Flush>)
    requires forall i | 0 <= i < |entries| :: entries[i].status.Complete?
    ensures CountPending(entries) == 0
  {
    if entries != [] {
      NonePending(entries[..|entries| - 1]);
    }
  }

  lemma {:induction false} TakenCount(entries: seq<Flush>)
    ensures CountPending(Taken(entries)) == CountPending(entries)
  {
    if entries != [] {
      var last := |entries| - 1;
      TakenCount(entries[..last]);
      assert Taken(entries)[..last] == Taken(entries[..last]);
    }
  }

  lemma MarkedDescribes(entries: seq<Flush>, live: seq<nat>, done: set<nat>, taken: set<nat>, pos: nat)
    requires Describes(entries, live, done, taken)
    ensures Describes(Marked(entries, pos), live, done + {pos}, taken)
  {
  }

  lemma SuffixDescribes(entries: seq<Flush>, live: seq<nat>, done: set<nat>, taken: set<nat>, n: nat)
    requires Describes(entries, live, done, taken) && n <= |entries|
    ensures Describes(entries[n..], live[n..], done, taken)
  {
  }

  lemma {:induction false} CompleteCounts(entries: seq<Flush>, live: seq<nat>, done: set<nat>, taken: set<nat>, k: nat)
    requires Describes(entries, live, done, taken) && Increasing(live) && k < |live| && live[k] !in done
    ensures var marked := Marked(entries, live[k]);
            CountPending(marked[Leading(marked)..]) == CountPending(entries) - 1
  {
    var marked := Marked(entries, live[k]);
    forall i | 0 <= i < |entries| && i != k
      ensures entries[i].pos != entries[k].pos
    {
      assert if i < k then Below(live, i, k) else Below(live, k, i);
    }
    MarkedCount(entries, k);
    DropCompleteCount(marked, Leading(marked));
  }

  lemma LeadingAreDone(entries: seq<Flush>, gone: seq<nat>, live: seq<nat>, done: set<nat>, taken: set<nat>)
    requires Describes(entries, live, done, taken) && (forall p | p in gone :: p in done)
    ensures forall p | p in gone + live[..Leading(entries)] :: p in done
  {
    forall i | 0 <= i < Leading(entries)
      ensures live[i] in done
    {
      assert entries[i].status.Complete?;
    }
  }

  /** Dropping the completed prefix moves it from what is tracked to what is not. */
  lemma TrimTracks(marked: seq<Flush>, pending: int, flushedPos: nat, gone: seq<nat>, live: seq<nat>,
                   done: set<nat>, taken: set<nat>)
    requires Increasing(gone + live) && (forall p | p in gone + live :: p > 0) && (forall p | p in gone :: p in done)
    requires Describes(marked, live, done, taken) && pending == CountPending(marked[Leading(marked)..])
    requires flushedPos == if gone == [] then 0 else gone[|gone| - 1]
    ensures var n := Leading(marked);
            Tracks(Flushes(marked[n..], pending, if n == 0 then flushedPos else marked[n - 1].pos),
                   gone + live[..n], live[n..], done, taken)
  {
    var n := Leading(marked);
    SuffixDescribes(marked, live, done, taken, n);
    LeadingAreDone(marked, gone, live, done, taken);
    assert gone + live[..n] + live[n..] == gone + live;
  }

  lemma CompleteTracks(f: Flushes, gone: seq<nat>, live: seq<nat>, done: set<nat>, taken: set<nat>, k: nat)
    returns (gone': seq<nat>, live': seq<nat>)
    requires Tracks(f, gone, live, done, taken) && k < |live| && live[k] !in done
    ensures gone' + live' == gone + live
    ensures Tracks(Completed(f, live[k]), gone', live', done + {live[k]}, taken)
  {
    var marked := Marked(f.entries, live[k]);
    var n := Leading(marked);
    MarkedDescribes(f.entries, live, done, taken, live[k]);
    TailIncreasing(gone, live);
    CompleteCounts(f.entries, live, done, taken, k);
    TrimTracks(marked, f.pendingCount - 1, f.flushedPos, gone, live, done + {live[k]}, taken);
    gone', live' := gone + live[..n], live[n..];
    assert gone' + live' == gone + live;
  }

  /** A completion, in whatever order, keeps the bookkeeping in agreement with the history. */
  lemma CompleteAgrees(f: Flushes, started: seq<nat>, done: set<nat>, taken: set<nat>, pos: nat)
    requires Agrees(f, started, done, taken) && pos in started && pos !in done
    ensures Agrees(Completed(f, pos), started, done + {pos}, taken)
  {
    var gone, live :| gone + live == started && Tracks(f, gone, live, done, taken);
    var k :| 0 <= k < |live| && live[k] == pos;
    var gone', live' := CompleteTracks(f, gone, live, done, taken, k);
    assert forall p | p in done + {pos} + taken :: p in started;
  }

  /** Handing out handles changes nothing else; what is handed out is what is in flight and not yet handed out. */
  lemma TakeAgrees(f: Flushes, started: seq<nat>, done: set<nat>, taken: set<nat>)
    requires Agrees(f, started, done, taken)
    ensures var handles := Handles(f.entries);
            && Agrees(f.(entries := Taken(f.entries)), started, done, taken + handles)
            && handles == (set p | p in started && p !in done && p !in taken)
  {
    var gone, live :| gone + live == started && Tracks(f, gone, live, done, taken);
    var handles := Handles(f.entries);
    forall p
      ensures p in handles <==> p in started && p !in done && p !in taken
    {
      if p in started && p !in done && p !in taken {
        var k :| 0 <= k < |live| && live[k] == p;
        assert f.entries[k] == Flush(p, Pending(true));
      }
    }
    forall i | 0 <= i < |live|
      ensures Taken(f.entries)[i] == Expected(live[i], done, taken + handles)
    {
      assert live[i] in started && f.entries[i] == Expected(live[i], done, taken);
    }
    TakenCount(f.entries);
    var f' := f.(entries := Taken(f.entries));
    assert Tracks(f', gone, live, done, taken + handles);
  }

  lemma TailIncreasing(gone: seq<nat>, live: seq<nat>)
    requires Increasing(gone + live)
    ensures Increasing(live)
  {
    forall i, j | 0 <= i < j < |live|
      ensures Below(live, i, j)
    {
      assert Below(gone + live, |gone| + i, |gone| + j);
    }
  }

  /** Every started position up to `p` has completed. */
  ghost predicate AllDone(started: seq<nat>, done: set<nat>, p: nat) {
    forall q | q in started :: q <= p ==> q in done
  }

  lemma TrackedExactly(f: Flushes, gone: seq<nat>, live: seq<nat>, done: set<nat>, taken: set<nat>)
    requires Tracks(f, gone, live, done, taken)
    ensures f.flushedPos == 0 || f.flushedPos in gone
    ensures forall p | p in gone :: p <= f.flushedPos && p in done
    ensures forall p | p in live :: f.flushedPos < live[0] <= p
    ensures live != [] ==> live[0] !in done
    ensures f.pendingCount >= 0 && (f.pendingCount == 0 <==> live == [])
  {
    forall p | p in gone
      ensures p <= f.flushedPos
    {
      GoneAreBelow(gone, live, p);
    }
    forall p | p in live
      ensures f.flushedPos < live[0] <= p
    {
      LiveAreAbove(gone, live, p);
    }
    if live != [] {
      assert f.entries[0] == Expected(live[0], done, taken);
      HasPending(f.entries);
    }
  }

  lemma LastTracked(f: Flushes, gone: seq<nat>, live: seq<nat>, done: set<nat>, taken: set<nat>)
    requires Tracks(f, gone, live, done, taken)
    ensures LastPos(f) == if gone + live == [] then 0 else (gone + live)[|gone + live| - 1]
    ensures f.flushedPos <= LastPos(f) && (f.flushedPos == LastPos(f) <==> live == [])
  {
    if live != [] {
      LiveAreAbove(gone, live, live[|live| - 1]);
    }
  }

  /**
   `flushed_pos` is the largest started position all of whose predecessors have
   completed (or zero), and the pending count is zero exactly when all have completed.
   */
  lemma FlushedPosExact(f: Flushes, started: seq<nat>, done: set<nat>, taken: set<nat>)
    requires Agrees(f, started, done, taken)
    ensures f.flushedPos == 0 || f.flushedPos in started
    ensures AllDone(started, done, f.flushedPos)
    ensures forall p | p in started && AllDone(started, done, p) :: p <= f.flushedPos
    ensures f.pendingCount >= 0 && (f.pendingCount == 0 <==> forall p | p in started :: p in done)
  {
    var gone, live :| gone + live == started && Tracks(f, gone, live, done, taken);
    TrackedExactly(f, gone, live, done, taken);
    if live != [] {
      assert live[0] in started;
    }
  }

  /** The last started position is reached exactly when nothing is pending. */
  lemma LastPosExact(f: Flushes, started: seq<nat>, done: set<nat>, taken: set<nat>)
    requires Agrees(f, started, done, taken)
    ensures LastPos(f) == if started == [] then 0 else started[|started| - 1]
    ensures f.flushedPos <= LastPos(f) && (f.flushedPos == LastPos(f) <==> f.pendingCount == 0)
  {
    var gone, live :| gone + live == started && Tracks(f, gone, live, done, taken);
    LastTracked(f, gone, live, done, taken);
    TrackedExactly(f, gone, live, done, taken);
  }

  lemma StartedIncrease(f: Flushes, started: seq<nat>, done: set<nat>, taken: set<nat>)
    requires Agrees(f, started, done, taken)
    ensures Increasing(started) && forall p | p in started :: p > 0
  {
  }

  /** `flushed_pos` has reached the `n`-th position exactly when all up to it have completed. */
  lemma ReachedIff(f: Flushes, started: seq<nat>, done: set<nat>, taken: set<nat>, n: nat)
    requires Agrees(f, started, done, taken) && n < |started|
    ensures f.flushedPos >= started[n] <==> forall i | 0 <= i <= n :: started[i] in done
  {
    StartedIncrease(f, started, done, taken);
    FlushedPosExact(f, started, done, taken);
    if forall i | 0 <= i <= n :: started[i] in done {
      AllDoneUpTo(started, done, n);
    }
    if f.flushedPos >= started[n] {
      forall i | 0 <= i <= n
        ensures started[i] in done
      {
        assert i == n || Below(started, i, n);
        assert started[i] in started;
      }
    }
  }

  lemma AllDoneUpTo(started: seq<nat>, done: set<nat>, n: nat)
    requires Increasing(started) && n < |started| && forall i | 0 <= i <= n :: started[i] in done
    ensures AllDone(started, done, started[n]) && started[n] in started
  {
    forall q | q in started && q <= started[n]
      ensures q in done
    {
      var i :| 0 <= i < |started| && started[i] == q;
      assert i <= n || Below(started, n, i);
    }
  }

  lemma GoneAreBelow(gone: seq<nat>, live: seq<nat>, p: nat)
    requires Increasing(gone + live) && p in gone
    ensures p <= gone[|gone| - 1]
  {
    var i :| 0 <= i < |gone| && gone[i] == p;
    assert i == |gone| - 1 || Below(gone + live, i, |gone| - 1);
  }

  lemma LiveAreAbove(gone: seq<nat>, live: seq<nat>, p: nat)
    requires Increasing(gone + live) && p in live && forall q | q in gone + live :: q > 0
    ensures (if gone == [] then 0 else gone[|gone| - 1]) < live[0] <= p
  {
    var all := gone + live;
    var i :| 0 <= i < |live| && live[i] == p;
    assert i == 0 || Below(all, |gone|, |gone| + i);
    assert live[0] in all;
    assert gone == [] || Below(all, |gone| - 1, |gone|);
  }

  lemma {:induction false} HasPending(entries: seq<Flush>)
    requires entries != [] && entries[0].status.Pending?
    ensures CountPending(entries) > 0
  {
    if |entries| > 1 {
      HasPending(entries[..|entries| - 1]);
    }
  }

  predicate Precedes(entries: seq<Flush>, i: nat, j: nat)
    requires i < |entries| && j < |entries|
  {
    entries[i].pos < entries[j].pos
  }

  predicate Sorted(entries: seq<Flush>) {
    forall i, j | 0 <= i < j < |entries| :: Precedes(entries, i, j)
  }

  /** Nothing beyond the first entry at or past `pos` is marked. */
  lemma RestUnmarked(entries: seq<Flush>, pos: nat, k: nat)
    requires Sorted(entries) && k < |entries| && entries[k].pos >= pos
    ensures forall j | k < j < |entries| :: Marked(entries, pos)[j] == entries[j]
  {
    forall j | k < j < |entries|
      ensures Marked(entries, pos)[j] == entries[j]
    {
      assert Precedes(entries, k, j);
    }
  }

  lemma {:induction false} SortedStays(entries: seq<Flush>, pos: nat, n: nat)
    requires Sorted(entries) && n <= |entries|
    ensures Sorted(Marked(entries, pos)[n..]) && Sorted(Taken(entries))
    ensures entries == [] || entries[|entries| - 1].pos < pos ==> Sorted(entries + [Flush(pos, Pending(true))])
  {
    var marked, taken, longer := Marked(entries, pos)[n..], Taken(entries), entries + [Flush(pos, Pending(true))];
    forall i, j | 0 <= i < j < |marked|
      ensures Precedes(marked, i, j)
    {
      assert Precedes(entries, i + n, j + n);
    }
    forall i, j | 0 <= i < j < |entries|
      ensures Precedes(taken, i, j) && Precedes(longer, i, j)
    {
      assert Precedes(entries, i, j);
    }
    if entries != [] && entries[|entries| - 1].pos < pos {
      forall i | 0 <= i < |entries|
        ensures Precedes(longer, i, |entries|)
      {
        assert i == |entries| - 1 || Precedes(entries, i, |entries| - 1);
      }
    }
  }

  // ------------------------------------------------------------- the class

  /** `DmaStreamWriterFlushState` */
  class WriterFlushState {
    var flushes: seq<Flush>
    var pendingFlushCount: int
    var flushedPos: nat

    ghost function Snapshot(): Flushes
      reads this
    {
      Flushes(flushes, pendingFlushCount, flushedPos)
    }

    ghost predicate Valid()
      reads this
    {
      Sorted(flushes)
    }

    constructor ()
      ensures Valid() && Snapshot() == NO_FLUSHES
    {
      flushes, pendingFlushCount, flushedPos := [], 0, 0;
    }

    method LastFlushPos() returns (pos: nat)
      ensures pos == LastPos(Snapshot())
    {
      pos := if flushes == [] then flushedPos else flushes[|flushes| - 1].pos;
    }

    /** The assertion that positions only grow is the precondition. */
    method OnStart(pos: nat)
      requires Valid() && LastPos(Snapshot()) < pos
      modifies this
      ensures Valid() && Snapshot() == Started(old(Snapshot()), pos)
    {
      SortedStays(flushes, pos, 0);
      pendingFlushCount := pendingFlushCount + 1;
      flushes := flushes + [Flush(pos, Pending(true))];
    }

    /**
     One pass marks the flush and counts the completed prefix; the pass may stop early
     because positions are sorted.
     */
    method OnComplete(pos: nat) returns (flushed: nat)
      requires Valid()
      modifies this
      ensures Valid() && Snapshot() == Completed(old(Snapshot()), pos) && flushed == flushedPos
    {
      ghost var before := flushes;
      pendingFlushCount := pendingFlushCount - 1;
      var drainable := MarkAndCount(pos);
      SortedStays(before, pos, drainable);
      if drainable > 0 {
        flushes := flushes[drainable..];
      }
      flushed := flushedPos;
    }

    /** The loop of `on_complete`. */
    method MarkAndCount(pos: nat) returns (drainable: nat)
      requires Valid()
      modifies this`flushes, this`flushedPos
      ensures flushes == Marked(old(flushes), pos) && drainable == Leading(flushes)
      ensures flushedPos == if drainable == 0 then old(flushedPos) else flushes[drainable - 1].pos
    {
      ghost var before, goal := flushes, Marked(flushes, pos);
      drainable := 0;
      var counting := true;
      var i := 0;
      while i < |flushes|
        invariant 0 <= drainable <= i <= |flushes| == |before|
        invariant forall j | 0 <= j < i :: flushes[j] == goal[j]
        invariant forall j | i <= j < |flushes| :: flushes[j] == before[j]
        invariant forall j | 0 <= j < drainable :: goal[j].status.Complete?
        invariant counting ==> drainable == i
        invariant !counting ==> drainable < i && goal[drainable].status.Pending?
        invariant flushedPos == if drainable == 0 then old(flushedPos) else goal[drainable - 1].pos
      {
        if flushes[i].pos == pos {
          flushes := flushes[i := Flush(pos, Complete)];
        }
        if counting {
          if flushes[i].status.Complete? {
            drainable := drainable + 1;
            flushedPos := flushes[i].pos;
          } else {
            counting := false;
          }
        } else if flushes[i].pos >= pos {
          RestUnmarked(before, pos, i);
          break;
        }
        i := i + 1;
      }
      assert flushes == goal;
    }

    /** Hands out, once each, the handles of the flushes in flight; a handle stands for its position. */
    method TakePendingHandles() returns (handles: set<nat>)
      requires Valid()
      modifies this`flushes
      ensures Valid() && Snapshot() == old(Snapshot()).(entries := Taken(old(flushes)))
      ensures handles == Handles(old(flushes))
    {
      ghost var before, goal := flushes, Taken(flushes);
      SortedStays(before, 0, 0);
      handles := {};
      var i := 0;
      while i < |flushes|
        invariant 0 <= i <= |flushes| == |before|
        invariant forall j | 0 <= j < i :: flushes[j] == goal[j]
        invariant forall j | i <= j < |flushes| :: flushes[j] == before[j]
        invariant handles == Handles(before[..i])
      {
        assert before[..i + 1] == before[..i] + [before[i]];
        if flushes[i].status == Pending(true) {
          handles := handles + {flushes[i].pos};
          flushes := flushes[i := flushes[i].(status := Pending(false))];
        }
        i := i + 1;
      }
      assert flushes == goal && before[..i] == before;
    }
  }
}
