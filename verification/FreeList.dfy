/** The index free list of `free_list.rs`: a linked list threaded through the unused slots of a vector. */
module FreeList {
  import opened Options

  datatype Slot<+T> = Free(nextFree: Option<nat>) | Full(item: T)

  /** Following the links from `first` visits exactly `path` and then stops. */
  ghost predicate Chain<T>(slots: seq<Slot<T>>, first: Option<nat>, path: seq<nat>)
    decreases path
  {
    if path == [] then first == None
    else
      && first == Some(path[0]) && path[0] < |slots| && slots[path[0]].Free?
      && Chain(slots, slots[path[0]].nextFree, path[1..])
  }

  lemma {:induction false} ChainUnique<T>(slots: seq<Slot<T>>, first: Option<nat>, p: seq<nat>, q: seq<nat>)
    requires Chain(slots, first, p) && Chain(slots, first, q)
    ensures p == q
    decreases p
  {
    if p != [] {
      ChainUnique(slots, slots[p[0]].nextFree, p[1..], q[1..]);
      assert p == [p[0]] + p[1..] && q == [q[0]] + q[1..];
    }
  }

  lemma {:induction false} ChainSuffix<T>(slots: seq<Slot<T>>, first: Option<nat>, p: seq<nat>, i: nat)
    requires Chain(slots, first, p) && i < |p|
    ensures Chain(slots, Some(p[i]), p[i..])
    decreases p
  {
    if i != 0 {
      ChainSuffix(slots, slots[p[0]].nextFree, p[1..], i - 1);
      assert p[1..][i - 1..] == p[i..];
    }
  }

  /** A list that ends cannot pass through a slot twice. */
  lemma {:induction false} ChainAcyclic<T>(slots: seq<Slot<T>>, first: Option<nat>, p: seq<nat>, i: nat, j: nat)
    requires Chain(slots, first, p) && i < j < |p|
    ensures p[i] != p[j]
  {
    if p[i] == p[j] {
      ChainSuffix(slots, first, p, i);
      ChainSuffix(slots, first, p, j);
      ChainUnique(slots, Some(p[i]), p[i..], p[j..]);
    }
  }

  lemma {:induction false} ChainFrame<T>(slots: seq<Slot<T>>, first: Option<nat>, p: seq<nat>, slots': seq<Slot<T>>)
    requires Chain(slots, first, p) && |slots| <= |slots'|
    requires forall i | i in p :: i < |slots| ==> slots'[i] == slots[i]
    ensures Chain(slots', first, p)
    decreases p
  {
    if p != [] {
      ChainFrame(slots, slots[p[0]].nextFree, p[1..], slots');
    }
  }

  /** The partial map the list stands for. */
  ghost function Live<T>(slots: seq<Slot<T>>): map<nat, T> {
    map i: nat | i < |slots| && slots[i].Full? :: slots[i].item
  }

  class FreeList<T> {
    var firstFree: Option<nat>
    var slots: seq<Slot<T>>
    /** The free slots, in the order `alloc` will hand them out. */
    ghost var chain: seq<nat>

    ghost predicate Valid()
      reads this
    {
      && Chain(slots, firstFree, chain)
      && forall i: nat | i < |slots| :: slots[i].Free? <==> i in chain
    }

    constructor ()
      ensures Valid() && Live(slots) == map[]
    {
      firstFree, slots, chain := None, [], [];
    }

    /** Stores the item under an index that was not live, reusing the last one freed; no other entry changes. */
    method Alloc(item: T) returns (idx: nat)
      requires Valid()
      modifies this
      ensures Valid()
      ensures idx !in old(Live(slots))
      ensures Live(slots) == old(Live(slots))[idx := item]
      ensures if old(firstFree) == None then idx == |old(slots)| && chain == old(chain)
              else old(chain) == [idx] + chain && |slots| == |old(slots)|
    {
      match firstFree {
        case Some(first) =>
          idx := first;
          forall j | 0 < j < |chain|
            ensures chain[j] != idx
          {
            ChainAcyclic(slots, firstFree, chain, 0, j);
          }
          var next := slots[idx].nextFree;
          ChainFrame(slots, next, chain[1..], slots[idx := Full(item)]);
          assert chain == [idx] + chain[1..];
          firstFree, slots, chain := next, slots[idx := Full(item)], chain[1..];
        case None =>
          idx := |slots|;
          ChainFrame(slots, firstFree, chain, slots + [Full(item)]);
          slots := slots + [Full(item)];
      }
    }

    /** Returns what was stored, forgets exactly that index, and puts it first in line for reuse. */
    method Dealloc(idx: nat) returns (item: T)
      requires Valid() && idx in Live(slots)
      modifies this
      ensures Valid()
      ensures item == old(Live(slots))[idx]
      ensures Live(slots) == old(Live(slots)) - {idx}
      ensures chain == [idx] + old(chain)
    {
      item := slots[idx].item;
      ChainFrame(slots, firstFree, chain, slots[idx := Free(firstFree)]);
      slots := slots[idx := Free(firstFree)];
      chain := [idx] + chain;
      assert chain[1..] == old(chain);
      firstFree := Some(idx);
    }

    /** Indexing: for a live index the slot is full. */
    method Get(idx: nat) returns (item: T)
      requires Valid() && idx in Live(slots)
      ensures item == Live(slots)[idx]
    {
      item := slots[idx].item;
    }

    method Set(idx: nat, item: T)
      requires Valid() && idx in Live(slots)
      modifies this`slots
      ensures Valid() && Live(slots) == old(Live(slots))[idx := item]
    {
      ChainFrame(slots, firstFree, chain, slots[idx := Full(item)]);
      slots := slots[idx := Full(item)];
    }

    /** The free list stays inside the vector and visits every free slot exactly once and no live one. */
    lemma VisitsEachFreeSlotOnce()
      requires Valid()
      ensures forall i | i in chain :: i < |slots|
      ensures forall i: nat | i < |slots| :: multiset(chain)[i] == if slots[i].Free? then 1 else 0
    {
      forall i, j | 0 <= i < j < |chain| ensures chain[i] != chain[j] {
        ChainAcyclic(slots, firstFree, chain, i, j);
      }
      forall i: nat | i < |slots| && slots[i].Free? ensures multiset(chain)[i] == 1 {
        OccursOnce(chain, i);
      }
      forall i | i in chain ensures i < |slots| {
        InBounds(slots, firstFree, chain, i);
      }
    }
  }

  lemma {:induction false} OccursOnce(s: seq<nat>, x: nat)
    requires x in s && forall i, j | 0 <= i < j < |s| :: s[i] != s[j]
    ensures multiset(s)[x] == 1
  {
    assert s == [s[0]] + s[1..];
    if s[0] != x {
      OccursOnce(s[1..], x);
    }
  }

  lemma {:induction false} InBounds<T>(slots: seq<Slot<T>>, first: Option<nat>, p: seq<nat>, i: nat)
    requires Chain(slots, first, p) && i in p
    ensures i < |slots|
    decreases p
  {
    if p[0] != i {
      InBounds(slots, slots[p[0]].nextFree, p[1..], i);
    }
  }
}
