/**
 How a channel mesh is wired, after `register` and `join_with` of
 `channels/channel_mesh.rs`: peers enlist in any order, the last one builds the
 channels, and every peer takes its own row of senders and column of receivers.
 */
module MeshWiring {
  import opened Options

  datatype Role = Producer | Consumer | Both

  datatype Peer = Peer(executorId: nat, role: Role)

  datatype Adapter = Full | Partial

  predicate Connect(adapter: Adapter, from: Role, to: Role) {
    match adapter
    case Full => true
    case Partial => from.Producer? && to.Consumer?
  }

  /** Strictly increasing executor ids. */
  predicate Sorted(peers: seq<Peer>) {
    forall i, j | 0 <= i < j < |peers| :: peers[i].executorId < peers[j].executorId
  }

  /** Whether an executor has joined. */
  predicate Knows(peers: seq<Peer>, executorId: nat) {
    exists p | p in peers :: p.executorId == executorId
  }

  /** How many peers come before this executor. */
  function RankOf(peers: seq<Peer>, executorId: nat): (rank: nat)
    ensures rank <= |peers|
    ensures forall i | 0 <= i < rank :: peers[i].executorId < executorId
    ensures rank < |peers| ==> executorId <= peers[rank].executorId
  {
    if peers == [] || executorId <= peers[0].executorId then 0 else 1 + RankOf(peers[1..], executorId)
  }

  function Inserted(peers: seq<Peer>, p: Peer): seq<Peer> {
    var rank := RankOf(peers, p.executorId);
    peers[..rank] + [p] + peers[rank..]
  }

  /** In sorted peers the rank is where the binary search ends. */
  lemma {:induction false} RankIsIndex(peers: seq<Peer>, index: nat, executorId: nat)
    requires Sorted(peers) && index <= |peers|
    requires forall i | 0 <= i < index :: peers[i].executorId < executorId
    requires index < |peers| ==> executorId <= peers[index].executorId
    ensures index == RankOf(peers, executorId)
    ensures Knows(peers, executorId) <==> index < |peers| && peers[index].executorId == executorId
  {
    if index < |peers| {
      assert peers[index] in peers;
    }
  }

  lemma {:induction false} RankFinds(peers: seq<Peer>, p: Peer)
    requires Sorted(peers) && p in peers
    ensures var rank := RankOf(peers, p.executorId); rank < |peers| && peers[rank] == p
  {
    var i :| 0 <= i < |peers| && peers[i] == p;
    RankIsIndex(peers, i, p.executorId);
  }

  lemma InsertedAt(peers: seq<Peer>, index: nat, p: Peer)
    requires Sorted(peers) && index <= |peers|
    requires forall i | 0 <= i < index :: peers[i].executorId < p.executorId
    requires forall i | index <= i < |peers| :: p.executorId < peers[i].executorId
    ensures var more := peers[..index] + [p] + peers[index..];
            Sorted(more) && multiset(more) == multiset(peers) + multiset{p}
  {
    assert peers == peers[..index] + peers[index..];
  }

  lemma InsertedByRank(peers: seq<Peer>, p: Peer)
    requires Sorted(peers) && !Knows(peers, p.executorId)
    ensures Sorted(Inserted(peers, p)) && multiset(Inserted(peers, p)) == multiset(peers) + multiset{p}
  {
    var rank := RankOf(peers, p.executorId);
    forall i | rank <= i < |peers|
      ensures p.executorId < peers[i].executorId
    {
      assert peers[rank] in peers;
    }
    InsertedAt(peers, rank, p);
  }

  predicate Linked(adapter: Adapter, peers: seq<Peer>, i: nat, j: nat)
    requires i < |peers| && j < |peers|
  {
    i != j && Connect(adapter, peers[i].role, peers[j].role)
  }

  /** How many of the first `k` peers have exactly this role. */
  function RoleCount(peers: seq<Peer>, k: nat, role: Role): (n: nat)
    requires k <= |peers|
    ensures n <= k
  {
    if k == 0 then 0 else RoleCount(peers, k - 1, role) + (if peers[k - 1].role == role then 1 else 0)
  }

  /** The channels a peer ends up with: placeholders are kept in a full mesh and dropped in a partial one. */
  function Collected(halves: seq<Option<nat>>, adapter: Adapter): seq<Option<nat>> {
    if adapter.Full? || halves == [] then halves
    else
      var rest := Collected(halves[..|halves| - 1], adapter);
      var last := halves[|halves| - 1];
      if last.Some? then rest + [last] else rest
  }

  datatype Enlisted = MeshIsFull | JoinedTwice | Joined(last: bool)

  /** The channels of a mesh, by the peer that sends and the peer that receives. */
  type Wire = map<(nat, nat), nat>

  function ChannelAt(wire: Wire, i: nat, j: nat): Option<nat> {
    if (i, j) in wire then Some(wire[(i, j)]) else None
  }

  /** One channel for each linked pair, and no channel twice. */
  ghost predicate WiredFor(adapter: Adapter, peers: seq<Peer>, wire: Wire) {
    && (forall i, j | 0 <= i < |peers| && 0 <= j < |peers| :: (i, j) in wire <==> Linked(adapter, peers, i, j))
    && (forall a, b | a in wire && b in wire :: wire[a] == wire[b] ==> a == b)
  }

  function RowOf(wire: Wire, n: nat, i: nat): (row: seq<Option<nat>>)
    ensures |row| == n && forall k | 0 <= k < n :: row[k] == ChannelAt(wire, i, k)
  {
    seq(n, k requires 0 <= k < n => ChannelAt(wire, i, k))
  }

  function ColumnOf(wire: Wire, n: nat, j: nat): (col: seq<Option<nat>>)
    ensures |col| == n && forall k | 0 <= k < n :: col[k] == ChannelAt(wire, k, j)
  {
    seq(n, k requires 0 <= k < n => ChannelAt(wire, k, j))
  }

  /** What the lock of the mesh protects: the halves that nobody has taken are still in its two matrices. */
  datatype Shared = Shared(peers: seq<Peer>, ready: bool, wire: Wire, taken: set<nat>)

  /** What a peer finds in its row of senders and its column of receivers: nothing when it has been there before. */
  function RowLeft(s: Shared, n: nat, i: nat): seq<Option<nat>> {
    if i in s.taken then seq(n, _ => None) else RowOf(s.wire, n, i)
  }

  function ColumnLeft(s: Shared, n: nat, i: nat): seq<Option<nat>> {
    if i in s.taken then seq(n, _ => None) else ColumnOf(s.wire, n, i)
  }

  /** The first half of `register` */
  function EnlistAnswer(s: Shared, n: nat, executorId: nat): Enlisted {
    if |s.peers| == n then MeshIsFull
    else if Knows(s.peers, executorId) then JoinedTwice
    else Joined(|s.peers| + 1 == n)
  }

  class JoinState {
    const nrPeers: nat
    const adapter: Adapter
    var peers: seq<Peer>
    var ready: bool
    const senders: array2<Option<nat>>
    const receivers: array2<Option<nat>>
    /** The channels as built, and the peers that have taken theirs. */
    ghost var wire: Wire
    ghost var taken: set<nat>

    ghost function Snapshot(): Shared
      reads this
    {
      Shared(peers, ready, wire, taken)
    }

    ghost predicate Valid()
      reads this, senders, receivers
    {
      && senders != receivers
      && senders.Length0 == senders.Length1 == receivers.Length0 == receivers.Length1 == nrPeers
      && |peers| <= nrPeers && Sorted(peers)
      && (forall i, j | 0 <= i < nrPeers && 0 <= j < nrPeers ::
            senders[i, j] == if i in taken then None else ChannelAt(wire, i, j))
      && (forall i, j | 0 <= i < nrPeers && 0 <= j < nrPeers ::
            receivers[i, j] == if j in taken then None else ChannelAt(wire, i, j))
      && (ready ==> |peers| == nrPeers && WiredFor(adapter, peers, wire))
      && (!ready ==> taken == {} && wire == map[])
    }

    constructor (nrPeers: nat, adapter: Adapter)
      ensures Valid() && this.nrPeers == nrPeers && this.adapter == adapter
      ensures Snapshot() == Shared([], false, map[], {})
    {
      this.nrPeers, this.adapter := nrPeers, adapter;
      peers, ready, taken, wire := [], false, {}, map[];
      senders := new Option<nat>[nrPeers, nrPeers]((_, _) => None);
      receivers := new Option<nat>[nrPeers, nrPeers]((_, _) => None);
    }

    /** Where an executor id is, or where it would go. */
    method Search(executorId: nat) returns (found: bool, index: nat)
      requires Valid()
      ensures found <==> Knows(peers, executorId)
      ensures index == RankOf(peers, executorId)
    {
      var lo, hi := 0, |peers|;
      while lo < hi
        invariant 0 <= lo <= hi <= |peers|
        invariant forall i | 0 <= i < lo :: peers[i].executorId < executorId
        invariant forall i | hi <= i < |peers| :: executorId < peers[i].executorId
      {
        var mid := (lo + hi) / 2;
        if peers[mid].executorId < executorId {
          lo := mid + 1;
        } else if executorId < peers[mid].executorId {
          hi := mid;
        } else {
          RankIsIndex(peers, mid, executorId);
          return true, mid;
        }
      }
      RankIsIndex(peers, lo, executorId);
      return false, lo;
    }

    /** The first half of `register`: a new executor takes its place by rank. */
    method Enlist(executorId: nat, role: Role) returns (r: Enlisted)
      requires Valid()
      modifies this`peers
      ensures Valid() && r == EnlistAnswer(old(Snapshot()), nrPeers, executorId)
      ensures peers == if r.Joined? then Inserted(old(peers), Peer(executorId, role)) else old(peers)
    {
      if |peers| == nrPeers {
        return MeshIsFull;
      }
      var found, index := Search(executorId);
      if found {
        return JoinedTwice;
      }
      InsertedByRank(peers, Peer(executorId, role));
      peers := peers[..index] + [Peer(executorId, role)] + peers[index..];
      return Joined(|peers| == nrPeers);
    }

    /** The last joiner's work: one fresh channel for each linked pair. */
    method Build()
      requires Valid() && |peers| == nrPeers
      modifies this`wire, this`ready, senders, receivers
      ensures Valid() && ready && (old(ready) ==> wire == old(wire))
    {
      if ready {
        return;
      }
      var next := 0;
      for i := 0 to nrPeers
        invariant BuiltUpTo(i, 0, next)
      {
        next := BuildRow(i, next);
      }
      ready := true;
    }

    /** The inner loop: the channels from one peer to all the others. */
    method BuildRow(i: nat, first: nat) returns (next: nat)
      requires i < nrPeers && BuiltUpTo(i, 0, first)
      modifies this`wire, senders, receivers
      ensures BuiltUpTo(i + 1, 0, next)
    {
      next := first;
      for j := 0 to nrPeers
        invariant BuiltUpTo(i, j, next)
      {
        if i != j && Connect(adapter, peers[i].role, peers[j].role) {
          AddChannel(i, j, next);
          next := next + 1;
        }
      }
    }

    /** A new channel: one half into each matrix. */
    method AddChannel(i: nat, j: nat, channel: nat)
      requires BuiltUpTo(i, j, channel) && i < nrPeers && j < nrPeers && Linked(adapter, peers, i, j)
      modifies this`wire, senders, receivers
      ensures BuiltUpTo(i, j + 1, channel + 1)
    {
      senders[i, j] := Some(channel);
      receivers[i, j] := Some(channel);
      wire := wire[(i, j) := channel];
    }

    /** The pairs before `(row, col)` are wired, with channel numbers below `next` and never repeated. */
    ghost predicate BuiltUpTo(row: nat, col: nat, next: nat)
      reads this, senders, receivers
    {
      var n := nrPeers;
      && senders != receivers && |peers| == n && Sorted(peers) && taken == {} && !ready
      && senders.Length0 == senders.Length1 == receivers.Length0 == receivers.Length1 == n
      && (forall i, j | 0 <= i < n && 0 <= j < n ::
            senders[i, j] == receivers[i, j] == ChannelAt(wire, i, j))
      && (forall i, j | 0 <= i < n && 0 <= j < n ::
            (i, j) in wire <==> (i < row || (i == row && j < col)) && Linked(adapter, peers, i, j))
      && (forall a | a in wire :: wire[a] < next)
      && (forall a, b | a in wire && b in wire :: wire[a] == wire[b] ==> a == b)
    }

    /** The second half of `register`: the rank of the executor, and its rank among peers of the same role. */
    method Identify(executorId: nat, role: Role) returns (peerId: nat, roleId: nat)
      requires Valid() && ready && Peer(executorId, role) in peers
      ensures peerId == RankOf(peers, executorId) < |peers| && peers[peerId] == Peer(executorId, role)
      ensures roleId == RoleCount(peers, peerId, role)
    {
      var found;
      found, peerId := Search(executorId);
      RankFinds(peers, Peer(executorId, role));
      roleId := 0;
      for i := 0 to peerId
        invariant roleId == RoleCount(peers, i, role)
      {
        if peers[i].role == role {
          roleId := roleId + 1;
        }
      }
    }

    /**
     A peer takes what is left of its senders and its receivers; the halves of other peers
     stay where they are.
     */
    method Take(peerId: nat) returns (row: seq<Option<nat>>, col: seq<Option<nat>>)
      requires Valid() && ready && peerId < nrPeers
      modifies this`taken, senders, receivers
      ensures Valid() && taken == old(taken) + {peerId}
      ensures row == RowLeft(old(Snapshot()), nrPeers, peerId) && col == ColumnLeft(old(Snapshot()), nrPeers, peerId)
    {
      row, col := [], [];
      for i := 0 to nrPeers
        invariant taken == old(taken) && |row| == |col| == i
        invariant row == RowLeft(old(Snapshot()), nrPeers, peerId)[..i]
        invariant col == ColumnLeft(old(Snapshot()), nrPeers, peerId)[..i]
        invariant forall a, b | 0 <= a < nrPeers && 0 <= b < nrPeers ::
                    senders[a, b] == if a in taken || (a == peerId && b < i) then None else ChannelAt(wire, a, b)
        invariant forall a, b | 0 <= a < nrPeers && 0 <= b < nrPeers ::
                    receivers[a, b] == if b in taken || (b == peerId && a < i) then None else ChannelAt(wire, a, b)
      {
        row := row + [senders[peerId, i]];
        senders[peerId, i] := None;
        col := col + [receivers[i, peerId]];
        receivers[i, peerId] := None;
      }
      taken := taken + {peerId};
    }
  }

  /** The loop of `join_with` that keeps or drops the placeholders. */
  method Collect(halves: seq<Option<nat>>, adapter: Adapter) returns (ends: seq<Option<nat>>)
    ensures ends == Collected(halves, adapter)
  {
    ends := [];
    for i := 0 to |halves|
      invariant ends == Collected(halves[..i], adapter)
    {
      assert halves[..i + 1][..i] == halves[..i];
      match halves[i] {
        case None =>
          if adapter.Full? {
            ends := ends + [None];
          }
        case Some(_) =>
          ends := ends + [halves[i]];
      }
    }
    assert halves[..|halves|] == halves;
  }

  // ----------------------------------------------------------------- theorems

  /** Sorted peers are determined by who they are. */
  lemma {:induction false} OrderIndependent(a: seq<Peer>, b: seq<Peer>)
    requires Sorted(a) && Sorted(b) && multiset(a) == multiset(b)
    ensures a == b
    decreases |a|
  {
    if a != [] {
      SameLast(a, b);
      DropLast(a);
      DropLast(b);
      OrderIndependent(a[..|a| - 1], b[..|b| - 1]);
      assert a == a[..|a| - 1] + [a[|a| - 1]] && b == b[..|b| - 1] + [b[|b| - 1]];
    } else {
      assert |multiset(b)| == 0;
    }
  }

  lemma DropLast(a: seq<Peer>)
    requires a != []
    ensures multiset(a[..|a| - 1]) == multiset(a) - multiset{a[|a| - 1]}
  {
    assert a == a[..|a| - 1] + [a[|a| - 1]];
  }

  lemma SameLast(a: seq<Peer>, b: seq<Peer>)
    requires Sorted(a) && Sorted(b) && a != [] && multiset(a) == multiset(b)
    ensures b != [] && a[|a| - 1] == b[|b| - 1]
  {
    assert a[|a| - 1] in multiset(b);
    assert b[|b| - 1] in multiset(a);
    var k :| 0 <= k < |a| && a[k] == b[|b| - 1];
    var l :| 0 <= l < |b| && b[l] == a[|a| - 1];
  }

  /** In a full mesh, sender `j` of peer `i` and receiver `i` of peer `j` are the two halves of one channel. */
  lemma FullMeshPairs(peers: seq<Peer>, wire: Wire, i: nat, j: nat)
    requires WiredFor(Full, peers, wire) && i < |peers| && j < |peers|
    ensures var sends := Collected(RowOf(wire, |peers|, i), Full);
            var receives := Collected(ColumnOf(wire, |peers|, j), Full);
            && |sends| == |receives| == |peers|
            && sends[j] == receives[i] == ChannelAt(wire, i, j)
            && (sends[j].Some? <==> i != j)
  {
  }

  /** Dropping the placeholders puts the entry at `j` where the entries before `j` end. */
  lemma {:induction false} CollectedAt(halves: seq<Option<nat>>, peers: seq<Peer>, role: Role, j: nat)
    requires |halves| <= |peers| && j < |halves| && halves[j].Some?
    requires forall k | 0 <= k < |halves| :: halves[k].Some? <==> peers[k].role == role
    ensures |Collected(halves, Partial)| == RoleCount(peers, |halves|, role)
    ensures RoleCount(peers, j, role) < |Collected(halves, Partial)|
    ensures Collected(halves, Partial)[RoleCount(peers, j, role)] == halves[j]
    decreases |halves|
  {
    var last := |halves| - 1;
    CollectedLength(halves[..last], peers, role);
    if j < last {
      CollectedAt(halves[..last], peers, role, j);
    }
  }

  lemma {:induction false} CollectedLength(halves: seq<Option<nat>>, peers: seq<Peer>, role: Role)
    requires |halves| <= |peers|
    requires forall k | 0 <= k < |halves| :: halves[k].Some? <==> peers[k].role == role
    ensures |Collected(halves, Partial)| == RoleCount(peers, |halves|, role)
    decreases |halves|
  {
    if halves != [] {
      CollectedLength(halves[..|halves| - 1], peers, role);
    }
  }

  /**
   In a partial mesh, the sender a producer finds at a consumer's `consumer_id` and the
   receiver that consumer finds at the producer's `producer_id` are the two halves of
   one channel, and nobody has more ends than there are peers on the other side.
   */
  lemma {:induction false} PartialMeshPairs(peers: seq<Peer>, wire: Wire, i: nat, j: nat)
    requires WiredFor(Partial, peers, wire) && i < |peers| && j < |peers|
    requires peers[i].role.Producer? && peers[j].role.Consumer?
    ensures var sends := Collected(RowOf(wire, |peers|, i), Partial);
            var receives := Collected(ColumnOf(wire, |peers|, j), Partial);
            var consumerId, producerId := RoleCount(peers, j, Consumer), RoleCount(peers, i, Producer);
            && |sends| == RoleCount(peers, |peers|, Consumer) && |receives| == RoleCount(peers, |peers|, Producer)
            && consumerId < |sends| && producerId < |receives|
            && sends[consumerId] == receives[producerId] == ChannelAt(wire, i, j)
            && (i, j) in wire
  {
    assert Linked(Partial, peers, i, j);
    CollectedAt(RowOf(wire, |peers|, i), peers, Consumer, j);
    CollectedAt(ColumnOf(wire, |peers|, j), peers, Producer, i);
  }
}
