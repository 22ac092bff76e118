/**
 How executors join a channel mesh, after `register` and `join_with` of
 `channels/channel_mesh.rs`. Each call takes the lock several times, and other calls come
 in between: to enlist, to build the channels if it was the last, to see whether they are
 built, to look up its ids and to take its ends. A panic under the lock poisons it.
 */
module MeshJoining {
  import opened Words
  import opened Options
  import opened MeshWiring

  /** What a call does the next time it holds the lock, or how it ended. */
  datatype Stage =
    | Arriving
    | Building
    | Polling
    | Identifying
    | Taking(peerId: nat, roleId: nat)
    | Held(peerId: nat, roleId: nat, sends: seq<Option<nat>>, receives: seq<Option<nat>>)
    | Refused
    | Crashed

  datatype Call = Call(peer: Peer, stage: Stage)

  datatype Mesh = Mesh(adapter: Adapter, nrPeers: nat, shared: Shared, poisoned: bool, calls: seq<Call>)

  /** The next locked section of a call; if it is the one that builds, `wire` are the new channels. */
  datatype Move = Move(call: nat, wire: Wire)

  function Start(adapter: Adapter, nrPeers: nat, callers: seq<Peer>): Mesh {
    Mesh(adapter, nrPeers, Shared([], false, map[], {}), false,
         seq(|callers|, c requires 0 <= c < |callers| => Call(callers[c], Arriving)))
  }

  predicate Over(stage: Stage) {
    stage.Held? || stage.Refused? || stage.Crashed?
  }

  ghost predicate Enabled(m: Mesh, e: Move) {
    && e.call < |m.calls| && !Over(m.calls[e.call].stage)
    && (m.calls[e.call].stage.Building? && !m.shared.ready ==> WiredFor(m.adapter, m.shared.peers, e.wire))
  }

  function Goes(m: Mesh, c: nat, stage: Stage, shared: Shared): Mesh
    requires c < |m.calls|
  {
    m.(calls := m.calls[c := m.calls[c].(stage := stage)], shared := shared)
  }

  function Panics(m: Mesh, c: nat): Mesh
    requires c < |m.calls|
  {
    Goes(m, c, Crashed, m.shared).(poisoned := true)
  }

  function Enlist(m: Mesh, c: nat): Mesh
    requires c < |m.calls|
  {
    var p := m.calls[c].peer;
    match EnlistAnswer(m.shared, m.nrPeers, p.executorId)
    case MeshIsFull => Goes(m, c, Refused, m.shared)
    case JoinedTwice => Panics(m, c)
    case Joined(last) =>
      Goes(m, c, if last then Building else Polling, m.shared.(peers := Inserted(m.shared.peers, p)))
  }

  function Identify(m: Mesh, c: nat): Mesh
    requires c < |m.calls|
  {
    var p, peers := m.calls[c].peer, m.shared.peers;
    var rank := RankOf(peers, p.executorId);
    if rank < |peers| && peers[rank].executorId == p.executorId
    then Goes(m, c, Taking(rank, RoleCount(peers, rank, p.role)), m.shared)
    else Panics(m, c)
  }

  function Take(m: Mesh, c: nat, peerId: nat, roleId: nat): Mesh
    requires c < |m.calls|
  {
    var sends := Collected(RowLeft(m.shared, m.nrPeers, peerId), m.adapter);
    var receives := Collected(ColumnLeft(m.shared, m.nrPeers, peerId), m.adapter);
    Goes(m, c, Held(peerId, roleId, sends, receives), m.shared.(taken := m.shared.taken + {peerId}))
  }

  function Build(m: Mesh, c: nat, wire: Wire): Mesh
    requires c < |m.calls|
  {
    Goes(m, c, Identifying, if m.shared.ready then m.shared else m.shared.(ready := true, wire := wire))
  }

  function Apply(m: Mesh, e: Move): Mesh
    requires e.call < |m.calls|
  {
    if m.poisoned then Panics(m, e.call)
    else
      match m.calls[e.call].stage
      case Arriving => Enlist(m, e.call)
      case Building => Build(m, e.call, e.wire)
      case Polling => if m.shared.ready then Goes(m, e.call, Identifying, m.shared) else m
      case Identifying => Identify(m, e.call)
      case Taking(peerId, roleId) => Take(m, e.call, peerId, roleId)
      case _ => m
  }

  // ---------------------------------------------------------------- invariant

  /** These are the ids of this peer, now and for good. */
  predicate Ranked(m: Mesh, p: Peer, peerId: nat, roleId: nat) {
    && m.shared.ready && peerId < |m.shared.peers| && m.shared.peers[peerId] == p
    && roleId == RoleCount(m.shared.peers, peerId, p.role)
  }

  /** What a call holds, by the ids it was given. */
  predicate HoldsAll(m: Mesh, call: Call)
    requires call.stage.Held?
  {
    var k := call.stage.peerId;
    && Ranked(m, call.peer, k, call.stage.roleId)
    && call.stage.sends == Collected(RowOf(m.shared.wire, m.nrPeers, k), m.adapter)
    && call.stage.receives == Collected(ColumnOf(m.shared.wire, m.nrPeers, k), m.adapter)
  }

  predicate CallOk(m: Mesh, c: nat)
    requires c < |m.calls|
  {
    var p := m.calls[c].peer;
    match m.calls[c].stage
    case Building => p in m.shared.peers && |m.shared.peers| == m.nrPeers
    case Polling => p in m.shared.peers
    case Identifying => p in m.shared.peers && m.shared.ready
    case Taking(peerId, roleId) => Ranked(m, p, peerId, roleId) && peerId !in m.shared.taken
    case Held(peerId, _, _, _) => HoldsAll(m, m.calls[c]) && peerId in m.shared.taken
    case _ => true
  }

  predicate Entered(stage: Stage) {
    stage.Building? || stage.Polling? || stage.Identifying? || stage.Taking? || stage.Held?
  }

  /** No two calls of one executor get in. */
  predicate Apart(m: Mesh, c: nat, d: nat)
    requires c < |m.calls| && d < |m.calls|
  {
    Entered(m.calls[c].stage) && Entered(m.calls[d].stage) ==>
      m.calls[c].peer.executorId != m.calls[d].peer.executorId
  }

  predicate HeldBy(m: Mesh, peerId: nat, c: nat) {
    c < |m.calls| && m.calls[c].stage.Held? && m.calls[c].stage.peerId == peerId
  }

  ghost predicate Inv(m: Mesh) {
    && Sorted(m.shared.peers) && |m.shared.peers| <= m.nrPeers
    && (m.shared.ready ==> |m.shared.peers| == m.nrPeers && WiredFor(m.adapter, m.shared.peers, m.shared.wire))
    && (!m.shared.ready ==> m.shared.taken == {})
    && (forall c: nat | c < |m.calls| :: CallOk(m, c))
    && (forall c: nat, d: nat | c < d < |m.calls| :: Apart(m, c, d))
    && (forall i | i in m.shared.taken :: exists c: nat :: HeldBy(m, i, c))
  }

  lemma EnteredIsKnown(m: Mesh, c: nat)
    requires Inv(m) && c < |m.calls| && Entered(m.calls[c].stage)
    ensures m.calls[c].peer in m.shared.peers
  {
    assert CallOk(m, c);
  }

  /** A step of call `c` that leaves what the lock protects alone. */
  lemma MoveOn(m: Mesh, c: nat, stage: Stage)
    requires Inv(m) && c < |m.calls| && !Over(m.calls[c].stage) && !stage.Held?
    requires Entered(stage) ==> Entered(m.calls[c].stage)
    requires CallOk(Goes(m, c, stage, m.shared), c)
    ensures Inv(Goes(m, c, stage, m.shared))
  {
    var m' := Goes(m, c, stage, m.shared);
    forall d: nat | d < |m'.calls|
      ensures CallOk(m', d)
    {
      assert CallOk(m, d);
    }
    forall a: nat, b: nat | a < b < |m'.calls|
      ensures Apart(m', a, b)
    {
      assert Apart(m, a, b);
    }
    forall i | i in m'.shared.taken
      ensures exists d: nat :: HeldBy(m', i, d)
    {
      var d: nat :| HeldBy(m, i, d);
      assert HeldBy(m', i, d);
    }
  }

  lemma JoinKeepsInv(m: Mesh, c: nat)
    requires Inv(m) && c < |m.calls| && m.calls[c].stage.Arriving?
    requires EnlistAnswer(m.shared, m.nrPeers, m.calls[c].peer.executorId).Joined?
    ensures Inv(Enlist(m, c))
  {
    var m', p := Enlist(m, c), m.calls[c].peer;
    InsertedByRank(m.shared.peers, p);
    assert forall q :: q in multiset(m'.shared.peers) <==> q in m'.shared.peers;
    assert !m.shared.ready && m'.shared.taken == {};
    forall d: nat | d < |m'.calls|
      ensures CallOk(m', d)
    {
      assert CallOk(m, d);
    }
    forall a: nat, b: nat | a < b < |m'.calls|
      ensures Apart(m', a, b)
    {
      assert Apart(m, a, b);
      if Entered(m.calls[a].stage) { EnteredIsKnown(m, a); }
      if Entered(m.calls[b].stage) { EnteredIsKnown(m, b); }
    }
  }

  lemma BuildKeepsInv(m: Mesh, c: nat, wire: Wire)
    requires Inv(m) && c < |m.calls| && m.calls[c].stage.Building? && !m.shared.ready
    requires WiredFor(m.adapter, m.shared.peers, wire)
    ensures Inv(Build(m, c, wire))
  {
    var m' := Build(m, c, wire);
    assert CallOk(m, c);
    forall d: nat | d < |m'.calls|
      ensures CallOk(m', d)
    {
      assert CallOk(m, d);
    }
    forall a: nat, b: nat | a < b < |m'.calls|
      ensures Apart(m', a, b)
    {
      assert Apart(m, a, b);
    }
  }

  /** A call that has looked its ids up is the first to come for the ends of that peer. */
  lemma NotTakenYet(m: Mesh, c: nat, peerId: nat)
    requires Inv(m) && c < |m.calls| && m.calls[c].stage.Identifying?
    requires peerId < |m.shared.peers| && m.shared.peers[peerId] == m.calls[c].peer
    ensures peerId !in m.shared.taken
  {
    forall d: nat
      ensures !HeldBy(m, peerId, d)
    {
      if d < |m.calls| {
        assert CallOk(m, d);
        if c < d { assert Apart(m, c, d); } else if d < c { assert Apart(m, d, c); }
      }
    }
  }

  lemma IdentifyKeepsInv(m: Mesh, c: nat)
    requires Inv(m) && c < |m.calls| && m.calls[c].stage.Identifying?
    ensures Inv(Identify(m, c)) && Identify(m, c).calls[c].stage.Taking?
  {
    var p, peers := m.calls[c].peer, m.shared.peers;
    assert CallOk(m, c);
    RankFinds(peers, p);
    var rank := RankOf(peers, p.executorId);
    NotTakenYet(m, c, rank);
    MoveOn(m, c, Taking(rank, RoleCount(peers, rank, p.role)));
  }

  lemma TakeKeepsInv(m: Mesh, c: nat)
    requires Inv(m) && c < |m.calls| && m.calls[c].stage.Taking?
    ensures Inv(Take(m, c, m.calls[c].stage.peerId, m.calls[c].stage.roleId))
  {
    var k := m.calls[c].stage.peerId;
    var m' := Take(m, c, k, m.calls[c].stage.roleId);
    assert CallOk(m, c);
    forall d: nat | d < |m'.calls|
      ensures CallOk(m', d)
    {
      assert CallOk(m, d);
      if d < c { assert Apart(m, d, c); } else if c < d { assert Apart(m, c, d); }
    }
    forall a: nat, b: nat | a < b < |m'.calls|
      ensures Apart(m', a, b)
    {
      assert Apart(m, a, b);
    }
    forall i | i in m'.shared.taken
      ensures exists d: nat :: HeldBy(m', i, d)
    {
      if i == k {
        assert HeldBy(m', i, c);
      } else {
        var d: nat :| HeldBy(m, i, d);
        assert HeldBy(m', i, d);
      }
    }
  }

  lemma PanicKeepsInv(m: Mesh, c: nat)
    requires Inv(m) && c < |m.calls| && !Over(m.calls[c].stage)
    ensures Inv(Panics(m, c))
  {
    MoveOn(m, c, Crashed);
    var m' := Goes(m, c, Crashed, m.shared);
    Poison(m');
  }

  lemma Poison(m: Mesh)
    requires Inv(m)
    ensures Inv(m.(poisoned := true))
  {
    var m' := m.(poisoned := true);
    forall d: nat | d < |m'.calls|
      ensures CallOk(m', d)
    {
      assert CallOk(m, d);
    }
    forall a: nat, b: nat | a < b < |m'.calls|
      ensures Apart(m', a, b)
    {
      assert Apart(m, a, b);
    }
    forall i | i in m'.shared.taken
      ensures exists d: nat :: HeldBy(m', i, d)
    {
      var d: nat :| HeldBy(m, i, d);
      assert HeldBy(m', i, d);
    }
  }

  lemma ApplyKeepsInv(m: Mesh, e: Move)
    requires Inv(m) && Enabled(m, e)
    ensures Inv(Apply(m, e))
  {
    var c := e.call;
    assert CallOk(m, c);
    if m.poisoned {
      PanicKeepsInv(m, c);
    } else {
      match m.calls[c].stage
      case Arriving =>
        match EnlistAnswer(m.shared, m.nrPeers, m.calls[c].peer.executorId) {
          case MeshIsFull => MoveOn(m, c, Refused);
          case JoinedTwice => PanicKeepsInv(m, c);
          case Joined(_) => JoinKeepsInv(m, c);
        }
      case Building => if m.shared.ready { MoveOn(m, c, Identifying); } else { BuildKeepsInv(m, c, e.wire); }
      case Polling => if m.shared.ready { MoveOn(m, c, Identifying); }
      case Identifying => IdentifyKeepsInv(m, c);
      case Taking(_, _) => TakeKeepsInv(m, c);
    }
  }

  // -------------------------------------------------------------------- runs

  ghost predicate IsRun(m: Mesh, moves: seq<Move>)
    decreases |moves|
  {
    moves == [] || (Enabled(m, moves[0]) && IsRun(Apply(m, moves[0]), moves[1..]))
  }

  ghost function After(m: Mesh, moves: seq<Move>): Mesh
    requires IsRun(m, moves)
    decreases |moves|
  {
    if moves == [] then m else After(Apply(m, moves[0]), moves[1..])
  }

  lemma {:induction false} RunKeepsInv(m: Mesh, moves: seq<Move>)
    requires Inv(m) && IsRun(m, moves)
    ensures Inv(After(m, moves))
    decreases |moves|
  {
    if moves != [] {
      ApplyKeepsInv(m, moves[0]);
      RunKeepsInv(Apply(m, moves[0]), moves[1..]);
    }
  }

  /** The mesh, who calls, and that nobody else is let in. */
  predicate SameCallers(m: Mesh, adapter: Adapter, nrPeers: nat, callers: seq<Peer>) {
    && m.adapter == adapter && m.nrPeers == nrPeers && |m.calls| == |callers|
    && (forall c | 0 <= c < |callers| :: m.calls[c].peer == callers[c])
    && (forall p | p in m.shared.peers :: p in callers)
  }

  lemma StepSameCallers(m: Mesh, e: Move, callers: seq<Peer>)
    requires Enabled(m, e) && SameCallers(m, m.adapter, m.nrPeers, callers)
    ensures SameCallers(Apply(m, e), m.adapter, m.nrPeers, callers)
  {
    assert callers[e.call] in callers;
  }

  lemma {:induction false} RunSameCallers(m: Mesh, moves: seq<Move>, callers: seq<Peer>)
    requires IsRun(m, moves) && SameCallers(m, m.adapter, m.nrPeers, callers)
    ensures SameCallers(After(m, moves), m.adapter, m.nrPeers, callers)
    decreases |moves|
  {
    if moves != [] {
      StepSameCallers(m, moves[0], callers);
      RunSameCallers(Apply(m, moves[0]), moves[1..], callers);
    }
  }

  ghost predicate IsMeshRun(adapter: Adapter, nrPeers: nat, callers: seq<Peer>, moves: seq<Move>) {
    IsRun(Start(adapter, nrPeers, callers), moves)
  }

  lemma {:induction false} Reached(adapter: Adapter, nrPeers: nat, callers: seq<Peer>, moves: seq<Move>)
    returns (m: Mesh)
    requires IsMeshRun(adapter, nrPeers, callers, moves)
    ensures m == After(Start(adapter, nrPeers, callers), moves)
    ensures Inv(m) && SameCallers(m, adapter, nrPeers, callers)
  {
    m := After(Start(adapter, nrPeers, callers), moves);
    RunKeepsInv(Start(adapter, nrPeers, callers), moves);
    RunSameCallers(Start(adapter, nrPeers, callers), moves, callers);
  }

  // ------------------------------------------------------------------- panics

  /** The lock is poisoned exactly when some call has panicked. */
  predicate Marked(m: Mesh) {
    m.poisoned <==> exists c | 0 <= c < |m.calls| :: m.calls[c].stage.Crashed?
  }

  lemma StepMarked(m: Mesh, e: Move)
    requires Enabled(m, e) && Marked(m)
    ensures Marked(Apply(m, e))
    ensures m.poisoned ==> Apply(m, e) == m.(calls := m.calls[e.call := m.calls[e.call].(stage := Crashed)])
  {
    var m' := Apply(m, e);
    assert forall c | 0 <= c < |m.calls| :: c != e.call ==> m'.calls[c] == m.calls[c];
    assert m'.poisoned <==> m.poisoned || m'.calls[e.call].stage.Crashed?;
    if m'.poisoned {
      assert m'.calls[e.call].stage.Crashed?;
    }
  }

  lemma {:induction false} RunMarked(m: Mesh, moves: seq<Move>)
    requires IsRun(m, moves) && Marked(m)
    ensures Marked(After(m, moves)) && |After(m, moves).calls| == |m.calls|
    ensures m.poisoned ==> After(m, moves).poisoned && After(m, moves).shared == m.shared
    ensures m.poisoned ==> forall c | 0 <= c < |m.calls| ::
              After(m, moves).calls[c].stage in {m.calls[c].stage, Crashed}
    decreases |moves|
  {
    if moves != [] {
      StepMarked(m, moves[0]);
      RunMarked(Apply(m, moves[0]), moves[1..]);
    }
  }

  /**
   Once a call of a mesh has panicked, every later step of any call panics: from there on
   nobody gets in, is refused or takes an end.
   */
  lemma {:induction false} PanicsSpread(adapter: Adapter, nrPeers: nat, callers: seq<Peer>,
                                        before: seq<Move>, c: nat, moves: seq<Move>, d: nat)
    requires IsMeshRun(adapter, nrPeers, callers, before)
    requires var m := After(Start(adapter, nrPeers, callers), before);
             && c < |m.calls| && m.calls[c].stage.Crashed? && d < |m.calls|
             && IsRun(m, moves)
    ensures var m := After(Start(adapter, nrPeers, callers), before);
            var m' := After(m, moves);
            && d < |m'.calls| && m'.shared == m.shared
            && m'.calls[d].stage in {m.calls[d].stage, Crashed}
  {
    RunMarked(Start(adapter, nrPeers, callers), before);
    RunMarked(After(Start(adapter, nrPeers, callers), before), moves);
  }

  // -------------------------------------------------------------- ids by counting

  /** How many have a smaller executor id, and the given role if one is given. */
  function Smaller(peers: seq<Peer>, executorId: nat, role: Option<Role>): nat {
    if peers == [] then 0
    else Smaller(peers[..|peers| - 1], executorId, role) + Counts(peers[|peers| - 1], executorId, role)
  }

  function Counts(p: Peer, executorId: nat, role: Option<Role>): nat {
    if p.executorId < executorId && (role.None? || role.value == p.role) then 1 else 0
  }

  lemma {:induction false} SmallerConcat(a: seq<Peer>, b: seq<Peer>, executorId: nat, role: Option<Role>)
    ensures Smaller(a + b, executorId, role) == Smaller(a, executorId, role) + Smaller(b, executorId, role)
    decreases |b|
  {
    if b == [] {
      assert a + b == a;
    } else {
      var n := |b| - 1;
      SmallerConcat(a, b[..n], executorId, role);
      assert (a + b)[..|a + b| - 1] == a + b[..n];
    }
  }

  lemma RemoveOne(b: seq<Peer>, i: nat, executorId: nat, role: Option<Role>) returns (rest: seq<Peer>)
    requires i < |b|
    ensures multiset(rest) == multiset(b) - multiset{b[i]}
    ensures Smaller(b, executorId, role) == Smaller(rest, executorId, role) + Counts(b[i], executorId, role)
  {
    rest := b[..i] + b[i + 1..];
    assert b == b[..i + 1] + b[i + 1..] && b[..i + 1] == b[..i] + [b[i]];
    SmallerConcat(b[..i], b[i + 1..], executorId, role);
    SmallerConcat(b[..i + 1], b[i + 1..], executorId, role);
    assert b[..i + 1][..i] == b[..i];
  }

  /** Counting does not depend on the order. */
  lemma {:induction false} SmallerAnyOrder(a: seq<Peer>, b: seq<Peer>, executorId: nat, role: Option<Role>)
    requires multiset(a) == multiset(b)
    ensures Smaller(a, executorId, role) == Smaller(b, executorId, role)
    decreases |a|
  {
    if a == [] {
      assert |multiset(b)| == 0;
    } else {
      var n := |a| - 1;
      DropLast(a);
      assert a[n] in multiset(b);
      var i :| 0 <= i < |b| && b[i] == a[n];
      var rest := RemoveOne(b, i, executorId, role);
      SmallerAnyOrder(a[..n], rest, executorId, role);
    }
  }

  /** Of sorted peers, exactly those before a peer are smaller than it. */
  lemma {:induction false} SmallerIsBefore(peers: seq<Peer>, n: nat, k: nat, role: Role)
    requires Sorted(peers) && k < |peers| && n <= |peers|
    ensures Smaller(peers[..n], peers[k].executorId, None) == if n <= k then n else k
    ensures Smaller(peers[..n], peers[k].executorId, Some(role)) == RoleCount(peers, if n <= k then n else k, role)
    decreases n
  {
    if n > 0 {
      SmallerIsBefore(peers, n - 1, k, role);
      assert peers[..n][..n - 1] == peers[..n - 1];
    }
  }

  /** If as many distinct callers got in as called, all of them did. */
  lemma AllGotIn(peers: seq<Peer>, callers: seq<Peer>)
    requires Sorted(peers) && (forall p | p in peers :: p in callers) && |peers| == |callers|
    ensures multiset(peers) == multiset(callers)
  {
    forall p: Peer
      ensures multiset(peers)[p] <= multiset(callers)[p]
    {
      OnceAtMost(peers, p);
      if p in peers {
        assert p in multiset(callers);
      }
    }
    var rest := multiset(callers) - multiset(peers);
    assert multiset(callers) == multiset(peers) + rest;
    assert |rest| == 0;
  }

  lemma {:induction false} OnceAtMost(peers: seq<Peer>, p: Peer)
    requires Sorted(peers)
    ensures multiset(peers)[p] <= 1
  {
    if peers != [] {
      var n := |peers| - 1;
      assert peers == peers[..n] + [peers[n]];
      OnceAtMost(peers[..n], p);
      if p == peers[n] {
        assert p !in peers[..n];
      }
    }
  }

  // ----------------------------------------------------------------- theorems

  /**
   In every interleaving, whoever comes to take the ends of a peer finds the channels
   built, and is the first to come for them.
   */
  lemma {:induction false} TakesFirst(adapter: Adapter, nrPeers: nat, callers: seq<Peer>, moves: seq<Move>, c: nat)
    requires IsMeshRun(adapter, nrPeers, callers, moves) && c < |callers|
    ensures var m := After(Start(adapter, nrPeers, callers), moves);
            && |m.calls| == |callers|
            && (m.calls[c].stage.Taking? ==>
                  m.shared.ready && m.calls[c].stage.peerId < nrPeers && m.calls[c].stage.peerId !in m.shared.taken)
  {
    var m := Reached(adapter, nrPeers, callers, moves);
    assert CallOk(m, c);
  }

  /** The ids of a call that holds its ends are what counting gives, if the others who got in are `members`. */
  lemma {:induction false} IdsByCounting(m: Mesh, c: nat, members: seq<Peer>)
    requires Inv(m) && c < |m.calls| && m.calls[c].stage.Held? && multiset(m.shared.peers) == multiset(members)
    ensures var p, stage := m.calls[c].peer, m.calls[c].stage;
            && stage.peerId == Smaller(members, p.executorId, None)
            && stage.roleId == Smaller(members, p.executorId, Some(p.role))
  {
    var p, k, peers := m.calls[c].peer, m.calls[c].stage.peerId, m.shared.peers;
    assert CallOk(m, c);
    SmallerIsBefore(peers, |peers|, k, p.role);
    assert peers[..|peers|] == peers;
    SmallerAnyOrder(peers, members, p.executorId, None);
    SmallerAnyOrder(peers, members, p.executorId, Some(p.role));
  }

  lemma HeldMeansFull(m: Mesh, c: nat, callers: seq<Peer>)
    requires Inv(m) && c < |m.calls| && m.calls[c].stage.Held? && SameCallers(m, m.adapter, |callers|, callers)
    ensures multiset(m.shared.peers) == multiset(callers)
  {
    assert CallOk(m, c);
    AllGotIn(m.shared.peers, callers);
  }

  /**
   When as many executors call as the mesh has places, each gets the same ids in every
   interleaving: its peer id is the number of callers with a smaller executor id, and its
   role id the number of those in the same role.
   */
  lemma {:induction false} IdsExact(adapter: Adapter, callers: seq<Peer>, moves: seq<Move>, c: nat)
    requires IsMeshRun(adapter, |callers|, callers, moves) && c < |callers|
    ensures var m := After(Start(adapter, |callers|, callers), moves);
            && |m.calls| == |callers|
            && (m.calls[c].stage.Held? ==>
                  && m.calls[c].stage.peerId == Smaller(callers, callers[c].executorId, None)
                  && m.calls[c].stage.roleId == Smaller(callers, callers[c].executorId, Some(callers[c].role)))
  {
    var m := Reached(adapter, |callers|, callers, moves);
    if m.calls[c].stage.Held? {
      HeldMeansFull(m, c, callers);
      IdsByCounting(m, c, callers);
    }
  }

  /** Ends in the same places. */
  predicate SameShape(a: seq<Option<nat>>, b: seq<Option<nat>>) {
    |a| == |b| && forall k | 0 <= k < |a| :: a[k].Some? <==> b[k].Some?
  }

  lemma {:induction false} CollectedSameShape(a: seq<Option<nat>>, b: seq<Option<nat>>, adapter: Adapter)
    requires SameShape(a, b)
    ensures SameShape(Collected(a, adapter), Collected(b, adapter))
    decreases |a|
  {
    if adapter.Partial? && a != [] {
      CollectedSameShape(a[..|a| - 1], b[..|b| - 1], adapter);
    }
  }

  /** Equal peers leave a call with equal ids and with ends in the same places. */
  lemma SamePeersSameEnds(m: Mesh, m': Mesh, a: Call, b: Call)
    requires m.adapter == m'.adapter && m.nrPeers == m'.nrPeers == |m.shared.peers| && m.shared.peers == m'.shared.peers
    requires WiredFor(m.adapter, m.shared.peers, m.shared.wire) && WiredFor(m.adapter, m.shared.peers, m'.shared.wire)
    requires a.stage.Held? && b.stage.Held? && HoldsAll(m, a) && HoldsAll(m', b) && a.stage.peerId == b.stage.peerId
    ensures SameShape(a.stage.sends, b.stage.sends) && SameShape(a.stage.receives, b.stage.receives)
  {
    var k, n := a.stage.peerId, m.nrPeers;
    forall i | 0 <= i < n
      ensures ChannelAt(m.shared.wire, k, i).Some? <==> ChannelAt(m'.shared.wire, k, i).Some?
      ensures ChannelAt(m.shared.wire, i, k).Some? <==> ChannelAt(m'.shared.wire, i, k).Some?
    {
    }
    CollectedSameShape(RowOf(m.shared.wire, n, k), RowOf(m'.shared.wire, n, k), m.adapter);
    CollectedSameShape(ColumnOf(m.shared.wire, n, k), ColumnOf(m'.shared.wire, n, k), m.adapter);
  }

  /** Two meshes of the same calls that let the same peers in. */
  ghost predicate SameMembers(m: Mesh, m': Mesh, c: nat) {
    && c < |m.calls| == |m'.calls| && m.calls[c].stage.Held? && m'.calls[c].stage.Held?
    && multiset(m.shared.peers) == multiset(m'.shared.peers)
  }

  /**
   However many call, in any two interleavings that let the same executors in, each of
   these gets the same ids, and ends in the same places.
   */
  lemma {:induction false} SameInEveryOrder(adapter: Adapter, nrPeers: nat, callers: seq<Peer>,
                                            one: seq<Move>, other: seq<Move>, c: nat)
    requires IsMeshRun(adapter, nrPeers, callers, one) && IsMeshRun(adapter, nrPeers, callers, other)
    ensures var m, m' := After(Start(adapter, nrPeers, callers), one), After(Start(adapter, nrPeers, callers), other);
            SameMembers(m, m', c) ==>
              && m.calls[c].stage.peerId == m'.calls[c].stage.peerId
              && m.calls[c].stage.roleId == m'.calls[c].stage.roleId
              && SameShape(m.calls[c].stage.sends, m'.calls[c].stage.sends)
              && SameShape(m.calls[c].stage.receives, m'.calls[c].stage.receives)
  {
    var m := Reached(adapter, nrPeers, callers, one);
    var m' := Reached(adapter, nrPeers, callers, other);
    if SameMembers(m, m', c) {
      IdsByCounting(m, c, m'.shared.peers);
      IdsByCounting(m', c, m'.shared.peers);
      OrderIndependent(m.shared.peers, m'.shared.peers);
      assert CallOk(m, c) && CallOk(m', c);
      SamePeersSameEnds(m, m', m.calls[c], m'.calls[c]);
    }
  }

  /** The ends that two calls hold for each other are the two halves of one channel. */
  ghost predicate Meet(adapter: Adapter, a: Call, b: Call)
    requires a.stage.Held? && b.stage.Held?
  {
    match adapter
    case Full =>
      && b.stage.peerId < |a.stage.sends| && a.stage.peerId < |b.stage.receives|
      && a.stage.sends[b.stage.peerId] == b.stage.receives[a.stage.peerId]
      && (a.stage.sends[b.stage.peerId].Some? <==> a.stage.peerId != b.stage.peerId)
    case Partial =>
      a.peer.role.Producer? && b.peer.role.Consumer? ==>
        && b.stage.roleId < |a.stage.sends| && a.stage.roleId < |b.stage.receives|
        && a.stage.sends[b.stage.roleId] == b.stage.receives[a.stage.roleId]
        && a.stage.sends[b.stage.roleId].Some?
  }

  lemma FullMeet(m: Mesh, a: Call, b: Call)
    requires a.stage.Held? && b.stage.Held? && HoldsAll(m, a) && HoldsAll(m, b) && m.adapter.Full?
    requires |m.shared.peers| == m.nrPeers && WiredFor(m.adapter, m.shared.peers, m.shared.wire)
    ensures Meet(m.adapter, a, b)
  {
    FullMeshPairs(m.shared.peers, m.shared.wire, a.stage.peerId, b.stage.peerId);
  }

  lemma PartialMeet(m: Mesh, a: Call, b: Call)
    requires a.stage.Held? && b.stage.Held? && HoldsAll(m, a) && HoldsAll(m, b) && m.adapter.Partial?
    requires |m.shared.peers| == m.nrPeers && WiredFor(m.adapter, m.shared.peers, m.shared.wire)
    ensures Meet(m.adapter, a, b)
  {
    if a.peer.role.Producer? && b.peer.role.Consumer? {
      PartialMeshPairs(m.shared.peers, m.shared.wire, a.stage.peerId, b.stage.peerId);
    }
  }

  lemma HeldMeet(m: Mesh, a: nat, b: nat)
    requires Inv(m) && a < |m.calls| && b < |m.calls| && m.calls[a].stage.Held? && m.calls[b].stage.Held?
    ensures Meet(m.adapter, m.calls[a], m.calls[b])
  {
    assert CallOk(m, a) && CallOk(m, b);
    if m.adapter.Full? {
      FullMeet(m, m.calls[a], m.calls[b]);
    } else {
      PartialMeet(m, m.calls[a], m.calls[b]);
    }
  }

  lemma OneCallEach(m: Mesh, a: nat, b: nat)
    requires Inv(m) && a < |m.calls| && b < |m.calls| && m.calls[a].stage.Held? && m.calls[b].stage.Held?
    requires m.calls[a].stage.peerId == m.calls[b].stage.peerId
    ensures a == b
  {
    assert CallOk(m, a) && CallOk(m, b);
    assert a < b ==> Apart(m, a, b);
    assert b < a ==> Apart(m, b, a);
  }

  lemma {:induction false} CollectedFrom(halves: seq<Option<nat>>, adapter: Adapter, end: Option<nat>)
    requires end in Collected(halves, adapter)
    ensures end in halves
  {
    if adapter.Partial? && halves != [] && end != halves[|halves| - 1] {
      CollectedFrom(halves[..|halves| - 1], adapter, end);
    }
  }

  /** A sending half is in one call's hands only. */
  lemma OneSender(m: Mesh, a: nat, b: nat, channel: nat)
    requires Inv(m) && a < |m.calls| && b < |m.calls| && m.calls[a].stage.Held? && m.calls[b].stage.Held?
    requires Some(channel) in m.calls[a].stage.sends && Some(channel) in m.calls[b].stage.sends
    ensures a == b
  {
    assert CallOk(m, a) && CallOk(m, b);
    var i, j, n, wire := m.calls[a].stage.peerId, m.calls[b].stage.peerId, m.nrPeers, m.shared.wire;
    CollectedFrom(RowOf(wire, n, i), m.adapter, Some(channel));
    CollectedFrom(RowOf(wire, n, j), m.adapter, Some(channel));
    var k :| 0 <= k < n && ChannelAt(wire, i, k) == Some(channel);
    var l :| 0 <= l < n && ChannelAt(wire, j, l) == Some(channel);
    assert (i, k) == (j, l);
    OneCallEach(m, a, b);
  }

  lemma OneReceiver(m: Mesh, a: nat, b: nat, channel: nat)
    requires Inv(m) && a < |m.calls| && b < |m.calls| && m.calls[a].stage.Held? && m.calls[b].stage.Held?
    requires Some(channel) in m.calls[a].stage.receives && Some(channel) in m.calls[b].stage.receives
    ensures a == b
  {
    assert CallOk(m, a) && CallOk(m, b);
    var i, j, n, wire := m.calls[a].stage.peerId, m.calls[b].stage.peerId, m.nrPeers, m.shared.wire;
    CollectedFrom(ColumnOf(wire, n, i), m.adapter, Some(channel));
    CollectedFrom(ColumnOf(wire, n, j), m.adapter, Some(channel));
    var k :| 0 <= k < n && ChannelAt(wire, k, i) == Some(channel);
    var l :| 0 <= l < n && ChannelAt(wire, l, j) == Some(channel);
    assert (k, i) == (l, j);
    OneCallEach(m, a, b);
  }

  /**
   In every interleaving, the ends that two calls hold for each other belong together, and
   no half of a channel is in the hands of two calls.
   */
  lemma {:induction false} EndsMeet(adapter: Adapter, nrPeers: nat, callers: seq<Peer>, moves: seq<Move>,
                                    a: nat, b: nat)
    requires IsMeshRun(adapter, nrPeers, callers, moves) && a < |callers| && b < |callers|
    ensures var m := After(Start(adapter, nrPeers, callers), moves);
            && |m.calls| == |callers|
            && (m.calls[a].stage.Held? && m.calls[b].stage.Held? ==>
                  && Meet(adapter, m.calls[a], m.calls[b])
                  && (a != b ==>
                        forall channel :: Some(channel) in m.calls[a].stage.sends ==>
                          Some(channel) !in m.calls[b].stage.sends)
                  && (a != b ==>
                        forall channel :: Some(channel) in m.calls[a].stage.receives ==>
                          Some(channel) !in m.calls[b].stage.receives))
  {
    var m := Reached(adapter, nrPeers, callers, moves);
    if m.calls[a].stage.Held? && m.calls[b].stage.Held? {
      HeldMeet(m, a, b);
      forall channel | Some(channel) in m.calls[a].stage.sends && Some(channel) in m.calls[b].stage.sends
        ensures a == b
      {
        OneSender(m, a, b, channel);
      }
      forall channel | Some(channel) in m.calls[a].stage.receives && Some(channel) in m.calls[b].stage.receives
        ensures a == b
      {
        OneReceiver(m, a, b, channel);
      }
    }
  }

  // ----------------------------------------------------------------- everyone joins

  predicate Distinct(callers: seq<Peer>) {
    forall a, b | 0 <= a < b < |callers| :: callers[a].executorId != callers[b].executorId
  }

  /** Whoever has yet to arrive is not there, and nothing has gone wrong. */
  predicate Expected(m: Mesh, c: nat)
    requires c < |m.calls|
  {
    && (m.calls[c].stage.Arriving? ==> !Knows(m.shared.peers, m.calls[c].peer.executorId))
    && !m.calls[c].stage.Refused? && !m.calls[c].stage.Crashed?
  }

  predicate Arrives(m: Mesh, c: nat) {
    c < |m.calls| && m.calls[c].stage.Arriving?
  }

  predicate Builds(m: Mesh, c: nat) {
    c < |m.calls| && m.calls[c].stage.Building?
  }

  /** A mesh in which as many distinct executors call as there are places: the last one in builds. */
  ghost predicate Smooth(m: Mesh, callers: seq<Peer>) {
    && SameCallers(m, m.adapter, |callers|, callers) && Distinct(callers) && !m.poisoned
    && (forall c: nat | c < |m.calls| :: Expected(m, c))
    && (0 < |m.shared.peers| == m.nrPeers && !m.shared.ready ==> exists c: nat :: Builds(m, c))
  }

  lemma FullMeansThere(m: Mesh, c: nat, callers: seq<Peer>)
    requires Inv(m) && SameCallers(m, m.adapter, |callers|, callers) && c < |m.calls| && |m.shared.peers| == m.nrPeers
    ensures m.calls[c].peer in m.shared.peers
  {
    AllGotIn(m.shared.peers, callers);
    assert callers[c] in multiset(m.shared.peers);
  }

  /** There is a place for everyone who arrives. */
  lemma HasPlace(m: Mesh, c: nat, callers: seq<Peer>)
    requires Inv(m) && Smooth(m, callers) && c < |m.calls| && m.calls[c].stage.Arriving?
    ensures EnlistAnswer(m.shared, m.nrPeers, m.calls[c].peer.executorId).Joined?
  {
    assert Expected(m, c);
    if |m.shared.peers| == m.nrPeers {
      FullMeansThere(m, c, callers);
    }
  }

  lemma ArrivalSmooth(m: Mesh, c: nat, callers: seq<Peer>)
    requires Inv(m) && Smooth(m, callers) && c < |m.calls| && m.calls[c].stage.Arriving?
    ensures Smooth(Enlist(m, c), callers)
  {
    HasPlace(m, c, callers);
    var m', p := Enlist(m, c), m.calls[c].peer;
    StepSameCallers(m, Move(c, map[]), callers);
    InsertedByRank(m.shared.peers, p);
    assert forall q :: q in multiset(m'.shared.peers) <==> q in m'.shared.peers;
    forall d: nat | d < |m'.calls|
      ensures Expected(m', d)
    {
      assert Expected(m, d);
      assert d != c ==> callers[c].executorId != callers[d].executorId;
    }
    assert |m'.shared.peers| == m'.nrPeers ==> Builds(m', c);
  }

  lemma StepSmooth(m: Mesh, e: Move, callers: seq<Peer>)
    requires Inv(m) && Smooth(m, callers) && Enabled(m, e)
    ensures Smooth(Apply(m, e), callers)
  {
    var m', c := Apply(m, e), e.call;
    assert CallOk(m, c);
    if m.calls[c].stage.Arriving? {
      ArrivalSmooth(m, c, callers);
    } else {
      StepSameCallers(m, e, callers);
      if m.calls[c].stage.Identifying? {
        IdentifyKeepsInv(m, c);
      }
      forall d: nat | d < |m'.calls|
        ensures Expected(m', d)
      {
        assert Expected(m, d);
      }
      if 0 < |m'.shared.peers| == m'.nrPeers && !m'.shared.ready {
        var b: nat :| Builds(m, b);
        assert Builds(m', b);
      }
    }
  }

  lemma {:induction false} RunSmooth(m: Mesh, moves: seq<Move>, callers: seq<Peer>)
    requires Inv(m) && Smooth(m, callers) && IsRun(m, moves)
    ensures Inv(After(m, moves)) && Smooth(After(m, moves), callers)
    decreases |moves|
  {
    if moves != [] {
      ApplyKeepsInv(m, moves[0]);
      StepSmooth(m, moves[0], callers);
      RunSmooth(Apply(m, moves[0]), moves[1..], callers);
    }
  }

  /** How many locked sections a call still has before it. */
  function Left(stage: Stage): nat {
    match stage
    case Arriving => 4
    case Building => 3
    case Polling => 3
    case Identifying => 2
    case Taking(_, _) => 1
    case _ => 0
  }

  function Work(calls: seq<Call>): nat {
    if calls == [] then 0 else Work(calls[..|calls| - 1]) + Left(calls[|calls| - 1].stage)
  }

  lemma {:induction false} WorkChanges(calls: seq<Call>, c: nat, call: Call)
    requires c < |calls|
    ensures Work(calls[c := call]) == Work(calls) - Left(calls[c].stage) + Left(call.stage)
  {
    var n := |calls| - 1;
    if c == n {
      assert calls[c := call][..n] == calls[..n];
    } else {
      WorkChanges(calls[..n], c, call);
      assert calls[c := call][..n] == calls[..n][c := call];
    }
  }

  lemma OnlyItsCall(m: Mesh, e: Move)
    requires Enabled(m, e)
    ensures var m', c := Apply(m, e), e.call;
            && |m'.calls| == |m.calls| && m'.calls == m.calls[c := m'.calls[c]]
            && (m' == m || Left(m'.calls[c].stage) < Left(m.calls[c].stage))
            && (m' == m ==> m.calls[c].stage.Polling? && !m.shared.ready && !m.poisoned)
            && (m.calls[c].stage.Polling? && !m.shared.ready && !m.poisoned ==> m' == m)
  {
  }

  /** Every move shortens the work, except that of a call which finds the channels not built yet. */
  lemma MoveShortens(m: Mesh, e: Move)
    requires Enabled(m, e)
    ensures if m.calls[e.call].stage.Polling? && !m.shared.ready && !m.poisoned then Apply(m, e) == m
            else Work(Apply(m, e).calls) < Work(m.calls)
  {
    OnlyItsCall(m, e);
    WorkChanges(m.calls, e.call, Apply(m, e).calls[e.call]);
  }

  function Numbered(n: nat, i: nat, j: nat): nat {
    i * n + j
  }

  lemma PairsDiffer(n: nat, i: nat, j: nat, k: nat, l: nat)
    requires j < n && l < n && Numbered(n, i, j) == Numbered(n, k, l)
    ensures i == k && j == l
  {
    if i < k {
      MulMonotone(i + 1, k, n);
    } else if k < i {
      MulMonotone(k + 1, i, n);
    }
  }

  /** New channels for every linked pair can be made. */
  lemma SomeWire(adapter: Adapter, peers: seq<Peer>) returns (wire: Wire)
    ensures WiredFor(adapter, peers, wire)
  {
    var n := |peers|;
    wire := map i: nat, j: nat | i < n && j < n && Linked(adapter, peers, i, j) :: (i, j) := Numbered(n, i, j);
    forall a, b | a in wire && b in wire && wire[a] == wire[b]
      ensures a == b
    {
      PairsDiffer(n, a.0, a.1, b.0, b.1);
    }
  }

  /** Callers that are all there leave no place. */
  lemma {:induction false} AllThere(callers: seq<Peer>, peers: seq<Peer>)
    requires Distinct(callers) && forall p | p in callers :: p in peers
    ensures |callers| <= |peers|
    decreases |callers|
  {
    if callers != [] {
      var n := |callers| - 1;
      assert callers[n] in callers;
      var i :| 0 <= i < |peers| && peers[i] == callers[n];
      var rest := peers[..i] + peers[i + 1..];
      forall p | p in callers[..n]
        ensures p in rest
      {
        assert p in callers;
        var k :| 0 <= k < |peers| && peers[k] == p;
        assert k != i;
        assert p == rest[if k < i then k else k - 1];
      }
      AllThere(callers[..n], rest);
    }
  }

  /** While someone has not got its ends, someone can do something useful. */
  lemma SomeoneMoves(m: Mesh, callers: seq<Peer>, c: nat) returns (e: Move)
    requires Inv(m) && Smooth(m, callers) && c < |m.calls| && !m.calls[c].stage.Held?
    ensures Enabled(m, e) && Work(Apply(m, e).calls) < Work(m.calls)
  {
    assert Expected(m, c);
    var mover := c;
    if m.calls[c].stage.Polling? && !m.shared.ready {
      mover := Ahead(m, callers, c);
    }
    var wire := SomeWire(m.adapter, m.shared.peers);
    e := Move(mover, wire);
    MoveShortens(m, e);
  }

  /** If the channels are not built, someone is yet to arrive or about to build them. */
  lemma Ahead(m: Mesh, callers: seq<Peer>, c: nat) returns (d: nat)
    requires Inv(m) && Smooth(m, callers) && c < |m.calls| && m.calls[c].stage.Polling? && !m.shared.ready
    ensures Arrives(m, d) || Builds(m, d)
  {
    assert CallOk(m, c) && m.shared.peers != [];
    if late: nat :| Arrives(m, late) {
      d := late;
    } else {
      forall p | p in callers
        ensures p in m.shared.peers
      {
        var k :| 0 <= k < |callers| && callers[k] == p;
        assert CallOk(m, k) && Expected(m, k) && !Arrives(m, k);
      }
      AllThere(callers, m.shared.peers);
      d :| Builds(m, d);
    }
  }

  /**
   When as many distinct executors call as the mesh has places, none is refused and none
   panics; moves that do anything run out; and until all hold their ends, there is one.
   */
  lemma {:induction false} EveryoneJoins(adapter: Adapter, callers: seq<Peer>, moves: seq<Move>, c: nat)
    requires IsMeshRun(adapter, |callers|, callers, moves) && Distinct(callers) && c < |callers|
    ensures var m := After(Start(adapter, |callers|, callers), moves);
            && |m.calls| == |callers| && !m.calls[c].stage.Refused? && !m.calls[c].stage.Crashed?
            && (forall e | Enabled(m, e) :: Apply(m, e) == m || Work(Apply(m, e).calls) < Work(m.calls))
            && (!m.calls[c].stage.Held? ==> exists e :: Enabled(m, e) && Work(Apply(m, e).calls) < Work(m.calls))
  {
    var start := Start(adapter, |callers|, callers);
    var m := After(start, moves);
    StartSmooth(adapter, callers);
    RunSmooth(start, moves, callers);
    assert Expected(m, c);
    forall e | Enabled(m, e)
      ensures Apply(m, e) == m || Work(Apply(m, e).calls) < Work(m.calls)
    {
      MoveShortens(m, e);
    }
    if !m.calls[c].stage.Held? {
      var e := SomeoneMoves(m, callers, c);
    }
  }

  lemma {:induction false} TwiceInAll(callers: seq<Peer>, a: nat, b: nat)
    requires a < b < |callers| && callers[a] == callers[b]
    ensures multiset(callers)[callers[a]] >= 2
  {
    assert callers == callers[..b] + [callers[b]] + callers[b + 1..];
    assert callers[a] in callers[..b];
  }

  /** If two of the callers are the same executor, nobody ever gets their ends. */
  lemma {:induction false} NobodyJoins(adapter: Adapter, callers: seq<Peer>, moves: seq<Move>, c: nat)
    requires IsMeshRun(adapter, |callers|, callers, moves) && !Distinct(callers) && c < |callers|
    ensures var m := After(Start(adapter, |callers|, callers), moves);
            |m.calls| == |callers| && !m.calls[c].stage.Held?
  {
    var m := Reached(adapter, |callers|, callers, moves);
    if m.calls[c].stage.Held? {
      HeldMeansFull(m, c, callers);
      SharedIdTwice(m.shared.peers, callers);
    }
  }

  lemma SharedIdTwice(peers: seq<Peer>, callers: seq<Peer>)
    requires Sorted(peers) && multiset(peers) == multiset(callers)
    ensures Distinct(callers)
  {
    forall a, b | 0 <= a < b < |callers|
      ensures callers[a].executorId != callers[b].executorId
    {
      OnceAtMost(peers, callers[a]);
      if callers[a] == callers[b] {
        TwiceInAll(callers, a, b);
      } else {
        assert callers[a] in multiset(peers) && callers[b] in multiset(peers);
        var i :| 0 <= i < |peers| && peers[i] == callers[a];
        var j :| 0 <= j < |peers| && peers[j] == callers[b];
      }
    }
  }

  predicate AllHeld(m: Mesh) {
    forall c | 0 <= c < |m.calls| :: m.calls[c].stage.Held?
  }

  /** From every state in which nothing has gone wrong, everyone can get their ends. */
  lemma {:induction false} CanFinish(m: Mesh, callers: seq<Peer>) returns (moves: seq<Move>)
    requires Inv(m) && Smooth(m, callers)
    ensures IsRun(m, moves) && AllHeld(After(m, moves)) && |After(m, moves).calls| == |m.calls|
    decreases Work(m.calls)
  {
    if AllHeld(m) {
      moves := [];
    } else {
      var c :| 0 <= c < |m.calls| && !m.calls[c].stage.Held?;
      var e := SomeoneMoves(m, callers, c);
      ApplyKeepsInv(m, e);
      StepSmooth(m, e, callers);
      var rest := CanFinish(Apply(m, e), callers);
      moves := [e] + rest;
      assert moves[1..] == rest;
    }
  }

  lemma StartSmooth(adapter: Adapter, callers: seq<Peer>)
    requires Distinct(callers)
    ensures var start := Start(adapter, |callers|, callers); Inv(start) && Smooth(start, callers)
  {
    var start := Start(adapter, |callers|, callers);
    assert forall c: nat | c < |start.calls| :: Expected(start, c);
  }

  ghost predicate SomeoneGetsIn(adapter: Adapter, callers: seq<Peer>, moves: seq<Move>) {
    && IsMeshRun(adapter, |callers|, callers, moves)
    && exists c: nat :: HeldIn(After(Start(adapter, |callers|, callers), moves), c)
  }

  predicate HeldIn(m: Mesh, c: nat) {
    c < |m.calls| && m.calls[c].stage.Held?
  }

  /** When as many call as there are places, anyone can ever get in exactly if the callers are different executors. */
  lemma {:induction false} JoinableIff(adapter: Adapter, callers: seq<Peer>)
    requires callers != []
    ensures (exists moves :: SomeoneGetsIn(adapter, callers, moves)) <==> Distinct(callers)
  {
    if Distinct(callers) {
      StartSmooth(adapter, callers);
      var moves := CanFinish(Start(adapter, |callers|, callers), callers);
      assert HeldIn(After(Start(adapter, |callers|, callers), moves), 0);
      assert SomeoneGetsIn(adapter, callers, moves);
    } else {
      forall moves
        ensures !SomeoneGetsIn(adapter, callers, moves)
      {
        NoneIn(adapter, callers, moves);
      }
    }
  }

  lemma {:induction false} NoneIn(adapter: Adapter, callers: seq<Peer>, moves: seq<Move>)
    requires !Distinct(callers)
    ensures !SomeoneGetsIn(adapter, callers, moves)
  {
    if IsMeshRun(adapter, |callers|, callers, moves) {
      var m := Reached(adapter, |callers|, callers, moves);
      forall c: nat
        ensures !HeldIn(m, c)
      {
        if c < |callers| {
          NobodyJoins(adapter, callers, moves, c);
        }
      }
    }
  }
}
