/**
 How the peers of a channel mesh connect, after `join_with` of `channels/channel_mesh.rs`
 and the two `connect` calls of `channels/shared_channel.rs`. Each peer goes through the
 indices in order. At index `i` it posts its id on its half of the channels to and from
 peer `i`, and moves on only when peer `i` has posted on the other halves.
 */
module MeshConnect {

  /** The index a peer works on, and which of its two halves there have been posted. */
  datatype Joiner = Joiner(index: nat, senderPosted: bool, receiverPosted: bool)

  datatype Move = PostSender(p: nat) | PostReceiver(p: nat) | Advance(p: nat)

  /** `links[i][j]`: whether there is a channel from peer `i` to peer `j`. */
  datatype Mesh = Mesh(links: seq<seq<bool>>, joiners: seq<Joiner>)

  function Size(m: Mesh): nat { |m.joiners| }

  ghost predicate Valid(m: Mesh) {
    && |m.links| == Size(m)
    && (forall i | 0 <= i < Size(m) :: |m.links[i]| == Size(m))
    && (forall i | 0 <= i < Size(m) :: !m.links[i][i])
    && (forall p | 0 <= p < Size(m) :: m.joiners[p].index <= Size(m))
  }

  function Start(links: seq<seq<bool>>): Mesh {
    Mesh(links, seq(|links|, _ => Joiner(0, false, false)))
  }

  /** Whether peer `from` has posted its sending half of the channel to peer `to`. */
  predicate SenderUp(m: Mesh, from: nat, to: nat)
    requires from < Size(m)
  {
    var j := m.joiners[from];
    j.index > to || (j.index == to && j.senderPosted)
  }

  /** Whether peer `to` has posted its receiving half of the channel from peer `from`. */
  predicate ReceiverUp(m: Mesh, from: nat, to: nat)
    requires to < Size(m)
  {
    var j := m.joiners[to];
    j.index > from || (j.index == from && j.receiverPosted)
  }

  /** Peer `p` stands at an index, and there is a channel in that direction. */
  predicate Sends(m: Mesh, p: nat)
    requires Valid(m)
  {
    p < Size(m) && m.joiners[p].index < Size(m) && m.links[p][m.joiners[p].index]
  }

  predicate Receives(m: Mesh, p: nat)
    requires Valid(m)
  {
    p < Size(m) && m.joiners[p].index < Size(m) && m.links[m.joiners[p].index][p]
  }

  predicate Enabled(m: Mesh, move: Move)
    requires Valid(m)
  {
    match move
    case PostSender(p) => Sends(m, p) && !m.joiners[p].senderPosted
    case PostReceiver(p) => Receives(m, p) && !m.joiners[p].receiverPosted
    case Advance(p) =>
      && p < Size(m) && m.joiners[p].index < Size(m)
      && (Sends(m, p) ==> m.joiners[p].senderPosted && ReceiverUp(m, p, m.joiners[p].index))
      && (Receives(m, p) ==> m.joiners[p].receiverPosted && SenderUp(m, m.joiners[p].index, p))
  }

  function Apply(m: Mesh, move: Move): (m': Mesh)
    requires Valid(m) && Enabled(m, move)
    ensures Valid(m') && Size(m') == Size(m)
  {
    var p := move.p;
    var j := m.joiners[p];
    m.(joiners := m.joiners[p := match move
                                 case PostSender(_) => j.(senderPosted := true)
                                 case PostReceiver(_) => j.(receiverPosted := true)
                                 case Advance(_) => Joiner(j.index + 1, false, false)])
  }

  predicate Finished(m: Mesh) {
    forall p | 0 <= p < Size(m) :: m.joiners[p].index >= Size(m)
  }

  /** The lowest peer that has not finished. */
  function LowestUnfinished(m: Mesh, from: nat): (p: nat)
    requires from <= Size(m)
    requires exists q :: from <= q < Size(m) && m.joiners[q].index < Size(m)
    ensures from <= p < Size(m) && m.joiners[p].index < Size(m)
    ensures forall q | from <= q < p :: m.joiners[q].index >= Size(m)
    decreases Size(m) - from
  {
    if m.joiners[from].index < Size(m) then from else LowestUnfinished(m, from + 1)
  }

  /**
   Connecting cannot deadlock. The lowest unfinished peer `p` waits at some index `i`;
   if peer `i` has not reached index `p` it stands at an index below `p`, whose peer has
   finished, so peer `i` itself can move.
   */
  lemma NoDeadlock(m: Mesh) returns (move: Move)
    requires Valid(m) && !Finished(m)
    ensures Enabled(m, move)
  {
    var p := LowestUnfinished(m, 0);
    var i := m.joiners[p].index;
    if Enabled(m, PostSender(p)) {
      return PostSender(p);
    } else if Enabled(m, PostReceiver(p)) {
      return PostReceiver(p);
    } else if Enabled(m, Advance(p)) {
      return Advance(p);
    } else if Enabled(m, PostSender(i)) {
      return PostSender(i);
    } else if Enabled(m, PostReceiver(i)) {
      return PostReceiver(i);
    } else {
      return Advance(i);
    }
  }

  /** Work left: three units for each index still ahead of a peer, less what it has posted at this one. */
  function Remaining(n: nat, joiners: seq<Joiner>): int {
    if joiners == [] then 0
    else
      var j := joiners[|joiners| - 1];
      Remaining(n, joiners[..|joiners| - 1])
      + 3 * (n - j.index) - (if j.senderPosted then 1 else 0) - (if j.receiverPosted then 1 else 0)
  }

  lemma {:induction false} RemainingAfter(n: nat, joiners: seq<Joiner>, p: nat, j: Joiner)
    requires p < |joiners|
    ensures Remaining(n, joiners[p := j]) - Remaining(n, joiners) == Remaining(n, [j]) - Remaining(n, [joiners[p]])
  {
    var last := |joiners| - 1;
    assert [j][..0] == [] && [joiners[p]][..0] == [];
    if p == last {
      assert joiners[p := j][..last] == joiners[..last];
    } else {
      assert joiners[p := j][..last] == joiners[..last][p := j];
      RemainingAfter(n, joiners[..last], p, j);
    }
  }

  lemma MoveShrinks(m: Mesh, move: Move)
    requires Valid(m) && Enabled(m, move)
    ensures Remaining(Size(m), Apply(m, move).joiners) < Remaining(Size(m), m.joiners)
  {
    var j := Apply(m, move).joiners[move.p];
    RemainingAfter(Size(m), m.joiners, move.p, j);
    assert [j][..0] == [] && [m.joiners[move.p]][..0] == [];
  }

  /** Nobody posts at the index past the last one, so there is never less than nothing left. */
  ghost predicate Tidy(m: Mesh) {
    forall p | 0 <= p < Size(m) :: m.joiners[p].index == Size(m) ==> m.joiners[p] == Joiner(Size(m), false, false)
  }

  lemma {:induction false} RemainingBounds(n: nat, joiners: seq<Joiner>)
    requires forall p | 0 <= p < |joiners| ::
               joiners[p].index < n || joiners[p] == Joiner(n, false, false)
    ensures 0 <= Remaining(n, joiners) <= 3 * n * |joiners|
  {
    if joiners != [] {
      RemainingBounds(n, joiners[..|joiners| - 1]);
      assert 3 * n * |joiners| == 3 * n * (|joiners| - 1) + 3 * n;
    }
  }

  /** A run: every move was enabled when it was made. */
  ghost predicate IsRun(m: Mesh, moves: seq<Move>)
    requires Valid(m)
    decreases |moves|
  {
    moves != [] ==> Enabled(m, moves[0]) && IsRun(Apply(m, moves[0]), moves[1..])
  }

  function After(m: Mesh, moves: seq<Move>): (m': Mesh)
    requires Valid(m) && IsRun(m, moves)
    ensures Valid(m') && Size(m') == Size(m)
    decreases |moves|
  {
    if moves == [] then m else After(Apply(m, moves[0]), moves[1..])
  }

  lemma {:induction false} RunShrinks(m: Mesh, moves: seq<Move>)
    requires Valid(m) && Tidy(m) && IsRun(m, moves)
    ensures Tidy(After(m, moves))
    ensures Remaining(Size(m), After(m, moves).joiners) + |moves| <= Remaining(Size(m), m.joiners)
    decreases |moves|
  {
    if moves != [] {
      MoveShrinks(m, moves[0]);
      RunShrinks(Apply(m, moves[0]), moves[1..]);
    }
  }

  /**
   From the start, every run is finite, and one that cannot be continued has brought
   every peer to the end of its loop, whichever channels the mesh has.
   */
  lemma {:induction false} EveryoneConnects(links: seq<seq<bool>>, moves: seq<Move>)
    requires Valid(Start(links)) && IsRun(Start(links), moves)
    ensures |moves| <= 3 * |links| * |links|
    ensures (forall move :: !Enabled(After(Start(links), moves), move)) ==> Finished(After(Start(links), moves))
  {
    var m := Start(links);
    RunShrinks(m, moves);
    RemainingBounds(|links|, m.joiners);
    RemainingBounds(|links|, After(m, moves).joiners);
    if !Finished(After(m, moves)) {
      var move := NoDeadlock(After(m, moves));
    }
  }

  // ------------------------------------------------------------- who has met whom

  /** If peer `p` is past index `i`, then it has found peer `i` on the other half of each channel between them. */
  predicate HasMet(m: Mesh, p: nat, i: nat)
    requires Valid(m) && p < Size(m) && i < Size(m)
  {
    m.joiners[p].index > i ==>
      (m.links[p][i] ==> ReceiverUp(m, p, i)) && (m.links[i][p] ==> SenderUp(m, i, p))
  }

  ghost predicate AllMet(m: Mesh)
    requires Valid(m)
  {
    forall p, i | 0 <= p < Size(m) && 0 <= i < Size(m) :: HasMet(m, p, i)
  }

  /** What has been posted stays posted. */
  lemma PostsStay(m: Mesh, move: Move, from: nat, to: nat)
    requires Valid(m) && Enabled(m, move) && from < Size(m) && to < Size(m)
    ensures SenderUp(m, from, to) ==> SenderUp(Apply(m, move), from, to)
    ensures ReceiverUp(m, from, to) ==> ReceiverUp(Apply(m, move), from, to)
  {
  }

  lemma MoveKeepsMet(m: Mesh, move: Move)
    requires Valid(m) && Enabled(m, move) && AllMet(m)
    ensures AllMet(Apply(m, move))
  {
    var m' := Apply(m, move);
    forall p, i | 0 <= p < Size(m) && 0 <= i < Size(m)
      ensures HasMet(m', p, i)
    {
      assert HasMet(m, p, i);
      PostsStay(m, move, p, i);
      PostsStay(m, move, i, p);
    }
  }

  lemma {:induction false} RunKeepsMet(m: Mesh, moves: seq<Move>)
    requires Valid(m) && IsRun(m, moves) && AllMet(m)
    ensures AllMet(After(m, moves)) && After(m, moves).links == m.links
    decreases |moves|
  {
    if moves != [] {
      MoveKeepsMet(m, moves[0]);
      RunKeepsMet(Apply(m, moves[0]), moves[1..]);
    }
  }

  /** On every run, a peer that has gone on from index `i` did so with peer `i` connected to each channel they share. */
  lemma {:induction false} NobodyGoesOnAlone(links: seq<seq<bool>>, moves: seq<Move>, p: nat, i: nat)
    requires Valid(Start(links)) && IsRun(Start(links), moves) && p < |links| && i < |links|
    ensures var m := After(Start(links), moves);
            m.joiners[p].index > i ==>
              && (links[p][i] ==> m.joiners[i].index > p || (m.joiners[i].index == p && m.joiners[i].receiverPosted))
              && (links[i][p] ==> m.joiners[i].index > p || (m.joiners[i].index == p && m.joiners[i].senderPosted))
  {
    RunKeepsMet(Start(links), moves);
    assert HasMet(After(Start(links), moves), p, i);
  }
}
