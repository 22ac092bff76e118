/**
 The single-executor channel of `channels/local_channel.rs`: a queue, two lists of
 waiting futures, and wakeups that are given once and must be handed on when the
 future that got one is dropped.
 */
module LocalChannel {
  import opened Options

  datatype Kind = Sender | Receiver

  /**
   A waiter node inside a future or stream. `role` is what its poll function waits for,
   `kind` is the cell that the first pending poll fills in, `stream` says that it lives
   on after yielding an item. `waiting` is history: the last poll answered Pending.
   */
  datatype Node = Node(role: Kind, stream: bool, kind: Option<Kind>, woken: bool, waker: bool, waiting: bool)

  /** `sends`/`recvs` are the linked waiters; `None` once that end was dropped. History: `sent`, `received`. */
  datatype State<T> = State(capacity: Option<nat>, items: seq<T>,
                            recvs: Option<seq<nat>>, sends: Option<seq<nat>>,
                            nodes: map<nat, Node>,
                            sent: seq<T>, received: seq<T>)

  datatype Answer<T> = Pending | Sent | Closed | WouldBlock | Got(item: T) | Ended | Nothing

  datatype Event<T> =
    | TrySend(item: T)
    | StartSend(id: nat)
    | StartRecv(id: nat, stream: bool)
    | PollSend(id: nat, item: T)
    | PollRecv(id: nat)
    | Drop(id: nat)
    | DropSender
    | DropReceiver

  function New<T>(capacity: Option<nat>): State<T> {
    State(capacity, [], Some([]), Some([]), map[], [], [])
  }

  predicate IsFull<T>(s: State<T>) {
    s.capacity.Some? && |s.items| >= s.capacity.value
  }

  predicate LinkedIn(list: Option<seq<nat>>, id: nat) {
    list.Some? && id in list.value
  }

  function Without(list: seq<nat>, id: nat): (r: seq<nat>)
    ensures forall x :: x in r <==> x in list && x != id
  {
    if list == [] then [] else (if list[0] == id then [] else [list[0]]) + Without(list[1..], id)
  }

  function Unlink(list: Option<seq<nat>>, id: nat): Option<seq<nat>> {
    if list.None? then None else Some(Without(list.value, id))
  }

  function Link(list: Option<seq<nat>>, id: nat): Option<seq<nat>> {
    if list.None? || id in list.value then list else Some(list.value + [id])
  }

  /** `wake_first`: unlinks the first waiter, marks it woken and takes its waker. */
  function WakeNode(list: Option<seq<nat>>, nodes: map<nat, Node>): map<nat, Node> {
    if list.None? || list.value == [] || list.value[0] !in nodes then nodes
    else nodes[list.value[0] := nodes[list.value[0]].(woken := true, waker := false)]
  }

  function Tail(list: Option<seq<nat>>): Option<seq<nat>> {
    if list.None? || list.value == [] then list else Some(list.value[1..])
  }

  function WakeReceiver<T>(s: State<T>): State<T> {
    s.(nodes := WakeNode(s.recvs, s.nodes), recvs := Tail(s.recvs))
  }

  function WakeSender<T>(s: State<T>): State<T> {
    s.(nodes := WakeNode(s.sends, s.nodes), sends := Tail(s.sends))
  }

  /** `push` */
  function Push<T>(s: State<T>, item: T): (State<T>, Answer<T>) {
    if s.recvs.None? then (s, Closed)
    else if IsFull(s) then (s, WouldBlock)
    else (WakeReceiver(s.(items := s.items + [item], sent := s.sent + [item])), Sent)
  }

  function SetNode<T>(s: State<T>, id: nat, node: Node): State<T> {
    s.(nodes := s.nodes[id := node])
  }

  /** A poll of a `send` future: waits for room, and once there is room the future pushes and is over. */
  function PolledSend<T>(s: State<T>, id: nat, item: T): (State<T>, Answer<T>)
    requires id in s.nodes && s.nodes[id].role.Sender?
  {
    if !IsFull(s) then
      Push(s.(sends := Unlink(s.sends, id), nodes := s.nodes - {id}), item)
    else
      (SetNode(s, id, s.nodes[id].(woken := false, kind := Some(Sender), waker := true, waiting := true))
       .(sends := Link(s.sends, id)), Pending)
  }

  /** The receiver's node no longer waits; a future is over, a stream stays. */
  function LeaveRecvs<T>(s: State<T>, id: nat): State<T>
    requires id in s.nodes
  {
    var awake := s.nodes[id].(woken := false, waiting := false);
    s.(recvs := Unlink(s.recvs, id), nodes := if awake.stream then s.nodes[id := awake] else s.nodes - {id})
  }

  function TakeItem<T>(s: State<T>): State<T>
    requires s.items != []
  {
    WakeSender(s.(items := s.items[1..], received := s.received + [s.items[0]]))
  }

  function WaitRecv<T>(s: State<T>, id: nat): State<T>
    requires id in s.nodes
  {
    SetNode(s, id, s.nodes[id].(woken := false, kind := Some(Receiver), waker := true, waiting := true))
    .(recvs := Link(s.recvs, id))
  }

  /** A poll of a `recv` future or of a stream. */
  function PolledRecv<T>(s: State<T>, id: nat): (State<T>, Answer<T>)
    requires id in s.nodes && s.nodes[id].role.Receiver?
  {
    if s.items != [] then (TakeItem(LeaveRecvs(s, id)), Got(s.items[0]))
    else if s.sends.Some? then (WaitRecv(s, id), Pending)
    else (LeaveRecvs(s, id), Ended)
  }

  /** Dropping a future or stream: a wakeup it had been given is passed on if there is still cause for it. */
  function Dropped<T>(s: State<T>, id: nat): State<T>
    requires id in s.nodes
  {
    var node := s.nodes[id];
    var gone := s.(nodes := s.nodes - {id});
    if node.woken then
      if node.kind == Some(Sender) && !IsFull(s) then WakeSender(gone)
      else if node.kind == Some(Receiver) && s.items != [] then WakeReceiver(gone)
      else gone
    else
      gone.(sends := Unlink(s.sends, id), recvs := Unlink(s.recvs, id))
  }

  function ClearWakers(list: seq<nat>, nodes: map<nat, Node>): map<nat, Node> {
    map n | n in nodes :: if n in list then nodes[n].(waker := false) else nodes[n]
  }

  predicate HasRole<T>(s: State<T>, role: Kind) {
    exists n :: n in s.nodes && s.nodes[n].role == role
  }

  /** An event that cannot happen leaves the state alone; an end is only dropped when none of its futures borrow it. */
  function Apply<T>(s: State<T>, e: Event<T>): (State<T>, Answer<T>) {
    match e
    case TrySend(item) => if s.sends.Some? then Push(s, item) else (s, Nothing)
    case StartSend(id) =>
      if id in s.nodes || s.sends.None? then (s, Nothing)
      else (SetNode(s, id, Node(Sender, false, None, false, false, false)), Nothing)
    case StartRecv(id, stream) =>
      if id in s.nodes || s.recvs.None? then (s, Nothing)
      else (SetNode(s, id, Node(Receiver, stream, None, false, false, false)), Nothing)
    case PollSend(id, item) =>
      if id in s.nodes && s.nodes[id].role.Sender? then PolledSend(s, id, item) else (s, Nothing)
    case PollRecv(id) =>
      if id in s.nodes && s.nodes[id].role.Receiver? then PolledRecv(s, id) else (s, Nothing)
    case Drop(id) => if id in s.nodes then (Dropped(s, id), Nothing) else (s, Nothing)
    case DropSender =>
      if s.sends.None? || HasRole(s, Sender) then (s, Nothing)
      else (s.(sends := None, recvs := if s.recvs.Some? then Some([]) else None,
               nodes := if s.recvs.Some? then ClearWakers(s.recvs.value, s.nodes) else s.nodes), Nothing)
    case DropReceiver =>
      if s.recvs.None? || HasRole(s, Receiver) then (s, Nothing)
      else (s.(recvs := None, sends := if s.sends.Some? then Some([]) else None,
               nodes := if s.sends.Some? then ClearWakers(s.sends.value, s.nodes) else s.nodes), Nothing)
  }

  function Run<T>(s: State<T>, events: seq<Event<T>>): State<T> {
    if events == [] then s else Apply(Run(s, events[..|events| - 1]), events[|events| - 1]).0
  }

  /** Waiters of a kind that were woken and have not been polled since. */
  ghost function Woken(nodes: map<nat, Node>, kind: Kind): set<nat> {
    set n | n in nodes && nodes[n].woken && nodes[n].role == kind
  }

  ghost predicate NodesOk(nodes: map<nat, Node>) {
    forall n | n in nodes ::
      && (nodes[n].kind.Some? ==> nodes[n].kind.value == nodes[n].role)
      && (nodes[n].woken ==> nodes[n].kind.Some? && !nodes[n].waker)
  }

  predicate Distinct(list: seq<nat>) {
    forall i, j | 0 <= i < j < |list| :: list[i] != list[j]
  }

  /** A list holds each waiter once, of the right kind, not yet woken, with a waker to call. */
  ghost predicate ListOk(list: Option<seq<nat>>, nodes: map<nat, Node>, kind: Kind) {
    list.Some? ==>
      && Distinct(list.value)
      && (forall n | n in list.value ::
            n in nodes && nodes[n].kind == Some(kind) && nodes[n].role == kind && !nodes[n].woken && nodes[n].waker)
  }

  /** While a receiver waits, at least as many woken receivers are on their way as there are items. */
  ghost predicate NoLostReceiver<T>(s: State<T>) {
    s.recvs.Some? && s.recvs.value != [] ==> |Woken(s.nodes, Receiver)| >= |s.items|
  }

  /** While a sender waits, at least as many woken senders are on their way as there are free places. */
  ghost predicate NoLostSender<T>(s: State<T>) {
    s.sends.Some? && s.sends.value != [] ==>
      s.capacity.Some? && |Woken(s.nodes, Sender)| + |s.items| >= s.capacity.value
  }

  /** A future whose last poll answered Pending is linked, with a waker to call, or has been woken. */
  ghost predicate NobodyForgotten<T>(s: State<T>) {
    forall n | n in s.nodes && s.nodes[n].waiting ::
      s.nodes[n].woken || (if s.nodes[n].role.Sender? then LinkedIn(s.sends, n) else LinkedIn(s.recvs, n))
  }

  ghost predicate Inv<T>(s: State<T>) {
    && NodesOk(s.nodes) && ListOk(s.recvs, s.nodes, Receiver) && ListOk(s.sends, s.nodes, Sender)
    && (s.capacity.Some? ==> |s.items| <= s.capacity.value)
    && s.received + s.items == s.sent
    && (s.sends.None? ==> !HasRole(s, Sender) && (s.recvs.Some? ==> s.recvs.value == []))
    && (s.recvs.None? ==> !HasRole(s, Receiver))
    && (s.sends.Some? && s.recvs.Some? ==> NoLostReceiver(s) && NoLostSender(s) && NobodyForgotten(s))
  }

  // ------------------------------------------------------------ preservation

  ghost predicate Shape<T>(s: State<T>) {
    NodesOk(s.nodes) && ListOk(s.recvs, s.nodes, Receiver) && ListOk(s.sends, s.nodes, Sender)
  }

  lemma {:induction false} WithoutDistinct(list: seq<nat>, id: nat)
    requires Distinct(list)
    ensures Distinct(Without(list, id))
  {
    if list != [] {
      var rest := Without(list[1..], id);
      WithoutDistinct(list[1..], id);
      assert list[0] !in rest;
      if list[0] != id {
        assert Without(list, id) == [list[0]] + rest;
      } else {
        assert Without(list, id) == rest;
      }
    }
  }

  lemma {:induction false} WithoutAbsent(list: seq<nat>, id: nat)
    requires id !in list
    ensures Without(list, id) == list
  {
    if list != [] {
      WithoutAbsent(list[1..], id);
    }
  }

  lemma OneMoreOrLess(s: set<nat>, x: nat)
    ensures |s + {x}| == |s| + (if x in s then 0 else 1)
    ensures |s - {x}| == |s| - (if x in s then 1 else 0)
  {
    if x in s {
      assert s + {x} == s;
    } else {
      assert s - {x} == s;
    }
  }

  lemma WokenSet(nodes: map<nat, Node>, id: nat, node: Node, kind: Kind)
    ensures Woken(nodes[id := node], kind) ==
            if node.woken && node.role == kind then Woken(nodes, kind) + {id} else Woken(nodes, kind) - {id}
  {
    var after := Woken(nodes[id := node], kind);
    forall k
      ensures k != id ==> (k in after <==> k in Woken(nodes, kind))
      ensures id in after <==> node.woken && node.role == kind
    {
    }
  }

  /** Changing one node changes the woken sets by at most that node. */
  lemma WokenUpdate(nodes: map<nat, Node>, id: nat, node: Node, kind: Kind)
    requires id in nodes ==> nodes[id].role == node.role
    ensures |Woken(nodes[id := node], kind)|
            == |Woken(nodes, kind)| - (if id in nodes && nodes[id].woken && node.role == kind then 1 else 0)
                                    + (if node.woken && node.role == kind then 1 else 0)
  {
    WokenSet(nodes, id, node, kind);
    OneMoreOrLess(Woken(nodes, kind), id);
  }

  lemma WokenRemove(nodes: map<nat, Node>, id: nat, kind: Kind)
    requires id in nodes
    ensures |Woken(nodes - {id}, kind)|
            == |Woken(nodes, kind)| - (if nodes[id].woken && nodes[id].role == kind then 1 else 0)
  {
    assert Woken(nodes - {id}, kind) == Woken(nodes, kind) - {id};
  }

  lemma WakeReceiverEffect<T>(s: State<T>)
    requires Shape(s)
    ensures var s' := WakeReceiver(s);
            && Shape(s')
            && |Woken(s'.nodes, Receiver)|
               == |Woken(s.nodes, Receiver)| + (if s.recvs.Some? && s.recvs.value != [] then 1 else 0)
            && |Woken(s'.nodes, Sender)| == |Woken(s.nodes, Sender)|
            && (forall k :: HasRole(s', k) <==> HasRole(s, k))
  {
    if s.recvs.Some? && s.recvs.value != [] {
      var id := s.recvs.value[0];
      assert id in s.recvs.value;
      var node := s.nodes[id].(woken := true, waker := false);
      WokenUpdate(s.nodes, id, node, Receiver);
      WokenUpdate(s.nodes, id, node, Sender);
      SameRoles(s, WakeReceiver(s));
    }
  }

  lemma WakeSenderEffect<T>(s: State<T>)
    requires Shape(s)
    ensures var s' := WakeSender(s);
            && Shape(s')
            && |Woken(s'.nodes, Sender)|
               == |Woken(s.nodes, Sender)| + (if s.sends.Some? && s.sends.value != [] then 1 else 0)
            && |Woken(s'.nodes, Receiver)| == |Woken(s.nodes, Receiver)|
            && (forall k :: HasRole(s', k) <==> HasRole(s, k))
  {
    if s.sends.Some? && s.sends.value != [] {
      var id := s.sends.value[0];
      assert id in s.sends.value;
      var node := s.nodes[id].(woken := true, waker := false);
      WokenUpdate(s.nodes, id, node, Sender);
      WokenUpdate(s.nodes, id, node, Receiver);
      SameRoles(s, WakeSender(s));
    }
  }

  lemma SameRoles<T>(s: State<T>, s': State<T>)
    requires s.nodes.Keys == s'.nodes.Keys
    requires forall n | n in s.nodes :: s.nodes[n].role == s'.nodes[n].role
    ensures forall k :: HasRole(s', k) <==> HasRole(s, k)
  {
    forall k
      ensures HasRole(s', k) <==> HasRole(s, k)
    {
      if HasRole(s, k) {
        var n :| n in s.nodes && s.nodes[n].role == k;
        assert n in s'.nodes;
      }
      if HasRole(s', k) {
        var n :| n in s'.nodes && s'.nodes[n].role == k;
        assert n in s.nodes;
      }
    }
  }

  lemma FewerRoles<T>(s: State<T>, s': State<T>)
    requires s'.nodes.Keys <= s.nodes.Keys
    requires forall n | n in s'.nodes :: s.nodes[n].role == s'.nodes[n].role
    ensures forall k :: HasRole(s', k) ==> HasRole(s, k)
  {
    forall k | HasRole(s', k)
      ensures HasRole(s, k)
    {
      var n :| n in s'.nodes && s'.nodes[n].role == k;
      assert n in s.nodes;
    }
  }

  lemma PushKeepsInv<T>(s: State<T>, item: T)
    requires Inv(s)
    ensures Inv(Push(s, item).0)
  {
    if s.recvs.Some? && !IsFull(s) {
      var mid := s.(items := s.items + [item], sent := s.sent + [item]);
      assert Shape(mid) && HasRole(mid, Sender) == HasRole(s, Sender);
      WakeReceiverEffect(mid);
      assert mid.received + mid.items == mid.sent;
    }
  }

  /** A node that goes away takes its links along. */
  lemma RemoveKeepsShape<T>(s: State<T>, id: nat)
    requires Shape(s) && id in s.nodes
    ensures var s' := s.(nodes := s.nodes - {id}, sends := Unlink(s.sends, id), recvs := Unlink(s.recvs, id));
            && Shape(s')
            && (s.nodes[id].role.Sender? ==> s'.recvs == s.recvs)
            && (s.nodes[id].role.Receiver? ==> s'.sends == s.sends)
            && (s.nodes[id].woken ==> s'.sends == s.sends && s'.recvs == s.recvs)
  {
    if s.sends.Some? {
      WithoutDistinct(s.sends.value, id);
      if id !in s.sends.value {
        WithoutAbsent(s.sends.value, id);
      }
    }
    if s.recvs.Some? {
      WithoutDistinct(s.recvs.value, id);
      if id !in s.recvs.value {
        WithoutAbsent(s.recvs.value, id);
      }
    }
  }

  lemma PolledSendKeepsInv<T>(s: State<T>, id: nat, item: T)
    requires Inv(s) && id in s.nodes && s.nodes[id].role.Sender?
    ensures Inv(PolledSend(s, id, item).0)
  {
    if !IsFull(s) {
      var mid := s.(sends := Unlink(s.sends, id), nodes := s.nodes - {id});
      SendLeaves(s, id);
      if s.recvs.Some? {
        SentFrom(s, mid, item);
      }
    } else {
      var node := s.nodes[id].(woken := false, kind := Some(Sender), waker := true, waiting := true);
      var s' := PolledSend(s, id, item).0;
      WokenUpdate(s.nodes, id, node, Receiver);
      SameRoles(s, s');
    }
  }

  /** A finished send future leaves its list and the wakeup accounts: at most one woken sender fewer. */
  lemma SendLeaves<T>(s: State<T>, id: nat)
    requires Inv(s) && id in s.nodes && s.nodes[id].role.Sender?
    ensures var mid := s.(sends := Unlink(s.sends, id), nodes := s.nodes - {id});
            && Shape(mid) && (forall k :: HasRole(mid, k) ==> HasRole(s, k))
            && |Woken(mid.nodes, Sender)| >= |Woken(s.nodes, Sender)| - 1
            && |Woken(mid.nodes, Receiver)| == |Woken(s.nodes, Receiver)|
            && (s.sends.Some? && s.recvs.Some? ==> NobodyForgotten(mid))
            && (s.sends.Some? && s.recvs.None? ==> Inv(mid))
  {
    var mid := s.(sends := Unlink(s.sends, id), nodes := s.nodes - {id});
    RemoveKeepsShape(s, id);
    WokenRemove(s.nodes, id, Sender);
    WokenRemove(s.nodes, id, Receiver);
    FewerRoles(s, mid);
  }

  lemma SentFrom<T>(s: State<T>, mid: State<T>, item: T)
    requires Inv(s) && s.recvs.Some? && !IsFull(s) && s.sends.Some? && Shape(mid)
    requires mid == s.(sends := mid.sends, nodes := mid.nodes) && mid.sends.Some? && NobodyForgotten(mid)
    requires mid.sends.value != [] ==> s.sends.value != []
    requires |Woken(mid.nodes, Sender)| >= |Woken(s.nodes, Sender)| - 1
    requires |Woken(mid.nodes, Receiver)| == |Woken(s.nodes, Receiver)|
    ensures Inv(Push(mid, item).0)
  {
    var put := mid.(items := mid.items + [item], sent := mid.sent + [item]);
    assert Shape(put);
    WakeReceiverEffect(put);
    assert put.received + put.items == put.sent;
  }

  /** A receiver that is answered gives up its place in the list and its wakeup. */
  lemma RecvLeaves<T>(s: State<T>, id: nat, rest: map<nat, Node>)
    requires Inv(s) && id in s.nodes && s.nodes[id].role.Receiver?
    requires rest == (if s.nodes[id].stream then s.nodes[id := s.nodes[id].(woken := false, waiting := false)]
                      else s.nodes - {id})
    ensures var mid := s.(recvs := Unlink(s.recvs, id), nodes := rest);
            && Shape(mid) && (forall k :: HasRole(mid, k) ==> HasRole(s, k))
            && |Woken(mid.nodes, Receiver)| >= |Woken(s.nodes, Receiver)| - 1
            && |Woken(mid.nodes, Sender)| == |Woken(s.nodes, Sender)|
            && (s.sends.Some? && s.recvs.Some? ==> NobodyForgotten(mid))
  {
    var mid := s.(recvs := Unlink(s.recvs, id), nodes := rest);
    RemoveKeepsShape(s, id);
    if s.nodes[id].stream {
      WokenUpdate(s.nodes, id, rest[id], Receiver);
      WokenUpdate(s.nodes, id, rest[id], Sender);
    } else {
      WokenRemove(s.nodes, id, Receiver);
      WokenRemove(s.nodes, id, Sender);
    }
    FewerRoles(s, mid);
  }

  lemma WaitRecvKeepsInv<T>(s: State<T>, id: nat)
    requires Inv(s) && id in s.nodes && s.nodes[id].role.Receiver? && s.items == [] && s.sends.Some?
    ensures Inv(WaitRecv(s, id))
  {
    var node := s.nodes[id].(woken := false, kind := Some(Receiver), waker := true, waiting := true);
    WokenUpdate(s.nodes, id, node, Sender);
    SameRoles(s, WaitRecv(s, id));
  }

  lemma PolledRecvKeepsInv<T>(s: State<T>, id: nat)
    requires Inv(s) && id in s.nodes && s.nodes[id].role.Receiver?
    ensures Inv(PolledRecv(s, id).0)
  {
    var mid := LeaveRecvs(s, id);
    RecvLeaves(s, id, mid.nodes);
    if s.items != [] {
      ReceivedFrom(s, mid);
    } else if s.sends.Some? {
      WaitRecvKeepsInv(s, id);
    }
  }

  lemma ReceivedFrom<T>(s: State<T>, mid: State<T>)
    requires Inv(s) && s.items != [] && Shape(mid) && mid == s.(recvs := mid.recvs, nodes := mid.nodes)
    requires s.recvs.Some? <==> mid.recvs.Some?
    requires s.recvs.Some? && mid.recvs.value != [] ==> s.recvs.value != []
    requires s.sends.Some? && s.recvs.Some? ==> NobodyForgotten(mid)
    requires forall k :: HasRole(mid, k) ==> HasRole(s, k)
    requires |Woken(mid.nodes, Receiver)| >= |Woken(s.nodes, Receiver)| - 1
    requires |Woken(mid.nodes, Sender)| == |Woken(s.nodes, Sender)|
    ensures Inv(TakeItem(mid))
  {
    var got := mid.(items := s.items[1..], received := s.received + [s.items[0]]);
    assert Shape(got) && got.received + got.items == got.sent;
    SameRoles(mid, got);
    WakeSenderEffect(got);
  }

  /** Dropping a future that was linked, or never polled. */
  lemma DropUnwoken<T>(s: State<T>, id: nat)
    requires Inv(s) && id in s.nodes && !s.nodes[id].woken
    ensures Inv(Dropped(s, id))
  {
    RemoveKeepsShape(s, id);
    WokenRemove(s.nodes, id, Receiver);
    WokenRemove(s.nodes, id, Sender);
    FewerRoles(s, Dropped(s, id));
  }

  lemma WokenLeaves<T>(s: State<T>, id: nat)
    requires Inv(s) && id in s.nodes && s.nodes[id].woken
    ensures var gone := s.(nodes := s.nodes - {id});
            && Shape(gone) && (forall k :: HasRole(gone, k) ==> HasRole(s, k))
            && (forall k :: |Woken(gone.nodes, k)| == |Woken(s.nodes, k)| - if s.nodes[id].role == k then 1 else 0)
            && (NobodyForgotten(s) ==> NobodyForgotten(gone))
  {
    var gone := s.(nodes := s.nodes - {id});
    RemoveKeepsShape(s, id);
    assert gone == s.(nodes := s.nodes - {id}, sends := Unlink(s.sends, id), recvs := Unlink(s.recvs, id));
    WokenRemove(s.nodes, id, Receiver);
    WokenRemove(s.nodes, id, Sender);
    FewerRoles(s, gone);
  }

  lemma DropWokenSender<T>(s: State<T>, id: nat)
    requires Inv(s) && id in s.nodes && s.nodes[id].woken && s.nodes[id].role.Sender?
    ensures Inv(Dropped(s, id))
  {
    WokenLeaves(s, id);
    WakeSenderEffect(s.(nodes := s.nodes - {id}));
  }

  lemma DropWokenReceiver<T>(s: State<T>, id: nat)
    requires Inv(s) && id in s.nodes && s.nodes[id].woken && s.nodes[id].role.Receiver?
    ensures Inv(Dropped(s, id))
  {
    WokenLeaves(s, id);
    WakeReceiverEffect(s.(nodes := s.nodes - {id}));
  }

  lemma DroppedKeepsInv<T>(s: State<T>, id: nat)
    requires Inv(s) && id in s.nodes
    ensures Inv(Dropped(s, id))
  {
    if !s.nodes[id].woken {
      DropUnwoken(s, id);
    } else if s.nodes[id].role.Sender? {
      DropWokenSender(s, id);
    } else {
      DropWokenReceiver(s, id);
    }
  }

  lemma EndKeepsInv<T>(s: State<T>, e: Event<T>)
    requires Inv(s) && (e.DropSender? || e.DropReceiver?)
    ensures Inv(Apply(s, e).0)
  {
    var s' := Apply(s, e).0;
    SameRoles(s, s');
  }

  lemma StartKeepsInv<T>(s: State<T>, e: Event<T>)
    requires Inv(s) && (e.StartSend? || e.StartRecv?)
    ensures Inv(Apply(s, e).0)
  {
    var s' := Apply(s, e).0;
    if s' != s {
      WokenUpdate(s.nodes, e.id, s'.nodes[e.id], Sender);
      WokenUpdate(s.nodes, e.id, s'.nodes[e.id], Receiver);
      forall k | HasRole(s', k) && k != s'.nodes[e.id].role
        ensures HasRole(s, k)
      {
        var n :| n in s'.nodes && s'.nodes[n].role == k;
        assert n in s.nodes;
      }
    }
  }

  lemma ApplyKeepsInv<T>(s: State<T>, e: Event<T>)
    requires Inv(s)
    ensures Inv(Apply(s, e).0)
  {
    match e {
      case TrySend(item) => PushKeepsInv(s, item);
      case PollSend(id, item) => if id in s.nodes && s.nodes[id].role.Sender? { PolledSendKeepsInv(s, id, item); }
      case PollRecv(id) => if id in s.nodes && s.nodes[id].role.Receiver? { PolledRecvKeepsInv(s, id); }
      case Drop(id) => if id in s.nodes { DroppedKeepsInv(s, id); }
      case StartSend(_) => StartKeepsInv(s, e);
      case StartRecv(_, _) => StartKeepsInv(s, e);
      case DropSender => EndKeepsInv(s, e);
      case DropReceiver => EndKeepsInv(s, e);
    }
  }

  lemma {:induction false} RunKeepsInv<T>(s: State<T>, events: seq<Event<T>>)
    requires Inv(s)
    ensures Inv(Run(s, events))
  {
    if events != [] {
      RunKeepsInv(s, events[..|events| - 1]);
      ApplyKeepsInv(Run(s, events[..|events| - 1]), events[|events| - 1]);
    }
  }

  // ----------------------------------------------------------------- theorems

  /**
   After any events whatever, items have come out in the order they went in, the
   capacity holds, and while both ends are alive no wakeup is lost: waiting receivers
   mean enough woken ones for the items, waiting senders mean enough woken ones for
   the room, and no pending future is out of reach of a wakeup.
   */
  lemma {:induction false} NoLostWakeup<T>(capacity: Option<nat>, events: seq<Event<T>>)
    ensures var s := Run(New(capacity), events);
            && s.received + s.items == s.sent
            && (capacity.Some? ==> |s.items| <= capacity.value)
            && (s.sends.Some? && s.recvs.Some? ==> NoLostReceiver(s) && NoLostSender(s) && NobodyForgotten(s))
  {
    RunKeepsInv(New(capacity), events);
    CapacityIsFixed(New<T>(capacity), events);
  }

  lemma {:induction false} CapacityIsFixed<T>(s: State<T>, events: seq<Event<T>>)
    ensures Run(s, events).capacity == s.capacity
  {
    if events != [] {
      CapacityIsFixed(s, events[..|events| - 1]);
    }
  }

  /**
   Once every woken future has been polled or dropped, a receiver still pending means
   that the channel is empty, and a sender still pending means that it is full.
   */
  lemma {:induction false} QuiescentMeansBlocked<T>(capacity: Option<nat>, events: seq<Event<T>>, n: nat)
    requires var s := Run(New(capacity), events);
             && s.sends.Some? && s.recvs.Some? && n in s.nodes && s.nodes[n].waiting
             && forall m | m in s.nodes :: !s.nodes[m].woken
    ensures var s := Run(New(capacity), events);
            if s.nodes[n].role.Sender? then IsFull(s) else s.items == []
  {
    RunKeepsInv(New(capacity), events);
    var s := Run(New(capacity), events);
    assert Woken(s.nodes, Sender) == {} && Woken(s.nodes, Receiver) == {};
  }

  /** `send` is answered by success or by Closed, never by WouldBlock. */
  lemma SendNeverWouldBlock<T>(s: State<T>, id: nat, item: T)
    requires Inv(s) && id in s.nodes && s.nodes[id].role.Sender?
    ensures var (s', answer) := PolledSend(s, id, item);
            && (answer == Pending <==> IsFull(s))
            && (answer == Closed <==> !IsFull(s) && s.recvs.None?)
            && (answer == Sent <==> !IsFull(s) && s.recvs.Some?)
            && (answer == Sent ==> s'.items == s.items + [item])
            && (answer != Sent ==> s'.items == s.items)
  {
  }

  /** A call that starts while its end of the channel is alive gets an answer when it is polled. */
  lemma CallsAreAnswered<T>(s: State<T>, id: nat, item: T, stream: bool)
    requires Inv(s) && id !in s.nodes
    ensures s.sends.Some? ==> Apply(Apply(s, StartSend(id)).0, PollSend(id, item)).1 != Nothing
    ensures s.recvs.Some? ==> Apply(Apply(s, StartRecv(id, stream)).0, PollRecv(id)).1 != Nothing
  {
  }

  /** A future that is dropped is forgotten, and takes nothing with it. */
  lemma DropForgets<T>(s: State<T>, id: nat)
    requires Inv(s)
    ensures var s' := Apply(s, Drop(id)).0;
            && id !in s'.nodes && !LinkedIn(s'.sends, id) && !LinkedIn(s'.recvs, id)
            && s'.nodes.Keys == s.nodes.Keys - {id} && s'.items == s.items && s'.sent == s.sent
  {
  }

  /** `try_send` never waits: which answer it gives, and that only success changes what is queued. */
  lemma TrySendExact<T>(s: State<T>, item: T)
    requires Inv(s) && s.sends.Some?
    ensures var (s', answer) := Apply(s, TrySend(item));
            && (answer == Closed <==> s.recvs.None?)
            && (answer == WouldBlock <==> s.recvs.Some? && s.capacity.Some? && |s.items| == s.capacity.value)
            && (answer == Sent <==> s.recvs.Some? && (s.capacity.Some? ==> |s.items| < s.capacity.value))
            && s'.items == (if answer == Sent then s.items + [item] else s.items)
            && s'.sent == (if answer == Sent then s.sent + [item] else s.sent) && s'.received == s.received
            && s'.capacity == s.capacity && s'.sends == s.sends && (s'.recvs.None? <==> s.recvs.None?)
  {
  }

  /** The waker of every pending receiver has been called. */
  ghost predicate ReceiversCalled<T>(s: State<T>) {
    s.sends.None? ==> forall n | n in s.nodes && s.nodes[n].role.Receiver? && s.nodes[n].waiting :: !s.nodes[n].waker
  }

  lemma StepCallsReceivers<T>(s: State<T>, e: Event<T>)
    requires Inv(s) && ReceiversCalled(s)
    ensures ReceiversCalled(Apply(s, e).0)
  {
  }

  /**
   Once the sender has been dropped, no receiver is left pending with a waker that has not
   been called; polled again, it gets what is left in order, and then the end.
   */
  lemma {:induction false} DropReachesReceivers<T>(capacity: Option<nat>, events: seq<Event<T>>)
    ensures var s := Run(New(capacity), events);
            ReceiversCalled(s) && (s.sends.None? ==> forall n | n in s.nodes && s.nodes[n].role.Receiver? ::
              PolledRecv(s, n).1 == if s.items != [] then Got(s.items[0]) else Ended)
  {
    if events != [] {
      var before := events[..|events| - 1];
      DropReachesReceivers<T>(capacity, before);
      RunKeepsInv(New(capacity), before);
      StepCallsReceivers(Run(New(capacity), before), events[|events| - 1]);
    }
  }

  /** A sender that none of its futures borrow can be dropped; what was sent is still there. */
  lemma DropSenderEnds<T>(s: State<T>, id: nat)
    requires Inv(s) && !HasRole(s, Sender)
    ensures var s' := Apply(s, DropSender).0;
            && s'.sends.None? && s'.items == s.items && s'.nodes.Keys == s.nodes.Keys
            && (id in s'.nodes && s'.nodes[id].role.Receiver? ==>
                  PolledRecv(s', id).1 == if s.items != [] then Got(s.items[0]) else Ended)
  {
  }

  /** When the receiver is dropped, every pending sender's waker is called. */
  lemma DropReachesSenders<T>(s: State<T>)
    requires Inv(s) && s.recvs.Some? && s.sends.Some? && !HasRole(s, Receiver)
    ensures var s' := Apply(s, DropReceiver).0;
            s'.recvs.None? && forall n | n in s'.nodes && s'.nodes[n].role.Sender? && s'.nodes[n].waiting ::
              !s'.nodes[n].waker
  {
  }

  lemma StepAfterReceiver<T>(s: State<T>, e: Event<T>)
    requires Inv(s) && s.recvs.None?
    ensures var s' := Apply(s, e).0; s'.recvs.None? && s'.items == s.items && s'.capacity == s.capacity
  {
  }

  /**
   After the receiver has been dropped a `send` is answered, by Closed, if and only if the
   channel was not full; otherwise it stays pending whatever happens.
   */
  lemma {:induction false} SendAnsweredIff<T>(s: State<T>, events: seq<Event<T>>, id: nat, item: T)
    requires Inv(s) && s.recvs.None?
    ensures var s' := Run(s, events);
            && Inv(s') && s'.recvs.None? && s'.items == s.items && s'.capacity == s.capacity
            && (id in s'.nodes && s'.nodes[id].role.Sender? ==>
                  PolledSend(s', id, item).1 == if IsFull(s) then Pending else Closed)
  {
    RunKeepsInv(s, events);
    if events != [] {
      var before := events[..|events| - 1];
      SendAnsweredIff(s, before, id, item);
      StepAfterReceiver(Run(s, before), events[|events| - 1]);
    }
  }

  lemma FullWithoutReceiver<T>(first: T) returns (s: State<T>)
    ensures s == Apply(Apply(New(Some(1)), TrySend(first)).0, DropReceiver).0
    ensures Inv(s) && s.recvs.None? && s.sends.Some? && IsFull(s) && s.nodes == map[]
  {
    var empty: State<T> := New(Some(1));
    var sent := Apply(empty, TrySend(first)).0;
    RunKeepsInv(empty, []);
    ApplyKeepsInv(empty, TrySend(first));
    s := Apply(sent, DropReceiver).0;
    ApplyKeepsInv(sent, DropReceiver);
  }

  /** One item in a channel of one place, the receiver dropped: whoever sends now waits for ever. */
  lemma {:induction false} AbandonedSend<T>(first: T, item: T, id: nat, events: seq<Event<T>>)
    ensures var s := Apply(Apply(New(Some(1)), TrySend(first)).0, DropReceiver).0;
            var (waiting, answer) := Apply(Apply(s, StartSend(id)).0, PollSend(id, item));
            && answer == Pending
            && (id in Run(waiting, events).nodes && Run(waiting, events).nodes[id].role.Sender? ==>
                  PolledSend(Run(waiting, events), id, item).1 == Pending)
  {
    var s := FullWithoutReceiver(first);
    var started := Apply(s, StartSend(id)).0;
    var waiting := Apply(started, PollSend(id, item)).0;
    ApplyKeepsInv(s, StartSend(id));
    ApplyKeepsInv(started, PollSend(id, item));
    SendAnsweredIff(waiting, events, id, item);
  }

  /** A receive hands over the oldest item, and ends only when the sender is gone and nothing is left. */
  lemma ReceiveTakesOldest<T>(s: State<T>, id: nat)
    requires Inv(s) && id in s.nodes && s.nodes[id].role.Receiver?
    ensures var (s', answer) := PolledRecv(s, id);
            && (s.items != [] ==> answer == Got(s.items[0]) && s.items == [s.items[0]] + s'.items)
            && (answer == Ended <==> s.items == [] && s.sends.None?)
            && (answer == Ended ==> s.received == s.sent)
  {
  }

  // ------------------------------------------------------- the mutable channel

  /** The channel's shared state and the nodes of its futures, updated in place. */
  class Channel<T> {
    const capacity: Option<nat>
    var items: seq<T>
    var recvs: Option<seq<nat>>
    var sends: Option<seq<nat>>
    var nodes: map<nat, Node>
    ghost var sent: seq<T>
    ghost var received: seq<T>

    ghost function Snapshot(): State<T>
      reads this
    {
      State(capacity, items, recvs, sends, nodes, sent, received)
    }

    ghost predicate Valid()
      reads this
    {
      Inv(Snapshot())
    }

    constructor (capacity: Option<nat>)
      ensures Valid() && Snapshot() == New(capacity)
    {
      this.capacity := capacity;
      items, recvs, sends, nodes := [], Some([]), Some([]), map[];
      sent, received := [], [];
    }

    method WakeFirstReceiver()
      requires ListOk(recvs, nodes, Receiver)
      modifies this`recvs, this`nodes
      ensures Snapshot() == WakeReceiver(old(Snapshot()))
    {
      if recvs.Some? && recvs.value != [] {
        var id := recvs.value[0];
        assert id in recvs.value;
        recvs := Some(recvs.value[1..]);
        nodes := nodes[id := nodes[id].(woken := true, waker := false)];
      }
    }

    method WakeFirstSender()
      requires ListOk(sends, nodes, Sender)
      modifies this`sends, this`nodes
      ensures Snapshot() == WakeSender(old(Snapshot()))
    {
      if sends.Some? && sends.value != [] {
        var id := sends.value[0];
        assert id in sends.value;
        sends := Some(sends.value[1..]);
        nodes := nodes[id := nodes[id].(woken := true, waker := false)];
      }
    }

    /** `push` */
    method PushItem(item: T) returns (answer: Answer<T>)
      requires ListOk(recvs, nodes, Receiver)
      modifies this`items, this`recvs, this`nodes, this`sent
      ensures (Snapshot(), answer) == Push(old(Snapshot()), item)
    {
      if recvs.None? {
        return Closed;
      } else if capacity.Some? && |items| >= capacity.value {
        return WouldBlock;
      }
      items, sent := items + [item], sent + [item];
      WakeFirstReceiver();
      return Sent;
    }

    /** `try_send` */
    method TrySend(item: T) returns (answer: Answer<T>)
      requires Valid()
      modifies this`items, this`recvs, this`nodes, this`sent
      ensures Valid() && (Snapshot(), answer) == Push(old(Snapshot()), item)
      ensures answer == if recvs.None? then Closed
                        else if capacity.Some? && |old(items)| == capacity.value then WouldBlock else Sent
      ensures items == if answer == Sent then old(items) + [item] else old(items)
    {
      PushKeepsInv(Snapshot(), item);
      answer := PushItem(item);
    }

    /** A poll of a `send` future; on room the future goes on to push and is over. */
    method PollSend(id: nat, item: T) returns (answer: Answer<T>)
      requires Valid() && id in nodes && nodes[id].role.Sender?
      modifies this
      ensures Valid() && (Snapshot(), answer) == PolledSend(old(Snapshot()), id, item)
    {
      PolledSendKeepsInv(Snapshot(), id, item);
      if capacity.Some? && |items| >= capacity.value {
        WaitSend(id);
        answer := Pending;
      } else {
        SendLeaves(Snapshot(), id);
        sends, nodes := Unlink(sends, id), nodes - {id};
        answer := PushItem(item);
      }
    }

    method WaitSend(id: nat)
      requires id in nodes
      modifies this`nodes, this`sends
      ensures Snapshot() ==
              SetNode(old(Snapshot()), id,
                      old(nodes[id]).(woken := false, kind := Some(Sender), waker := true, waiting := true))
              .(sends := Link(old(sends), id))
    {
      nodes := nodes[id := nodes[id].(woken := false, kind := Some(Sender), waker := true, waiting := true)];
      sends := Link(sends, id);
    }

    /** A poll of a `recv` future or of a stream. */
    method PollRecv(id: nat) returns (answer: Answer<T>)
      requires Valid() && id in nodes && nodes[id].role.Receiver?
      modifies this
      ensures Valid() && (Snapshot(), answer) == PolledRecv(old(Snapshot()), id)
    {
      PolledRecvKeepsInv(Snapshot(), id);
      ghost var before := Snapshot();
      var awake := nodes[id].(woken := false, waiting := false);
      if items == [] && sends.Some? {
        nodes := nodes[id := awake.(kind := Some(Receiver), waker := true, waiting := true)];
        recvs := Link(recvs, id);
        return Pending;
      }
      nodes := if awake.stream then nodes[id := awake] else nodes - {id};
      recvs := Unlink(recvs, id);
      RecvLeaves(before, id, nodes);
      if items == [] {
        return Ended;
      }
      answer := Got(items[0]);
      received := received + [items[0]];
      items := items[1..];
      WakeFirstSender();
    }

    /** Dropping a future or a stream. */
    method DropWaiter(id: nat)
      requires Valid() && id in nodes
      modifies this`nodes, this`sends, this`recvs
      ensures Valid() && Snapshot() == Dropped(old(Snapshot()), id)
    {
      DroppedKeepsInv(Snapshot(), id);
      ghost var before := Snapshot();
      var node := nodes[id];
      nodes := nodes - {id};
      if node.woken {
        WokenLeaves(before, id);
        match node.kind.value {
          case Sender =>
            if !(capacity.Some? && |items| >= capacity.value) {
              WakeFirstSender();
            }
          case Receiver =>
            if items != [] {
              WakeFirstReceiver();
            }
        }
      } else {
        sends, recvs := Unlink(sends, id), Unlink(recvs, id);
      }
    }
  }
}
