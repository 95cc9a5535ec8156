/**
 What the hub does with one inbound message, as values: how the message is
 stamped, which outbound requests it produces, and how it changes the group
 registry and the sender's own group list.
 */
module Routing {
  import opened Msgs
  import opened Peers
  import opened Registry

  /** The inbound message as the hub forwards it: an existing `Id` is kept,
      a missing one is replaced by `freshId`, and `Source` is the sender. */
  function Stamp(m: Msg, senderId: Uuid, freshId: Uuid): (r: Msg)
    ensures r.Source == Some(senderId)
    ensures r.Id.Some? && (m.Id.Some? ==> r.Id == m.Id) && (m.Id.None? ==> r.Id == Some(freshId))
    ensures r.Dest == m.Dest && r.Cmd == m.Cmd && r.Data == m.Data
  {
    m.(Id := if m.Id.None? then Some(freshId) else m.Id, Source := Some(senderId))
  }

  /** One request carrying `m` for each of `peers`, in that order. */
  function Fanout(peers: seq<Peer>, m: Msg): (r: seq<DataReq>)
    ensures |r| == |peers|
    ensures forall i :: 0 <= i < |r| ==> r[i] == DataReq(peers[i], m)
  {
    if peers == [] then [] else [DataReq(peers[0], m)] + Fanout(peers[1..], m)
  }

  /** The addressees of `rs`, in order. */
  function Receivers(rs: seq<DataReq>): (r: seq<Peer>)
    ensures |r| == |rs|
    ensures forall i :: 0 <= i < |r| ==> r[i] == rs[i].peer
  {
    if rs == [] then [] else [rs[0].peer] + Receivers(rs[1..])
  }

  /** Adding a member to the end of a fan-out adds one request at the end. */
  lemma {:induction false} FanoutSnoc(peers: seq<Peer>, p: Peer, m: Msg)
    ensures Fanout(peers + [p], m) == Fanout(peers, m) + [DataReq(p, m)]
  {
    var a := Fanout(peers + [p], m);
    var b := Fanout(peers, m) + [DataReq(p, m)];
    assert |a| == |b|;
    forall i | 0 <= i < |a|
      ensures a[i] == b[i]
    {
      if i < |peers| {
        assert (peers + [p])[i] == peers[i];
      }
    }
  }

  /** The requests produced by an already stamped message with non-empty
      `Data`: one to the registered peer named by `Dest`, with `Dest`
      cleared; otherwise, for `Publish`, one to every member of a broadcast
      group in member order; for `Produce`, one to the member at position
      `rnd % |members|` of a queue group; for anything else, none. */
  function Deliveries(clients: map<Uuid, Peer>, gs: Groups, m: Msg, rnd: nat): (r: seq<DataReq>)
    requires NoEmptyGroup(gs)
    requires |m.Data| > 0
    ensures forall k :: 0 <= k < |r| ==> r[k].msg == m.(Dest := None)
    ensures m.Dest.Some? ==>
      && |r| == (if m.Dest.value in clients then 1 else 0)
      && (forall k :: 0 <= k < |r| ==> r[k].peer == clients[m.Dest.value])
    ensures m.Dest.None? && m.Cmd == Publish && m.Data[0] in gs && !gs[m.Data[0]].Queue ==>
      Receivers(r) == gs[m.Data[0]].Peers
    ensures m.Dest.None? && m.Cmd == Produce && m.Data[0] in gs && gs[m.Data[0]].Queue ==>
      |r| == 1 && r[0].peer in gs[m.Data[0]].Peers
    ensures m.Dest.None? ==> forall k :: 0 <= k < |r| ==> m.Data[0] in gs && r[k].peer in gs[m.Data[0]].Peers
    ensures m.Dest.None? && m.Cmd != Publish && m.Cmd != Produce ==> r == []
    ensures m.Dest.None? && (m.Data[0] !in gs || gs[m.Data[0]].Queue != (m.Cmd == Produce)) ==> r == []
  {
    if m.Dest.Some? then
      if m.Dest.value in clients then [DataReq(clients[m.Dest.value], m.(Dest := None))] else []
    else
      var name := m.Data[0];
      match m.Cmd
      case Publish =>
        if name in gs && !gs[name].Queue then Fanout(gs[name].Peers, m) else []
      case Produce =>
        if name in gs && gs[name].Queue then
          var peers := gs[name].Peers;
          [DataReq(peers[rnd % |peers|], m)]
        else []
      case _ => []
  }

  /** The requests produced by an inbound message from the peer `senderId`:
      none when `Data` is empty, otherwise those of the stamped message. */
  function Route(clients: map<Uuid, Peer>, gs: Groups, senderId: Uuid, msg: Msg, freshId: Uuid, rnd: nat)
    : (r: seq<DataReq>)
    requires NoEmptyGroup(gs)
    ensures |msg.Data| == 0 ==> r == []
    ensures forall k :: 0 <= k < |r| ==>
      && r[k].msg.Source == Some(senderId)
      && r[k].msg.Id == (if msg.Id.Some? then msg.Id else Some(freshId))
      && r[k].msg.Dest.None?
      && r[k].msg.Cmd == msg.Cmd && r[k].msg.Data == msg.Data
  {
    if |msg.Data| == 0 then [] else Deliveries(clients, gs, Stamp(msg, senderId, freshId), rnd)
  }

  /** The registry and the sender's group list after an inbound message:
      `Subscribe` joins with `service == false` and `Consume` with
      `service == true` (an existing group keeps its kind whatever the
      flag), `Unsubscribe` leaves; a message with empty `Data` or with a
      `Dest` changes nothing, and neither does any other command. */
  function AfterCommand(gs: Groups, memberOf: seq<string>, msg: Msg, p: Peer): (r: (Groups, seq<string>))
    ensures |msg.Data| == 0 || msg.Dest.Some? ==> r == (gs, memberOf)
    ensures msg.Cmd !in {Subscribe, Consume, Unsubscribe} ==> r == (gs, memberOf)
    ensures |msg.Data| > 0 && msg.Dest.None? && msg.Cmd == Subscribe ==>
      r == AfterJoin(gs, memberOf, msg.Data[0], false, p)
    ensures |msg.Data| > 0 && msg.Dest.None? && msg.Cmd == Consume ==>
      r == AfterJoin(gs, memberOf, msg.Data[0], true, p)
    ensures |msg.Data| > 0 && msg.Dest.None? && msg.Cmd == Unsubscribe ==>
      r == (AfterLeave(gs, msg.Data[0], p), memberOf)
  {
    if |msg.Data| == 0 || msg.Dest.Some? then (gs, memberOf)
    else
      match msg.Cmd
      case Subscribe => AfterJoin(gs, memberOf, msg.Data[0], false, p)
      case Consume => AfterJoin(gs, memberOf, msg.Data[0], true, p)
      case Unsubscribe => (AfterLeave(gs, msg.Data[0], p), memberOf)
      case _ => (gs, memberOf)
  }

  /** A `Publish` to a broadcast group reaches each member exactly once and
      no other peer. */
  lemma PublishReachesEachMemberOnce(
    clients: map<Uuid, Peer>, gs: Groups, senderId: Uuid, msg: Msg, freshId: Uuid, rnd: nat, q: Peer)
    requires NoEmptyGroup(gs) && NoDuplicates(gs)
    requires |msg.Data| > 0 && msg.Dest.None? && msg.Cmd == Publish
    requires msg.Data[0] in gs && !gs[msg.Data[0]].Queue
    ensures multiset(Receivers(Route(clients, gs, senderId, msg, freshId, rnd)))[q]
            == if q in gs[msg.Data[0]].Peers then 1 else 0
  {
    var peers := gs[msg.Data[0]].Peers;
    assert Receivers(Route(clients, gs, senderId, msg, freshId, rnd)) == peers;
    if q in peers {
      assert Distinct(peers);
    }
  }

  /** A routed message never changes the registry, and a registry command
      never produces a request. */
  lemma RoutingAndRegistryAreSeparate(
    clients: map<Uuid, Peer>, gs: Groups, memberOf: seq<string>, p: Peer, msg: Msg, freshId: Uuid, rnd: nat)
    requires NoEmptyGroup(gs)
    ensures Route(clients, gs, p.Id, msg, freshId, rnd) != [] ==> AfterCommand(gs, memberOf, msg, p) == (gs, memberOf)
    ensures AfterCommand(gs, memberOf, msg, p) != (gs, memberOf) ==> Route(clients, gs, p.Id, msg, freshId, rnd) == []
  {
  }

  /** Every inbound message keeps each group non-empty and duplicate-free
      and keeps the sender's list naming its groups; the memberships of
      other peers never grow. */
  lemma CommandKeepsInvariant(gs: Groups, memberOf: seq<string>, msg: Msg, p: Peer)
    requires NoEmptyGroup(gs) && NoDuplicates(gs) && Listed(gs, p, memberOf)
    ensures var r := AfterCommand(gs, memberOf, msg, p);
      && NoEmptyGroup(r.0) && NoDuplicates(r.0) && Listed(r.0, p, r.1)
      && (forall n, q :: q != p && n in r.0 && q in r.0[n].Peers ==> n in gs && q in gs[n].Peers)
  {
    if |msg.Data| > 0 && msg.Dest.None? {
      var name := msg.Data[0];
      match msg.Cmd
      case Subscribe => JoinKeepsInvariant(gs, memberOf, name, false, p);
      case Consume => JoinKeepsInvariant(gs, memberOf, name, true, p);
      case Unsubscribe =>
        LeaveKeepsInvariant(gs, name, p);
      case _ =>
    }
  }
}
