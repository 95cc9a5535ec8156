/**
 The hub: the registry of connected peers and of groups, and the routing of
 inbound messages, as one sequential state machine. The hub's outbound
 channel is the `SendQueue` its peers push onto.
 */
module Hubs {
  import opened Msgs
  import opened Peers
  import opened Registry
  import opened Routing

  const MinInt64: int := -0x8000_0000_0000_0000
  const MaxInt64: int := 0x7fff_ffff_ffff_ffff

  /** A `time.Duration`: a signed 64-bit count of nanoseconds. */
  type Duration = x: int | -0x8000_0000_0000_0000 <= x <= 0x7fff_ffff_ffff_ffff

  /** `x` reduced into the signed 64-bit range, as 64-bit arithmetic wraps. */
  function Wrap64(x: int): (r: Duration)
    ensures (x - r) % 0x1_0000_0000_0000_0000 == 0
    ensures MinInt64 <= x <= MaxInt64 ==> r == x
  {
    var y := x % 0x1_0000_0000_0000_0000;
    if y <= MaxInt64 then y else y - 0x1_0000_0000_0000_0000
  }

  /** Division by ten rounding toward zero, as Go's `/` does. */
  function Quo10(a: int): (q: int)
    ensures 0 <= a ==> 0 <= 10 * q <= a < 10 * q + 10
    ensures a < 0 ==> 10 * q - 10 < a <= 10 * q <= 0
  {
    if a >= 0 then a / 10 else -((-a) / 10)
  }

  /** The keepalive interval derived from the pong wait: nine tenths of it,
      computed as `(pongWait * 9) / 10` in 64-bit arithmetic. */
  function PingPeriod(pongWait: Duration): (r: Duration)
    ensures 0 <= pongWait <= MaxInt64 / 9 ==> 0 <= 10 * r <= 9 * pongWait < 10 * r + 10
    ensures -(MaxInt64 / 9) <= pongWait < 0 ==> 10 * r - 10 < 9 * pongWait <= 10 * r <= 0
    ensures 0 < pongWait <= MaxInt64 / 9 ==> r < pongWait
  {
    Quo10(Wrap64(pongWait * 9))
  }

  datatype Err = ErrContextDone | ErrInternal | ErrMalformed

  /** What `Statics` reports. */
  datatype StaticsReport = StaticsReport(
    Name: string,
    Total: int,
    Clients: map<Uuid, Peer>,
    Groups: Groups,
    Version: string)

  class Hub {
    var addr: string
    var writeWait: Duration
    var pingWait: Duration
    var pingPeriod: Duration

    var clients: map<Uuid, Peer>
    var groups: Groups

    /** The buffered outbound channel. */
    const send: SendQueue

    /** Every peer that is a member of some group. */
    ghost function Members(): set<Peer>
      reads this
    {
      set n, q | n in groups && q in groups[n].Peers :: q
    }

    /** The hub's invariant: no group is empty, no peer is twice in a group,
        a member of a group names it in its own `Groups`, every peer the hub
        knows pushes onto this hub's queue, and `clients` is keyed by id. */
    ghost predicate Valid()
      reads this, Members()`Groups
    {
      && NoEmptyGroup(groups)
      && NoDuplicates(groups)
      && (forall n, q :: n in groups && q in groups[n].Peers ==> n in q.Groups)
      && (forall q :: q in Members() ==> q.hubSend == send)
      && (forall id :: id in clients ==> clients[id].Id == id && clients[id].hubSend == send)
    }

    /** NewHub: empty registries, a fresh queue, and the ping period derived
        from the pong wait. */
    constructor (addr: string, writeWait: Duration, pongWait: Duration)
      ensures Valid()
      ensures clients == map[] && groups == map[]
      ensures fresh(send) && send.items == []
      ensures this.addr == addr && this.writeWait == writeWait && pingWait == pongWait
      ensures pingPeriod == PingPeriod(pongWait)
    {
      clients := map[];
      groups := map[];
      send := new SendQueue();
      this.addr := addr;
      pingWait := pongWait;
      this.writeWait := writeWait;
      pingPeriod := PingPeriod(pongWait);
    }

    /** Fills in every group's `Count` and reports the registries. */
    method Statics(serviceName: string) returns (sr: StaticsReport)
      requires Valid()
      modifies this`groups
      ensures groups == WithCounts(old(groups))
      ensures sr == StaticsReport(serviceName, |clients|, clients, groups, "")
      ensures Valid()
    {
      var keys := groups.Keys;
      ghost var done: set<string> := {};
      while keys != {}
        invariant keys !! done && keys + done == old(groups).Keys
        invariant groups.Keys == old(groups).Keys
        invariant forall n :: n in groups ==>
          groups[n] == if n in done then old(groups)[n].(Count := |old(groups)[n].Peers|) else old(groups)[n]
        decreases keys
      {
        var k :| k in keys;
        groups := groups[k := groups[k].(Count := |groups[k].Peers|)];
        keys := keys - {k};
        done := done + {k};
      }
      assert Members() == old(Members());
      sr := StaticsReport(serviceName, |clients|, clients, groups, "");
    }

    /** Queues `v` for `p` without counting it. */
    method Send(p: Peer, v: Msg)
      requires Valid()
      modifies send
      ensures send.items == old(send.items) + [DataReq(p, v)]
      ensures Valid()
    {
      send.items := send.items + [DataReq(p, v)];
    }

    /** Handles one inbound message from `d.peer`. */
    method ProcessData(d: DataReq, freshId: Uuid, rnd: nat)
      requires Valid() && d.peer.hubSend == send
      modifies this`groups, d.peer`Groups, send, clients.Values`Count, Members()`Count
      ensures Valid()
      ensures clients == old(clients)
      ensures send.items == old(send.items) + Route(old(clients), old(groups), d.peer.Id, d.msg, freshId, rnd)
      ensures (groups, d.peer.Groups) == AfterCommand(old(groups), old(d.peer.Groups), d.msg, d.peer)
      ensures forall q :: q in old(clients.Values) + old(Members()) ==>
        q.Count == old(q.Count)
                   + multiset(Receivers(Route(old(clients), old(groups), d.peer.Id, d.msg, freshId, rnd)))[q]
    {
      if |d.msg.Data| == 0 {
        return;
      }
      var m := d.msg;
      if m.Id.None? {
        m := m.(Id := Some(freshId));
      }
      m := m.(Source := Some(d.peer.Id));
      assert m == Stamp(d.msg, d.peer.Id, freshId);
      Handle(d.peer, m, rnd);
    }

    /** `ProcessData` once the message is stamped: a message with a `Dest`
        goes to that peer only; any other goes through the command switch. */
    method Handle(sender: Peer, m: Msg, rnd: nat)
      requires Valid() && sender.hubSend == send
      requires |m.Data| > 0
      modifies this`groups, sender`Groups, send, clients.Values`Count, Members()`Count
      ensures Valid()
      ensures clients == old(clients)
      ensures send.items == old(send.items) + Deliveries(old(clients), old(groups), m, rnd)
      ensures (groups, sender.Groups) == AfterCommand(old(groups), old(sender.Groups), m, sender)
      ensures forall q :: q in old(clients.Values) + old(Members()) ==>
        q.Count == old(q.Count) + multiset(Receivers(Deliveries(old(clients), old(groups), m, rnd)))[q]
    {
      ghost var routed := Deliveries(clients, groups, m, rnd);
      if m.Dest.Some? {
        SendDirect(m, rnd);
        return;
      }
      ghost var members := Members();
      Dispatch(sender, m, rnd);
      forall q | q in old(clients.Values) + members
        ensures q.Count == old(q.Count) + multiset(Receivers(routed))[q]
      {
        if q !in members {
          assert q !in Receivers(routed);
        }
      }
    }

    /** The `Dest` case of `ProcessData`: the message, with `Dest` cleared,
        goes to the registered peer with that id, or nowhere. */
    method SendDirect(m: Msg, rnd: nat)
      requires Valid()
      requires |m.Data| > 0 && m.Dest.Some?
      modifies send, clients.Values`Count
      ensures send.items == old(send.items) + Deliveries(clients, groups, m, rnd)
      ensures forall q :: q in clients.Values ==>
        q.Count == old(q.Count) + multiset(Receivers(Deliveries(clients, groups, m, rnd)))[q]
    {
      ghost var routed := Deliveries(clients, groups, m, rnd);
      if m.Dest.value in clients {
        var p := clients[m.Dest.value];
        p.Send(m.(Dest := None));
        assert multiset(Receivers(routed)) == multiset{p};
      }
    }

    /** The command switch of `ProcessData`, for a stamped message with
        non-empty `Data` and no `Dest`. */
    method Dispatch(sender: Peer, m: Msg, rnd: nat)
      requires Valid() && sender.hubSend == send
      requires |m.Data| > 0 && m.Dest.None?
      modifies this`groups, sender`Groups, send, Members()`Count
      ensures Valid()
      ensures clients == old(clients)
      ensures send.items == old(send.items) + Deliveries(old(clients), old(groups), m, rnd)
      ensures (groups, sender.Groups) == AfterCommand(old(groups), old(sender.Groups), m, sender)
      ensures forall q :: q in old(Members()) ==>
        q.Count == old(q.Count) + multiset(Receivers(Deliveries(old(clients), old(groups), m, rnd)))[q]
    {
      var name := m.Data[0];
      match m.Cmd
      case Subscribe =>
        Join(name, false, sender);
      case Consume =>
        Join(name, true, sender);
      case Unsubscribe =>
        var _ := Leave(name, sender);
      case Publish =>
        PublishTo(m, rnd);
      case Produce =>
        ProduceTo(m, rnd);
      case _ =>
    }

    /** The `Publish` case: one copy to every member of the named broadcast
        group, in member order; nothing for a missing or queue group. */
    method PublishTo(m: Msg, rnd: nat)
      requires Valid()
      requires |m.Data| > 0 && m.Dest.None? && m.Cmd == Publish
      modifies send, Members()`Count
      ensures send.items == old(send.items) + Deliveries(clients, groups, m, rnd)
      ensures forall q :: q in Members() ==>
        q.Count == old(q.Count) + multiset(Receivers(Deliveries(clients, groups, m, rnd)))[q]
    {
      ghost var routed := Deliveries(clients, groups, m, rnd);
      var name := m.Data[0];
      if name !in groups || groups[name].Queue {
        return;
      }
      var peers := groups[name].Peers;
      FanOut(peers, m, Members());
      assert Receivers(routed) == peers;
    }

    /** The loop of the `Publish` case: counts and queues `m` for each of
        `peers` in turn. */
    method FanOut(peers: seq<Peer>, m: Msg, ghost counted: set<Peer>)
      requires forall q :: q in peers ==> q in counted && q.hubSend == send
      modifies send, counted`Count
      ensures send.items == old(send.items) + Fanout(peers, m)
      ensures forall q :: q in counted ==> q.Count == old(q.Count) + multiset(peers)[q]
    {
      var i := 0;
      while i < |peers|
        invariant 0 <= i <= |peers|
        invariant send.items == old(send.items) + Fanout(peers[..i], m)
        invariant forall q :: q in counted ==> q.Count == old(q.Count) + multiset(peers[..i])[q]
      {
        var p := peers[i];
        p.Send(m);
        FanoutSnoc(peers[..i], p, m);
        assert peers[..i + 1] == peers[..i] + [p];
        i := i + 1;
      }
      assert peers[..i] == peers;
    }

    /** The `Produce` case: one copy to the member at position
        `rnd % |members|` of the named queue group; nothing for a missing
        or broadcast group. */
    method ProduceTo(m: Msg, rnd: nat)
      requires Valid()
      requires |m.Data| > 0 && m.Dest.None? && m.Cmd == Produce
      modifies send, Members()`Count
      ensures send.items == old(send.items) + Deliveries(clients, groups, m, rnd)
      ensures forall q :: q in Members() ==>
        q.Count == old(q.Count) + multiset(Receivers(Deliveries(clients, groups, m, rnd)))[q]
    {
      ghost var routed := Deliveries(clients, groups, m, rnd);
      var name := m.Data[0];
      if name !in groups || !groups[name].Queue {
        return;
      }
      var peers := groups[name].Peers;
      var r := rnd % |peers|;
      var p := peers[r];
      assert p in Members();
      p.Send(m);
      assert Receivers(routed) == [p];
    }

    /** Registers `p` under its id. */
    method AddClient(p: Peer) returns (err: Option<Err>)
      requires Valid() && p.hubSend == send
      modifies this`clients
      ensures clients == old(clients)[p.Id := p]
      ensures err == None
      ensures Valid()
    {
      clients := clients[p.Id := p];
      err := None;
    }

    /** Unregisters `p` and takes it out of every group. */
    method RemoveClient(p: Peer)
      requires Valid() && p.hubSend == send
      modifies this`clients, this`groups
      ensures clients == old(clients) - {p.Id}
      ensures groups == AfterRemove(old(groups), p)
      ensures Valid()
    {
      clients := clients - {p.Id};
      var keys := groups.Keys;
      ghost var done: set<string> := {};
      while keys != {}
        invariant keys !! done && keys + done == old(groups).Keys
        invariant clients == old(clients) - {p.Id}
        invariant groups == LeaveEach(old(groups), done, p)
        invariant Valid()
        decreases keys
      {
        var k :| k in keys;
        LeaveEachStep(old(groups), done, k, p);
        var _ := Leave(k, p);
        keys := keys - {k};
        done := done + {k};
      }
    }

    /** Adds `p` to the group `name`, creating it with `Queue == service`
        when absent; does nothing when `p` already names `name`. */
    method Join(name: string, service: bool, p: Peer)
      requires Valid() && p.hubSend == send
      modifies this`groups, p`Groups
      ensures (groups, p.Groups) == AfterJoin(old(groups), old(p.Groups), name, service, p)
      ensures Valid()
    {
      if name in p.Groups {
        return;
      }
      JoinKeepsInvariant(groups, p.Groups, name, service, p);
      var g := if name in groups then groups[name] else Group(service, [], 0);
      groups := groups[name := g.(Peers := g.Peers + [p])];
      p.Groups := p.Groups + [name];
      forall n, q | n in groups && q in groups[n].Peers
        ensures n in q.Groups && q.hubSend == send
      {
        if q != p {
          assert n in old(groups) && q in old(groups)[n].Peers;
          assert q in old(Members());
        }
      }
    }

    /** Deletes `p` from the group `name`, and the group when it empties;
        `ErrInternal` when there is no such group. */
    method Leave(name: string, p: Peer) returns (err: Option<Err>)
      requires Valid()
      modifies this`groups
      ensures err == if name in old(groups) then None else Some(ErrInternal)
      ensures groups == AfterLeave(old(groups), name, p)
      ensures Valid()
    {
      if name !in groups {
        return Some(ErrInternal);
      }
      LeaveKeepsInvariant(groups, name, p);
      var rest := Without(groups[name].Peers, p);
      if |rest| == 0 {
        groups := groups - {name};
      } else {
        groups := groups[name := groups[name].(Peers := rest)];
      }
      forall n, q | n in groups && q in groups[n].Peers
        ensures n in q.Groups && q.hubSend == send
      {
        assert n in old(groups) && q in old(groups)[n].Peers;
        assert q in old(Members());
      }
      err := None;
    }
  }
}
