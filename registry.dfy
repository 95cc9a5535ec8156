/**
 The hub's group registry as a value: one map from group name to `Group`,
 shared by broadcast groups (`Queue == false`) and queue groups
 (`Queue == true`). The functions here give the registry after each of the
 hub's registry updates; the lemmas state what those updates preserve.
 */
module Registry {
  import opened Peers

  datatype Group = Group(Queue: bool, Peers: seq<Peer>, Count: int)

  type Groups = map<string, Group>

  /** Every registered group has at least one member. */
  predicate NoEmptyGroup(gs: Groups)
  {
    forall n :: n in gs ==> gs[n].Peers != []
  }

  /** No peer occurs twice in `s`. */
  predicate Distinct(s: seq<Peer>)
  {
    forall q :: q in s ==> multiset(s)[q] <= 1
  }

  /** No peer occurs twice in one group. */
  predicate NoDuplicates(gs: Groups)
  {
    forall n :: n in gs ==> Distinct(gs[n].Peers)
  }

  /** Every group that holds `p` is named in `memberOf`, `p`'s own list of groups. */
  predicate Listed(gs: Groups, p: Peer, memberOf: seq<string>)
  {
    forall n :: n in gs && p in gs[n].Peers ==> n in memberOf
  }

  /** `s` with every occurrence of `p` deleted, the others kept in order. */
  function Without(s: seq<Peer>, p: Peer): (r: seq<Peer>)
    ensures p !in r
    ensures forall q :: q in r ==> q in s && q != p
    ensures forall q :: q in s && q != p ==> q in r && multiset(r)[q] == multiset(s)[q]
    ensures p !in s ==> r == s
  {
    if s == [] then []
    else
      assert s == [s[0]] + s[1..];
      if s[0] == p then Without(s[1..], p) else [s[0]] + Without(s[1..], p)
  }

  /** Deleting from a concatenation deletes from each part, so the order of
      the remaining peers is the order they had. */
  lemma {:induction false} WithoutAppend(a: seq<Peer>, b: seq<Peer>, p: Peer)
    ensures Without(a + b, p) == Without(a, p) + Without(b, p)
  {
    if a == [] {
      assert a + b == b;
    } else {
      assert (a + b)[0] == a[0];
      assert (a + b)[1..] == a[1..] + b;
      WithoutAppend(a[1..], b, p);
    }
  }

  /** Deleting a peer leaves a duplicate-free list duplicate-free. */
  lemma WithoutDistinct(s: seq<Peer>, p: Peer)
    requires Distinct(s)
    ensures Distinct(Without(s, p))
  {
    var r := Without(s, p);
    forall q | q in r
      ensures multiset(r)[q] <= 1
    {
      assert q in s;
    }
  }

  /** The registry and `p`'s own group list after `p` joins `name`:
      nothing changes if `name` is already in `p`'s list; otherwise the
      group is created when absent, with `Queue == service` and a zero
      `Count`, and `p` is appended to its members and `name` to `p`'s list;
      an existing group keeps its kind and its `Count`. */
  function AfterJoin(gs: Groups, memberOf: seq<string>, name: string, service: bool, p: Peer)
    : (r: (Groups, seq<string>))
    ensures name in memberOf ==> r == (gs, memberOf)
    ensures name !in memberOf ==>
      && r.1 == memberOf + [name]
      && r.0.Keys == gs.Keys + {name}
      && r.0[name].Queue == (if name in gs then gs[name].Queue else service)
      && r.0[name].Peers == (if name in gs then gs[name].Peers else []) + [p]
      && r.0[name].Count == (if name in gs then gs[name].Count else 0)
      && (forall n :: n in gs && n != name ==> r.0[n] == gs[n])
  {
    if name in memberOf then (gs, memberOf)
    else
      var g := if name in gs then gs[name] else Group(service, [], 0);
      (gs[name := g.(Peers := g.Peers + [p])], memberOf + [name])
  }

  /** Joining twice is joining once. */
  lemma JoinIdempotent(gs: Groups, memberOf: seq<string>, name: string, service: bool, p: Peer)
    ensures var r := AfterJoin(gs, memberOf, name, service, p);
            AfterJoin(r.0, r.1, name, service, p) == r
  {
  }

  /** An existing group keeps its kind whatever flag the joiner passes. */
  lemma JoinKeepsQueueFlag(gs: Groups, memberOf: seq<string>, name: string, service: bool, p: Peer)
    ensures var r := AfterJoin(gs, memberOf, name, service, p);
            forall n :: n in gs ==> n in r.0 && r.0[n].Queue == gs[n].Queue
  {
  }

  /** A join keeps every group non-empty and duplicate-free, keeps the
      joiner's list naming every group it is in, and gives no other peer a
      new membership. */
  lemma JoinKeepsInvariant(gs: Groups, memberOf: seq<string>, name: string, service: bool, p: Peer)
    requires NoEmptyGroup(gs) && NoDuplicates(gs) && Listed(gs, p, memberOf)
    ensures var r := AfterJoin(gs, memberOf, name, service, p);
      && NoEmptyGroup(r.0) && NoDuplicates(r.0) && Listed(r.0, p, r.1)
      && (forall n, q :: n in r.0 && q in r.0[n].Peers && q != p ==> n in gs && q in gs[n].Peers)
  {
    var r := AfterJoin(gs, memberOf, name, service, p);
    if name !in memberOf {
      var old_ := if name in gs then gs[name].Peers else [];
      assert p !in old_;
      assert Distinct(old_) by {
        if name !in gs {
          assert forall q :: multiset(old_)[q] == 0;
        }
      }
      assert multiset(old_ + [p]) == multiset(old_) + multiset{p};
      assert Distinct(r.0[name].Peers);
    }
  }

  /** A join changes only the joiner's memberships. */
  lemma JoinChangesOnlyJoiner(gs: Groups, memberOf: seq<string>, name: string, service: bool, p: Peer, q: Peer)
    requires q != p
    ensures var r := AfterJoin(gs, memberOf, name, service, p);
      forall n :: n in r.0 && q in r.0[n].Peers <==> n in gs && q in gs[n].Peers
  {
  }

  /** The registry after `p` leaves `name`: unchanged when `name` is not a
      group; otherwise every occurrence of `p` is deleted from the group,
      and the group is deleted when no member is left. */
  function AfterLeave(gs: Groups, name: string, p: Peer): (r: Groups)
    ensures name !in gs ==> r == gs
    ensures forall n :: n in gs && n != name ==> n in r && r[n] == gs[n]
    ensures name in gs ==> (name in r <==> exists q :: q in gs[name].Peers && q != p)
    ensures name in r ==> r[name].Queue == gs[name].Queue && r[name].Count == gs[name].Count
    ensures name in r ==> r[name].Peers == Without(gs[name].Peers, p)
    ensures r.Keys <= gs.Keys
  {
    if name !in gs then gs
    else
      var rest := Without(gs[name].Peers, p);
      assert rest != [] <==> exists q :: q in gs[name].Peers && q != p by {
        if rest != [] {
          assert rest[0] in rest;
        }
      }
      if rest == [] then gs - {name} else gs[name := gs[name].(Peers := rest)]
  }

  /** A leave keeps every group non-empty and duplicate-free, takes `p`
      out of the group it names, and adds no member anywhere. */
  lemma LeaveKeepsInvariant(gs: Groups, name: string, p: Peer)
    requires NoEmptyGroup(gs) && NoDuplicates(gs)
    ensures var r := AfterLeave(gs, name, p);
      && NoEmptyGroup(r) && NoDuplicates(r)
      && (name in r ==> p !in r[name].Peers)
      && (forall n, q :: n in r && q in r[n].Peers ==> n in gs && q in gs[n].Peers)
  {
    var r := AfterLeave(gs, name, p);
    if name in r {
      WithoutDistinct(gs[name].Peers, p);
    }
  }

  /** A leave keeps the group's name in the peer's own list, so joining the
      same group again after a join and a leave changes nothing: the peer
      stays out of the group. */
  lemma RejoinAfterLeaveIsNoop(gs: Groups, memberOf: seq<string>, name: string, service: bool, p: Peer)
    ensures var j := AfterJoin(gs, memberOf, name, service, p);
      var l := AfterLeave(j.0, name, p);
      && AfterJoin(l, j.1, name, service, p) == (l, j.1)
      && (name in l ==> p !in l[name].Peers)
  {
  }

  /** The registry after `p` leaves every group named in `names`. */
  function LeaveEach(gs: Groups, names: set<string>, p: Peer): (r: Groups)
    ensures r.Keys <= gs.Keys
    ensures forall n :: n in gs && n !in names ==> n in r && r[n] == gs[n]
    ensures forall n :: n in r && n in names ==>
      r[n] == gs[n].(Peers := Without(gs[n].Peers, p)) && r[n].Peers != []
    ensures forall n :: n in gs && n in names && n !in r ==> Without(gs[n].Peers, p) == []
  {
    map n | n in gs && (n !in names || Without(gs[n].Peers, p) != []) ::
      if n in names then gs[n].(Peers := Without(gs[n].Peers, p)) else gs[n]
  }

  /** Leaving one more group, as the loop over the groups does. */
  lemma LeaveEachStep(gs: Groups, names: set<string>, k: string, p: Peer)
    requires k in gs && k !in names
    ensures k in LeaveEach(gs, names, p)
    ensures AfterLeave(LeaveEach(gs, names, p), k, p) == LeaveEach(gs, names + {k}, p)
  {
    var a := AfterLeave(LeaveEach(gs, names, p), k, p);
    var b := LeaveEach(gs, names + {k}, p);
    assert a.Keys == b.Keys;
  }

  /** The registry after `p` leaves every group, as when it disconnects. */
  function AfterRemove(gs: Groups, p: Peer): (r: Groups)
    ensures forall n :: n in r ==> p !in r[n].Peers
    ensures forall n, q :: n in r && q in r[n].Peers ==> n in gs && q in gs[n].Peers && q != p
    ensures forall n, q :: n in gs && q in gs[n].Peers && q != p ==> n in r && q in r[n].Peers
    ensures forall n :: n in gs && p !in gs[n].Peers && gs[n].Peers != [] ==> n in r && r[n] == gs[n]
    ensures forall n :: n in gs && n !in r ==> forall q :: q in gs[n].Peers ==> q == p
    ensures forall n :: n in r ==> n in gs && r[n].Queue == gs[n].Queue
    ensures NoEmptyGroup(r)
  {
    LeaveEach(gs, gs.Keys, p)
  }

  /** Disconnecting keeps every group duplicate-free. */
  lemma RemoveKeepsDistinct(gs: Groups, p: Peer)
    requires NoDuplicates(gs)
    ensures NoDuplicates(AfterRemove(gs, p))
  {
    var r := AfterRemove(gs, p);
    forall n | n in r
      ensures Distinct(r[n].Peers)
    {
      WithoutDistinct(gs[n].Peers, p);
    }
  }

  /** The registry with every group's `Count` set to its number of members. */
  function WithCounts(gs: Groups): (r: Groups)
    ensures r.Keys == gs.Keys
    ensures forall n :: n in r ==>
      r[n].Count == |r[n].Peers| && r[n].Peers == gs[n].Peers && r[n].Queue == gs[n].Queue
  {
    map n | n in gs :: gs[n].(Count := |gs[n].Peers|)
  }

  /** Filling in the counts twice is filling them in once. */
  lemma WithCountsIdempotent(gs: Groups)
    ensures WithCounts(WithCounts(gs)) == WithCounts(gs)
  {
  }
}
