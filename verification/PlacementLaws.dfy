/**
 What the placement pass computes: the least assignment of nodes to services that
 contains the declared affinities and follows every enabled automatic dependency.
*/
module PlacementLaws {
  import opened Prelude
  import opened Affinities
  import opened Cluster
  import opened Placement
  import opened AffinityPass

  /** `rev` holds each service once. */
  ghost predicate Enumerates(rev: seq<Key>, services: Services) {
    Distinct(rev) && forall k :: k in rev <==> k in services
  }

  ghost predicate Closed(services: Services) {
    forall k, d :: k in services && Activates(services[k], d) ==> d in services
  }

  /** Each service that activates another one comes before it in the pass. */
  ghost predicate Ordered(services: Services, rev: seq<Key>) {
    forall s, d :: s in services && Activates(services[s], d) && s != d ==> Before(rev, s, d)
  }

  type Assignment = map<Key, set<NodeId>>

  /** Contains what is declared, and whatever a service has its automatic dependencies have. */
  ghost predicate Solves(fleet: Fleet, services: Services, place: Assignment) {
    && place.Keys == services.Keys
    && (forall k, n :: k in services && n in fleet.order && Wants(fleet, services[k], n) ==> n in place[k])
    && forall s, d, n :: s in services && d in services && Activates(services[s], d) && n in place[s] ==> n in place[d]
  }

  ghost predicate LeastSolution(fleet: Fleet, services: Services, place: Assignment) {
    && Solves(fleet, services, place)
    && forall other: Assignment, k ::
      Solves(fleet, services, other) && k in services ==> place[k] <= other[k]
  }

  ghost function Assigned(after: Services): (place: Assignment)
    ensures place.Keys == after.Keys
    ensures forall k, n :: k in after ==> (n in place[k] <==> Hosts(after[k], n))
  {
    map k | k in after :: set n | n in Ids(after[k].instances)
  }

  ghost predicate Complete(fleet: Fleet, before: Services, after: Services, rev: seq<Key>) {
    && Placed(fleet, before, after, rev, |rev|)
    && Enumerates(rev, before)
    && Closed(before)
  }

  /** The recurrence for the service at position `m`. */
  lemma PlacedAt(fleet: Fleet, before: Services, after: Services, rev: seq<Key>, m: nat, n: NodeId)
    requires m < |rev| && Placed(fleet, before, after, rev, |rev|) && n in fleet.order
    ensures Hosts(after[rev[m]], n) <==> Receives(fleet, before, after, rev, m, rev[m], n)
  {
  }

  lemma HostsAreNodes(fleet: Fleet, before: Services, after: Services, rev: seq<Key>, k: Key, n: NodeId)
    requires Complete(fleet, before, after, rev) && k in before && Hosts(after[k], n)
    ensures n in fleet.order
  {
    var m :| 0 <= m < |rev| && rev[m] == k;
    assert InNodeOrder(fleet.order, Ids(after[rev[m]].instances));
  }

  /** The pass adds nothing beyond any solution, whatever the order. */
  lemma {:induction false} PassIsBelow(
      fleet: Fleet, before: Services, after: Services, rev: seq<Key>, other: Assignment, m: nat, n: NodeId)
    requires Complete(fleet, before, after, rev) && Solves(fleet, before, other)
    requires m < |rev| && Hosts(after[rev[m]], n)
    ensures n in other[rev[m]]
  {
    assert rev[m] in before;
    HostsAreNodes(fleet, before, after, rev, rev[m], n);
    PlacedAt(fleet, before, after, rev, m, n);
    if !Wants(fleet, before[rev[m]], n) {
      var j :| 0 <= j < m && Activates(before[rev[j]], rev[m]) && Hosts(after[rev[j]], n);
      PassIsBelow(fleet, before, after, rev, other, j, n);
    }
  }

  /** Co-location along one automatic dependency. */
  lemma CoLocated(fleet: Fleet, before: Services, after: Services, rev: seq<Key>, s: Key, d: Key, n: NodeId)
    requires Complete(fleet, before, after, rev) && Ordered(before, rev)
    requires s in before && Activates(before[s], d) && Hosts(after[s], n)
    ensures d in after && Hosts(after[d], n)
  {
    HostsAreNodes(fleet, before, after, rev, s, n);
    if s != d {
      var j, m :| 0 <= j < m < |rev| && rev[j] == s && rev[m] == d;
      PlacedAt(fleet, before, after, rev, m, n);
      assert Receives(fleet, before, after, rev, m, d, n);
    }
  }

  /** Placement refinement: one ordered pass computes the least solution. */
  lemma PassIsLeast(fleet: Fleet, before: Services, after: Services, rev: seq<Key>)
    requires Complete(fleet, before, after, rev) && Ordered(before, rev)
    ensures LeastSolution(fleet, before, Assigned(after))
  {
    var place := Assigned(after);
    forall k, n | k in before && n in fleet.order && Wants(fleet, before[k], n)
      ensures n in place[k]
    {
      var m :| 0 <= m < |rev| && rev[m] == k;
      PlacedAt(fleet, before, after, rev, m, n);
      assert Receives(fleet, before, after, rev, m, k, n);
    }
    forall s, d, n | s in before && d in before && Activates(before[s], d) && n in place[s]
      ensures n in place[d]
    {
      CoLocated(fleet, before, after, rev, s, d, n);
    }
    forall other: Assignment, k | Solves(fleet, before, other) && k in before
      ensures place[k] <= other[k]
    {
      forall n | n in place[k]
        ensures n in other[k]
      {
        var m :| 0 <= m < |rev| && rev[m] == k;
        PassIsBelow(fleet, before, after, rev, other, m, n);
      }
    }
  }

  /** A chain of automatic dependencies. */
  ghost predicate Chain(services: Services, p: seq<Key>) {
    && p != [] && p[0] in services
    && forall i {:trigger p[i]} :: 0 <= i < |p| - 1 ==> p[i] in services && Activates(services[p[i]], p[i + 1])
  }

  /** Co-location closure: a node hosting a service hosts everything it activates, transitively. */
  lemma {:induction false} CoLocationClosure(
      fleet: Fleet, before: Services, after: Services, rev: seq<Key>, p: seq<Key>, n: NodeId)
    requires Complete(fleet, before, after, rev) && Ordered(before, rev)
    requires Chain(before, p) && Hosts(after[p[0]], n)
    ensures forall i :: 0 <= i < |p| ==> p[i] in after && Hosts(after[p[i]], n)
    decreases |p|
  {
    if |p| > 1 {
      var front := p[..|p| - 1];
      assert Chain(before, front) by {
        assert forall i {:trigger front[i]} :: 0 <= i < |front| ==> front[i] == p[i];
      }
      CoLocationClosure(fleet, before, after, rev, front, n);
      assert p[|p| - 2] == front[|front| - 1];
      CoLocated(fleet, before, after, rev, p[|p| - 2], p[|p| - 1], n);
      forall i | 0 <= i < |p|
        ensures p[i] in after && Hosts(after[p[i]], n)
      {
        assert i < |front| ==> p[i] == front[i];
      }
    }
  }

  // ----- the order is needed

  /** The position is reached from `s` along automatic dependencies that point forward in `rev`. */
  ghost predicate Spread(services: Services, rev: seq<Key>, s: Key, m: nat)
    requires m < |rev| && forall j :: 0 <= j <= m ==> rev[j] in services
    decreases m
  {
    rev[m] == s || exists j :: 0 <= j < m && Activates(services[rev[j]], rev[m]) && Spread(services, rev, s, j)
  }

  /** Only `s` declares an affinity, for one node. */
  ghost function OnlyFor(services: Services, s: Key, n: NodeId): (before: Services)
    ensures before.Keys == services.Keys
  {
    map k | k in services :: Service(services[k].spec, if k == s then [Nodes(Some(Any), [n])] else [], [])
  }

  ghost predicate SpreadTo(services: Services, rev: seq<Key>, s: Key, k: Key)
    requires Enumerates(rev, services)
  {
    exists m :: 0 <= m < |rev| && rev[m] == k && Spread(services, rev, s, m)
  }

  /** The placement of that declaration. */
  ghost function SpreadOut(services: Services, rev: seq<Key>, s: Key, n: NodeId): (after: Services)
    requires Enumerates(rev, services)
    ensures after.Keys == services.Keys
  {
    map k | k in services ::
      Service(services[k].spec, [], if SpreadTo(services, rev, s, k) then [Instance(n, map[])] else [])
  }

  lemma {:induction false} SpreadForward(services: Services, rev: seq<Key>, s: Key, m: nat)
    requires Enumerates(rev, services) && m < |rev| && Spread(services, rev, s, m)
    ensures rev[m] == s || Before(rev, s, rev[m])
    decreases m
  {
    if rev[m] != s {
      var j :| 0 <= j < m && Activates(services[rev[j]], rev[m]) && Spread(services, rev, s, j);
      SpreadForward(services, rev, s, j);
      assert Before(rev, rev[j], rev[m]);
      if rev[j] != s {
        BeforeTransitive(rev, s, rev[j], rev[m]);
      }
    }
  }

  lemma SpreadHosts(services: Services, rev: seq<Key>, s: Key, n: NodeId, m: nat, x: NodeId)
    requires Enumerates(rev, services) && m < |rev|
    ensures Hosts(SpreadOut(services, rev, s, n)[rev[m]], x) <==> x == n && Spread(services, rev, s, m)
  {
    var instances := SpreadOut(services, rev, s, n)[rev[m]].instances;
    if Spread(services, rev, s, m) {
      assert SpreadTo(services, rev, s, rev[m]);
      assert Ids(instances)[0] == n;
    } else {
      assert !SpreadTo(services, rev, s, rev[m]);
    }
  }

  lemma OnlyForWants(fleet: Fleet, services: Services, s: Key, n: NodeId, k: Key, x: NodeId)
    requires k in services
    ensures Wants(fleet, OnlyFor(services, s, n)[k], x) <==> k == s && x == n
    ensures forall d :: Activates(OnlyFor(services, s, n)[k], d) <==> Activates(services[k], d)
  {
    if k == s && x == n {
      assert Satisfies(fleet, OnlyFor(services, s, n)[k].affinity[0], n);
    }
  }

  lemma SpreadStep(services: Services, rev: seq<Key>, s: Key, m: nat)
    requires Enumerates(rev, services) && m < |rev|
    ensures Spread(services, rev, s, m) <==>
      rev[m] == s || exists j :: 0 <= j < m && Activates(services[rev[j]], rev[m]) && Spread(services, rev, s, j)
  {
  }

  lemma SpreadAt(fleet: Fleet, services: Services, rev: seq<Key>, s: Key, n: NodeId, m: nat, x: NodeId)
    requires Enumerates(rev, services) && m < |rev|
    ensures Hosts(SpreadOut(services, rev, s, n)[rev[m]], x) <==>
      Receives(fleet, OnlyFor(services, s, n), SpreadOut(services, rev, s, n), rev, m, rev[m], x)
  {
    hide Spread, SpreadOut, OnlyFor, Hosts, Activates, Wants;
    SpreadHosts(services, rev, s, n, m, x);
    OnlyForWants(fleet, services, s, n, rev[m], x);
    SpreadStep(services, rev, s, m);
    forall j | 0 <= j < m
      ensures Hosts(SpreadOut(services, rev, s, n)[rev[j]], x) <==> x == n && Spread(services, rev, s, j)
      ensures Activates(OnlyFor(services, s, n)[rev[j]], rev[m]) <==> Activates(services[rev[j]], rev[m])
    {
      SpreadHosts(services, rev, s, n, j, x);
      OnlyForWants(fleet, services, s, n, rev[j], x);
    }
  }

  lemma SpreadSpecs(services: Services, rev: seq<Key>, s: Key, n: NodeId)
    requires Enumerates(rev, services)
    ensures SameSpecs(OnlyFor(services, s, n), services)
    ensures SameSpecs(SpreadOut(services, rev, s, n), OnlyFor(services, s, n))
  {
    hide SpreadTo;
  }

  lemma SpreadInOrder(order: seq<NodeId>, services: Services, rev: seq<Key>, s: Key, n: NodeId, k: Key)
    requires Enumerates(rev, services) && n in order && Distinct(order) && k in services
    ensures InNodeOrder(order, Ids(SpreadOut(services, rev, s, n)[k].instances))
  {
    hide SpreadTo;
    var instances := SpreadOut(services, rev, s, n)[k].instances;
    assert instances == [] || instances == [Instance(n, map[])];
    SingleInOrder(order, n, Ids(instances));
  }

  lemma SpreadIsPlaced(fleet: Fleet, services: Services, rev: seq<Key>, s: Key, n: NodeId)
    requires Enumerates(rev, services) && n in fleet.order && Distinct(fleet.order)
    ensures Placed(fleet, OnlyFor(services, s, n), SpreadOut(services, rev, s, n), rev, |rev|)
  {
    hide Spread, SpreadTo, SpreadOut, OnlyFor, Hosts, Activates, Wants, InNodeOrder, Receives, Distinct;
    var before, after := OnlyFor(services, s, n), SpreadOut(services, rev, s, n);
    SpreadSpecs(services, rev, s, n);
    forall m | 0 <= m < |rev|
      ensures InNodeOrder(fleet.order, Ids(after[rev[m]].instances))
    {
      SpreadInOrder(fleet.order, services, rev, s, n, rev[m]);
    }
    forall m, x | 0 <= m < |rev| && x in fleet.order
      ensures Hosts(after[rev[m]], x) <==> Receives(fleet, before, after, rev, m, rev[m], x)
    {
      SpreadAt(fleet, services, rev, s, n, m, x);
    }
  }

  lemma {:induction false} SingleInOrder(order: seq<NodeId>, n: NodeId, ids: seq<NodeId>)
    requires Distinct(order) && n in order
    requires ids == [] || ids == [n]
    ensures InNodeOrder(order, ids)
  {
    if ids == [] {
      FilterNone(order, x => x in ids);
    } else {
      FilterOnly(order, n, x => x in ids);
    }
  }

  lemma {:induction false} FilterOnly(order: seq<NodeId>, n: NodeId, keep: NodeId -> bool)
    requires Distinct(order) && n in order && forall x :: keep(x) <==> x == n
    ensures Filter(order, keep) == [n]
  {
    if order[0] == n {
      FilterNone(order[1..], keep);
    } else {
      FilterOnly(order[1..], n, keep);
    }
  }

  /**
   The order condition is exact: if a service is placed after one it activates, some
   declaration of affinities makes the pass miss a node.
  */
  lemma LateEdgeBreaks(fleet: Fleet, services: Services, rev: seq<Key>, s: Key, d: Key, n: NodeId)
      returns (before: Services, after: Services)
    requires Enumerates(rev, services) && Closed(services) && n in fleet.order && Distinct(fleet.order)
    requires s in services && Activates(services[s], d) && s != d && !Before(rev, s, d)
    ensures SameSpecs(before, services) && Complete(fleet, before, after, rev)
    ensures Hosts(after[s], n) && !Hosts(after[d], n)
    ensures !Solves(fleet, before, Assigned(after))
  {
    hide Spread, SpreadTo, SpreadOut, OnlyFor, Hosts, Activates, Wants, Placed, Before, SameSpecs, Distinct;
    before, after := OnlyFor(services, s, n), SpreadOut(services, rev, s, n);
    SpreadSpecs(services, rev, s, n);
    SpreadIsPlaced(fleet, services, rev, s, n);
    forall k, x | k in before && Activates(before[k], x)
      ensures x in before
    {
      OnlyForWants(fleet, services, s, n, k, n);
    }
    var i :| 0 <= i < |rev| && rev[i] == s;
    assert d in services;
    var m :| 0 <= m < |rev| && rev[m] == d;
    SpreadHosts(services, rev, s, n, i, n);
    SpreadStep(services, rev, s, i);
    SpreadHosts(services, rev, s, n, m, n);
    if Spread(services, rev, s, m) {
      SpreadForward(services, rev, s, m);
    }
    OnlyForWants(fleet, services, s, n, s, n);
    assert n in Assigned(after)[s] && n !in Assigned(after)[d];
  }

  /** For all declarations the pass yields the least solution, exactly when every activation points forward. */
  lemma OrderExactly(fleet: Fleet, services: Services, rev: seq<Key>)
    requires Enumerates(rev, services) && Closed(services) && fleet.order != [] && Distinct(fleet.order)
    ensures Ordered(services, rev) <==>
      forall before: Services, after: Services ::
        SameSpecs(before, services) && Complete(fleet, before, after, rev) ==>
          LeastSolution(fleet, before, Assigned(after))
  {
    if Ordered(services, rev) {
      forall before: Services, after: Services | SameSpecs(before, services) && Complete(fleet, before, after, rev)
        ensures LeastSolution(fleet, before, Assigned(after))
      {
        assert forall k, d :: k in services ==> (Activates(before[k], d) <==> Activates(services[k], d));
        PassIsLeast(fleet, before, after, rev);
      }
    } else {
      var s, d :| s in services && Activates(services[s], d) && s != d && !Before(rev, s, d);
      var before, after := LateEdgeBreaks(fleet, services, rev, s, d, fleet.order[0]);
    }
  }
}
