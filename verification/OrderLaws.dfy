/** Whether placement can rely on the order of the services, whichever of the possible ones the sort returns. */
module OrderLaws {
  import opened Prelude
  import opened Affinities
  import opened Cluster
  import opened Ordering
  import opened Placement
  import opened AffinityPass
  import opened PlacementLaws

  /** An order that the sort may return: every service once, after all that it needs. */
  ghost predicate Sorts(services: Services, graph: seq<Key>) {
    && Enumerates(graph, services)
    && forall a, b :: Needs(services, b, a) ==> Before(graph, a, b)
  }

  /** Each key of the chain needs the next one. */
  ghost predicate NeedsChain(services: Services, p: seq<Key>) {
    p != [] && forall i {:trigger p[i]} :: 0 <= i < |p| - 1 ==> Needs(services, p[i], p[i + 1])
  }

  /** `d` is among what `s` needs, transitively. */
  ghost predicate Relies(services: Services, s: Key, d: Key) {
    exists p :: NeedsChain(services, p) && |p| > 1 && p[0] == s && p[|p| - 1] == d
  }

  /** What is needed transitively comes first in every order. */
  lemma {:induction false} ChainIsSorted(services: Services, graph: seq<Key>, p: seq<Key>)
    requires Sorts(services, graph) && NeedsChain(services, p) && |p| > 1
    ensures Before(graph, p[|p| - 1], p[0])
    decreases |p|
  {
    hide Needs, Before, Enumerates;
    var front, n := p[..|p| - 1], |p| - 1;
    assert Needs(services, p[n - 1], p[n]);
    if n > 1 {
      assert forall i {:trigger front[i]} :: 0 <= i < |front| ==> front[i] == p[i];
      ChainIsSorted(services, graph, front);
      EnumeratesOnce(services, graph);
      BeforeTransitive(graph, p[n], p[n - 1], p[0]);
    }
  }

  lemma EnumeratesOnce(services: Services, graph: seq<Key>)
    requires Enumerates(graph, services)
    ensures Distinct(graph)
  {
  }

  ghost function Down(services: Services, s: Key): (keep: Key -> bool)
    ensures forall k :: keep(k) <==> k == s || Relies(services, s, k)
  {
    k => k == s || Relies(services, s, k)
  }

  ghost function NotDown(services: Services, s: Key): (keep: Key -> bool)
    ensures forall k :: keep(k) <==> !Down(services, s)(k)
  {
    k => !Down(services, s)(k)
  }

  lemma DownCloses(services: Services, s: Key, b: Key, a: Key)
    requires Down(services, s)(b) && Needs(services, b, a)
    ensures Down(services, s)(a)
  {
    hide Needs;
    if b == s {
      assert NeedsChain(services, [s, a]);
    } else {
      var p :| NeedsChain(services, p) && |p| > 1 && p[0] == s && p[|p| - 1] == b;
      var q := p + [a];
      assert forall i {:trigger q[i]} :: 0 <= i < |q| - 1 ==> q[i] == p[i];
      assert NeedsChain(services, q);
    }
  }

  /** The order in which `s`, with all that it needs, comes as early as possible. */
  ghost function Early(services: Services, graph: seq<Key>, s: Key): seq<Key> {
    Filter(graph, Down(services, s)) + Filter(graph, NotDown(services, s))
  }

  lemma EarlyEnumerates(services: Services, graph: seq<Key>, s: Key)
    requires Enumerates(graph, services)
    ensures Enumerates(Early(services, graph, s), services)
  {
    FilterDistinct(graph, Down(services, s));
    FilterDistinct(graph, NotDown(services, s));
    hide Filter, Relies;
    DistinctAppend(Filter(graph, Down(services, s)), Filter(graph, NotDown(services, s)));
  }

  lemma BeforeInFirst<T>(s: seq<T>, t: seq<T>, a: T, b: T)
    requires Before(s, a, b)
    ensures Before(s + t, a, b)
  {
    BeforeWithin([], s, t, a, b);
    assert [] + s + t == s + t;
  }

  lemma BeforeInSecond<T>(s: seq<T>, t: seq<T>, a: T, b: T)
    requires Before(t, a, b)
    ensures Before(s + t, a, b)
  {
    BeforeWithin(s, t, [], a, b);
    assert s + t + [] == s + t;
  }

  lemma EarlyBefore(services: Services, graph: seq<Key>, s: Key, a: Key, b: Key)
    requires Before(graph, a, b) && (Down(services, s)(b) ==> Down(services, s)(a))
    ensures Before(Early(services, graph, s), a, b)
  {
    BeforeIn(graph, a, b);
    hide Filter, Before, Relies;
    var down, rest := Filter(graph, Down(services, s)), Filter(graph, NotDown(services, s));
    if Down(services, s)(b) {
      FilterBefore(graph, Down(services, s), a, b);
      BeforeInFirst(down, rest, a, b);
    } else if Down(services, s)(a) {
      BeforeAcross(down, rest, a, b);
    } else {
      FilterBefore(graph, NotDown(services, s), a, b);
      BeforeInSecond(down, rest, a, b);
    }
  }

  lemma EarlySorts(services: Services, graph: seq<Key>, s: Key)
    requires Sorts(services, graph)
    ensures Sorts(services, Early(services, graph, s))
  {
    hide Needs, Before, Early, Down, Enumerates;
    EarlyEnumerates(services, graph, s);
    forall a, b | Needs(services, b, a)
      ensures Before(Early(services, graph, s), a, b)
    {
      if Down(services, s)(b) {
        DownCloses(services, s, b, a);
      }
      EarlyBefore(services, graph, s, a, b);
    }
  }

  /** There is an order in which what is not needed does not come first. */
  lemma EarlyIsEarly(services: Services, graph: seq<Key>, s: Key, d: Key)
    requires Sorts(services, graph) && s in services && s != d && !Relies(services, s, d)
    ensures !Before(Early(services, graph, s), d, s)
  {
    EarlyEnumerates(services, graph, s);
    var early := Early(services, graph, s);
    if Before(early, d, s) {
      BeforeIn(early, d, s);
      var down, rest := Filter(graph, Down(services, s)), Filter(graph, NotDown(services, s));
      assert s in down && d in rest;
      hide Filter, Before, Down, NotDown, Sorts;
      BeforeAcross(down, rest, s, d);
      BeforeIsStrict(early, s, d);
      assert false;
    }
  }

  lemma ReverseTwice<T>(s: seq<T>)
    ensures Reverse(Reverse(s)) == s
  {
  }

  lemma ReversedBefore<T>(s: seq<T>, a: T, b: T)
    ensures Before(Reverse(s), b, a) <==> Before(s, a, b)
  {
    ReverseTwice(s);
    if Before(s, a, b) {
      ReverseBefore(s, a, b);
    }
    if Before(Reverse(s), b, a) {
      ReverseBefore(Reverse(s), b, a);
    }
  }

  /** What a service activates it also needs, transitively, unless it is the service itself. */
  ghost predicate NeedsWhatItActivates(services: Services) {
    forall s, d :: s in services && Activates(services[s], d) && s != d ==> Relies(services, s, d)
  }

  /**
   Services that can be sorted: every order that the sort may return has the activating
   services first, exactly when each needs, transitively, what it activates.
  */
  lemma EveryOrderExactly(services: Services, graph: seq<Key>)
    requires Sorts(services, graph)
    ensures (forall any :: Sorts(services, any) ==> Ordered(services, Reverse(any))) <==> NeedsWhatItActivates(services)
  {
    hide Activates, Relies, Sorts, Before, Early;
    if NeedsWhatItActivates(services) {
      forall any | Sorts(services, any)
        ensures Ordered(services, Reverse(any))
      {
        forall s, d | s in services && Activates(services[s], d) && s != d
          ensures Before(Reverse(any), s, d)
        {
          ReliesSorted(services, any, s, d);
          ReversedBefore(any, d, s);
        }
      }
    }
    if forall any :: Sorts(services, any) ==> Ordered(services, Reverse(any)) {
      forall s, d | s in services && Activates(services[s], d) && s != d
        ensures Relies(services, s, d)
      {
        var early := Early(services, graph, s);
        EarlySorts(services, graph, s);
        assert Ordered(services, Reverse(early));
        ReversedBefore(early, d, s);
        if !Relies(services, s, d) {
          EarlyIsEarly(services, graph, s, d);
          assert false;
        }
      }
    }
  }

  /** Such services are placed in order, whichever order was returned. */
  lemma NeedsGiveOrder(services: Services, graph: seq<Key>)
    requires NeedsWhatItActivates(services) && Enumerates(graph, services)
    requires forall a, b :: Needs(services, b, a) ==> Before(graph, a, b)
    ensures Ordered(services, Reverse(graph))
  {
    EveryOrderExactly(services, graph);
  }

  /** A dependency kept out of the ordering by its name activates nothing but the service itself. */
  ghost predicate NamesDiffer(services: Services) {
    forall k, i :: k in services && 0 <= i < |services[k].spec.deps| ==>
      var dep := services[k].spec.deps[i];
      Is(dep.auto) && dep.Enabled() && dep.service == Some(k.name) ==> dep.Target() == k
  }

  /** When no automatic dependency has the dependent's name in another cluster, each needs what it activates. */
  lemma NamesSuffice(services: Services)
    requires NamesDiffer(services)
    ensures NeedsWhatItActivates(services)
  {
    hide Needs;
    forall s, d | s in services && Activates(services[s], d) && s != d
      ensures Relies(services, s, d)
    {
      var i :| 0 <= i < |services[s].spec.deps| && AutoOn(services[s].spec.deps[i], d);
      NeedsDirectly(services, s, d, i);
      assert NeedsChain(services, [s, d]);
    }
  }

  lemma NeedsDirectly(services: Services, s: Key, d: Key, i: nat)
    requires s in services && i < |services[s].spec.deps| && AutoOn(services[s].spec.deps[i], d) && s != d
    requires NamesDiffer(services)
    ensures Needs(services, s, d)
  {
    assert Orders(services[s].spec.deps[i], s.name, d);
  }

  lemma ReliesSorted(services: Services, graph: seq<Key>, s: Key, d: Key)
    requires Sorts(services, graph) && Relies(services, s, d)
    ensures Before(graph, d, s)
  {
    var p :| NeedsChain(services, p) && |p| > 1 && p[0] == s && p[|p| - 1] == d;
    ChainIsSorted(services, graph, p);
  }

  /** The pass over any order that the sort may return yields the least solution for any declaration. */
  ghost predicate AlwaysLeast(fleet: Fleet, services: Services) {
    forall graph, before, after ::
      Sorts(services, graph) && SameSpecs(before, services) && Complete(fleet, before, after, Reverse(graph)) ==>
        LeastSolution(fleet, before, Assigned(after))
  }

  /**
   Placement is right whatever order is returned and whatever affinities are declared,
   exactly when each service needs, transitively, the other services that it activates.
  */
  lemma LeastExactly(fleet: Fleet, services: Services, graph: seq<Key>)
    requires Sorts(services, graph) && PlacementLaws.Closed(services) && fleet.order != [] && Distinct(fleet.order)
    ensures AlwaysLeast(fleet, services) <==> NeedsWhatItActivates(services)
  {
    EveryOrderExactly(services, graph);
    hide NeedsWhatItActivates, Ordered, Complete, LeastSolution, SameSpecs, PlacementLaws.Closed, Distinct;
    forall any | Sorts(services, any)
      ensures Ordered(services, Reverse(any)) <==>
        forall before: Services, after: Services ::
          SameSpecs(before, services) && Complete(fleet, before, after, Reverse(any)) ==>
            LeastSolution(fleet, before, Assigned(after))
    {
      ReversedEnumerates(services, any);
      OrderExactly(fleet, services, Reverse(any));
    }
  }

  lemma ReversedEnumerates(services: Services, graph: seq<Key>)
    requires Sorts(services, graph)
    ensures Enumerates(Reverse(graph), services)
  {
    ReversedIn(graph);
  }
}
