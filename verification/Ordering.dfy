/** The order of the services: each after the enabled dependencies of another name. */
module Ordering {
  import opened Prelude
  import opened Cluster
  import opened TopologicalSort
  import opened Dependencies

  /** The dependency takes part in the ordering of a service named `name`. */
  ghost predicate Orders(dep: Dep, name: string, target: Key) {
    dep.Enabled() && dep.service != Some(name) && dep.Target() == target
  }

  /** `k` has to come after `target`. */
  ghost predicate Needs(services: Services, k: Key, target: Key) {
    k in services && exists i :: 0 <= i < |services[k].spec.deps| && Orders(services[k].spec.deps[i], k.name, target)
  }

  ghost predicate NeedsWithin(service: Service, name: string, j: nat, target: Key)
    requires j <= |service.spec.deps|
  {
    exists i :: 0 <= i < j && Orders(service.spec.deps[i], name, target)
  }

  /** The edges added for the dependencies of one service. */
  method AddService(graph: Graph, k: Key, service: Service)
    requires graph.Valid()
    modifies graph
    ensures graph.Valid()
    ensures forall x :: x in graph.edges <==>
      x in old(graph.edges) || x == k || NeedsWithin(service, k.name, |service.spec.deps|, x)
    ensures forall a, b :: Edge(graph.edges, a, b) <==>
      Edge(old(graph.edges), a, b) || (b == k && NeedsWithin(service, k.name, |service.spec.deps|, a))
  {
    graph.Add(k);
    var deps := service.spec.deps;
    for j := 0 to |deps|
      invariant graph.Valid() && k in graph.edges
      invariant forall x :: x in graph.edges <==> x in old(graph.edges) || x == k || NeedsWithin(service, k.name, j, x)
      invariant forall a, b :: Edge(graph.edges, a, b) <==>
        Edge(old(graph.edges), a, b) || (b == k && NeedsWithin(service, k.name, j, a))
    {
      var dep := deps[j];
      assert forall x :: NeedsWithin(service, k.name, j + 1, x) <==>
        NeedsWithin(service, k.name, j, x) || Orders(dep, k.name, x);
      if dep.service == Some(k.name) || !dep.Enabled() {
        continue;
      }
      graph.AddEdge(dep.Target(), k);
    }
  }

  /** The edges of the services: from what is needed to what needs it. */
  ghost predicate Describes(edges: Edges, services: Services) {
    && (forall x :: x in edges <==> x in services || exists k :: Needs(services, k, x))
    && forall a, b :: Edge(edges, a, b) <==> Needs(services, b, a)
  }

  /** The services hold a loop of needs. */
  ghost predicate NeedsLoop(services: Services) {
    exists p: seq<Key> ::
      && p != []
      && (forall i {:trigger p[i]} :: 0 <= i < |p| - 1 ==> Needs(services, p[i + 1], p[i]))
      && Needs(services, p[0], p[|p| - 1])
  }

  lemma CyclicIsLoop(edges: Edges, services: Services)
    requires Describes(edges, services)
    ensures Cyclic(edges) <==> NeedsLoop(services)
  {
    if Cyclic(edges) {
      var p :| IsCycle(edges, p);
      assert forall i {:trigger p[i]} :: 0 <= i < |p| - 1 ==> Needs(services, p[i + 1], p[i]);
    }
    if NeedsLoop(services) {
      var p: seq<Key> :|
        && p != []
        && (forall i {:trigger p[i]} :: 0 <= i < |p| - 1 ==> Needs(services, p[i + 1], p[i]))
        && Needs(services, p[0], p[|p| - 1]);
      assert IsCycle(edges, p);
    }
  }

  /** What is needed so far: the services already in the graph. */
  ghost predicate Known(services: Services, keys: seq<Key>, k: Key, target: Key) {
    k in keys && Needs(services, k, target)
  }

  /** The service is in the graph: added for itself, or for a service that needs it. */
  ghost predicate Mentioned(services: Services, keys: seq<Key>, x: Key) {
    x in keys || exists k :: Known(services, keys, k, x)
  }

  lemma NothingKnown(services: Services)
    ensures forall b, a :: !Known(services, [], b, a)
    ensures forall x :: !Mentioned(services, [], x)
    ensures forall a, b :: !Edge(map[], a, b)
  {
  }

  lemma KnownMore(services: Services, order: seq<Key>, i: nat)
    requires i < |order| && order[i] in services
    ensures forall k, x :: Known(services, order[..i + 1], k, x) <==>
      Known(services, order[..i], k, x) || (k == order[i] && Needs(services, k, x))
    ensures forall x :: NeedsWithin(services[order[i]], order[i].name, |services[order[i]].spec.deps|, x) <==>
      Needs(services, order[i], x)
    ensures forall x :: Mentioned(services, order[..i + 1], x) <==>
      Mentioned(services, order[..i], x) || x == order[i] || Needs(services, order[i], x)
  {
    assert order[..i + 1] == order[..i] + [order[i]];
    forall x | Needs(services, order[i], x)
      ensures Mentioned(services, order[..i + 1], x)
    {
      assert Known(services, order[..i + 1], order[i], x);
    }
    forall x, k | Known(services, order[..i], k, x)
      ensures Mentioned(services, order[..i + 1], x)
    {
      assert Known(services, order[..i + 1], k, x);
    }
  }

  lemma AllKnown(services: Services, order: seq<Key>)
    requires forall k :: k in services <==> k in order
    ensures forall b, a :: Known(services, order, b, a) <==> Needs(services, b, a)
    ensures forall x :: Mentioned(services, order, x) <==> x in services || exists k :: Needs(services, k, x)
  {
    forall b, a
      ensures Known(services, order, b, a) <==> Needs(services, b, a)
    {
    }
    forall x, k | Needs(services, k, x)
      ensures Mentioned(services, order, x)
    {
      assert Known(services, order, k, x);
    }
  }

  /** Fills the graph of the services and sorts it. */
  method Order(c: Config) returns (r: Result<(), Error>)
    requires c.Valid()
    modifies c`graph
    ensures r.Err? <==> NeedsLoop(c.services)
    ensures r.Err? ==> r.error == Cycle
    ensures r.Ok? ==> Distinct(c.graph)
    ensures r.Ok? ==> forall x :: x in c.graph <==> x in c.services || exists k :: Needs(c.services, k, x)
    ensures r.Ok? ==> forall a, b :: Needs(c.services, b, a) ==> Before(c.graph, a, b)
  {
    hide Needs, NeedsWithin, Known, Edge, Mentioned;
    var graph := new Graph();
    NothingKnown(c.services);
    var order := c.order;
    for i := 0 to |order|
      invariant graph.Valid() && fresh(graph)
      invariant forall x :: x in graph.edges <==> Mentioned(c.services, order[..i], x)
      invariant forall a, b :: Edge(graph.edges, a, b) <==> Known(c.services, order[..i], b, a)
    {
      var k := order[i];
      assert k in c.services;
      AddService(graph, k, c.services[k]);
      KnownMore(c.services, order, i);
    }
    assert order[..|order|] == order;
    AllKnown(c.services, order);
    CyclicIsLoop(graph.edges, c.services);
    var sorted := graph.Sort();
    if sorted.Err? {
      return Err(Cycle);
    }
    c.graph := sorted.value;
    return Ok(());
  }

  /** When every enabled dependency exists, the graph holds the services and nothing else. */
  lemma GraphIsServices(services: Services, graph: seq<Key>)
    requires Sound(services)
    requires forall x :: x in graph <==> x in services || exists k :: Needs(services, k, x)
    ensures forall x :: x in graph <==> x in services
  {
  }
}
