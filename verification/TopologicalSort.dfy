/**
 The ordering of services: a graph is grown edge by edge and sorted depth first. A sorted
 list holds every node once with each edge pointing forward; sorting fails exactly on a cycle.
*/
module TopologicalSort {
  import opened Prelude
  import opened Cluster

  type Edges = map<Key, seq<Key>>

  ghost predicate Edge(edges: Edges, from: Key, to: Key) {
    from in edges && to in edges[from]
  }

  ghost predicate IsPath(edges: Edges, p: seq<Key>) {
    forall i {:trigger p[i]} :: 0 <= i < |p| - 1 ==> Edge(edges, p[i], p[i + 1])
  }

  ghost predicate IsCycle(edges: Edges, p: seq<Key>) {
    p != [] && IsPath(edges, p) && Edge(edges, p[|p| - 1], p[0])
  }

  ghost predicate Cyclic(edges: Edges) {
    exists p :: IsCycle(edges, p)
  }

  /** `order` holds the nodes once each, and every edge points forward. */
  ghost predicate Sorted(edges: Edges, order: seq<Key>) {
    && Distinct(order)
    && (forall k :: k in order <==> k in edges)
    && forall a, b :: Edge(edges, a, b) ==> Before(order, a, b)
  }

  lemma {:induction false} PathGoesForward(edges: Edges, order: seq<Key>, p: seq<Key>, i: nat)
    requires Sorted(edges, order) && IsPath(edges, p) && 0 < i < |p|
    ensures Before(order, p[0], p[i])
  {
    assert Edge(edges, p[i - 1], p[i]);
    if i > 1 {
      PathGoesForward(edges, order, p, i - 1);
      BeforeTransitive(order, p[0], p[i - 1], p[i]);
    }
  }

  /** Only acyclic graphs have a sorted list. */
  lemma SortedIsAcyclic(edges: Edges, order: seq<Key>)
    requires Sorted(edges, order)
    ensures !Cyclic(edges)
  {
    if p :| IsCycle(edges, p) {
      var last := |p| - 1;
      assert Before(order, p[last], p[0]);
      if last > 0 {
        PathGoesForward(edges, order, p, last);
      }
      BeforeIsStrict(order, p[last], p[0]);
    }
  }

  ghost predicate Closed(edges: Edges) {
    forall a, b :: Edge(edges, a, b) ==> b in edges
  }

  /** Finished nodes precede all their successors, and are no longer being visited. */
  ghost predicate Finished(edges: Edges, visiting: set<Key>, sorted: seq<Key>) {
    && Distinct(sorted)
    && (forall k :: k in sorted ==> k in edges && k !in visiting)
    && forall i, b {:trigger Edge(edges, sorted[i], b)} ::
      0 <= i < |sorted| && Edge(edges, sorted[i], b) ==> b in sorted[i + 1..]
  }

  lemma FinishNode(edges: Edges, visiting: set<Key>, sorted: seq<Key>, node: Key)
    requires Finished(edges, visiting, sorted) && node in visiting && node in edges
    requires forall b :: Edge(edges, node, b) ==> b in sorted
    ensures Finished(edges, visiting - {node}, [node] + sorted)
  {
    var all := [node] + sorted;
    assert all[1..] == sorted;
    forall i, b | 0 <= i < |all| && Edge(edges, all[i], b)
      ensures b in all[i + 1..]
    {
      if i > 0 {
        assert Edge(edges, sorted[i - 1], b);
        assert all[i + 1..] == sorted[i..];
      }
    }
  }

  ghost function Unmarked(edges: Edges, visiting: set<Key>, sorted: seq<Key>): set<Key> {
    edges.Keys - visiting - (set k | k in sorted)
  }

  lemma MarkShrinks(edges: Edges, visiting: set<Key>, sorted: seq<Key>, node: Key)
    requires node in edges && node !in visiting && node !in sorted
    ensures |Unmarked(edges, visiting + {node}, sorted)| < |Unmarked(edges, visiting, sorted)|
  {
    assert node in Unmarked(edges, visiting, sorted);
    Smaller(Unmarked(edges, visiting + {node}, sorted), Unmarked(edges, visiting, sorted));
  }

  lemma MarkKeeps(edges: Edges, visiting: set<Key>, sorted: seq<Key>, node: Key)
    requires Finished(edges, visiting, sorted) && node !in sorted
    ensures Finished(edges, visiting + {node}, sorted)
  {
  }

  lemma PathExtends(edges: Edges, path: seq<Key>, visiting: set<Key>, node: Key)
    requires IsPath(edges, path) && (forall k :: k in path <==> k in visiting)
    requires path != [] ==> Edge(edges, path[|path| - 1], node)
    ensures IsPath(edges, path + [node])
    ensures forall k :: k in path + [node] <==> k in visiting + {node}
  {
  }

  /** A path that comes back to one of its nodes contains a cycle. */
  lemma PathCloses(edges: Edges, path: seq<Key>, node: Key)
    requires IsPath(edges, path) && node in path && Edge(edges, path[|path| - 1], node)
    ensures Cyclic(edges)
  {
    var i :| 0 <= i < |path| && path[i] == node;
    var cycle := path[i..];
    forall j {:trigger cycle[j]} | 0 <= j < |cycle| - 1
      ensures Edge(edges, cycle[j], cycle[j + 1])
    {
      assert Edge(edges, path[i + j], path[i + j + 1]);
    }
    assert IsCycle(edges, cycle);
  }

  /** The marks of a depth-first search: nodes being visited, and finished nodes in order. */
  class Search {
    const edges: Edges
    var visiting: set<Key>
    var sorted: seq<Key>

    constructor (edges: Edges)
      ensures this.edges == edges && visiting == {} && sorted == []
    {
      this.edges, visiting, sorted := edges, {}, [];
    }

    ghost predicate Valid()
      reads this
    {
      Closed(edges) && Finished(edges, visiting, sorted)
    }

    ghost function Left(): nat
      reads this
    {
      |Unmarked(edges, visiting, sorted)|
    }

    /** Visits one node reached along `path`, whose nodes are the ones being visited. */
    method Visit(node: Key, ghost path: seq<Key>) returns (r: Result<(), Error>)
      requires Valid() && node in edges
      requires IsPath(edges, path) && forall k :: k in path <==> k in visiting
      requires path != [] ==> Edge(edges, path[|path| - 1], node)
      modifies this
      ensures r.Err? ==> r.error == Cycle && Cyclic(edges)
      ensures r.Ok? ==> Valid() && visiting == old(visiting) && node in sorted
      ensures r.Ok? ==> forall k :: k in old(sorted) ==> k in sorted
      decreases Left(), 1
    {
      hide IsPath, Finished, Closed, Unmarked, Cyclic, Edge;
      if node in visiting {
        PathCloses(edges, path, node);
        return Err(Cycle);
      }
      if node in sorted {
        return Ok(());
      }
      MarkShrinks(edges, visiting, sorted, node);
      MarkKeeps(edges, visiting, sorted, node);
      PathExtends(edges, path, visiting, node);
      visiting := visiting + {node};
      r := VisitAll(node, path + [node]);
      if r.Err? {
        return;
      }
      FinishNode(edges, visiting, sorted, node);
      visiting := visiting - {node};
      sorted := [node] + sorted;
    }

    method VisitAll(node: Key, ghost path: seq<Key>) returns (r: Result<(), Error>)
      requires Valid() && node in edges && node in visiting
      requires IsPath(edges, path) && (forall k :: k in path <==> k in visiting)
      requires path != [] && path[|path| - 1] == node
      modifies this
      ensures r.Err? ==> r.error == Cycle && Cyclic(edges)
      ensures r.Ok? ==> Valid() && visiting == old(visiting)
      ensures r.Ok? ==> forall b :: Edge(edges, node, b) ==> b in sorted
      ensures r.Ok? ==> forall k :: k in old(sorted) ==> k in sorted
      decreases Left(), 2
    {
      var targets := edges[node];
      for i := 0 to |targets|
        invariant Valid() && visiting == old(visiting)
        invariant forall b :: b in targets[..i] ==> b in sorted
        invariant forall k :: k in old(sorted) ==> k in sorted
      {
        assert Edge(edges, node, targets[i]);
        NotLarger(Unmarked(edges, visiting, sorted), old(Unmarked(edges, visiting, sorted)));
        r := Visit(targets[i], path);
        if r.Err? {
          return;
        }
      }
      assert targets[..|targets|] == targets;
      return Ok(());
    }
  }

  lemma OneMoreEdge(edges: Edges, from: Key, to: Key)
    requires Closed(edges) && from in edges && to in edges
    ensures var next := edges[from := edges[from] + [to]];
      && Closed(next) && next.Keys == edges.Keys
      && forall a, b :: Edge(next, a, b) <==> Edge(edges, a, b) || (a == from && b == to)
  {
    var next := edges[from := edges[from] + [to]];
    forall a, b
      ensures Edge(next, a, b) <==> Edge(edges, a, b) || (a == from && b == to)
    {
    }
  }

  class Graph {
    /** Nodes in the order they were added, and the edges out of each. */
    var nodes: seq<Key>
    var edges: Edges

    constructor ()
      ensures nodes == [] && edges == map[] && Valid()
    {
      nodes, edges := [], map[];
    }

    ghost predicate Valid()
      reads this
    {
      && Distinct(nodes)
      && (forall k :: k in nodes <==> k in edges)
      && Closed(edges)
    }

    /** Adds a node unless it is known. */
    method Add(k: Key)
      requires Valid()
      modifies this
      ensures Valid()
      ensures edges.Keys == old(edges).Keys + {k}
      ensures forall a, b :: Edge(edges, a, b) <==> Edge(old(edges), a, b)
    {
      if k !in edges {
        nodes := nodes + [k];
        edges := edges[k := []];
        assert forall a, b :: Edge(edges, a, b) <==> Edge(old(edges), a, b);
      }
    }

    /** `add(from, to)`: both nodes, and an edge between them. */
    method AddEdge(from: Key, to: Key)
      requires Valid()
      modifies this
      ensures Valid()
      ensures edges.Keys == old(edges).Keys + {from, to}
      ensures forall a, b :: Edge(edges, a, b) <==> Edge(old(edges), a, b) || (a == from && b == to)
    {
      hide Edge, Closed;
      Add(from);
      Add(to);
      ghost var before := edges;
      edges := edges[from := edges[from] + [to]];
      OneMoreEdge(before, from, to);
    }

    method Sort() returns (r: Result<seq<Key>, Error>)
      requires Valid()
      ensures r.Ok? ==> Sorted(edges, r.value)
      ensures r.Err? <==> Cyclic(edges)
      ensures r.Err? ==> r.error == Cycle
    {
      var search := new Search(edges);
      for i := 0 to |nodes|
        invariant search.Valid() && search.visiting == {} && search.edges == edges
        invariant fresh(search)
        invariant forall k :: k in nodes[..i] ==> k in search.sorted
      {
        if nodes[i] !in search.sorted {
          assert nodes[i] in nodes;
          var visited := search.Visit(nodes[i], []);
          if visited.Err? {
            return Err(Cycle);
          }
        }
      }
      var order := search.sorted;
      assert nodes[..|nodes|] == nodes;
      forall a, b | Edge(edges, a, b)
        ensures Before(order, a, b)
      {
        var i :| 0 <= i < |order| && order[i] == a;
        assert Edge(edges, order[i], b);
        var j :| 0 <= j < |order[i + 1..]| && order[i + 1..][j] == b;
        assert order[i + 1 + j] == b;
      }
      SortedIsAcyclic(edges, order);
      return Ok(order);
    }
  }
}
