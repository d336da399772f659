/** What the configuration pass promises: the order of its events and the injected dependencies. */
module ConfigureLaws {
  import opened Prelude
  import opened Affinities
  import opened Cluster
  import opened Placement
  import opened Configure

  /** The trace starts with the trace of any prefix of the graph. */
  lemma {:induction false} TraceSplits(services: Services, graph: seq<Key>, i: nat, m: nat) returns (rest: seq<Event>)
    requires i <= m <= |graph| && forall j :: 0 <= j < m ==> graph[j] in services
    ensures TraceOf(services, graph, m) == TraceOf(services, graph, i) + rest
    decreases m
  {
    hide ServiceTrace;
    rest := [];
    if i < m {
      var front := TraceSplits(services, graph, i, m - 1);
      rest := front + ServiceTrace(services, graph[m - 1]);
      assert TraceOf(services, graph, i) + rest == TraceOf(services, graph, i) + front + ServiceTrace(services, graph[m - 1]);
    }
  }

  lemma EventHappens(services: Services, graph: seq<Key>, i: nat, j: nat, e: Event)
    requires i < j <= |graph| && (forall x :: 0 <= x < |graph| ==> graph[x] in services)
    requires e in ServiceTrace(services, graph[i])
    ensures e in TraceOf(services, graph, j)
  {
    hide ServiceTrace, TraceOf;
    TraceOneMore(services, graph, i);
    var rest := TraceSplits(services, graph, i + 1, j);
  }

  /** The key comes at most as late as the other one. */
  ghost predicate NotAfter(graph: seq<Key>, a: Key, b: Key) {
    a == b || Before(graph, a, b)
  }

  lemma {:induction false} TraceKeys(services: Services, graph: seq<Key>, m: nat)
    requires m <= |graph| && forall j :: 0 <= j < m ==> graph[j] in services
    ensures forall p :: 0 <= p < |TraceOf(services, graph, m)| ==> TraceOf(services, graph, m)[p].key in graph[..m]
  {
    if m > 0 {
      TraceKeys(services, graph, m - 1);
      TraceOneMore(services, graph, m - 1);
      ServiceKeys(services, graph[m - 1]);
      assert graph[..m] == graph[..m - 1] + [graph[m - 1]];
    }
  }

  lemma ServiceKeys(services: Services, k: Key)
    requires k in services
    ensures forall p :: 0 <= p < |ServiceTrace(services, k)| ==> ServiceTrace(services, k)[p].key == k
  {
    hide InjectedAll;
  }

  /** Whatever happens later in the trace happens to the same service or to one later in the graph. */
  lemma {:induction false} EventsInOrder(services: Services, graph: seq<Key>, m: nat)
    requires m <= |graph| && forall j :: 0 <= j < m ==> graph[j] in services
    ensures var trace := TraceOf(services, graph, m);
      forall p, q :: 0 <= p < q < |trace| ==> NotAfter(graph, trace[p].key, trace[q].key)
  {
    if m > 0 {
      EventsInOrder(services, graph, m - 1);
      TraceKeys(services, graph, m);
      TraceOneMore(services, graph, m - 1);
      ServiceKeys(services, graph[m - 1]);
      hide ServiceTrace, TraceOf, NotAfter;
      var front, trace := TraceOf(services, graph, m - 1), TraceOf(services, graph, m);
      forall p, q | 0 <= p < q < |trace|
        ensures NotAfter(graph, trace[p].key, trace[q].key)
      {
        if q < |front| {
          assert trace[p] == front[p] && trace[q] == front[q];
        } else {
          assert trace[q] == ServiceTrace(services, graph[m - 1])[q - |front|];
          UpToLast(graph, m, trace[p].key);
        }
      }
    }
  }

  lemma UpToLast(graph: seq<Key>, m: nat, k: Key)
    requires 0 < m <= |graph| && k in graph[..m]
    ensures NotAfter(graph, k, graph[m - 1])
  {
    var i :| 0 <= i < m && graph[i] == k;
  }

  lemma NeverAfter(graph: seq<Key>, a: Key, b: Key)
    requires Distinct(graph) && NotAfter(graph, a, b) && a != b
    ensures !NotAfter(graph, b, a)
  {
    BeforeIsStrict(graph, a, b);
  }

  /** The call that configures `k` on `n`. */
  ghost function CallOf(services: Services, k: Key, n: NodeId): Event
    requires k in services
  {
    Configured(k, n, InjectedAll(services, services[k].spec.deps, |services[k].spec.deps|, n))
  }

  /** A call is of a service with a callback, on a node that hosts it, with what is injected there. */
  ghost predicate OwnCall(services: Services, e: Event) {
    e.Configured? ==>
      && e.key in services && services[e.key].spec.configure && Hosts(services[e.key], e.node)
      && e == CallOf(services, e.key, e.node)
  }

  ghost predicate MergeOf(e: Event, k: Key) {
    e.Merged? && e.key == k
  }

  /** Every merge of a service happens before every call of it. */
  ghost predicate MergesFirst(trace: seq<Event>) {
    forall p, q :: 0 <= p < |trace| && 0 <= q < |trace| && trace[q].Configured? && MergeOf(trace[p], trace[q].key) ==> p < q
  }

  /** What happens to a service: every instance is merged, and called if there is a callback. */
  lemma EventsOf(services: Services, k: Key, n: NodeId)
    requires k in services && Hosts(services[k], n)
    ensures Merged(k, n) in ServiceTrace(services, k)
    ensures services[k].spec.configure ==> CallOf(services, k, n) in ServiceTrace(services, k)
  {
    hide InjectedAll;
    var ids := Ids(services[k].instances);
    var trace := ServiceTrace(services, k);
    var i :| 0 <= i < |ids| && ids[i] == n;
    assert trace[i] == Merged(k, n);
    if services[k].spec.configure {
      assert trace[|ids| + i] == CallOf(services, k, n);
    }
  }

  /** Nothing else happens to it, and it is merged everywhere before it is called. */
  lemma EventsOwn(services: Services, k: Key)
    requires k in services
    ensures forall p :: 0 <= p < |ServiceTrace(services, k)| ==> OwnCall(services, ServiceTrace(services, k)[p])
    ensures MergesFirst(ServiceTrace(services, k))
  {
    hide InjectedAll;
    var ids, trace := Ids(services[k].instances), ServiceTrace(services, k);
    forall p | 0 <= p < |trace|
      ensures OwnCall(services, trace[p])
    {
      if p >= |ids| {
        assert Hosts(services[k], ids[p - |ids|]);
      }
    }
  }

  /** The options of a service are merged on every node before the first of its calls, and only it is called for itself. */
  lemma {:induction false} CallsAreOwn(services: Services, graph: seq<Key>, m: nat)
    requires m <= |graph| && Distinct(graph) && forall j :: 0 <= j < m ==> graph[j] in services
    ensures forall q :: 0 <= q < |TraceOf(services, graph, m)| ==> OwnCall(services, TraceOf(services, graph, m)[q])
    ensures MergesFirst(TraceOf(services, graph, m))
  {
    if m > 0 {
      CallsAreOwn(services, graph, m - 1);
      TraceKeys(services, graph, m - 1);
      TraceOneMore(services, graph, m - 1);
      ServiceKeys(services, graph[m - 1]);
      EventsOwn(services, graph[m - 1]);
      hide ServiceTrace, TraceOf, OwnCall;
      MergesTogether(TraceOf(services, graph, m - 1), ServiceTrace(services, graph[m - 1]), graph[m - 1], graph[..m - 1]);
    }
  }

  lemma MergesTogether(front: seq<Event>, last: seq<Event>, k: Key, done: seq<Key>)
    requires MergesFirst(front) && MergesFirst(last) && k !in done
    requires forall p :: 0 <= p < |front| ==> front[p].key in done
    requires forall p :: 0 <= p < |last| ==> last[p].key == k
    ensures MergesFirst(front + last)
  {
  }

  /**
   Configure order: whenever a service is configured, nothing is still to happen to the
   services that come before it, every instance of them has its options and was configured,
   and so do all its own instances have their options.
  */
  lemma ConfiguredAfterNeeds(services: Services, graph: seq<Key>, q: nat, d: Key)
    requires Distinct(graph) && forall x :: 0 <= x < |graph| ==> graph[x] in services
    requires q < |TraceOf(services, graph, |graph|)| && TraceOf(services, graph, |graph|)[q].Configured?
    requires d in graph && NotAfter(graph, d, TraceOf(services, graph, |graph|)[q].key)
    ensures var trace := TraceOf(services, graph, |graph|); var k := trace[q].key;
      && (forall m :: Hosts(services[d], m) ==> Merged(d, m) in trace[..q])
      && (forall p :: 0 <= p < |trace| && trace[p].key == d && (d != k || MergeOf(trace[p], d)) ==> p < q)
      && (d != k && services[d].spec.configure ==>
            forall m :: Hosts(services[d], m) ==> CallOf(services, d, m) in trace[..q])
  {
    hide ServiceTrace, TraceOf, Hosts, CallOf, OwnCall, NotAfter;
    var trace := TraceOf(services, graph, |graph|);
    var k := trace[q].key;
    EventsInOrder(services, graph, |graph|);
    CallsAreOwn(services, graph, |graph|);
    forall p | 0 <= p < |trace| && trace[p].key == d && (d != k || MergeOf(trace[p], d))
      ensures p < q
    {
      if d != k && p > q {
        assert NotAfter(graph, k, d);
        NeverAfter(graph, d, k);
      }
    }
    var i :| 0 <= i < |graph| && graph[i] == d;
    forall m | Hosts(services[d], m)
      ensures Merged(d, m) in trace[..q]
      ensures d != k && services[d].spec.configure ==> CallOf(services, d, m) in trace[..q]
    {
      EventsOf(services, d, m);
      EventHappens(services, graph, i, |graph|, Merged(d, m));
      if d != k && services[d].spec.configure {
        KeyOfCall(services, d, m);
        EventHappens(services, graph, i, |graph|, CallOf(services, d, m));
      }
    }
  }

  lemma KeyOfCall(services: Services, k: Key, n: NodeId)
    requires k in services
    ensures CallOf(services, k, n).Configured? && CallOf(services, k, n).key == k
  {
  }

  // ----- injected dependencies

  /** Each enabled dependency is injected under its name, and nothing else is. */
  lemma {:induction false} InjectedEntries(services: Services, deps: seq<Dep>, j: nat, node: NodeId)
    requires j <= |deps| && DistinctNames(deps) && AllInjectable(services, deps, j)
    ensures forall i :: 0 <= i < j && deps[i].Enabled() ==>
      && deps[i].name in InjectedAll(services, deps, j, node)
      && InjectedAll(services, deps, j, node)[deps[i].name]
        == Injected(deps[i], Ids(services[deps[i].Target()].instances), node)
    ensures forall name :: name in InjectedAll(services, deps, j, node) ==>
      exists i :: 0 <= i < j && deps[i].Enabled() && deps[i].name == name
    decreases j
  {
    if j > 0 {
      InjectedEntries(services, deps, j - 1, node);
      assert Injectable(services, deps[j - 1]);
    }
  }

  /** A local dependency is the instance of the same node, or null when there is none there. */
  lemma LocalInjection(services: Services, k: Key, i: nat, node: NodeId)
    requires k in services && DistinctNames(services[k].spec.deps) && i < |services[k].spec.deps|
    requires AllInjectable(services, services[k].spec.deps, |services[k].spec.deps|)
    requires services[k].spec.deps[i].Enabled() && Is(services[k].spec.deps[i].local)
    requires Hosts(services[k], node)
    ensures var deps, dep := services[k].spec.deps, services[k].spec.deps[i];
      var injected := InjectedAll(services, deps, |deps|, node);
      && dep.name in injected && dep.Target() in services
      && (injected[dep.name] == One(dep.Target(), node) <==> Hosts(services[dep.Target()], node))
      && (injected[dep.name] == Null <==> !Hosts(services[dep.Target()], node))
      && (Is(dep.required) && LocalHolds(services, k, dep) ==> injected[dep.name] == One(dep.Target(), node))
  {
    InjectedEntries(services, services[k].spec.deps, |services[k].spec.deps|, node);
  }

  /** A single dependency is injected only when its target has one instance; it is that one unless local. */
  lemma SingleInjection(services: Services, deps: seq<Dep>, i: nat, node: NodeId)
    requires DistinctNames(deps) && i < |deps| && AllInjectable(services, deps, |deps|)
    requires deps[i].Enabled() && Is(deps[i].single)
    ensures deps[i].Target() in services && |services[deps[i].Target()].instances| == 1
    ensures deps[i].name in InjectedAll(services, deps, |deps|, node)
    ensures InjectedAll(services, deps, |deps|, node)[deps[i].name] ==
      var only := services[deps[i].Target()].instances[0].node;
      if Is(deps[i].local) && only != node then Null else One(deps[i].Target(), only)
  {
    InjectedEntries(services, deps, |deps|, node);
    assert Injectable(services, deps[i]);
    assert Ids(services[deps[i].Target()].instances) == [services[deps[i].Target()].instances[0].node];
  }
}
