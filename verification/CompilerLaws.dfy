/** What a caller may rely on once normalisation has succeeded. */
module CompilerLaws {
  import opened Prelude
  import opened Affinities
  import opened AffinityForms
  import opened Cluster
  import opened Ordering
  import opened Placement
  import opened AffinityPass
  import opened PlacementLaws
  import opened OrderLaws
  import opened NodeIndex
  import opened Configure
  import opened ConfigureLaws
  import opened Compiler
  import opened Dispatch

  /** The end of a normalisation, for one fleet and one set of declared lists. */
  datatype Outcome = Outcome(
    fleet: Fleet, settled: Services, placed: Services, services: Services,
    declared: map<NodeId, seq<Entry>>, index: map<NodeId, seq<Entry>>, graph: seq<Key>, trace: seq<Event>)
  {
    ghost predicate Holds() {
      && fleet.Valid()
      && Finished(fleet, settled, placed, services, declared, index, graph, trace)
    }
  }

  lemma SameHosts(o: Outcome)
    requires o.Holds()
    ensures o.services.Keys == o.placed.Keys == o.settled.Keys
    ensures forall k, n :: k in o.services ==> (Hosts(o.services[k], n) <==> Hosts(o.placed[k], n))
    ensures forall k :: k in o.services ==> o.services[k].spec == o.settled[k].spec == o.placed[k].spec
  {
    hide Placed, LocalsHold, TraceOf, Filter, LeastSolution, NeedsWhatItActivates, Needs, Enumerates, PlacementLaws.Closed;
    CompleteKeys(o.fleet, o.settled, o.placed, Reverse(o.graph));
  }

  /** A node hosting a service hosts, transitively, all that it activates. */
  lemma HostsWhatIsActivated(o: Outcome, p: seq<Key>, n: NodeId)
    requires o.Holds() && NeedsWhatItActivates(o.settled)
    requires Chain(o.settled, p) && Hosts(o.services[p[0]], n)
    ensures forall i :: 0 <= i < |p| ==> p[i] in o.services && Hosts(o.services[p[i]], n)
  {
    SameHosts(o);
    NeedsGiveOrder(o.settled, o.graph);
    CoLocationClosure(o.fleet, o.settled, o.placed, Reverse(o.graph), p, n);
  }

  /** An affinity of the service, as it was declared, selects the node. */
  ghost predicate Selects(fleet: Fleet, service: Service, n: NodeId) {
    exists i :: 0 <= i < |service.spec.declared| && NormalForm(service.spec.declared[i]).Ok?
      && Satisfies(fleet, NormalForm(service.spec.declared[i]).value, n)
  }

  lemma WantsAsDeclared(fleet: Fleet, service: Service, n: NodeId)
    requires FormsOf(service.spec.declared, service.affinity)
    ensures Wants(fleet, service, n) <==> Selects(fleet, service, n)
  {
    hide NormalForm, Satisfies;
    if Wants(fleet, service, n) {
      var i :| 0 <= i < |service.affinity| && Satisfies(fleet, service.affinity[i], n);
      assert NormalForm(service.spec.declared[i]) == Ok(service.affinity[i]);
    }
  }

  /**
   A service runs on exactly the nodes that its declared affinities select and those of the
   other services that activate it.
  */
  lemma RunsExactly(o: Outcome, k: Key, n: NodeId)
    requires o.Holds() && NeedsWhatItActivates(o.settled) && k in o.settled && n in o.fleet.order
    ensures k in o.services && o.services.Keys == o.settled.Keys
    ensures Hosts(o.services[k], n) <==>
      || Selects(o.fleet, o.settled[k], n)
      || exists s, dep ::
           s in o.settled && s != k && dep in o.settled[s].spec.deps
           && Is(dep.auto) && dep.Enabled() && dep.Target() == k && Hosts(o.services[s], n)
  {
    SameHosts(o);
    forall s | s in o.settled
      ensures Activates(o.settled[s], k) <==>
        exists dep :: dep in o.settled[s].spec.deps && Is(dep.auto) && dep.Enabled() && dep.Target() == k
    {
      ActivatesBy(o.settled[s], k);
    }
    PlacedOrder(o);
    hide Hosts, Outcome.Holds, Complete, Ordered, Activates;
    WantsAsDeclared(o.fleet, o.settled[k], n);
    RunsInOrder(o.fleet, o.settled, o.placed, Reverse(o.graph), k, n);
  }

  lemma ActivatesBy(service: Service, k: Key)
    ensures Activates(service, k) <==>
      exists dep :: dep in service.spec.deps && Is(dep.auto) && dep.Enabled() && dep.Target() == k
  {
    if Activates(service, k) {
      var i :| 0 <= i < |service.spec.deps| && AutoOn(service.spec.deps[i], k);
      assert service.spec.deps[i] in service.spec.deps;
    }
    if dep :| dep in service.spec.deps && Is(dep.auto) && dep.Enabled() && dep.Target() == k {
      var i :| 0 <= i < |service.spec.deps| && service.spec.deps[i] == dep;
      assert AutoOn(service.spec.deps[i], k);
    }
  }

  lemma PlacedOrder(o: Outcome)
    requires o.Holds() && NeedsWhatItActivates(o.settled)
    ensures Complete(o.fleet, o.settled, o.placed, Reverse(o.graph)) && Ordered(o.settled, Reverse(o.graph))
    ensures forall k :: k in o.settled ==> FormsOf(o.settled[k].spec.declared, o.settled[k].affinity)
  {
    hide WellConfigured, Complete, LeastSolution, NeedsWhatItActivates, Needs, Enumerates, Filter, LocalsHold,
      RequiredExist, FormsOf, NodesKnow, Before;
    NeedsGiveOrder(o.settled, o.graph);
  }

  lemma RunsInOrder(fleet: Fleet, settled: Services, placed: Services, rev: seq<Key>, k: Key, n: NodeId)
    requires Complete(fleet, settled, placed, rev) && Ordered(settled, rev) && k in settled && n in fleet.order
    requires placed.Keys == settled.Keys
    ensures Hosts(placed[k], n) <==>
      || Wants(fleet, settled[k], n)
      || exists s :: s in settled && s != k && Activates(settled[s], k) && Hosts(placed[s], n)
  {
    hide Hosts, Activates, Wants;
    var m :| 0 <= m < |rev| && rev[m] == k;
    PlacedAt(fleet, settled, placed, rev, m, n);
    if s :| s in settled && s != k && Activates(settled[s], k) && Hosts(placed[s], n) {
      var j, i :| 0 <= j < i < |rev| && rev[j] == s && rev[i] == k;
      assert i == m;
    }
  }

  /**
   Whenever a service is configured, every instance of what it needs has its options and
   was configured, and nothing is still to happen to it.
  */
  lemma NeedsAreConfiguredFirst(o: Outcome, q: nat, d: Key)
    requires o.Holds() && q < |o.trace| && o.trace[q].Configured?
    requires Needs(o.settled, o.trace[q].key, d)
    ensures d in o.services && d in o.placed && d in o.settled
    ensures forall m :: Hosts(o.services[d], m) ==> Merged(d, m) in o.trace[..q]
    ensures o.settled[d].spec.configure ==>
      forall m :: Hosts(o.services[d], m) ==> CallOf(o.placed, d, m) in o.trace[..q]
    ensures forall p :: 0 <= p < |o.trace| && o.trace[p].key == d ==> p < q
  {
    hide *;
    SameHosts(o);
    OutcomeGraph(o);
    BeforeIn(o.graph, d, o.trace[q].key);
    BeforeIsStrict(o.graph, d, o.trace[q].key);
    FirstIsNotAfter(o.graph, d, o.trace[q].key);
    ConfiguredAfterNeeds(o.placed, o.graph, q, d);
  }

  lemma FirstIsNotAfter(graph: seq<Key>, a: Key, b: Key)
    requires Before(graph, a, b)
    ensures NotAfter(graph, a, b)
  {
  }

  /** The trace of a finished configuration is that of its graph. */
  lemma OutcomeGraph(o: Outcome)
    requires o.Holds()
    ensures Distinct(o.graph) && forall x :: 0 <= x < |o.graph| ==> o.graph[x] in o.placed
    ensures o.trace == TraceOf(o.placed, o.graph, |o.graph|)
    ensures forall a, b :: Needs(o.settled, b, a) ==> Before(o.graph, a, b)
  {
    hide Hosts, Placed, LocalsHold, TraceOf, Filter, LeastSolution, NeedsWhatItActivates, PlacementLaws.Closed, Needs,
      OptionsFor, Keys, Before, Configurable, Complete;
  }

  /** Every call of the trace is of a service on a node that hosts it, with its injected dependencies. */
  lemma CallsOfOutcome(o: Outcome, q: nat)
    requires o.Holds() && q < |o.trace| && o.trace[q].Configured?
    ensures o.trace[q].key in o.placed && o.trace[q].key in o.graph && o.placed[o.trace[q].key].instances != []
    ensures Hosts(o.placed[o.trace[q].key], o.trace[q].node)
    ensures o.trace[q] == CallOf(o.placed, o.trace[q].key, o.trace[q].node)
    ensures Configurable(o.placed, o.index, o.trace[q].key)
  {
    hide Placed, LocalsHold, TraceOf, Filter, LeastSolution, NeedsWhatItActivates, PlacementLaws.Closed, ServiceTrace,
      CallOf, Needs, OptionsFor, Before, Keys, Configurable, InjectedAll;
    CallsAreOwn(o.placed, o.graph, |o.graph|);
    TraceKeys(o.placed, o.graph, |o.graph|);
    assert o.graph[..|o.graph|] == o.graph;
    assert OwnCall(o.placed, o.trace[q]);
  }

  /** What is injected under the name of an enabled dependency. */
  ghost predicate InjectedRight(services: Services, dep: Dep, node: NodeId, deps: map<string, Injection>) {
    && dep.name in deps && dep.Target() in services
    && var ids := Ids(services[dep.Target()].instances);
    && (Is(dep.local) ==> deps[dep.name] == if node in ids then One(dep.Target(), node) else Null)
    && (Is(dep.local) && Is(dep.required) ==> deps[dep.name] == One(dep.Target(), node))
    && (Is(dep.single) ==> |ids| == 1 && (!Is(dep.local) ==> deps[dep.name] == One(dep.Target(), ids[0])))
    && (!Is(dep.local) && !Is(dep.single) ==> deps[dep.name] == Every(dep.Target(), ids))
  }

  /**
   In every call of a finished configuration exactly the enabled dependencies are injected:
   a local one is the instance on the same node or null, and never null when required; a
   single one has exactly one instance, and is that one unless local; any other is all
   instances of its target.
  */
  lemma InjectedAfterCompile(o: Outcome, q: nat)
    requires o.Holds() && q < |o.trace| && o.trace[q].Configured?
    ensures var e := o.trace[q];
      && e.key in o.services && Hosts(o.services[e.key], e.node)
      && (forall dep :: dep in o.services[e.key].spec.deps && dep.Enabled() ==>
            InjectedRight(o.services, dep, e.node, e.deps))
      && (forall name :: name in e.deps ==>
            exists dep :: dep in o.services[e.key].spec.deps && dep.Enabled() && dep.name == name)
  {
    CallsOfOutcome(o, q);
    SameHosts(o);
    NamesOfOutcome(o, o.trace[q].key);
    var e := o.trace[q];
    var deps := o.placed[e.key].spec.deps;
    hide Outcome.Holds, InjectedAll, Hosts, LocalHolds, InjectedRight, DistinctNames;
    InjectedEntries(o.placed, deps, |deps|, e.node);
    forall dep | dep in deps && dep.Enabled()
      ensures InjectedRight(o.services, dep, e.node, e.deps)
    {
      var i :| 0 <= i < |deps| && deps[i] == dep;
      InjectedByOutcome(o.placed, e.key, i, e.node);
      SameInjection(o, dep, e.node, e.deps);
    }
    forall name | name in e.deps
      ensures exists dep :: dep in deps && dep.Enabled() && dep.name == name
    {
      var i :| 0 <= i < |deps| && deps[i].Enabled() && deps[i].name == name;
      assert deps[i] in deps;
    }
  }

  lemma NamesOfOutcome(o: Outcome, k: Key)
    requires o.Holds() && k in o.placed && k in o.services
    ensures DistinctNames(o.placed[k].spec.deps)
    ensures o.services[k].spec == o.placed[k].spec
    ensures forall i :: 0 <= i < |o.placed[k].spec.deps| ==> LocalHolds(o.placed, k, o.placed[k].spec.deps[i])
  {
    SameHosts(o);
    LocalsOfOutcome(o, k);
    hide *;
    forall i | 0 <= i < |o.placed[k].spec.deps|
      ensures LocalHolds(o.placed, k, o.placed[k].spec.deps[i])
    {
      SameLocal(o.services, o.placed, k, o.services[k].spec.deps[i]);
    }
  }

  lemma LocalsOfOutcome(o: Outcome, k: Key)
    requires o.Holds() && k in o.services && k in o.settled
    ensures DistinctNames(o.settled[k].spec.deps)
    ensures forall i :: 0 <= i < |o.services[k].spec.deps| ==> LocalHolds(o.services, k, o.services[k].spec.deps[i])
  {
    hide WellConfigured, LocalHolds, DistinctNames, Complete, LeastSolution, NeedsWhatItActivates, Needs, Filter,
      RequiredExist;
    assert LocalsHold(o.services, k, |o.services[k].spec.deps|);
  }

  lemma SameLocal(a: Services, b: Services, k: Key, dep: Dep)
    requires a.Keys == b.Keys && forall x, n :: x in a ==> (Hosts(a[x], n) <==> Hosts(b[x], n))
    requires LocalHolds(a, k, dep)
    ensures LocalHolds(b, k, dep)
  {
    hide Hosts;
  }

  lemma InjectedByOutcome(services: Services, k: Key, i: nat, node: NodeId)
    requires k in services && i < |services[k].spec.deps| && DistinctNames(services[k].spec.deps)
    requires AllInjectable(services, services[k].spec.deps, |services[k].spec.deps|)
    requires LocalHolds(services, k, services[k].spec.deps[i]) && Hosts(services[k], node)
    requires services[k].spec.deps[i].Enabled()
    ensures InjectedRight(services, services[k].spec.deps[i], node,
      InjectedAll(services, services[k].spec.deps, |services[k].spec.deps|, node))
  {
    InjectedEntries(services, services[k].spec.deps, |services[k].spec.deps|, node);
    assert Injectable(services, services[k].spec.deps[i]);
  }

  /** Options change nothing of what is injected. */
  lemma SameInjection(o: Outcome, dep: Dep, node: NodeId, deps: map<string, Injection>)
    requires o.Holds() && InjectedRight(o.placed, dep, node, deps)
    ensures InjectedRight(o.services, dep, node, deps)
  {
    hide WellPlaced, OptionsFor, TraceOf, Configurable;
  }

  /** The list of a node follows the graph. */
  lemma ListFollows(o: Outcome, n: NodeId)
    requires o.Holds() && n in o.fleet.order && n in o.declared && Distinct(Keys(o.declared[n]))
    ensures n in o.index && Follows(o.graph, Keys(o.index[n]))
    ensures forall e :: e in o.index[n] ==>
      e.key in o.services && (Hosts(o.services[e.key], n) || e.key in Keys(o.declared[n]))
    ensures forall k :: k in o.services && (Hosts(o.services[k], n) || k in Keys(o.declared[n])) ==> k in Keys(o.index[n])
  {
    hide Filter;
    SameHosts(o);
    FilterFollows(o.graph, OnNode(o.placed, Keys(o.declared[n]), n));
    forall e | e in o.index[n]
      ensures e.key in o.services && (Hosts(o.services[e.key], n) || e.key in Keys(o.declared[n]))
    {
      var i :| 0 <= i < |o.index[n]| && o.index[n][i] == e;
      assert Keys(o.index[n])[i] == e.key;
    }
  }

  /**
   On a node whose list has no repeats, every lookup of every command run succeeds exactly
   when the services the node declared are placed on it.
  */
  lemma LookupsAfterCompile(o: Outcome, n: NodeId)
    requires o.Holds() && n in o.fleet.order && n in o.declared && Distinct(Keys(o.declared[n]))
    ensures n in o.index && forall k :: k in Keys(o.declared[n]) ==> k in o.services
    ensures (forall k :: k in Keys(o.declared[n]) ==> Hosts(o.services[k], n)) <==>
      forall e :: e in o.index[n] ==> Found(o.services, e.key, n)
    ensures (forall k :: k in Keys(o.declared[n]) ==> Hosts(o.services[k], n)) ==>
      forall keep: Entry -> bool, command :: Dispatchable(o.services, o.index[n], keep, command, n)
  {
    hide Finished, Hosts, Found, Dispatchable, Distinct, Follows, Keys;
    DeclaredExist(o, n);
    InstancesDistinct(o);
    ListFollows(o, n);
    ListedHosted(o, n);
    LookupsSucceed(o.services, o.index[n], n);
  }

  /** What a node declares exists. */
  lemma DeclaredExist(o: Outcome, n: NodeId)
    requires o.Holds() && n in o.fleet.order && n in o.declared
    ensures forall k :: k in Keys(o.declared[n]) ==> k in o.services
  {
    SameHosts(o);
    hide WellConfigured, Complete, LeastSolution, NeedsWhatItActivates, Needs, Enumerates, Filter, LocalsHold,
      RequiredExist, FormsOf;
    forall k | k in Keys(o.declared[n])
      ensures k in o.settled
    {
      var i :| 0 <= i < |Keys(o.declared[n])| && Keys(o.declared[n])[i] == k;
      assert o.declared[n][i].key == k;
    }
  }

  lemma PlacedDistinct(fleet: Fleet, settled: Services, placed: Services, rev: seq<Key>)
    requires Complete(fleet, settled, placed, rev) && Distinct(fleet.order)
    ensures forall k :: k in placed ==> Distinct(Ids(placed[k].instances))
  {
    CompleteKeys(fleet, settled, placed, rev);
    hide Complete, Distinct;
    forall k | k in placed
      ensures Distinct(Ids(placed[k].instances))
    {
      OneInstancePerNode(fleet, settled, placed, rev, k);
    }
  }

  lemma InstancesDistinct(o: Outcome)
    requires o.Holds()
    ensures forall k :: k in o.services ==> Distinct(Ids(o.services[k].instances))
  {
    hide Complete, LocalsHold, TraceOf, Filter, LeastSolution, NeedsWhatItActivates, Needs, Enumerates, Distinct;
    assert Distinct(o.fleet.order);
    PlacedDistinct(o.fleet, o.settled, o.placed, Reverse(o.graph));
  }

  lemma ListedHosted(o: Outcome, n: NodeId)
    requires o.Holds() && n in o.fleet.order && n in o.declared && Distinct(Keys(o.declared[n]))
    requires forall k :: k in Keys(o.declared[n]) ==> k in o.services
    ensures n in o.index && forall e :: e in o.index[n] ==> e.key in o.services
    ensures (forall k :: k in Keys(o.declared[n]) ==> Hosts(o.services[k], n)) <==>
      forall e :: e in o.index[n] ==> Hosts(o.services[e.key], n)
  {
    hide *;
    ListFollows(o, n);
    if forall e :: e in o.index[n] ==> Hosts(o.services[e.key], n) {
      forall k | k in Keys(o.declared[n])
        ensures Hosts(o.services[k], n)
      {
        var i :| 0 <= i < |o.index[n]| && Keys(o.index[n])[i] == k;
        assert o.index[n][i] in o.index[n];
      }
    }
  }

  /** On every node and under any filter, all modules of what is needed run before any of what needs it. */
  lemma NeedsRunFirst(o: Outcome, n: NodeId, keep: Entry -> bool, command: string, k: Key, d: Key)
    requires o.Holds() && n in o.fleet.order && n in o.declared && n in o.index && Distinct(Keys(o.declared[n]))
    requires Runnable(o.services, Selected(o.services, o.index[n], keep, command), command, n)
    requires Needs(o.settled, k, d)
    ensures var calls := CommandCalls(o.services, Selected(o.services, o.index[n], keep, command), command, n);
      forall p, q :: 0 <= p < |calls| && 0 <= q < |calls| && calls[p].key == d && calls[q].key == k ==> p < q
  {
    hide Needs, Runnable, CommandCalls, Selected, Follows, CallsFollow;
    ListFollows(o, n);
    ModulesFollowGraph(o.services, o.index[n], o.graph, keep, command, n);
    AllBefore(o.graph, CommandCalls(o.services, Selected(o.services, o.index[n], keep, command), command, n), d, k);
  }
}
