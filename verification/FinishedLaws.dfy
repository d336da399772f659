/** What a finished configuration holds: options, lists, the events of each instance, and what the services keep. */
module FinishedLaws {
  import opened Prelude
  import opened Affinities
  import opened AffinityForms
  import opened Cluster
  import opened Visits
  import opened Dependencies
  import opened Ordering
  import opened Placement
  import opened AffinityPass
  import opened PlacementLaws
  import opened Configure
  import opened ConfigureLaws
  import opened Compiler
  import opened CompilerLaws

  // ----- the options of an instance

  /** The service has the option for the node. */
  ghost predicate ForNode(spec: Spec, n: NodeId, name: string) {
    n in spec.nodeOptions && name in spec.nodeOptions[n]
  }

  /** The node gives the service the option. */
  ghost predicate ByNode(entries: seq<Entry>, k: Key, name: string) {
    exists e :: e in entries && e.key == k && name in e.options
  }

  /**
   The value of an option is what the service says for the node, else what the entry of the
   node says, else what the service says; no other option is there.
  */
  ghost predicate OptionRight(spec: Spec, entries: seq<Entry>, k: Key, n: NodeId, options: Options, name: string) {
    && (name in options <==> ForNode(spec, n, name) || ByNode(entries, k, name) || name in spec.options)
    && (ForNode(spec, n, name) ==> name in options && options[name] == spec.nodeOptions[n][name])
    && (forall e :: e in entries && e.key == k && name in e.options && !ForNode(spec, n, name) ==>
          name in options && options[name] == e.options[name])
    && (name in spec.options && !ForNode(spec, n, name) && !ByNode(entries, k, name) ==>
          name in options && options[name] == spec.options[name])
  }

  lemma OnlyEntry(entries: seq<Entry>, k: Key)
    requires |Filter(entries, OfKey(k))| <= 1
    ensures Filter(entries, OfKey(k)) == [] ==> forall e :: e in entries ==> e.key != k
    ensures |Filter(entries, OfKey(k))| == 1 ==>
      var own := Filter(entries, OfKey(k))[0];
      own in entries && own.key == k && forall e :: e in entries && e.key == k ==> e == own
  {
    var own := Filter(entries, OfKey(k));
    if |own| == 1 {
      assert own[0] in own;
      forall e | e in entries && e.key == k
        ensures e == own[0]
      {
        assert e in own;
      }
    } else {
      forall e | e in entries
        ensures e.key != k
      {
        assert e.key == k ==> e in own;
      }
    }
  }

  /** What the entry of the node adds. */
  ghost function Given(entries: seq<Entry>, k: Key): Options {
    var own := Filter(entries, OfKey(k));
    if |own| == 1 then own[0].options else map[]
  }

  lemma GivenByNode(entries: seq<Entry>, k: Key, name: string)
    requires |Filter(entries, OfKey(k))| <= 1
    ensures ByNode(entries, k, name) <==> name in Given(entries, k)
    ensures forall e :: e in entries && e.key == k && name in e.options ==>
      name in Given(entries, k) && e.options[name] == Given(entries, k)[name]
  {
    OnlyEntry(entries, k);
    hide Filter;
  }

  lemma MergedIsRight(spec: Spec, entries: seq<Entry>, k: Key, n: NodeId, name: string)
    requires |Filter(entries, OfKey(k))| <= 1
    ensures OptionRight(spec, entries, k, n, MergedOptions(spec, entries, k, n), name)
  {
    GivenByNode(entries, k, name);
    var given := Given(entries, k);
    var last: Options := if n in spec.nodeOptions then spec.nodeOptions[n] else map[];
    assert MergedOptions(spec, entries, k, n) == spec.options + given + last;
    assert ForNode(spec, n, name) <==> name in last;
    hide Given, MergedOptions, ByNode, Filter, ForNode;
  }

  lemma WithOptionsAt(placed: Services, index: map<NodeId, seq<Entry>>, graph: seq<Key>, k: Key, i: nat)
    requires OnKnownNodes(placed, index) && k in placed && k in graph && Configurable(placed, index, k)
    requires i < |OptionsFor(placed, index, graph)[k].instances|
    ensures var service := OptionsFor(placed, index, graph)[k]; var instance := service.instances[i];
      && instance.node in index && |Filter(index[instance.node], OfKey(k))| <= 1
      && instance.options == MergedOptions(service.spec, index[instance.node], k, instance.node)
  {
    InstancesKnown(placed[k], index);
    hide MergedOptions, Filter, Hosts, AllInjectable;
  }

  lemma InstanceMerged(o: Outcome, k: Key, i: nat)
    requires o.Holds() && k in o.services && i < |o.services[k].instances|
    ensures var instance := o.services[k].instances[i];
      && instance.node in o.index && |Filter(o.index[instance.node], OfKey(k))| <= 1
      && instance.options == MergedOptions(o.services[k].spec, o.index[instance.node], k, instance.node)
  {
    GraphHoldsAll(o, k);
    hide WellPlaced, TraceOf, MergedOptions, Filter, Hosts, Configurable, OptionsFor, OnKnownNodes, SameShape;
    WithOptionsAt(o.placed, o.index, o.graph, k, i);
  }

  lemma GraphHoldsAll(o: Outcome, k: Key)
    requires o.Holds() && k in o.services
    ensures k in o.graph && k in o.placed && k in o.settled
  {
    SameHosts(o);
    hide Complete, LeastSolution, Needs, LocalsHold, TraceOf, Filter, ListsRight, Before, FormsOf, NodesKnow, RequiredExist;
  }

  /** Every instance has each option from the right place. */
  lemma OptionsOfInstance(o: Outcome, k: Key, i: nat, name: string)
    requires o.Holds() && k in o.services && i < |o.services[k].instances|
    ensures var instance := o.services[k].instances[i];
      && instance.node in o.index
      && OptionRight(o.services[k].spec, o.index[instance.node], k, instance.node, instance.options, name)
  {
    InstanceMerged(o, k, i);
    var n := o.services[k].instances[i].node;
    hide Outcome.Holds, Filter, MergedOptions, OptionRight;
    MergedIsRight(o.services[k].spec, o.index[n], k, n, name);
  }

  // ----- the lists of the nodes

  /** The entry is one of those declared, which may have learnt the module of its service. */
  ghost predicate Learnt(declared: seq<Entry>, e: Entry, services: Services) {
    exists x :: x in declared && e.key == x.key && e.options == x.options
      && (e.path == x.path || (x.path.None? && e.key in services && e.path == services[e.key].spec.path))
  }

  /** The entry is for a service placed on the node, with its module and without options. */
  ghost predicate Arrived(declared: seq<Entry>, e: Entry, services: Services, n: NodeId) {
    && e.key !in Keys(declared) && e.key in services && Hosts(services[e.key], n)
    && e.options == map[] && e.path == services[e.key].spec.path
  }

  /**
   A node lists what it declared, an entry without module having learnt that of the service,
   and the other services placed on it, with their module and without options.
  */
  lemma EntriesOfNode(o: Outcome, n: NodeId)
    requires o.Holds() && n in o.fleet.order && n in o.declared
    ensures n in o.index
    ensures forall e :: e in o.index[n] ==> Learnt(o.declared[n], e, o.services) || Arrived(o.declared[n], e, o.services, n)
    ensures forall x :: x in o.declared[n] ==>
      exists e :: e in o.index[n] && e.key == x.key && e.options == x.options && (x.path.Some? ==> e.path == x.path)
    ensures forall k :: k in o.services && Hosts(o.services[k], n) ==>
      exists e :: e in o.index[n] && e.key == k && (e.path.Some? || o.services[k].spec.path.None?)
  {
    SameHosts(o);
    RightLists(o, n);
    hide *;
    ReadEntries(o.declared[n], o.index[n], o.placed, o.services, n);
  }

  lemma ReadEntries(declared: seq<Entry>, entries: seq<Entry>, placed: Services, services: Services, n: NodeId)
    requires EntriesRight(declared, entries, placed, n) && services.Keys == placed.Keys
    requires forall k :: k in services ==> services[k].spec == placed[k].spec
    requires forall k :: k in services ==> (Hosts(services[k], n) <==> Hosts(placed[k], n))
    ensures forall e :: e in entries ==> Learnt(declared, e, services) || Arrived(declared, e, services, n)
    ensures forall x :: x in declared ==>
      exists e :: e in entries && e.key == x.key && e.options == x.options && (x.path.Some? ==> e.path == x.path)
    ensures forall k :: k in services && Hosts(services[k], n) ==>
      exists e :: e in entries && e.key == k && (e.path.Some? || services[k].spec.path.None?)
  {
    hide Hosts, Keys;
    forall x | x in declared
      ensures exists e :: e in entries && e.key == x.key && e.options == x.options && (x.path.Some? ==> e.path == x.path)
    {
      var e :| e in entries && Completed(x, e, placed);
    }
  }

  lemma RightLists(o: Outcome, n: NodeId)
    requires o.Holds() && n in o.fleet.order && n in o.declared
    ensures n in o.index && EntriesRight(o.declared[n], o.index[n], o.placed, n)
  {
    hide EntriesRight, WellConfigured, Complete, LeastSolution, Needs, LocalsHold, Filter, Before, FormsOf, NodesKnow,
      RequiredExist, Enumerates;
  }

  // ----- the affinities

  /** Every declared affinity is well formed and can be resolved on the nodes. */
  lemma AffinitiesResolve(o: Outcome, k: Key, raw: Raw)
    requires o.Holds() && k in o.settled && raw in o.settled[k].spec.declared
    ensures NormalForm(raw).Ok? && Resolution(o.fleet, NormalForm(raw).value).Ok?
  {
    FormsResolve(o, k);
    hide Outcome.Holds, NormalForm, Blocked, Satisfies;
    var i :| 0 <= i < |o.settled[k].spec.declared| && o.settled[k].spec.declared[i] == raw;
    assert NormalForm(raw) == Ok(o.settled[k].affinity[i]);
    assert !Blocked(o.fleet, o.settled[k].affinity[i]);
  }

  lemma FormsResolve(o: Outcome, k: Key)
    requires o.Holds() && k in o.settled
    ensures FormsOf(o.settled[k].spec.declared, o.settled[k].affinity) && !SomeBlocked(o.fleet, o.settled[k])
  {
    hide WellConfigured, Complete, LeastSolution, Needs, LocalsHold, Filter, Before, FormsOf, NodesKnow, RequiredExist,
      Enumerates, ListsRight, SomeBlocked;
  }

  // ----- the events of each instance

  lemma ServiceEvents(services: Services, k: Key, e: Event)
    requires k in services
    ensures e in ServiceTrace(services, k) <==>
      && e.key == k && Hosts(services[k], e.node)
      && (e.Configured? ==> services[k].spec.configure && e == CallOf(services, k, e.node))
  {
    hide InjectedAll;
    var trace := ServiceTrace(services, k);
    if e in trace {
      ServiceKeys(services, k);
      EventsOwn(services, k);
      var p :| 0 <= p < |trace| && trace[p] == e;
      var ids := Ids(services[k].instances);
      assert e.Merged? ==> p < |ids| && e.node == ids[p];
    }
    if e.key == k && Hosts(services[k], e.node) {
      EventsOf(services, k, e.node);
    }
  }

  lemma {:induction false} TraceEvents(services: Services, graph: seq<Key>, m: nat, e: Event)
    requires m <= |graph| && forall j :: 0 <= j < m ==> graph[j] in services
    ensures e in TraceOf(services, graph, m) <==> e.key in graph[..m] && e in ServiceTrace(services, e.key)
  {
    hide ServiceTrace;
    if m > 0 {
      TraceEvents(services, graph, m - 1, e);
      TraceOneMore(services, graph, m - 1);
      ServiceKeys(services, graph[m - 1]);
      assert graph[..m] == graph[..m - 1] + [graph[m - 1]];
    }
  }

  lemma TraceOfOutcome(o: Outcome)
    requires o.Holds()
    ensures Distinct(o.graph) && forall x :: 0 <= x < |o.graph| ==> o.graph[x] in o.placed
    ensures o.trace == TraceOf(o.placed, o.graph, |o.graph|)
    ensures forall k :: k in o.graph ==> k in o.services
    ensures forall k :: k in o.services ==> k in o.placed && k in o.graph && o.services[k].spec == o.placed[k].spec
    ensures forall k, n :: k in o.services ==> (Hosts(o.services[k], n) <==> Hosts(o.placed[k], n))
  {
    OutcomeGraph(o);
    SameHosts(o);
    forall k | k in o.services
      ensures k in o.graph
    {
      GraphHoldsAll(o, k);
    }
    hide Outcome.Holds, Hosts, TraceOf;
  }

  lemma EventHappened(o: Outcome, e: Event)
    requires o.Holds()
    ensures e in o.trace <==> (
      && e.key in o.services && Hosts(o.services[e.key], e.node)
      && (e.Configured? ==> e.key in o.placed && o.services[e.key].spec.configure && e == CallOf(o.placed, e.key, e.node)))
  {
    hide *;
    TraceOfOutcome(o);
    assert o.graph[..|o.graph|] == o.graph;
    TraceEvents(o.placed, o.graph, |o.graph|, e);
    if e.key in o.placed {
      ServiceEvents(o.placed, e.key, e);
    }
  }

  /** Exactly the instances have their options merged, and exactly those of services with a callback are configured. */
  lemma HappensExactly(o: Outcome, k: Key, n: NodeId)
    requires o.Holds()
    ensures Merged(k, n) in o.trace <==> k in o.services && Hosts(o.services[k], n)
    ensures (exists deps :: Configured(k, n, deps) in o.trace) <==>
      k in o.services && o.services[k].spec.configure && Hosts(o.services[k], n)
  {
    SameHosts(o);
    hide Outcome.Holds, Hosts, CallOf;
    EventHappened(o, Merged(k, n));
    if k in o.placed {
      KeyOfCall(o.placed, k, n);
      NodeOfCall(o.placed, k, n);
      var call := CallOf(o.placed, k, n);
      EventHappened(o, call);
      assert call == Configured(k, n, call.deps);
    }
    forall deps | Configured(k, n, deps) in o.trace
      ensures k in o.services && o.services[k].spec.configure && Hosts(o.services[k], n)
    {
      EventHappened(o, Configured(k, n, deps));
    }
  }

  lemma NodeOfCall(services: Services, k: Key, n: NodeId)
    requires k in services
    ensures CallOf(services, k, n).node == n
  {
  }

  /** Two events do the same to the same instance. */
  ghost predicate SameEvent(a: Event, b: Event) {
    a.key == b.key && a.node == b.node && a.Merged? == b.Merged?
  }

  ghost predicate OnceOnly(trace: seq<Event>) {
    forall p, q :: 0 <= p < q < |trace| ==> !SameEvent(trace[p], trace[q])
  }

  lemma ServiceOnce(services: Services, k: Key)
    requires k in services && Distinct(Ids(services[k].instances))
    ensures OnceOnly(ServiceTrace(services, k))
  {
    hide InjectedAll;
  }

  lemma OnceTogether(front: seq<Event>, last: seq<Event>, k: Key, done: seq<Key>)
    requires OnceOnly(front) && OnceOnly(last) && k !in done
    requires forall p :: 0 <= p < |front| ==> front[p].key in done
    requires forall p :: 0 <= p < |last| ==> last[p].key == k
    ensures OnceOnly(front + last)
  {
  }

  lemma {:induction false} TraceOnce(services: Services, graph: seq<Key>, m: nat)
    requires m <= |graph| && Distinct(graph) && forall j :: 0 <= j < m ==> graph[j] in services
    requires forall k :: k in services ==> Distinct(Ids(services[k].instances))
    ensures OnceOnly(TraceOf(services, graph, m))
  {
    if m > 0 {
      TraceOnce(services, graph, m - 1);
      TraceKeys(services, graph, m - 1);
      TraceOneMore(services, graph, m - 1);
      ServiceKeys(services, graph[m - 1]);
      ServiceOnce(services, graph[m - 1]);
      assert graph[m - 1] !in graph[..m - 1];
      hide ServiceTrace, TraceOf, OnceOnly, Distinct;
      OnceTogether(TraceOf(services, graph, m - 1), ServiceTrace(services, graph[m - 1]), graph[m - 1], graph[..m - 1]);
    }
  }

  /** And each of it happens once. */
  lemma HappensOnce(o: Outcome)
    requires o.Holds()
    ensures OnceOnly(o.trace)
  {
    TraceOfOutcome(o);
    PlacedOnce(o);
    hide *;
    TraceOnce(o.placed, o.graph, |o.graph|);
  }

  lemma PlacedOnce(o: Outcome)
    requires o.Holds()
    ensures forall k :: k in o.placed ==> Distinct(Ids(o.placed[k].instances))
  {
    InstancesDistinct(o);
    SameIds(o);
    hide Outcome.Holds, Distinct;
  }

  lemma SameIds(o: Outcome)
    requires o.Holds()
    ensures o.placed.Keys == o.services.Keys
    ensures forall k :: k in o.placed ==> Ids(o.services[k].instances) == Ids(o.placed[k].instances)
  {
    hide WellPlaced, TraceOf, Configurable, OptionsFor, OnKnownNodes;
  }

  // ----- what comes first

  /** What an enabled dependency of another name is on exists, and all of it happens before any call of the dependent. */
  lemma EnabledComesFirst(o: Outcome, k: Key, dep: Dep, q: nat)
    requires o.Holds() && k in o.settled && dep in o.settled[k].spec.deps
    requires dep.Enabled() && dep.service != Some(k.name)
    requires q < |o.trace| && o.trace[q].Configured? && o.trace[q].key == k
    ensures dep.Target() in o.services && Before(o.graph, dep.Target(), k)
    ensures forall n :: Hosts(o.services[dep.Target()], n) ==> Merged(dep.Target(), n) in o.trace[..q]
    ensures forall p :: 0 <= p < |o.trace| && o.trace[p].key == dep.Target() ==> p < q
  {
    var i :| 0 <= i < |o.settled[k].spec.deps| && o.settled[k].spec.deps[i] == dep;
    assert Orders(o.settled[k].spec.deps[i], k.name, dep.Target());
    assert Needs(o.settled, k, dep.Target());
    hide Outcome.Holds, Needs, Before, Hosts;
    OutcomeGraph(o);
    NeedsAreConfiguredFirst(o, q, dep.Target());
  }

  // ----- what the stages keep

  /** Everything of the service but its dependencies is as discovery left it. */
  ghost predicate SameBut(a: Spec, b: Spec) {
    a.(deps := b.deps) == b
  }

  lemma SameKeysSettle(before: Dep, after: Dep, clusters: seq<string>, a: Services, b: Services)
    requires SettledRight(before, after, clusters, a) && a.Keys == b.Keys
    ensures SettledRight(before, after, clusters, b)
  {
  }

  /** From discovery to the configured services, only the presets of dependencies are settled. */
  lemma SpecsKept(origin: Origin, stages: Stages, o: Outcome, k: Key)
    requires stages.Follow(origin) && o.Holds() && o.settled == stages.settled && k in stages.discovered
    ensures k in o.services && o.services.Keys == stages.discovered.Keys
    ensures var before, after := stages.discovered[k].spec, o.services[k].spec;
      && SameBut(after, before) && |after.deps| == |before.deps|
      && forall i :: 0 <= i < |before.deps| ==>
        SettledRight(before.deps[i], after.deps[i], origin.clusters, stages.discovered)
  {
    SameHosts(o);
    StageSpecs(origin, stages, k);
    hide Outcome.Holds, Stages.Follow, SettledRight;
  }

  lemma StageSpecs(origin: Origin, stages: Stages, k: Key)
    requires stages.Follow(origin) && k in stages.discovered
    ensures stages.settled.Keys == stages.discovered.Keys
    ensures var before, after := stages.discovered[k].spec, stages.settled[k].spec;
      && SameBut(after, before) && |after.deps| == |before.deps|
      && forall i :: 0 <= i < |before.deps| ==>
        SettledRight(before.deps[i], after.deps[i], origin.clusters, stages.discovered)
  {
    hide Discovered, FormsOf, AllSatisfied, ClosedAt, SettledRight, Settled;
    var found := stages.found;
    assert found[k].spec == stages.discovered[k].spec;
    assert stages.settled[k] == SettledService(found[k], origin.clusters, found);
    SettledSpec(found[k], origin.clusters, found, stages.discovered);
  }

  lemma SettledSpec(service: Service, clusters: seq<string>, found: Services, discovered: Services)
    requires found.Keys == discovered.Keys
    ensures var before, after := service.spec, SettledService(service, clusters, found).spec;
      && SameBut(after, before) && |after.deps| == |before.deps|
      && forall i :: 0 <= i < |before.deps| ==> SettledRight(before.deps[i], after.deps[i], clusters, discovered)
  {
    hide SettledRight, Settled;
    forall i | 0 <= i < |service.spec.deps|
      ensures SettledRight(service.spec.deps[i], Settled(service.spec.deps[i], clusters, found), clusters, discovered)
    {
      var dep := service.spec.deps[i];
      SettledExactly(dep, clusters, found);
      SameKeysSettle(dep, Settled(dep, clusters, found), clusters, found, discovered);
    }
  }
}
