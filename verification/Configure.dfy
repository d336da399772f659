/**
 The last stages: required local dependencies are checked against the placement, then
 each service, in graph order, gets the options of its instances and its dependencies
 injected, and is configured. `trace` records the merges and the calls in order.
*/
module Configure {
  import opened Prelude
  import opened Affinities
  import opened Cluster
  import opened Placement

  // ----- the local check

  ghost predicate LocalHolds(services: Services, k: Key, dep: Dep) {
    Is(dep.local) && Is(dep.required) ==>
      forall n :: k in services && Hosts(services[k], n) ==>
        dep.Target() in services && Hosts(services[dep.Target()], n)
  }

  ghost predicate LocalsHold(services: Services, k: Key, j: nat)
    requires k in services && j <= |services[k].spec.deps|
  {
    forall i :: 0 <= i < j ==> LocalHolds(services, k, services[k].spec.deps[i])
  }

  /** Every required dependency has a target. */
  ghost predicate RequiredExist(services: Services) {
    forall k, i :: k in services && 0 <= i < |services[k].spec.deps| && Is(services[k].spec.deps[i].required) ==>
      services[k].spec.deps[i].Target() in services
  }

  /** The check stops at the dependency, with that error. */
  ghost predicate LocalStops(services: Services, k: Key, dep: Dep, e: Error)
    requires k in services
  {
    Is(dep.local) && Is(dep.required) &&
    match e
    case Dangling(d) => dep.Target() == d && d !in services
    case RequiredLocal(x, name, n) =>
      x == k && name == dep.name && Hosts(services[k], n)
      && dep.Target() in services && !Hosts(services[dep.Target()], n)
    case _ => false
  }

  /** It stops at one of the service. */
  ghost predicate LocalStopsAt(services: Services, k: Key, e: Error) {
    k in services && exists i :: 0 <= i < |services[k].spec.deps| && LocalStops(services, k, services[k].spec.deps[i], e)
  }

  method CheckLocalDep(c: Config, k: Key, dep: Dep) returns (r: Result<(), Error>)
    requires k in c.services
    ensures r.Ok? <==> LocalHolds(c.services, k, dep)
    ensures r.Err? ==> LocalStops(c.services, k, dep, r.error)
  {
    if !Is(dep.local) || !Is(dep.required) {
      return Ok(());
    }
    var ids := Ids(c.services[k].instances);
    for s := 0 to |ids|
      invariant forall i :: 0 <= i < s ==>
        dep.Target() in c.services && ids[i] in Ids(c.services[dep.Target()].instances)
    {
      if dep.Target() !in c.services {
        assert Hosts(c.services[k], ids[s]);
        return Err(Dangling(dep.Target()));
      }
      if ids[s] !in Ids(c.services[dep.Target()].instances) {
        assert Hosts(c.services[k], ids[s]);
        return Err(RequiredLocal(k, dep.name, ids[s]));
      }
    }
    return Ok(());
  }

  /** The check passes exactly when every required local dependency is wherever its dependent is. */
  method CheckLocal(c: Config) returns (r: Result<(), Error>)
    requires c.Valid()
    ensures r.Ok? <==> forall k :: k in c.services ==> LocalsHold(c.services, k, |c.services[k].spec.deps|)
    ensures r.Err? ==> exists k :: LocalStopsAt(c.services, k, r.error)
  {
    hide LocalHolds, LocalStops;
    var order := c.order;
    for i := 0 to |order|
      invariant forall k :: k in order[..i] ==> LocalsHold(c.services, k, |c.services[k].spec.deps|)
    {
      var k := order[i];
      assert k in c.services;
      var deps := c.services[k].spec.deps;
      for j := 0 to |deps|
        invariant LocalsHold(c.services, k, j)
      {
        r := CheckLocalDep(c, k, deps[j]);
        if r.Err? {
          assert LocalStopsAt(c.services, k, r.error);
          return;
        }
      }
      assert order[..i + 1] == order[..i] + [k];
    }
    assert order[..|order|] == order;
    return Ok(());
  }

  // ----- injection

  /** The value injected for a dependency whose target runs on `ids`. */
  ghost function Injected(dep: Dep, ids: seq<NodeId>, node: NodeId): Injection {
    if Is(dep.local) then (if node in ids then One(dep.Target(), node) else Null)
    else if Is(dep.single) && |ids| == 1 then One(dep.Target(), ids[0])
    else Every(dep.Target(), ids)
  }

  /** Some instances, one after `single`, one of this node after `local`. */
  method Inject(dep: Dep, ids: seq<NodeId>, node: NodeId) returns (r: Result<Injection, Error>)
    ensures r.Err? <==> Is(dep.single) && |ids| != 1
    ensures r.Err? ==> r.error == NotSingle
    ensures r.Ok? ==> r.value == Injected(dep, ids, node)
  {
    if Is(dep.single) && |ids| != 1 {
      return Err(NotSingle);
    }
    if Is(dep.local) {
      var here := Filter(ids, n => n == node);
      assert here != [] <==> node in ids by {
        if here != [] {
          assert here[0] in here;
        }
      }
      if here != [] {
        assert here[0] in here;
        return Ok(One(dep.Target(), here[0]));
      }
      return Ok(Null);
    }
    if Is(dep.single) {
      return Ok(One(dep.Target(), ids[0]));
    }
    return Ok(Every(dep.Target(), ids));
  }

  /** The injected dependencies among the first `j`. */
  ghost function InjectedAll(services: Services, deps: seq<Dep>, j: nat, node: NodeId): map<string, Injection>
    requires j <= |deps|
  {
    if j == 0 then map[]
    else
      var front := InjectedAll(services, deps, j - 1, node);
      var dep := deps[j - 1];
      if dep.Enabled() && dep.Target() in services then
        front[dep.name := Injected(dep, Ids(services[dep.Target()].instances), node)]
      else front
  }

  /** Injection of an enabled dependency finds its target, and a single one when it has to. */
  ghost predicate Injectable(services: Services, dep: Dep) {
    dep.Enabled() ==>
      dep.Target() in services && (Is(dep.single) ==> |services[dep.Target()].instances| == 1)
  }

  ghost predicate AllInjectable(services: Services, deps: seq<Dep>, j: nat)
    requires j <= |deps|
  {
    forall i :: 0 <= i < j ==> Injectable(services, deps[i])
  }

  /** Injection stops at the dependency, with that error. */
  ghost predicate InjectionStops(services: Services, dep: Dep, e: Error) {
    dep.Enabled() &&
    match e
    case Dangling(d) => dep.Target() == d && d !in services
    case NotSingle => Is(dep.single) && dep.Target() in services && |services[dep.Target()].instances| != 1
    case _ => false
  }

  /** It stops at one of them. */
  ghost predicate InjectionStopsAt(services: Services, deps: seq<Dep>, e: Error) {
    exists i :: 0 <= i < |deps| && InjectionStops(services, deps[i], e)
  }

  method InjectDeps(c: Config, deps: seq<Dep>, node: NodeId) returns (r: Result<map<string, Injection>, Error>)
    ensures r.Ok? <==> AllInjectable(c.services, deps, |deps|)
    ensures r.Ok? ==> r.value == InjectedAll(c.services, deps, |deps|, node)
    ensures r.Err? ==> InjectionStopsAt(c.services, deps, r.error)
  {
    var injected: map<string, Injection> := map[];
    for j := 0 to |deps|
      invariant AllInjectable(c.services, deps, j)
      invariant injected == InjectedAll(c.services, deps, j, node)
    {
      var dep := deps[j];
      if !dep.Enabled() {
        continue;
      }
      if dep.Target() !in c.services {
        assert InjectionStops(c.services, deps[j], Dangling(dep.Target()));
        return Err(Dangling(dep.Target()));
      }
      var value := Inject(dep, Ids(c.services[dep.Target()].instances), node);
      if value.Err? {
        assert InjectionStops(c.services, deps[j], value.error);
        return Err(value.error);
      }
      injected := injected[dep.name := value.value];
    }
    return Ok(injected);
  }

  // ----- one service

  ghost function OfKey(k: Key): (keep: Entry -> bool)
    ensures forall e :: keep(e) <==> e.key == k
  {
    (e: Entry) => e.key == k
  }

  /** The options of an instance: those of the service, of the node's entry, and of the service for the node. */
  ghost function MergedOptions(spec: Spec, entries: seq<Entry>, k: Key, node: NodeId): Options {
    var own := Filter(entries, OfKey(k));
    spec.options
    + (if |own| == 1 then own[0].options else map[])
    + (if node in spec.nodeOptions then spec.nodeOptions[node] else map[])
  }

  lemma InstancesKnown(service: Service, index: map<NodeId, seq<Entry>>)
    requires forall n :: Hosts(service, n) ==> n in index
    ensures forall i :: 0 <= i < |service.instances| ==> service.instances[i].node in index
  {
    forall i | 0 <= i < |service.instances|
      ensures service.instances[i].node in index
    {
      assert Hosts(service, Ids(service.instances)[i]);
    }
  }

  /** The first `j` instances have their options. */
  ghost function MergedUpTo(service: Service, index: map<NodeId, seq<Entry>>, k: Key, j: nat): (r: Service)
    requires j <= |service.instances|
    requires forall n :: Hosts(service, n) ==> n in index
    ensures r.spec == service.spec && Ids(r.instances) == Ids(service.instances)
  {
    InstancesKnown(service, index);
    service.(instances := seq(|service.instances|, i requires 0 <= i < |service.instances| =>
      if i < j then Instance(service.instances[i].node,
        MergedOptions(service.spec, index[service.instances[i].node], k, service.instances[i].node))
      else service.instances[i]))
  }

  lemma MergedNone(service: Service, index: map<NodeId, seq<Entry>>, k: Key)
    requires forall n :: Hosts(service, n) ==> n in index
    ensures MergedUpTo(service, index, k, 0) == service
  {
    assert MergedUpTo(service, index, k, 0).instances == service.instances;
  }

  lemma MergedOneMore(service: Service, index: map<NodeId, seq<Entry>>, k: Key, u: nat)
    requires forall n :: Hosts(service, n) ==> n in index
    requires u < |service.instances|
    ensures service.instances[u].node in index
    ensures var now, next := MergedUpTo(service, index, k, u), MergedUpTo(service, index, k, u + 1);
      var instance := service.instances[u];
      && now.spec == service.spec && |now.instances| == |service.instances| && now.instances[u] == instance
      && next == now.(instances := now.instances[u :=
        Instance(instance.node, MergedOptions(service.spec, index[instance.node], k, instance.node))])
  {
    InstancesKnown(service, index);
    var now, next := MergedUpTo(service, index, k, u), MergedUpTo(service, index, k, u + 1);
    hide MergedOptions;
    var instance := service.instances[u];
    assert next.instances == now.instances[u :=
      Instance(instance.node, MergedOptions(service.spec, index[instance.node], k, instance.node))];
  }

  /** No node with an instance lists the service twice. */
  ghost predicate ListedOnce(service: Service, index: map<NodeId, seq<Entry>>, k: Key, j: nat)
    requires j <= |service.instances|
  {
    forall i :: 0 <= i < j ==>
      service.instances[i].node in index && |Filter(index[service.instances[i].node], OfKey(k))| <= 1
  }

  ghost function MergedEvents(k: Key, ids: seq<NodeId>): (r: seq<Event>)
    ensures |r| == |ids| && forall i :: 0 <= i < |ids| ==> r[i] == Merged(k, ids[i])
  {
    seq(|ids|, i requires 0 <= i < |ids| => Merged(k, ids[i]))
  }

  method MergeInstances(c: Config, k: Key) returns (r: Result<(), Error>)
    requires k in c.services
    requires forall n :: Hosts(c.services[k], n) ==> n in c.index
    modifies c`services, c`trace
    ensures r.Ok? <==> ListedOnce(old(c.services)[k], c.index, k, |old(c.services)[k].instances|)
    ensures r.Err? ==> r.error == ShouldNeverHappen
    ensures r.Ok? ==> c.trace == old(c.trace) + MergedEvents(k, Ids(old(c.services)[k].instances))
    ensures r.Ok? ==>
      c.services == old(c.services)[k := MergedUpTo(old(c.services)[k], c.index, k, |old(c.services)[k].instances|)]
  {
    hide Filter, MergedUpTo, Hosts;
    ghost var before := c.services[k];
    ghost var events := MergedEvents(k, Ids(before.instances));
    var count := |c.services[k].instances|;
    InstancesKnown(before, c.index);
    MergedNone(before, c.index, k);
    assert c.services == c.services[k := MergedUpTo(before, c.index, k, 0)];
    for u := 0 to count
      invariant ListedOnce(before, c.index, k, u)
      invariant c.services == old(c.services)[k := MergedUpTo(before, c.index, k, u)]
      invariant c.trace == old(c.trace) + events[..u]
    {
      MergedOneMore(before, c.index, k, u);
      var service := c.services[k];
      var instance := service.instances[u];
      assert instance == before.instances[u];
      var own := Filter(c.index[instance.node], (srv: Entry) => srv.key == k);
      FilterSame(c.index[instance.node], (srv: Entry) => srv.key == k, OfKey(k));
      if |own| > 1 {
        return Err(ShouldNeverHappen);
      }
      var noptions := if |own| == 1 then own[0].options else map[];
      var nodes := service.spec.nodeOptions;
      var options := service.spec.options + noptions + if instance.node in nodes then nodes[instance.node] else map[];
      c.services := c.services[k := service.(instances := service.instances[u := Instance(instance.node, options)])];
      c.trace := c.trace + [Merged(k, instance.node)];
      assert events[..u + 1] == events[..u] + [Merged(k, instance.node)];
    }
    assert events[..count] == events;
    return Ok(());
  }

  ghost function ConfiguredEvents(services: Services, k: Key, ids: seq<NodeId>): (r: seq<Event>)
    requires k in services
    ensures services[k].spec.configure ==> |r| == |ids| && forall i :: 0 <= i < |ids| ==>
      r[i] == Configured(k, ids[i], InjectedAll(services, services[k].spec.deps, |services[k].spec.deps|, ids[i]))
    ensures !services[k].spec.configure ==> r == []
  {
    var deps := services[k].spec.deps;
    seq(if services[k].spec.configure then |ids| else 0, i requires 0 <= i < |ids| =>
      Configured(k, ids[i], InjectedAll(services, deps, |deps|, ids[i])))
  }

  method ConfigureInstances(c: Config, k: Key) returns (r: Result<(), Error>)
    requires k in c.services
    modifies c`trace
    ensures r.Ok? <==> (c.services[k].instances != [] ==>
      AllInjectable(c.services, c.services[k].spec.deps, |c.services[k].spec.deps|))
    ensures r.Ok? ==> c.trace == old(c.trace) + ConfiguredEvents(c.services, k, Ids(c.services[k].instances))
    ensures r.Err? ==> c.services[k].instances != [] && InjectionStopsAt(c.services, c.services[k].spec.deps, r.error)
  {
    hide InjectedAll, AllInjectable, InjectionStopsAt;
    var ids := Ids(c.services[k].instances);
    ghost var events := ConfiguredEvents(c.services, k, ids);
    for v := 0 to |ids|
      invariant v > 0 ==> AllInjectable(c.services, c.services[k].spec.deps, |c.services[k].spec.deps|)
      invariant c.trace == old(c.trace) + if c.services[k].spec.configure then events[..v] else []
    {
      var deps := InjectDeps(c, c.services[k].spec.deps, ids[v]);
      if deps.Err? {
        return Err(deps.error);
      }
      if c.services[k].spec.configure {
        c.trace := c.trace + [Configured(k, ids[v], deps.value)];
        assert events[..v + 1] == events[..v] + [Configured(k, ids[v], deps.value)];
      }
    }
    assert c.services[k].spec.configure ==> events[..|ids|] == events;
    return Ok(());
  }

  // ----- the whole pass

  /** Options change; specifications and nodes do not. */
  ghost predicate SameShape(a: Services, b: Services) {
    a.Keys == b.Keys && forall k :: k in a ==> a[k].spec == b[k].spec && Ids(a[k].instances) == Ids(b[k].instances)
  }

  lemma {:induction false} InjectedSame(a: Services, b: Services, deps: seq<Dep>, j: nat, node: NodeId)
    requires SameShape(a, b) && j <= |deps|
    ensures InjectedAll(a, deps, j, node) == InjectedAll(b, deps, j, node)
    ensures AllInjectable(a, deps, j) == AllInjectable(b, deps, j)
  {
    forall i | 0 <= i < j
      ensures Injectable(a, deps[i]) == Injectable(b, deps[i])
    {
      var t := deps[i].Target();
      assert t in a ==> |a[t].instances| == |Ids(a[t].instances)| == |Ids(b[t].instances)| == |b[t].instances|;
    }
    if j > 0 {
      InjectedSame(a, b, deps, j - 1, node);
    }
  }

  lemma InjectionStopsSame(a: Services, b: Services, deps: seq<Dep>, e: Error)
    requires SameShape(a, b) && InjectionStopsAt(a, deps, e)
    ensures InjectionStopsAt(b, deps, e)
  {
    var i :| 0 <= i < |deps| && InjectionStops(a, deps[i], e);
    var t := deps[i].Target();
    assert t in a ==> |Ids(a[t].instances)| == |Ids(b[t].instances)|;
    assert InjectionStops(b, deps[i], e);
  }

  ghost function ServiceTrace(services: Services, k: Key): seq<Event>
    requires k in services
  {
    var ids := Ids(services[k].instances);
    MergedEvents(k, ids) + ConfiguredEvents(services, k, ids)
  }

  lemma TraceInTwo(services: Services, k: Key, trace: seq<Event>)
    requires k in services
    ensures var ids := Ids(services[k].instances);
      trace + MergedEvents(k, ids) + ConfiguredEvents(services, k, ids) == trace + ServiceTrace(services, k)
  {
  }

  lemma ServiceTraceSame(a: Services, b: Services, k: Key)
    requires SameShape(a, b) && k in a
    ensures ServiceTrace(a, k) == ServiceTrace(b, k)
  {
    var ids := Ids(a[k].instances);
    forall i | 0 <= i < |ids|
      ensures InjectedAll(a, a[k].spec.deps, |a[k].spec.deps|, ids[i])
           == InjectedAll(b, b[k].spec.deps, |b[k].spec.deps|, ids[i])
    {
      InjectedSame(a, b, a[k].spec.deps, |a[k].spec.deps|, ids[i]);
    }
    assert ConfiguredEvents(a, k, ids) == ConfiguredEvents(b, k, ids);
  }

  ghost function TraceOf(services: Services, graph: seq<Key>, m: nat): seq<Event>
    requires m <= |graph| && forall i :: 0 <= i < m ==> graph[i] in services
  {
    if m == 0 then [] else TraceOf(services, graph, m - 1) + ServiceTrace(services, graph[m - 1])
  }

  /** The pass gets through the service. */
  ghost predicate Configurable(services: Services, index: map<NodeId, seq<Entry>>, k: Key) {
    && k in services
    && ListedOnce(services[k], index, k, |services[k].instances|)
    && (services[k].instances != [] ==> AllInjectable(services, services[k].spec.deps, |services[k].spec.deps|))
  }

  /**
   The pass stops at the service, with that error: a node lists it twice, or it has an
   instance, for which an enabled dependency has no target, or not exactly one of a single
   one.
  */
  ghost predicate ConfigureStops(services: Services, index: map<NodeId, seq<Entry>>, k: Key, e: Error) {
    if k !in services then e == Dangling(k)
    else if e == ShouldNeverHappen then !ListedOnce(services[k], index, k, |services[k].instances|)
    else services[k].instances != [] && InjectionStopsAt(services, services[k].spec.deps, e)
  }

  /** Every instance is on a node that has a list. */
  ghost predicate OnKnownNodes(services: Services, index: map<NodeId, seq<Entry>>) {
    forall k, n :: k in services && Hosts(services[k], n) ==> n in index
  }

  /** The service with the options of all its instances. */
  ghost function WithOptions(service: Service, index: map<NodeId, seq<Entry>>, k: Key): Service
    requires forall n :: Hosts(service, n) ==> n in index
  {
    MergedUpTo(service, index, k, |service.instances|)
  }

  lemma MergedShape(before: Services, after: Services, index: map<NodeId, seq<Entry>>, k: Key)
    requires k in before && after.Keys == before.Keys
    requires forall n :: Hosts(before[k], n) ==> n in index
    requires after[k] == MergedUpTo(before[k], index, k, |before[k].instances|)
    requires forall x :: x in before && x != k ==> after[x].spec == before[x].spec
    requires forall x :: x in before && x != k ==> Ids(after[x].instances) == Ids(before[x].instances)
    ensures SameShape(after, before)
    ensures |after[k].instances| == |before[k].instances|
  {
    assert |Ids(after[k].instances)| == |Ids(before[k].instances)|;
  }

  method ConfigureService(c: Config, k: Key, ghost before: Services) returns (r: Result<(), Error>)
    requires SameShape(c.services, before) && OnKnownNodes(before, c.index)
    requires k in before ==> c.services[k] == before[k]
    modifies c`services, c`trace
    ensures r.Ok? <==> Configurable(before, c.index, k)
    ensures r.Ok? ==> c.services == old(c.services)[k := WithOptions(before[k], c.index, k)]
    ensures r.Ok? ==> SameShape(c.services, before) && c.services.Keys == before.Keys
    ensures r.Ok? ==> c.trace == old(c.trace) + ServiceTrace(before, k)
    ensures r.Err? ==> ConfigureStops(before, c.index, k, r.error)
  {
    hide ListedOnce, AllInjectable, InjectedAll, Hosts, MergedUpTo, ServiceTrace, InjectionStopsAt;
    ghost var trace := c.trace;
    if k !in c.services {
      return Err(Dangling(k));
    }
    r := MergeInstances(c, k);
    if r.Err? {
      return;
    }
    MergedShape(before, c.services, c.index, k);
    InjectedSame(c.services, before, before[k].spec.deps, |before[k].spec.deps|, "");
    ServiceTraceSame(c.services, before, k);
    TraceInTwo(c.services, k, trace);
    r := ConfigureInstances(c, k);
    if r.Err? {
      NeverTwice(c.services, before[k].spec.deps, r.error);
      InjectionStopsSame(c.services, before, before[k].spec.deps, r.error);
    }
  }

  lemma NeverTwice(services: Services, deps: seq<Dep>, e: Error)
    requires InjectionStopsAt(services, deps, e)
    ensures e != ShouldNeverHappen
  {
  }

  /** Configures every service, in graph order. */
  method ConfigureAll(c: Config) returns (r: Result<(), Error>)
    requires c.Valid() && Distinct(c.graph) && OnKnownNodes(c.services, c.index)
    modifies c`services, c`trace
    ensures r.Ok? <==> forall k :: k in c.graph ==> Configurable(old(c.services), c.index, k)
    ensures r.Ok? ==> c.Valid() && SameShape(c.services, old(c.services))
    ensures r.Ok? ==> forall k :: k in c.graph ==> k in old(c.services)
    ensures r.Ok? ==> c.services == OptionsFor(old(c.services), c.index, c.graph)
    ensures r.Ok? ==> c.trace == old(c.trace) + TraceOf(old(c.services), c.graph, |c.graph|)
    ensures r.Err? ==> exists k :: k in c.graph && ConfigureStops(old(c.services), c.index, k, r.error)
  {
    hide Configurable, ServiceTrace, WithOptions, SameShape, OptionsFor, OnKnownNodes, ConfigureStops, ListedOnce, Distinct,
      TraceOf, Registry, Hosts;
    ghost var before := c.services;
    NoTrace(before, c.graph);
    var graph := c.graph;
    SameShapeKeys(before, before);
    NoOptions(before, c.index);
    for t := 0 to |graph|
      invariant SameShape(c.services, before) && c.services.Keys == before.Keys
      invariant forall i :: 0 <= i < t ==> Configurable(before, c.index, graph[i])
      invariant c.services == OptionsFor(before, c.index, graph[..t])
      invariant forall i :: 0 <= i < t ==> graph[i] in before
      invariant c.trace == old(c.trace) + TraceOf(before, graph, t)
    {
      OptionsOneMore(before, c.index, graph, t);
      TraceOneMore(before, graph, t);
      r := ConfigureService(c, graph[t], before);
      if r.Err? {
        assert graph[t] in c.graph;
        return;
      }
      ConfigurableExists(before, c.index, graph[t]);
    }
    assert graph[..|graph|] == graph;
    RegistryKeys(c.order, before, c.services, c.clusters, c.tables);
    forall k | k in graph
      ensures k in before && Configurable(before, c.index, k)
    {
      var i :| 0 <= i < |graph| && graph[i] == k;
    }
    return Ok(());
  }

  /** The services, with the options of those in `done`. */
  ghost function OptionsFor(before: Services, index: map<NodeId, seq<Entry>>, done: seq<Key>): (r: Services)
    requires OnKnownNodes(before, index)
    ensures r.Keys == before.Keys
  {
    map k | k in before :: if k in done then WithOptions(before[k], index, k) else before[k]
  }

  lemma NoTrace(services: Services, graph: seq<Key>)
    ensures TraceOf(services, graph, 0) == []
  {
  }

  lemma TraceOneMore(services: Services, graph: seq<Key>, t: nat)
    requires t < |graph| && forall i :: 0 <= i < t ==> graph[i] in services
    ensures graph[t] in services ==>
      TraceOf(services, graph, t + 1) == TraceOf(services, graph, t) + ServiceTrace(services, graph[t])
  {
  }

  lemma NoOptions(before: Services, index: map<NodeId, seq<Entry>>)
    requires OnKnownNodes(before, index)
    ensures OptionsFor(before, index, []) == before
  {
  }

  lemma OptionsOneMore(before: Services, index: map<NodeId, seq<Entry>>, graph: seq<Key>, t: nat)
    requires OnKnownNodes(before, index) && t < |graph| && Distinct(graph)
    ensures graph[t] in before ==>
      && OptionsFor(before, index, graph[..t])[graph[t]] == before[graph[t]]
      && (forall n :: Hosts(before[graph[t]], n) ==> n in index)
      && OptionsFor(before, index, graph[..t + 1])
        == OptionsFor(before, index, graph[..t])[graph[t] := WithOptions(before[graph[t]], index, graph[t])]
  {
    assert graph[t] !in graph[..t];
    assert graph[..t + 1] == graph[..t] + [graph[t]];
  }

  lemma SameShapeKeys(a: Services, b: Services)
    ensures SameShape(a, a)
    ensures SameShape(a, b) ==> a.Keys == b.Keys
  {
  }

  lemma ConfigurableExists(services: Services, index: map<NodeId, seq<Entry>>, k: Key)
    requires Configurable(services, index, k)
    ensures k in services
  {
  }
}
