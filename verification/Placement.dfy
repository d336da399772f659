/**
 Affinity discovery: one pass over the services, dependents before dependencies. Each
 service is given an instance on every node its affinities select, is listed by those
 nodes, and hands its nodes down to the services it activates automatically.
*/
module Placement {
  import opened Prelude
  import opened Affinities
  import opened Cluster

  /** The dependency activates `d`: its target receives the nodes of the service. */
  ghost predicate AutoOn(dep: Dep, d: Key) {
    Is(dep.auto) && dep.Enabled() && dep.Target() == d
  }

  ghost predicate Activates(service: Service, d: Key) {
    exists i :: 0 <= i < |service.spec.deps| && AutoOn(service.spec.deps[i], d)
  }

  /** One of the affinities of the service selects the node. */
  ghost predicate Wants(fleet: Fleet, service: Service, n: NodeId) {
    exists i :: 0 <= i < |service.affinity| && Satisfies(fleet, service.affinity[i], n)
  }

  ghost predicate SomeBlocked(fleet: Fleet, service: Service) {
    exists i :: 0 <= i < |service.affinity| && Blocked(fleet, service.affinity[i])
  }

  ghost predicate Hosts(service: Service, n: NodeId) {
    n in Ids(service.instances)
  }

  /** Placement touches affinities and instances only. */
  ghost predicate SameSpecs(a: Services, b: Services) {
    a.Keys == b.Keys && forall k :: k in a ==> a[k].spec == b[k].spec
  }

  /** A list of nodes without repeats, in node order. */
  ghost predicate InNodeOrder(order: seq<NodeId>, ids: seq<NodeId>) {
    ids == Filter(order, n => n in ids)
  }

  ghost function Wanting(fleet: Fleet, service: Service): (m: NodeId -> bool)
    ensures forall n :: m(n) == Wants(fleet, service, n)
  {
    n => Wants(fleet, service, n)
  }

  lemma FilterInNodeOrder(order: seq<NodeId>, keep: NodeId -> bool)
    ensures InNodeOrder(order, Filter(order, keep))
  {
    FilterSame(order, keep, n => n in Filter(order, keep));
  }

  // ----- one service: instances

  /** Several affinities are read as one `any` tree. */
  lemma SeveralAffinities(fleet: Fleet, service: Service, a: Affinity)
    requires service.affinity != []
    requires a == if |service.affinity| > 1 then Generic(Some(Any), service.affinity) else service.affinity[0]
    ensures Blocked(fleet, a) <==> SomeBlocked(fleet, service)
    ensures forall n :: Satisfies(fleet, a, n) <==> Wants(fleet, service, n)
  {
    if |service.affinity| == 1 {
      assert service.affinity == [service.affinity[0]];
    }
  }

  method NodesWanted(c: Config, k: Key) returns (r: Result<seq<NodeId>, Error>)
    requires c.Valid() && k in c.services && c.services[k].affinity != []
    ensures r == if SomeBlocked(c.fleet, c.services[k]) then Err(Unresolvable)
                 else Ok(Filter(c.fleet.order, Wanting(c.fleet, c.services[k])))
  {
    var service := c.services[k];
    var a := if |service.affinity| > 1 then Generic(Some(Any), service.affinity) else service.affinity[0];
    var found := Resolve(c.fleet, a);
    SeveralAffinities(c.fleet, service, a);
    if found.Err? {
      return Err(Unresolvable);
    }
    FilterSame(c.fleet.order, Meaning(c.fleet, a), Wanting(c.fleet, service));
    return Ok(found.value);
  }

  ghost function InstancesOn(service: Service, ids: seq<NodeId>): (r: seq<Instance>)
    ensures Ids(r) == ids
  {
    seq(|ids|, i requires 0 <= i < |ids| => Instance(ids[i],
      if ids[i] in service.spec.nodeOptions then service.spec.nodeOptions[ids[i]] else map[]))
  }

  /** The instances already there agree with the affinities, when there are any. */
  ghost predicate Agrees(fleet: Fleet, service: Service) {
    service.affinity != [] ==>
      forall i :: 0 <= i < |service.instances| ==>
        service.instances[i].node in fleet.order && Wants(fleet, service, service.instances[i].node)
  }

  ghost function WantedNodes(fleet: Fleet, service: Service): (ids: seq<NodeId>)
    ensures forall n :: n in ids <==> n in fleet.order && Wants(fleet, service, n)
  {
    Filter(fleet.order, Wanting(fleet, service))
  }

  ghost function WithInstances(fleet: Fleet, service: Service): Service {
    service.(instances := service.instances + InstancesOn(service, WantedNodes(fleet, service)))
  }

  lemma NoAffinityNoNodes(fleet: Fleet, service: Service)
    requires service.affinity == []
    ensures WithInstances(fleet, service) == service
  {
    FilterNone(fleet.order, Wanting(fleet, service));
    assert InstancesOn(service, []) == [];
  }

  method PushInstances(c: Config, k: Key) returns (r: Result<(), Error>)
    requires c.Valid() && k in c.services
    modifies c`services
    ensures r.Ok? <==> !SomeBlocked(c.fleet, old(c.services[k])) && Agrees(c.fleet, old(c.services[k]))
    ensures r == Err(Unresolvable) <==> SomeBlocked(c.fleet, old(c.services[k]))
    ensures r.Err? ==> r.error in {Unresolvable, NoAffinityFound} && c.services == old(c.services)
    ensures r.Ok? ==> c.services == old(c.services)[k := WithInstances(c.fleet, old(c.services[k]))]
  {
    ghost var before := c.services[k];
    if c.services[k].affinity == [] {
      NoAffinityNoNodes(c.fleet, before);
      assert c.services == c.services[k := before];
      return Ok(());
    }
    var nodeids := NodesWanted(c, k);
    if nodeids.Err? {
      return Err(Unresolvable);
    }
    var instances := c.services[k].instances;
    for n := 0 to |instances|
      invariant forall i :: 0 <= i < n ==> instances[i].node in nodeids.value
    {
      if instances[n].node !in nodeids.value {
        return Err(NoAffinityFound);
      }
    }
    AddInstances(c, k, nodeids.value);
    return Ok(());
  }

  method AddInstances(c: Config, k: Key, nodeids: seq<NodeId>)
    requires k in c.services
    modifies c`services
    ensures c.services == old(c.services)[k := old(c.services[k]).(instances :=
      old(c.services[k]).instances + InstancesOn(old(c.services[k]), nodeids))]
  {
    ghost var before := c.services[k];
    assert before.(instances := before.instances + InstancesOn(before, nodeids[..0])) == before;
    for o := 0 to |nodeids|
      invariant c.services == old(c.services)[k :=
        before.(instances := before.instances + InstancesOn(before, nodeids[..o]))]
    {
      var nodeId := nodeids[o];
      var service := c.services[k];
      var options := if nodeId in service.spec.nodeOptions then service.spec.nodeOptions[nodeId] else map[];
      c.services := c.services[k := service.(instances := service.instances + [Instance(nodeId, options)])];
      assert InstancesOn(before, nodeids[..o + 1]) == InstancesOn(before, nodeids[..o]) + [Instance(nodeId, options)];
      assert before.instances + InstancesOn(before, nodeids[..o]) + [Instance(nodeId, options)]
          == before.instances + InstancesOn(before, nodeids[..o + 1]);
    }
    assert nodeids[..|nodeids|] == nodeids;
  }

  // ----- one service: the lists of the nodes

  /** The node lists the service: its entry learns the module, or a new entry is added. */
  ghost function Enrich(entries: seq<Entry>, k: Key, path: Option<string>): seq<Entry> {
    if entries == [] then [Entry(k, path, map[])]
    else if entries[0].key == k then
      [if entries[0].path.None? then entries[0].(path := path) else entries[0]] + entries[1..]
    else [entries[0]] + Enrich(entries[1..], k, path)
  }

  lemma {:induction false} EnrichAt(entries: seq<Entry>, k: Key, path: Option<string>, found: nat)
    requires found <= |entries|
    requires forall i :: 0 <= i < found ==> entries[i].key != k
    requires found < |entries| ==> entries[found].key == k
    ensures Enrich(entries, k, path) ==
      if found == |entries| then entries + [Entry(k, path, map[])]
      else entries[found := if entries[found].path.None? then entries[found].(path := path) else entries[found]]
  {
    if entries != [] && found > 0 {
      EnrichAt(entries[1..], k, path, found - 1);
    }
  }

  /** Listing a service adds its key at the end unless the node lists it already. */
  lemma EnrichHead(entries: seq<Entry>, k: Key, path: Option<string>)
    ensures entries == [] ==> Enrich(entries, k, path) == [Entry(k, path, map[])]
    ensures entries != [] && entries[0].key != k ==>
      Enrich(entries, k, path) == [entries[0]] + Enrich(entries[1..], k, path)
    ensures entries != [] && entries[0].key == k ==>
      |Enrich(entries, k, path)| == |entries| && Enrich(entries, k, path)[0].key == k
      && forall i :: 1 <= i < |entries| ==> Enrich(entries, k, path)[i] == entries[i]
  {
  }

  lemma {:induction false} EnrichKeys(entries: seq<Entry>, k: Key, path: Option<string>)
    ensures Keys(Enrich(entries, k, path)) == Keys(entries) + if k in Keys(entries) then [] else [k]
  {
    EnrichHead(entries, k, path);
    hide Enrich;
    if entries != [] {
      EnrichKeys(entries[1..], k, path);
      assert Keys(entries) == [entries[0].key] + Keys(entries[1..]);
      if entries[0].key != k {
        assert Keys(Enrich(entries, k, path)) == [entries[0].key] + Keys(Enrich(entries[1..], k, path));
      } else {
        assert Keys(Enrich(entries, k, path)) == Keys(entries);
      }
    }
  }

  method EnrichNode(c: Config, k: Key, n: NodeId)
    requires k in c.services && n in c.index
    modifies c`index
    ensures c.index == old(c.index)[n := Enrich(old(c.index[n]), k, c.services[k].spec.path)]
  {
    var entries := c.index[n];
    var i := 0;
    while i < |entries| && entries[i].key != k
      invariant 0 <= i <= |entries|
      invariant forall j :: 0 <= j < i ==> entries[j].key != k
    {
      i := i + 1;
    }
    EnrichAt(entries, k, c.services[k].spec.path, i);
    if i < |entries| {
      assert c.index == c.index[n := entries] && entries[i := entries[i]] == entries;
      if entries[i].path.None? {
        c.index := c.index[n := entries[i := entries[i].(path := c.services[k].spec.path)]];
      }
    } else {
      c.index := c.index[n := entries + [Entry(k, c.services[k].spec.path, map[])]];
    }
  }

  /** Exactly the nodes `ids` have listed the service. */
  ghost predicate ListedOn(before: map<NodeId, seq<Entry>>, after: map<NodeId, seq<Entry>>,
                           ids: seq<NodeId>, k: Key, path: Option<string>) {
    && after.Keys == before.Keys
    && forall n :: n in before ==> (after[n] == if n in ids then Enrich(before[n], k, path) else before[n])
  }

  lemma ListedOnMore(before: map<NodeId, seq<Entry>>, after: map<NodeId, seq<Entry>>,
                     ids: seq<NodeId>, p: nat, k: Key, path: Option<string>)
    requires p < |ids| && Distinct(ids) && ids[p] in before
    requires ListedOn(before, after, ids[..p], k, path)
    ensures ids[p] in after
    ensures ListedOn(before, after[ids[p] := Enrich(after[ids[p]], k, path)], ids[..p + 1], k, path)
  {
    assert ids[..p + 1] == ids[..p] + [ids[p]];
  }

  method EnrichNodes(c: Config, k: Key)
    requires c.Valid() && k in c.services
    requires Distinct(Ids(c.services[k].instances))
    requires forall n :: n in Ids(c.services[k].instances) ==> n in c.fleet.order
    modifies c`index
    ensures c.Valid()
    ensures ListedOn(old(c.index), c.index, Ids(c.services[k].instances), k, c.services[k].spec.path)
  {
    var instances := c.services[k].instances;
    ghost var ids := Ids(instances);
    for p := 0 to |instances|
      invariant ListedOn(old(c.index), c.index, ids[..p], k, c.services[k].spec.path)
    {
      assert ids[p] in ids;
      ListedOnMore(old(c.index), c.index, ids, p, k, c.services[k].spec.path);
      EnrichNode(c, k, instances[p].node);
    }
    assert ids[..|instances|] == ids;
  }

  // ----- one service: the services it activates

  lemma PushedAffinity(fleet: Fleet, service: Service, ids: seq<NodeId>)
    ensures var more := service.(affinity := service.affinity + [Nodes(Some(Any), ids)]);
      && (forall n :: Wants(fleet, more, n) <==> Wants(fleet, service, n) || n in ids)
      && (SomeBlocked(fleet, more) <==> SomeBlocked(fleet, service))
  {
    var more := service.(affinity := service.affinity + [Nodes(Some(Any), ids)]);
    var last := |service.affinity|;
    assert more.affinity[last] == Nodes(Some(Any), ids);
    assert forall i :: 0 <= i < last ==> more.affinity[i] == service.affinity[i];
    forall n
      ensures Wants(fleet, more, n) <==> Wants(fleet, service, n) || n in ids
    {
      assert Satisfies(fleet, more.affinity[last], n) <==> n in ids;
      if Wants(fleet, service, n) {
        var i :| 0 <= i < last && Satisfies(fleet, service.affinity[i], n);
        assert Satisfies(fleet, more.affinity[i], n);
      }
    }
    if SomeBlocked(fleet, service) {
      var i :| 0 <= i < last && Blocked(fleet, service.affinity[i]);
      assert Blocked(fleet, more.affinity[i]);
    }
  }

  /** One of the first `j` dependencies activates `d`. */
  ghost predicate ActivatesWithin(service: Service, j: nat, d: Key)
    requires j <= |service.spec.deps|
  {
    exists i :: 0 <= i < j && AutoOn(service.spec.deps[i], d)
  }

  /** The nodes of `host` have been pushed to every service its first `j` dependencies activate. */
  ghost predicate PushedTo(fleet: Fleet, host: Service, j: nat, before: Services, after: Services)
    requires j <= |host.spec.deps|
  {
    && after.Keys == before.Keys
    && forall x :: x in before ==> PushedOn(fleet, host, ActivatesWithin(host, j, x), before[x], after[x])
  }

  /** The service wants, beside its own nodes, those of the host if that activates it. */
  ghost predicate PushedOn(fleet: Fleet, host: Service, active: bool, before: Service, after: Service) {
    && after.spec == before.spec && after.instances == before.instances
    && SomeBlocked(fleet, after) == SomeBlocked(fleet, before)
    && forall n :: Wants(fleet, after, n) <==> Wants(fleet, before, n) || (active && Hosts(host, n))
  }

  lemma PushedMore(fleet: Fleet, host: Service, j: nat, before: Services, after: Services)
    requires j < |host.spec.deps| && PushedTo(fleet, host, j, before, after)
    ensures var dep, d := host.spec.deps[j], host.spec.deps[j].Target();
      if !Is(dep.auto) || !dep.Enabled() then PushedTo(fleet, host, j + 1, before, after)
      else d in after ==> PushedTo(fleet, host, j + 1, before, after[d :=
        after[d].(affinity := after[d].affinity + [Nodes(Some(Any), Ids(host.instances))])])
  {
    var dep, d := host.spec.deps[j], host.spec.deps[j].Target();
    forall x | x in before
      ensures ActivatesWithin(host, j + 1, x) <==> ActivatesWithin(host, j, x) || AutoOn(dep, x)
    {
    }
    hide PushedOn;
    if Is(dep.auto) && dep.Enabled() && d in after {
      PushedOnMore(fleet, host, ActivatesWithin(host, j, d), before[d], after[d]);
    }
  }

  lemma PushedOnMore(fleet: Fleet, host: Service, active: bool, before: Service, after: Service)
    requires PushedOn(fleet, host, active, before, after)
    ensures PushedOn(fleet, host, true, before, after.(affinity := after.affinity + [Nodes(Some(Any), Ids(host.instances))]))
  {
    PushedAffinity(fleet, after, Ids(host.instances));
  }

  /** One dependency of the service being placed. */
  method PushAffinity(c: Config, k: Key, dep: Dep, ghost host: Service, ghost j: nat, ghost before: Services)
      returns (r: Result<(), Error>)
    requires k in before && before[k] == host && j < |host.spec.deps| && host.spec.deps[j] == dep
    requires PushedTo(c.fleet, host, j, before, c.services)
    modifies c`services
    ensures r.Ok? <==> (Is(dep.auto) && dep.Enabled() ==> dep.Target() in before)
    ensures r.Err? ==> r.error == Dangling(dep.Target()) && AutoOn(dep, dep.Target()) && dep.Target() !in before
    ensures r.Ok? ==> PushedTo(c.fleet, host, j + 1, before, c.services)
  {
    PushedMore(c.fleet, host, j, before, c.services);
    if !Is(dep.auto) || !dep.Enabled() {
      return Ok(());
    }
    var d := dep.Target();
    if d !in c.services {
      return Err(Dangling(d));
    }
    var values := Ids(c.services[k].instances);
    var sdep := c.services[d];
    c.services := c.services[d := sdep.(affinity := sdep.affinity + [Nodes(Some(Any), values)])];
    return Ok(());
  }

  /** The first `j` dependencies that activate a service name one that exists. */
  ghost predicate TargetsExist(service: Service, j: nat, services: Services)
    requires j <= |service.spec.deps|
  {
    forall i :: 0 <= i < j && Is(service.spec.deps[i].auto) && service.spec.deps[i].Enabled() ==>
      service.spec.deps[i].Target() in services
  }

  method PushAffinities(c: Config, k: Key) returns (r: Result<(), Error>)
    requires k in c.services
    modifies c`services
    ensures r.Ok? <==> TargetsExist(old(c.services[k]), |old(c.services[k]).spec.deps|, old(c.services))
    ensures r.Err? ==>
      r.error.Dangling? && Activates(old(c.services[k]), r.error.key) && r.error.key !in old(c.services)
    ensures r.Ok? ==> PushedTo(c.fleet, old(c.services[k]), |old(c.services[k]).spec.deps|, old(c.services), c.services)
  {
    ghost var before := c.services;
    ghost var host := c.services[k];
    var deps := c.services[k].spec.deps;
    for j := 0 to |deps|
      invariant PushedTo(c.fleet, host, j, before, c.services)
      invariant TargetsExist(host, j, before)
    {
      r := PushAffinity(c, k, deps[j], host, j, before);
      if r.Err? {
        return;
      }
    }
    return Ok(());
  }
}
