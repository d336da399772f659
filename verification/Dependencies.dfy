/**
 The dependency stage: a dependency whose target does not exist is refused when required
 and disabled otherwise; the others are enabled.
*/
module Dependencies {
  import opened Prelude
  import opened Cluster

  /** The dependency as the stage leaves it. */
  ghost function Settled(dep: Dep, clusters: seq<string>, services: Services): Dep {
    if dep.Target().cluster !in clusters then dep.(disabled := Some(true))
    else if dep.disabled.None? then dep.(disabled := Some(dep.Target() !in services))
    else dep
  }

  /** The stage accepts the dependency. */
  ghost predicate Satisfied(dep: Dep, clusters: seq<string>, services: Services) {
    Is(dep.required) ==> dep.Target().cluster in clusters && dep.Target() in services
  }

  /** The stage refuses the dependency, with that error. */
  ghost predicate Refuses(k: Key, dep: Dep, clusters: seq<string>, services: Services, e: Error) {
    && !Satisfied(dep, clusters, services)
    && e == if dep.Target().cluster !in clusters then RequiredClusterMissing(k, dep.name)
            else RequiredServiceMissing(k, dep.name)
  }

  /** It refuses one of the service. */
  ghost predicate RefusesAt(k: Key, service: Service, clusters: seq<string>, services: Services, e: Error) {
    exists i :: 0 <= i < |service.spec.deps| && Refuses(k, service.spec.deps[i], clusters, services, e)
  }

  ghost predicate AllSatisfied(service: Service, j: nat, clusters: seq<string>, services: Services)
    requires j <= |service.spec.deps|
  {
    forall i :: 0 <= i < j ==> Satisfied(service.spec.deps[i], clusters, services)
  }

  ghost function SettledDeps(deps: seq<Dep>, clusters: seq<string>, services: Services): (r: seq<Dep>)
    ensures |r| == |deps| && forall i :: 0 <= i < |deps| ==> r[i] == Settled(deps[i], clusters, services)
  {
    seq(|deps|, i requires 0 <= i < |deps| => Settled(deps[i], clusters, services))
  }

  ghost function SettledService(service: Service, clusters: seq<string>, services: Services): Service {
    WithDeps(service, SettledDeps(service.spec.deps, clusters, services))
  }

  /** One dependency: refused, disabled or enabled. */
  method SettleDep(c: Config, k: Key, dep: Dep) returns (r: Result<Dep, Error>)
    ensures r.Ok? <==> Satisfied(dep, c.clusters, c.services)
    ensures r.Ok? ==> r.value == Settled(dep, c.clusters, c.services)
    ensures r.Err? ==> Refuses(k, dep, c.clusters, c.services, r.error)
    ensures r == Err(RequiredClusterMissing(k, dep.name)) <==> Is(dep.required) && dep.Target().cluster !in c.clusters
  {
    if dep.Target().cluster !in c.clusters {
      return if Is(dep.required) then Err(RequiredClusterMissing(k, dep.name)) else Ok(dep.(disabled := Some(true)));
    }
    if dep.Target() in c.services {
      return Ok(if dep.disabled.None? then dep.(disabled := Some(false)) else dep);
    }
    if Is(dep.required) {
      return Err(RequiredServiceMissing(k, dep.name));
    }
    return Ok(if dep.disabled.None? then dep.(disabled := Some(true)) else dep);
  }

  /** One service: its dependencies are updated one by one. */
  method SettleService(c: Config, k: Key, ghost before: Services) returns (r: Result<(), Error>)
    requires k in c.services && c.services.Keys == before.Keys && c.services[k] == before[k]
    modifies c`services
    ensures r.Ok? <==> AllSatisfied(before[k], |before[k].spec.deps|, c.clusters, before)
    ensures r.Ok? ==> c.services == old(c.services)[k := SettledService(before[k], c.clusters, before)]
    ensures r.Err? ==> RefusesAt(k, before[k], c.clusters, before, r.error)
  {
    ghost var given := c.services[k].spec.deps;
    ghost var done := SettledDeps(given, c.clusters, before);
    var deps := c.services[k].spec.deps;
    SameDeps(before[k]);
    assert c.services == c.services[k := before[k]];
    hide WithDeps, Settled, Satisfied;
    for j := 0 to |deps|
      invariant AllSatisfied(before[k], j, c.clusters, before)
      invariant |deps| == |given|
      invariant forall i :: 0 <= i < |deps| ==> deps[i] == if i < j then done[i] else given[i]
      invariant c.services == old(c.services)[k := WithDeps(before[k], deps)]
    {
      SettledKeys(given[j], c.clusters, c.services, before);
      var settled := SettleDep(c, k, deps[j]);
      if settled.Err? {
        assert Refuses(k, given[j], c.clusters, before, settled.error);
        return Err(settled.error);
      }
      DepsTwice(before[k], deps, deps[j := settled.value]);
      deps := deps[j := settled.value];
      c.services := c.services[k := WithDeps(c.services[k], deps)];
    }
    assert deps == done;
    return Ok(());
  }

  lemma SameDeps(service: Service)
    ensures WithDeps(service, service.spec.deps) == service
  {
  }

  lemma DepsTwice(service: Service, a: seq<Dep>, b: seq<Dep>)
    ensures WithDeps(WithDeps(service, a), b) == WithDeps(service, b)
  {
  }

  /** The stage reads only which services exist. */
  lemma SettledKeys(dep: Dep, clusters: seq<string>, a: Services, b: Services)
    requires a.Keys == b.Keys
    ensures Satisfied(dep, clusters, a) <==> Satisfied(dep, clusters, b)
    ensures Settled(dep, clusters, a) == Settled(dep, clusters, b)
  {
  }

  /** The whole stage. */
  method Settle(c: Config) returns (r: Result<(), Error>)
    requires c.Valid()
    modifies c`services
    ensures r.Ok? <==> forall k :: k in old(c.services) ==>
      AllSatisfied(old(c.services)[k], |old(c.services)[k].spec.deps|, c.clusters, old(c.services))
    ensures r.Ok? ==> c.Valid() && c.services.Keys == old(c.services).Keys
    ensures r.Ok? ==> forall k :: k in old(c.services) ==>
      c.services[k] == SettledService(old(c.services)[k], c.clusters, old(c.services))
    ensures r.Err? ==> exists k ::
      k in old(c.services) && RefusesAt(k, old(c.services)[k], c.clusters, old(c.services), r.error)
  {
    hide AllSatisfied, SettledService, RefusesAt, Distinct;
    ghost var before := c.services;
    var order := c.order;
    for i := 0 to |order|
      invariant c.services.Keys == before.Keys
      invariant forall k :: k in order[..i] ==> AllSatisfied(before[k], |before[k].spec.deps|, c.clusters, before)
      invariant forall k :: k in before ==>
        (c.services[k] == if k in order[..i] then SettledService(before[k], c.clusters, before) else before[k])
    {
      var k := order[i];
      assert k in before;
      FirstTime(order, i);
      r := SettleService(c, k, before);
      if r.Err? {
        return;
      }
    }
    assert order[..|order|] == order;
    return Ok(());
  }

  // ----- what the stage guarantees

  /** Every enabled dependency names a service that exists. */
  ghost predicate Sound(services: Services) {
    forall k, i :: k in services && 0 <= i < |services[k].spec.deps| && services[k].spec.deps[i].Enabled() ==>
      services[k].spec.deps[i].Target() in services
  }

  /** An enabled dependency names `d`, which does not exist. */
  ghost predicate Misses(services: Services, d: Key) {
    d !in services && exists k, i ::
      k in services && 0 <= i < |services[k].spec.deps|
      && services[k].spec.deps[i].Enabled() && services[k].spec.deps[i].Target() == d
  }

  /** The user keeps a dependency on with `disabled: false`, in a cluster that exists, on nothing. */
  ghost predicate KeptDangling(dep: Dep, clusters: seq<string>, services: Services) {
    dep.disabled == Some(false) && dep.Target().cluster in clusters && dep.Target() !in services
  }

  /**
   Only whether it is enabled is decided: never in a cluster that does not exist; else as it
   was preset, or without a preset exactly when its target exists.
  */
  ghost predicate SettledRight(before: Dep, after: Dep, clusters: seq<string>, services: Services) {
    && after == before.(disabled := after.disabled) && after.disabled.Some?
    && (after.Enabled() <==>
      && before.Target().cluster in clusters
      && (before.disabled == Some(false) || (before.disabled.None? && before.Target() in services)))
  }

  lemma SettledExactly(dep: Dep, clusters: seq<string>, services: Services)
    ensures SettledRight(dep, Settled(dep, clusters, services), clusters, services)
  {
    if dep.disabled.Some? {
      assert dep.disabled.value || dep.disabled == Some(false);
    }
  }

  /**
   One dependency through the stage: without a preset it is enabled exactly when its
   target exists; a required one is enabled unless it was preset to disabled.
  */
  lemma EnabledExactly(dep: Dep, clusters: seq<string>, services: Services)
    requires forall k :: k in services ==> k.cluster in clusters
    requires Satisfied(dep, clusters, services)
    ensures dep.disabled.None? ==>
      (Settled(dep, clusters, services).Enabled() <==> dep.Target() in services)
    ensures Is(dep.required) ==>
      (Settled(dep, clusters, services).Enabled() <==> dep.disabled != Some(true))
    ensures Settled(dep, clusters, services).Enabled() && dep.Target() !in services <==>
      KeptDangling(dep, clusters, services)
    ensures Settled(dep, clusters, services).Target() == dep.Target()
  {
    if dep.disabled.Some? {
      assert dep.disabled.value || dep.disabled == Some(false);
    }
  }

  /** After the stage every dereference finds a service, exactly when no dangling dependency was kept on. */
  lemma SoundExactly(before: Services, after: Services, clusters: seq<string>)
    requires after.Keys == before.Keys
    requires forall k :: k in before ==> k.cluster in clusters
    requires forall k :: k in before ==> AllSatisfied(before[k], |before[k].spec.deps|, clusters, before)
    requires forall k :: k in before ==> after[k] == SettledService(before[k], clusters, before)
    ensures Sound(after) <==>
      forall k, i :: k in before && 0 <= i < |before[k].spec.deps| ==>
        !KeptDangling(before[k].spec.deps[i], clusters, before)
  {
    forall k, i | k in before && 0 <= i < |before[k].spec.deps|
      ensures after[k].spec.deps[i].Enabled() && after[k].spec.deps[i].Target() !in after <==>
        KeptDangling(before[k].spec.deps[i], clusters, before)
    {
      EnabledExactly(before[k].spec.deps[i], clusters, before);
    }
  }
}
