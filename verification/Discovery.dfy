/**
 Discovery: the module of each service is loaded and merged into it, its dependencies are
 resolved to services, and automatic dependencies nobody declared are added as services
 and discovered in turn.
*/
module Discovery {
  import opened Prelude
  import opened Labels
  import opened Cluster
  import opened Merging
  import opened Visits

  // ----- the state of discovery

  /** The services registered under the name of their own module. */
  ghost function Registered(services: Services): set<Key> {
    set k | k in services && ModuleOf(k, services[k]) == k.name
  }

  ghost function Universe(clusters: seq<string>, load: map<string, Definition>): set<Key> {
    set c, m | c in clusters && m in load :: Key(c, m)
  }

  /** The cluster and module pairs that may still be registered. */
  ghost function Remaining(c: Config): nat
    reads c
  {
    |Universe(c.clusters, c.load) - Registered(c.services)|
  }

  /** Services are added and replaced, never removed, and own-name registrations stay. */
  ghost predicate Grows(before: Services, after: Services) {
    before.Keys <= after.Keys && Registered(before) <= Registered(after)
  }

  /** Only the services in `changed` have changed, and they are done. */
  ghost predicate Progress(o: Origin, made: seq<Key>, before: Services, after: Services, changed: seq<Key>) {
    && Grows(before, after)
    && (forall x :: x in changed ==> DoneAt(o, made, after, x))
    && forall x :: x in after && x !in changed ==> x in before && after[x] == before[x]
  }

  // ----- looking a module up

  /** The services of a cluster that load a module. */
  method FindByModule(c: Config, cluster: string, path: string) returns (sids: seq<string>)
    requires c.Valid()
    ensures forall name :: name in sids <==> Provides(c.services, cluster, path, name)
    ensures Distinct(sids)
  {
    sids := [];
    var order := c.order;
    for i := 0 to |order|
      invariant forall name :: name in sids <==> Key(cluster, name) in order[..i] && Provides(c.services, cluster, path, name)
      invariant Distinct(sids)
    {
      var k := order[i];
      assert k in c.services && k !in order[..i];
      assert order[..i + 1] == order[..i] + [k];
      if k.cluster == cluster && ModuleOf(k, c.services[k]) == path {
        sids := sids + [k.name];
      }
    }
    assert order[..|order|] == order;
  }

  // ----- one dependency

  /** Two services of the cluster load the module. */
  ghost predicate Twice(services: Services, cluster: string, path: string) {
    exists a, b :: a != b && Provides(services, cluster, path, a) && Provides(services, cluster, path, b)
  }

  ghost predicate Unresolvable(services: Services, clusters: seq<string>, dep: Dep, e: Error)
    requires dep.cluster.Some?
  {
    && dep.service.None?
    && if Truthy(dep.path).None? then e == UnidentifiedDependency
       else if dep.cluster.value !in clusters then e == ClusterMissing
       else e == AmbiguousModule && Twice(services, dep.cluster.value, dep.path.value)
  }

  /** The dependency keeps its service, or has the only one that provides its module, if there is one. */
  ghost predicate FoundBy(services: Services, clusters: seq<string>, first: Dep, dep: Dep)
    requires first.cluster.Some?
  {
    if first.service.Some? then dep == first
    else
      && Truthy(first.path).Some? && first.cluster.value in clusters
      && dep == first.(service := dep.service)
      && match dep.service
         case Some(name) =>
           && Provides(services, first.cluster.value, first.path.value, name)
           && forall other :: Provides(services, first.cluster.value, first.path.value, other) ==> other == name
         case None => forall name :: !Provides(services, first.cluster.value, first.path.value, name)
  }

  /** The dependency with its service found by module, when it is not named. */
  method ResolveModule(c: Config, dep: Dep) returns (r: Result<Dep, Error>)
    requires c.Valid() && dep.cluster.Some?
    ensures r.Err? ==> Unresolvable(c.services, c.clusters, dep, r.error)
    ensures r.Ok? ==> FoundBy(c.services, c.clusters, dep, r.value)
  {
    if dep.service.Some? {
      return Ok(dep);
    }
    if Truthy(dep.path).None? {
      return Err(UnidentifiedDependency);
    }
    if dep.cluster.value !in c.clusters {
      return Err(ClusterMissing);
    }
    var sids := FindByModule(c, dep.cluster.value, dep.path.value);
    if |sids| > 1 {
      assert sids[0] in sids && sids[1] in sids;
      return Err(AmbiguousModule);
    }
    if |sids| == 1 {
      assert sids == [sids[0]];
      return Ok(dep.(service := Some(sids[0])));
    }
    return Ok(dep);
  }

  /** Adds or replaces the service of a module, under the name of the module. */
  method Register(c: Config, cluster: string, path: string)
    requires c.Valid() && path != "" && cluster in c.clusters && cluster in c.tables
    requires forall name :: !Provides(c.services, cluster, path, name)
    modifies c`order, c`services
    ensures c.Valid()
    ensures c.services == old(c.services)[Key(cluster, path) := NewService(path)]
    ensures Key(cluster, path) !in Registered(old(c.services))
    ensures Registered(c.services) == Registered(old(c.services)) + {Key(cluster, path)}
    ensures path in c.load ==> Remaining(c) < old(Remaining(c))
    ensures Remaining(c) <= old(Remaining(c))
  {
    hide Registered, Universe, NewService, Registry, Provides, ModuleOf;
    var k := Key(cluster, path);
    RegisterNew(c.services, cluster, path);
    RemainingShrinks(Universe(c.clusters, c.load), Registered(c.services), k);
    if path in c.load {
      InUniverse(c.clusters, c.load, cluster, path);
    }
    RegistryMore(c.order, c.services, c.clusters, c.tables, k, NewService(path));
    InRegistry(c.order, c.services, c.clusters, c.tables, k);
    if k !in c.services {
      c.order := c.order + [k];
    }
    c.services := c.services[k := NewService(path)];
  }

  lemma InRegistry(order: seq<Key>, services: Services, clusters: seq<string>, tables: set<string>, k: Key)
    requires Registry(order, services, clusters, tables)
    ensures k in services <==> k in order
  {
  }

  lemma RegistryMore(
    order: seq<Key>, services: Services, clusters: seq<string>, tables: set<string>, k: Key, service: Service)
    requires Registry(order, services, clusters, tables) && k.cluster in clusters && k.cluster in tables
    ensures Registry(if k in services then order else order + [k], services[k := service], clusters, tables)
  {
  }

  lemma RegisterNew(services: Services, cluster: string, path: string)
    requires path != "" && forall name :: !Provides(services, cluster, path, name)
    ensures Key(cluster, path) !in Registered(services)
    ensures Registered(services[Key(cluster, path) := NewService(path)]) == Registered(services) + {Key(cluster, path)}
  {
    assert !Provides(services, cluster, path, path);
    var k := Key(cluster, path);
    var after := services[k := NewService(path)];
    assert forall x :: x in Registered(after) <==> x in Registered(services) || x == k;
  }

  lemma RemainingShrinks(universe: set<Key>, registered: set<Key>, k: Key)
    requires k !in registered
    ensures |universe - (registered + {k})| <= |universe - registered|
    ensures k in universe ==> |universe - (registered + {k})| < |universe - registered|
  {
    NotLarger(universe - (registered + {k}), universe - registered);
    if k in universe {
      assert k in universe - registered;
      Smaller(universe - (registered + {k}), universe - registered);
    }
  }

  lemma InUniverse(clusters: seq<string>, load: map<string, Definition>, cluster: string, path: string)
    requires cluster in clusters && path in load
    ensures Key(cluster, path) in Universe(clusters, load)
  {
  }

  // ----- the recursion

  /**
   What the dependencies of a visit have become: the first `j` are decided and closed, the
   others untouched.
  */
  ghost predicate Resolved(o: Origin, made: seq<Key>, outer: string, given: seq<Dep>, deps: seq<Dep>, j: nat,
                           services: Services) {
    && j <= |deps| == |given|
    && (forall i :: 0 <= i < j ==> DepClosed(deps[i], services) && Chooses(o, made, First(given, i, outer), deps[i]))
    && (forall i :: j <= i < |deps| ==> deps[i] == given[i])
  }

  /**
   A visit of `k` in progress: its dependencies are resolved so far, and written back unless
   the service was replaced; besides `k` only the services in `added` have changed.
  */
  ghost predicate Visiting(o: Origin, made: seq<Key>, before: Services, services: Services, outer: string, k: Key,
                           service: Service, deps: seq<Dep>, j: nat, added: seq<Key>)
  {
    && Grows(before, services)
    && (forall x :: x in added ==> DoneAt(o, made, services, x))
    && (forall x :: x in services && x != k && x !in added ==> x in before && services[x] == before[x])
    && Resolved(o, made, outer, service.spec.deps, deps, j, services)
    && k in services
    && (k !in added ==> services[k] == WithDeps(service, deps))
  }

  /** Writing `k` without changing its module changes no registration. */
  lemma WriteKeeps(services: Services, k: Key, service: Service)
    requires k in services && ModuleOf(k, services[k]) == ModuleOf(k, service)
    ensures Registered(services[k := service]) == Registered(services)
  {
    var after := services[k := service];
    assert forall x :: x in Registered(after) <==> x in Registered(services);
  }

  lemma VisitStarts(o: Origin, made: seq<Key>, before: Services, outer: string, k: Key, path: string)
    requires k in before && path == before[k].spec.path.GetOr(k.name) && path in o.load
    requires Story(o, made, before)
    ensures var service := Mutate(before[k], path, o.load[path]);
      && Visiting(o, made, before, before[k := service], outer, k, service, service.spec.deps, 0, [])
      && Registered(before[k := service]) == Registered(before)
      && before[k := service].Keys == before.Keys
      && Story(o, made, before[k := service])
      && service.spec.deps == MergedDeps(o.load, k, before[k])
  {
    hide Story;
    var service := Mutate(before[k], path, o.load[path]);
    assert ModuleOf(k, before[k]) == ModuleOf(k, service);
    WriteKeeps(before, k, service);
    StoryWrite(o, made, before, k, service);
  }

  /** What a visit leaves after one more dependency. */
  ghost function Written(services: Services, k: Key, service: Service, deps: seq<Dep>, added: seq<Key>): Services {
    if k !in added then services[k := WithDeps(service, deps)] else services
  }

  lemma ResolvedStep(o: Origin, made: seq<Key>, more: seq<Key>, outer: string, given: seq<Dep>, deps: seq<Dep>, j: nat,
                     mid: Services, after: Services, dep: Dep)
    requires Resolved(o, made, outer, given, deps, j, mid) && j < |deps| && mid.Keys <= after.Keys
    requires DepClosed(dep, after) && Chooses(o, made + more, First(given, j, outer), dep)
    ensures Resolved(o, made + more, outer, given, deps[j := dep], j + 1, after)
  {
    hide Chooses, First;
    forall i | 0 <= i < j
      ensures DepClosed(deps[i], after) && Chooses(o, made + more, First(given, i, outer), deps[i])
    {
      assert DepClosed(deps[i], mid);
      ChoosesMore(o, made, more, First(given, i, outer), deps[i]);
    }
  }

  lemma VisitStep(o: Origin, made: seq<Key>, more: seq<Key>, before: Services, mid: Services, after: Services,
                  outer: string, k: Key, service: Service, deps: seq<Dep>, j: nat, dep: Dep, added: seq<Key>)
    requires Visiting(o, made, before, mid, outer, k, service, deps, j, added) && j < |deps|
    requires forall x :: x in added ==> x in made
    requires Progress(o, made + more, mid, after, more) && DepClosed(dep, after)
    requires Chooses(o, made + more, First(service.spec.deps, j, outer), dep)
    ensures var written := Written(after, k, service, deps[j := dep], added + more);
      && Visiting(o, made + more, before, written, outer, k, service, deps[j := dep], j + 1, added + more)
      && Registered(written) == Registered(after) && written.Keys == after.Keys
    ensures k in after && (k !in added + more ==> after[k] == WithDeps(service, deps))
    ensures before.Keys <= mid.Keys <= after.Keys
  {
    hide DoneAt, DepClosed, Chooses, First, Mutate, Built;
    var next := deps[j := dep];
    var written := Written(after, k, service, next, added + more);
    if k !in added + more {
      assert after[k] == mid[k];
      WriteKeeps(after, k, WithDeps(service, next));
    }
    assert written.Keys == after.Keys;
    ResolvedStep(o, made, more, outer, service.spec.deps, deps, j, mid, written, dep) by {
      StillClosed(dep, after, written);
    }
    forall x | x in added + more
      ensures DoneAt(o, made + more, written, x)
    {
      if x !in more {
        StillDone(o, made, more, mid, after, x);
      }
      assert x != k || written == after;
      SameDone(o, made + more, after, written, x);
    }
  }

  /** Other services may be written. */
  lemma SameDone(o: Origin, made: seq<Key>, before: Services, after: Services, x: Key)
    requires DoneAt(o, made, before, x) && before.Keys <= after.Keys && after[x] == before[x]
    ensures DoneAt(o, made, after, x)
  {
    StillDone(o, made, [], before, after, x);
    assert made + [] == made;
  }

  lemma StillClosed(dep: Dep, before: Services, after: Services)
    requires DepClosed(dep, before) && before.Keys <= after.Keys
    ensures DepClosed(dep, after)
  {
  }

  lemma VisitEnds(o: Origin, hist: seq<Key>, before: Services, after: Services, outer: string, k: Key, service: Service,
                  deps: seq<Dep>, added: seq<Key>)
    requires Visiting(o, hist + added, before, after, outer, k, service, deps, |deps|, added)
    requires k in before && before[k].spec.path.GetOr(k.name) in o.load
    requires service == Mutate(before[k], before[k].spec.path.GetOr(k.name), o.load[before[k].spec.path.GetOr(k.name)])
    requires ExistsAt(o, hist, k) && From(o, hist, k, Latest(o, hist, k), before[k])
    requires Loop(o, hist, k, outer)
    ensures Progress(o, hist + added, before, after, added + [k]) && DoneAt(o, hist + added, after, k)
    ensures k !in added ==> Visited(o, hist + added, outer, k, before[k], after[k])
  {
    hide Mutate, DepClosed, Chooses, First, From, Visited;
    if k !in added {
      VisitIs(o, hist + added, before, after, outer, k, service, deps, added);
      FromMore(o, hist, added, k, Latest(o, hist, k), before[k]);
      assert Came(o, hist + added, k, before[k], outer, after[k]);
      assert ClosedAt(after, k);
    }
  }

  lemma VisitIs(o: Origin, made: seq<Key>, before: Services, after: Services, outer: string, k: Key, service: Service,
                deps: seq<Dep>, added: seq<Key>)
    requires Visiting(o, made, before, after, outer, k, service, deps, |deps|, added) && k !in added
    requires k in before && before[k].spec.path.GetOr(k.name) in o.load
    requires service == Mutate(before[k], before[k].spec.path.GetOr(k.name), o.load[before[k].spec.path.GetOr(k.name)])
    ensures k in after && Visited(o, made, outer, k, before[k], after[k])
  {
    var path := before[k].spec.path.GetOr(k.name);
    assert service.spec.deps == MergeDeps(before[k].spec.deps, o.load[path].deps);
    hide Mutate, MergeDeps, DepClosed, Chooses, First, DoneAt;
  }

  /** The module of the service is one that can be loaded. */
  ghost function Loads(c: Config, k: Key): nat
    reads c
  {
    if k in c.services && c.services[k].spec.path.GetOr(k.name) in c.load then 1 else 0
  }

  /** The service that a dependency on a module gets, `added` being those registered for it. */
  ghost predicate Chosen(before: Services, cluster: string, path: string, service: Option<string>, added: seq<Key>) {
    match service
    case None => added == [] && forall name :: !Provides(before, cluster, path, name)
    case Some(name) =>
      if added == [] then forall other :: Provides(before, cluster, path, other) <==> other == name
      else name == path && added[0] == Key(cluster, path) && forall other :: !Provides(before, cluster, path, other)
  }

  /** A dependency that was identified as `first` becomes `dep`, `added` being registered for it after `made`. */
  ghost predicate Becomes(o: Origin, made: seq<Key>, before: Services, first: Dep, dep: Dep, added: seq<Key>)
    requires first.cluster.Some?
  {
    && Chooses(o, made + added, first, dep)
    && (first.service.Some? ==> dep == first && added == [])
    && (first.service.None? ==>
      Truthy(first.path).Some? && Chosen(before, first.cluster.value, first.path.value, dep.service, added))
  }

  /** What was chosen among the services is what the record has decided. */
  lemma ChosenIsDecided(o: Origin, made: seq<Key>, before: Services, first: Dep, dep: Dep, added: seq<Key>)
    requires Moment(o, made, before) && first.cluster.Some?
    requires dep == first.(service := dep.service)
    requires first.service.Some? ==> dep == first && added == []
    requires first.service.None? ==> Truthy(first.path).Some? && first.cluster.value in o.clusters
    requires first.service.None? ==> Chosen(before, first.cluster.value, first.path.value, dep.service, added)
    requires Demands(first) ==> dep.Target() in before || (first.service.None? && added != [])
    requires added != [] ==> Demands(first)
    ensures Becomes(o, made, before, first, dep, added)
  {
    hide Provides, ProvidesAt;
    var all := made + added;
    assert all[..|made|] == made && (added != [] ==> all[|made|] == added[0]);
    assert Decided(o, all, |made|, first, dep);
  }

  ghost function Places(c: Config): set<string>
    reads c
  {
    set x | x in c.clusters && x in c.tables
  }

  /** The error is not one of those excluded, and the services show those that they cause. */
  ghost predicate MayFail(care: Care, o: Origin, services: Services, e: Error) {
    match e
    case ModuleNotLoaded => !care.loads && !AllLoad(o.load, services)
    case AmbiguousModule => !care.provided && !OneProvider(services)
    case UnidentifiedDependency => !care.identified
    case ClusterMissing => !care.located
    case AutoServiceMissing(k, dep) => Lost(o, k, dep, !care.regular)
    case _ => false
  }

  /** The cluster of the outer loop has its table, and the configuration keeps what is known. */
  ghost predicate Entered(c: Config, outer: string, care: Care)
    reads c
  {
    Fits(care, c.load, Places(c), c.services) && outer in c.clusters && outer in c.tables
  }

  /** The configuration is on the way from the declared one, `made` having been registered. */
  ghost predicate OnTheWay(c: Config, o: Origin, made: seq<Key>)
    reads c
  {
    o.load == c.load && o.clusters == c.clusters && Story(o, made, c.services)
  }

  /** What is known of the reference read last. */
  ghost predicate ReferenceFits(care: Care, places: set<string>, reference: Reference) {
    && (care.located && Truthy(reference.cluster).Some? ==> reference.cluster.value in places)
    && (reference.name.Some? ==> Plain(reference.name.value))
  }

  /** The reference is that of the dependency, if it names a service. */
  predicate IsRead(given: Dep, reference: Reference) {
    NamesService(given) ==> reference == Reference(Some(NamedService(given).0), NamedService(given).1)
  }

  /** The visit of `k` has come to the dependency `given`, with this reference. */
  ghost predicate Meets(o: Origin, made: seq<Key>, ask: Ask, outer: string, k: Key, given: Dep, reference: Reference) {
    && Reads(o, made, ask) && ask.outer == outer && ask.key == k
    && MergedDeps(o.load, k, ask.base)[ask.index] == given
    && ReadAll(MergedDeps(o.load, k, ask.base), ask.index + 1) == reference
  }

  lemma MeetsRead(o: Origin, made: seq<Key>, ask: Ask, outer: string, k: Key, given: Dep, reference: Reference)
    requires Meets(o, made, ask, outer, k, given, reference)
    ensures IsRead(given, reference)
    ensures ask.index < |MergedDeps(o.load, ask.key, ask.base)|
    ensures Asked(o, ask) == Identify(Unshort(given), reference, outer)
    ensures Reads(o, made, ask) && ask.key == k
  {
    ReferenceStays(MergedDeps(o.load, k, ask.base), ask.index, ask.index);
  }

  /** A dependency that is resolved keeps what is known of it. */
  lemma ResolvedFits(care: Care, load: map<string, Definition>, places: set<string>, given: Dep, reference: Reference,
                     outer: string, service: Option<string>)
    requires DepFits(care, load, places, given) && ReferenceFits(care, places, reference) && IsRead(given, reference)
    requires outer in places
    requires var dep := Identify(Unshort(given), reference, outer);
      if dep.service.Some? then service == dep.service
      else Truthy(dep.path).Some? && (service.Some? && care.located ==> Plain(service.value))
    ensures var dep := Identify(Unshort(given), reference, outer).(service := service);
      Resolves(given, dep) && DepFits(care, load, places, dep)
  {
  }

  /**
   One dependency: identified, resolved, and added and discovered when nobody declared it.
   `added` holds the keys under which a service was then added or replaced, in order; each
   was asked for, this dependency first. It fails only in ways that nothing known excludes,
   for anything that is known of the configuration.
  */
  method DiscoverDep(c: Config, outer: string, k: Key, given: Dep, reference: Reference,
                     ghost o: Origin, ghost made: seq<Key>, ghost ask: Ask, ghost care: Care)
      returns (r: Result<Dep, Error>, added: seq<Key>)
    requires c.Valid() && Entered(c, outer, care) && DepFits(care, c.load, Places(c), given)
    requires OnTheWay(c, o, made) && Meets(o, made, ask, outer, k, given, reference)
    requires ReferenceFits(care, Places(c), reference)
    requires care.regular ==> Calm(o, made, c.services, k, ask.base)
    modifies c`order, c`services
    ensures r.Ok? ==> c.Valid() && Entered(c, outer, care) && OnTheWay(c, o, made + added)
    ensures r.Ok? ==> Progress(o, made + added, old(c.services), c.services, added) && Remaining(c) <= old(Remaining(c))
    ensures r.Ok? ==> DepClosed(r.value, c.services) && Resolves(given, r.value)
    ensures r.Ok? ==> DepFits(care, c.load, Places(c), r.value)
    ensures r.Ok? ==> Becomes(o, made, old(c.services), Identify(Unshort(given), reference, outer), r.value, added)
    ensures r.Err? ==> MayFail(care, o, c.services, r.error)
    decreases Remaining(c), 1, 1
  {
    hide Registered, Universe, Registry, Fits, Built, NewService, OneProvider, AllLoad, DoneAt, Distinct, ModuleOf,
      DepFits, ReferenceFits, IsRead, Meets, Calm, ReadReversed, KeyFits, DistinctNames, Story, Becomes, Asks, Lost,
      Asked, Progress, FoundBy, Moment, Provides, DepClosed, Resolves, Unresolvable;
    added := [];
    MeetsRead(o, made, ask, outer, k, given, reference);
    StoryIs(o, made, c.services);
    var first := Identify(Unshort(given), reference, outer);
    var resolved := ResolveModule(c, first);
    if resolved.Err? {
      ResolutionFails(care, o, Places(c), c.services, given, reference, outer, resolved.error);
      return Err(resolved.error), [];
    }
    var dep := resolved.value;
    ResolutionFits(care, o, Places(c), c.services, given, reference, outer, dep);
    if !Is(dep.auto) || !dep.Enabled() {
      DepStays(o, made, c.services, first, dep);
      return Ok(dep), [];
    }
    var cluster := dep.cluster.value;
    if cluster !in c.clusters || cluster !in c.tables {
      return Err(ClusterMissing), [];
    }
    if dep.Target() in c.services {
      DepStays(o, made, c.services, first, dep);
      return Ok(dep), [];
    }
    if dep.service.Some? {
      TargetFound(c.services, c.clusters, first, dep);
      MissingIsLost(o, made, c.services, ask, !care.regular);
      return Err(AutoServiceMissing(k, dep.name)), [];
    }
    var path := dep.path.value;
    NobodyProvides(o, made, c.services, ask, first, dep);
    ghost var before := c.services;
    var done;
    done, added := AddService(c, outer, cluster, path, o, made, ask, care);
    if done.Err? {
      return Err(done.error), [];
    }
    DepAdded(care, o, made, Places(c), before, c.services, first, given, dep, added);
    return Ok(dep.(service := Some(path))), added;
  }

  /** What is known of a dependency whose module was looked up. */
  lemma ResolutionFits(care: Care, o: Origin, places: set<string>, services: Services,
                       given: Dep, reference: Reference, outer: string, dep: Dep)
    requires Fits(care, o.load, places, services) && DepFits(care, o.load, places, given)
    requires ReferenceFits(care, places, reference) && IsRead(given, reference) && outer in places
    requires FoundBy(services, o.clusters, Identify(Unshort(given), reference, outer), dep)
    ensures Resolves(given, dep) && DepFits(care, o.load, places, dep)
    ensures dep.cluster.Some? && (care.located ==> dep.cluster.value in places)
    ensures dep.service.None? ==> Truthy(dep.path).Some?
    ensures Truthy(dep.path).Some? ==>
      (care.loads ==> dep.path.value in o.load) && KeyFits(care, Key(dep.cluster.value, dep.path.value))
  {
    FoundIsPlain(care, o, places, services, Identify(Unshort(given), reference, outer), dep);
    hide Fits, Provides, Located, Identified, Loadable, Plain, Regular;
    ResolvedFits(care, o.load, places, given, reference, outer, dep.service);
    DependencyKnown(care, o.load, places, dep);
  }

  /** A dependency that asks for no service to be added stays as it was found. */
  lemma DepStays(o: Origin, made: seq<Key>, services: Services, first: Dep, dep: Dep)
    requires Moment(o, made, services) && first.cluster.Some? && !first.short
    requires FoundBy(services, o.clusters, first, dep) && (Is(dep.auto) && dep.Enabled() ==> dep.Target() in services)
    ensures made + [] == made && Progress(o, made, services, services, [])
    ensures DepClosed(dep, services) && Becomes(o, made, services, first, dep, [])
  {
    NothingDone(o, made, services);
    hide Moment, Provides;
    ChosenIsDecided(o, made, services, first, dep, []);
  }

  /** One for which a service was added names it. */
  lemma DepAdded(care: Care, o: Origin, made: seq<Key>, places: set<string>, before: Services, after: Services,
                 first: Dep, given: Dep, found: Dep, added: seq<Key>)
    requires Moment(o, made, before) && first.cluster.Some?
    requires FoundBy(before, o.clusters, first, found) && found.service.None? && Demands(found)
    requires Resolves(given, found) && DepFits(care, o.load, places, found)
    requires Truthy(found.path).Some? && added != [] && added[0] == Key(found.cluster.value, found.path.value)
    requires Key(found.cluster.value, found.path.value) in after
    ensures var dep := found.(service := Some(found.path.value));
      && DepClosed(dep, after) && Becomes(o, made, before, first, dep, added)
      && Resolves(given, dep) && DepFits(care, o.load, places, dep)
  {
    hide Moment, Provides;
    ChosenIsDecided(o, made, before, first, found.(service := Some(found.path.value)), added);
  }

  /** A service that was found exists. */
  lemma TargetFound(services: Services, clusters: seq<string>, first: Dep, dep: Dep)
    requires first.cluster.Some? && FoundBy(services, clusters, first, dep)
    requires dep.service.Some? && dep.Target() !in services
    ensures dep == first
  {
  }

  lemma NothingDone(o: Origin, made: seq<Key>, services: Services)
    ensures made + [] == made && Progress(o, made, services, services, [])
  {
  }

  /** A dependency on a module that nobody provides asks for it. */
  lemma NobodyProvides(o: Origin, made: seq<Key>, services: Services, ask: Ask, first: Dep, dep: Dep)
    requires Moment(o, made, services) && Reads(o, made, ask) && first == Asked(o, ask)
    requires FoundBy(services, o.clusters, first, dep) && dep.service.None? && Demands(dep)
    ensures Truthy(dep.path).Some? && dep.cluster.Some? && Asks(o, made, ask, Key(dep.cluster.value, dep.path.value))
    ensures forall name :: !Provides(services, dep.cluster.value, dep.path.value, name)
  {
    hide Reads, Asked, Provides, ProvidesAt;
  }

  lemma DependencyKnown(care: Care, load: map<string, Definition>, places: set<string>, dep: Dep)
    requires DepFits(care, load, places, dep) && !dep.short && dep.cluster.Some?
    ensures care.located ==> dep.cluster.value in places
    ensures Truthy(dep.path).Some? ==>
      (care.loads ==> dep.path.value in load) && KeyFits(care, Key(dep.cluster.value, dep.path.value))
    ensures care.located && Truthy(dep.path).Some? ==> Plain(dep.path.value)
  {
  }

  /** The service that provides a module has a name without a colon, if that is known. */
  lemma FoundIsPlain(care: Care, o: Origin, places: set<string>, services: Services, first: Dep, dep: Dep)
    requires Fits(care, o.load, places, services) && first.cluster.Some? && FoundBy(services, o.clusters, first, dep)
    ensures first.service.None? && dep.service.Some? && care.located ==> Plain(dep.service.value)
  {
  }

  /** The service of a module that nobody provides is added and discovered. */
  method AddService(c: Config, outer: string, cluster: string, path: string,
                    ghost o: Origin, ghost made: seq<Key>, ghost ask: Ask, ghost care: Care)
      returns (r: Result<(), Error>, added: seq<Key>)
    requires c.Valid() && Entered(c, outer, care) && OnTheWay(c, o, made)
    requires path != "" && cluster in c.clusters && cluster in c.tables
    requires forall name :: !Provides(c.services, cluster, path, name)
    requires Asks(o, made, ask, Key(cluster, path))
    requires (care.loads ==> path in c.load) && KeyFits(care, Key(cluster, path))
    modifies c`order, c`services
    ensures r.Ok? ==> c.Valid() && Entered(c, outer, care) && OnTheWay(c, o, made + added)
    ensures r.Ok? ==> Progress(o, made + added, old(c.services), c.services, added) && Remaining(c) <= old(Remaining(c))
    ensures r.Ok? ==> added != [] && added[0] == Key(cluster, path) && Key(cluster, path) in c.services
    ensures r.Err? ==> MayFail(care, o, c.services, r.error)
    decreases Remaining(c), 1, 0
  {
    hide Registered, Universe, Registry, Fits, Built, NewService, DoneAt, MayFail, ModuleOf, KeyFits, Calm, Story, Asks,
      Provides, Progress, From;
    var k := Key(cluster, path);
    ghost var before := c.services;
    RegisterFits(care, c.load, Places(c), c.services, cluster, path);
    StoryMore(o, made, c.services, ask, k);
    NewIsKnown(o, made, c.services, k);
    Register(c, cluster, path);
    ghost var registered := c.services;
    r, added := DiscoverService(c, outer, k, o, made + [k], care);
    if r.Ok? {
      AddedProgress(o, made, before, registered, c.services, k, added);
    }
    added := [k] + added;
  }

  /** A service just registered is as it starts, and its module has its name. */
  lemma NewIsKnown(o: Origin, made: seq<Key>, before: Services, k: Key)
    ensures var services, all := before[k := NewService(k.name)], made + [k];
      && ExistsAt(o, all, k) && From(o, all, k, Latest(o, all, k), services[k])
      && Calm(o, all, services, k, services[k]) && services[k].spec.path == Some(k.name)
      && k in all
  {
    FromItself(o, made + [k], k, NewService(k.name));
  }

  lemma AddedProgress(o: Origin, made: seq<Key>, before: Services, registered: Services, after: Services,
                      k: Key, more: seq<Key>)
    requires registered == before[k := NewService(k.name)] && Registered(before) <= Registered(registered)
    requires Progress(o, made + [k] + more, registered, after, more + [k])
    ensures made + ([k] + more) == made + [k] + more
    ensures Progress(o, made + ([k] + more), before, after, [k] + more)
  {
    hide DoneAt, Registered;
    assert made + ([k] + more) == made + [k] + more;
    assert forall x :: x in [k] + more <==> x in more + [k];
  }

  /** A dependency is not resolved only where nothing known excludes it. */
  lemma ResolutionFails(care: Care, o: Origin, places: set<string>, services: Services,
                        given: Dep, reference: Reference, outer: string, e: Error)
    requires Fits(care, o.load, places, services) && DepFits(care, o.load, places, given)
    requires ReferenceFits(care, places, reference) && IsRead(given, reference)
    requires outer in places && forall x :: x in places ==> x in o.clusters
    requires Unresolvable(services, o.clusters, Identify(Unshort(given), reference, outer), e)
    ensures MayFail(care, o, services, e)
  {
    hide LoadFits, AllLoad, KeyFits;
  }

  /** A visit of `k`, which was `base`, has come to the dependency at `j`. */
  ghost predicate ComesTo(o: Origin, made: seq<Key>, base: Service, outer: string, k: Key,
                          service: Service, deps: seq<Dep>, j: nat, reference: Reference)
  {
    && j < |deps| && service.spec.deps == MergedDeps(o.load, k, base)
    && j < |service.spec.deps| && deps[j] == service.spec.deps[j]
    && Meets(o, made, Ask(k, base, outer, j), outer, k, deps[j], reference)
  }

  /** The next dependency of a visit: discovered, and written back unless the service was replaced. */
  method DiscoverNext(c: Config, outer: string, k: Key, service: Service, deps: seq<Dep>, j: nat, reference: Reference,
                      added: seq<Key>, ghost o: Origin, ghost made: seq<Key>, ghost before: Services, ghost care: Care)
      returns (r: Result<seq<Dep>, Error>, all: seq<Key>)
    requires c.Valid() && j < |deps| && Entered(c, outer, care) && OnTheWay(c, o, made + added)
    requires Visiting(o, made + added, before, c.services, outer, k, service, deps, j, added)
    requires k in before && ComesTo(o, made + added, before[k], outer, k, service, deps, j, reference)
    requires DepFits(care, c.load, Places(c), deps[j])
    requires ReferenceFits(care, Places(c), reference)
    requires care.regular ==> Calm(o, made + added, c.services, k, before[k])
    modifies c`order, c`services
    ensures r.Ok? ==> c.Valid() && Entered(c, outer, care) && OnTheWay(c, o, made + all)
    ensures r.Ok? ==> Remaining(c) <= old(Remaining(c)) && |r.value| == |deps|
    ensures r.Ok? ==> Visiting(o, made + all, before, c.services, outer, k, service, r.value, j + 1, all)
    ensures r.Ok? && care.regular ==> Calm(o, made + all, c.services, k, before[k])
    ensures r.Err? ==> MayFail(care, o, c.services, r.error)
    decreases Remaining(c), 1, 2
  {
    hide Visiting, Progress, DepClosed, DoneAt, Registered, WithDeps, Universe, Registry, Fits, MayFail, Resolves, Chosen,
      DepFits, ReferenceFits, Calm, ReadReversed, Story, Chooses, MergedDeps, ReadAll, Reads, Identify, ModuleOf;
    ghost var mid, was := c.services, made + added;
    var dep, more := DiscoverDep(c, outer, k, deps[j], reference, o, was, Ask(k, before[k], outer, j), care);
    if dep.Err? {
      return Err(dep.error), [];
    }
    VisitStep(o, was, more, before, mid, c.services, outer, k, service, deps, j, dep.value, added);
    all := added + more;
    assert made + all == was + more;
    var next := deps[j := dep.value];
    ghost var written := Written(c.services, k, service, next, all);
    RegistryKeys(c.order, c.services, written, c.clusters, c.tables);
    WrittenFits(care, c.load, Places(c), c.services, k, service, deps, j, dep.value, all);
    WrittenStory(o, was + more, c.services, k, service, deps, next, all);
    if care.regular {
      CalmMore(o, was, more, mid, written, k, before[k]);
    }
    if k !in all {
      c.services := c.services[k := WithDeps(service, next)];
    }
    return Ok(next), all;
  }

  lemma WrittenStory(o: Origin, made: seq<Key>, services: Services, k: Key, service: Service, deps: seq<Dep>,
                     next: seq<Dep>, added: seq<Key>)
    requires Story(o, made, services) && k in services
    requires k !in added ==> services[k] == WithDeps(service, deps)
    ensures Story(o, made, Written(services, k, service, next, added))
  {
    if k !in added {
      hide Story;
      StoryWrite(o, made, services, k, WithDeps(service, next));
    }
  }

  lemma WrittenFits(care: Care, load: map<string, Definition>, places: set<string>, services: Services, k: Key,
                    service: Service, deps: seq<Dep>, j: nat, dep: Dep, added: seq<Key>)
    requires Fits(care, load, places, services) && k in services
    requires k !in added ==> services[k] == WithDeps(service, deps)
    requires j < |deps| && DepFits(care, load, places, dep) && Resolves(deps[j], dep)
    ensures Fits(care, load, places, Written(services, k, service, deps[j := dep], added))
  {
    if k !in added {
      assert DepsFit(care, load, places, deps);
      DepsFitMore(care, load, places, deps, j, dep);
      hide Fits, DepsFit, Resolves;
      WriteFits(care, load, places, services, k, WithDeps(service, deps[j := dep]));
    }
  }

  lemma DepsFitMore(care: Care, load: map<string, Definition>, places: set<string>, deps: seq<Dep>, j: nat, dep: Dep)
    requires DepsFit(care, load, places, deps) && j < |deps| && DepFits(care, load, places, dep) && dep.name == deps[j].name
    ensures DepsFit(care, load, places, deps[j := dep])
  {
    hide DepFits;
    var next := deps[j := dep];
    forall d | d in next
      ensures DepFits(care, load, places, d)
    {
      var i :| 0 <= i < |next| && next[i] == d;
      if i != j {
        assert deps[i] in deps;
      }
    }
  }

  /** The visit goes on with the dependency at `j`, as the merge made it. */
  lemma NextIsGiven(o: Origin, made: seq<Key>, added: seq<Key>, before: Services, services: Services, outer: string,
                    k: Key, service: Service, deps: seq<Dep>, j: nat, places: set<string>, care: Care)
    requires Visiting(o, made + added, before, services, outer, k, service, deps, j, added) && j < |deps|
    requires DepsFit(care, o.load, places, service.spec.deps)
    requires k in before && service.spec.deps == MergedDeps(o.load, k, before[k])
    requires ExistsAt(o, made, k) && From(o, made, k, Latest(o, made, k), before[k]) && Loop(o, made, k, outer)
    ensures DepFits(care, o.load, places, deps[j])
    ensures ReadAll(service.spec.deps, j + 1) == ReadReference(Unshort(deps[j]), ReadAll(service.spec.deps, j))
    ensures ComesTo(o, made + added, before[k], outer, k, service, deps, j, ReadAll(service.spec.deps, j + 1))
  {
    hide DepFits, MergedDeps, From, ReadReference, Unshort;
    assert service.spec.deps[j] in service.spec.deps;
    var ask := Ask(k, before[k], outer, j);
    assert Starts(o, made + added, k, Latest(o, made, k));
    FromMore(o, made, added, k, Latest(o, made, k), before[k]);
    assert Reads(o, made + added, ask);
  }

  /** Reading a dependency keeps what is known of the reference. */
  lemma ReadFits(care: Care, load: map<string, Definition>, places: set<string>, dep: Dep, last: Reference)
    requires DepFits(care, load, places, dep) && ReferenceFits(care, places, last)
    ensures ReferenceFits(care, places, ReadReference(Unshort(dep), last))
  {
    assert NamesService(Unshort(dep)) ==> HasService(dep);
  }

  /** What is known of a service once its module is merged in. */
  lemma MergedFits(care: Care, load: map<string, Definition>, places: set<string>, services: Services, k: Key, path: string)
    requires Fits(care, load, places, services) && k in services
    requires path == services[k].spec.path.GetOr(k.name) && path in load
    ensures var service := Mutate(services[k], path, load[path]);
      DepsFit(care, load, places, service.spec.deps) && Fits(care, load, places, services[k := service])
  {
    assert DepsFit(care, load, places, load[path].deps) && DepsFit(care, load, places, services[k].spec.deps);
    hide Fits, DepsFit, MergeDeps;
    MergeFits(care, load, places, services[k].spec.deps, load[path].deps);
    WriteFits(care, load, places, services, k, Mutate(services[k], path, load[path]));
  }

  lemma CannotLoad(care: Care, o: Origin, places: set<string>, services: Services, k: Key)
    requires Fits(care, o.load, places, services) && k in services && services[k].spec.path.GetOr(k.name) !in o.load
    ensures MayFail(care, o, services, ModuleNotLoaded)
  {
  }

  lemma CalmHere(o: Origin, made: seq<Key>, before: Services, after: Services, k: Key, base: Service)
    requires Calm(o, made, before, k, base) && before.Keys <= after.Keys
    ensures Calm(o, made + [], after, k, base)
  {
    CalmMore(o, made, [], before, after, k, base);
  }

  /**
   A service: its module is loaded and its dependencies are discovered one by one. `added`
   holds the keys under which services were added or replaced meanwhile, perhaps its own.
  */
  method DiscoverService(c: Config, outer: string, k: Key, ghost o: Origin, ghost made: seq<Key>, ghost care: Care)
      returns (r: Result<(), Error>, added: seq<Key>)
    requires c.Valid() && k in c.services && Entered(c, outer, care) && OnTheWay(c, o, made)
    requires ExistsAt(o, made, k) && From(o, made, k, Latest(o, made, k), c.services[k])
    requires Loop(o, made, k, outer)
    requires care.regular ==> Calm(o, made, c.services, k, c.services[k])
    modifies c`order, c`services
    ensures r.Ok? ==> c.Valid() && Entered(c, outer, care) && OnTheWay(c, o, made + added)
    ensures r.Ok? ==> DoneAt(o, made + added, c.services, k)
    ensures r.Ok? ==> Progress(o, made + added, old(c.services), c.services, added + [k])
    ensures r.Ok? && k !in added ==> Visited(o, made + added, outer, k, old(c.services[k]), c.services[k])
    ensures r.Ok? ==> Remaining(c) <= old(Remaining(c))
    ensures r.Err? ==> MayFail(care, o, c.services, r.error)
    decreases Remaining(c), Loads(c, k), 3
  {
    hide Visiting, Progress, DoneAt, Registered, Universe, Registry, Mutate, ReadReference, Unshort, Fits, Built,
      MayFail, DepsFit, DepFits, Calm, Story, Visited, ComesTo, From, ReferenceFits, MergedDeps, Latest, ModuleOf;
    added := [];
    var path := c.services[k].spec.path.GetOr(k.name);
    if path !in c.load {
      CannotLoad(care, o, Places(c), c.services, k);
      return Err(ModuleNotLoaded), [];
    }
    ghost var before := c.services;
    VisitStarts(o, made, before, outer, k, path);
    MergedFits(care, c.load, Places(c), before, k, path);
    var service := Mutate(c.services[k], path, c.load[path]);
    RegistryKeys(c.order, before, before[k := service], c.clusters, c.tables);
    if care.regular {
      CalmHere(o, made, before, before[k := service], k, before[k]);
    }
    NothingRead(care, Places(c), service.spec.deps);
    c.services := c.services[k := service];
    var deps := service.spec.deps;
    var count := |deps|;
    var reference := Reference(None, None);
    assert made + added == made;
    for j := 0 to count
      invariant c.Valid() && |deps| == count && Remaining(c) <= old(Remaining(c))
      invariant Visiting(o, made + added, before, c.services, outer, k, service, deps, j, added)
      invariant Entered(c, outer, care) && OnTheWay(c, o, made + added)
      invariant ReferenceFits(care, Places(c), reference) && reference == ReadAll(service.spec.deps, j)
      invariant care.regular ==> Calm(o, made + added, c.services, k, before[k])
    {
      NextIsGiven(o, made, added, before, c.services, outer, k, service, deps, j, Places(c), care);
      ReadFits(care, c.load, Places(c), deps[j], reference);
      reference := ReadReference(Unshort(deps[j]), reference);
      var next, all := DiscoverNext(c, outer, k, service, deps, j, reference, added, o, made, before, care);
      if next.Err? {
        return Err(next.error), [];
      }
      deps, added := next.value, all;
    }
    VisitEnds(o, made, before, c.services, outer, k, service, deps, added);
    return Ok(()), added;
  }

  lemma NothingRead(care: Care, places: set<string>, deps: seq<Dep>)
    ensures ReferenceFits(care, places, Reference(None, None)) && ReadAll(deps, 0) == Reference(None, None)
  {
  }

  // ----- all clusters

  /** Every service of the given clusters is done, except those still to be visited. */
  ghost predicate DoneBut(o: Origin, made: seq<Key>, services: Services, clusters: seq<string>, rest: seq<Key>) {
    forall x :: x in services && x.cluster in clusters && x !in rest ==> DoneAt(o, made, services, x)
  }

  /** Every service comes from its last start, and can be visited calmly. */
  ghost predicate Visitable(care: Care, o: Origin, made: seq<Key>, services: Services) {
    forall k :: k in services ==>
      && ExistsAt(o, made, k) && From(o, made, k, Latest(o, made, k), services[k])
      && (care.regular ==> Calm(o, made, services, k, services[k]))
  }

  lemma VisitableAgain(care: Care, places: set<string>, o: Origin, made: seq<Key>, services: Services, x: Key)
    requires Fits(care, o.load, places, services) && DoneAt(o, made, services, x)
    ensures ExistsAt(o, made, x) && From(o, made, x, Latest(o, made, x), services[x])
    ensures care.regular ==> Calm(o, made, services, x, services[x])
  {
    var base, outer :| Came(o, made, x, base, outer, services[x]);
    CameIsFrom(o, made, x, base, outer, services[x]);
    if care.regular {
      DoneIsCalm(care, places, o, made, services, x);
    }
  }

  lemma VisitableStill(care: Care, o: Origin, made: seq<Key>, added: seq<Key>, before: Services, after: Services, x: Key)
    requires ExistsAt(o, made, x) && x in before && From(o, made, x, Latest(o, made, x), before[x])
    requires care.regular ==> Calm(o, made, before, x, before[x])
    requires x !in added && before.Keys <= after.Keys && after[x] == before[x]
    ensures ExistsAt(o, made + added, x) && From(o, made + added, x, Latest(o, made + added, x), after[x])
    ensures care.regular ==> Calm(o, made + added, after, x, after[x])
  {
    FromMore(o, made, added, x, Latest(o, made, x), before[x]);
    hide From;
    if care.regular {
      CalmMore(o, made, added, before, after, x, before[x]);
    }
  }

  lemma VisitedOne(care: Care, places: set<string>, o: Origin, made: seq<Key>, added: seq<Key>,
                   before: Services, after: Services, clusters: seq<string>, rest: seq<Key>)
    requires rest != [] && DoneBut(o, made, before, clusters, rest) && rest[0].cluster in clusters
    requires Progress(o, made + added, before, after, added + [rest[0]])
    requires Visitable(care, o, made, before) && Fits(care, o.load, places, after)
    ensures DoneBut(o, made + added, after, clusters, rest[1..]) && Visitable(care, o, made + added, after)
    ensures before.Keys <= after.Keys
  {
    hide DoneAt, Fits, DepClosed, Calm, From, Latest;
    assert rest == [rest[0]] + rest[1..];
    forall x | x in after && x.cluster in clusters && x !in rest[1..]
      ensures DoneAt(o, made + added, after, x)
    {
      if x !in added + [rest[0]] {
        StillDone(o, made, added, before, after, x);
      }
    }
    forall x | x in after
      ensures ExistsAt(o, made + added, x) && From(o, made + added, x, Latest(o, made + added, x), after[x])
      ensures care.regular ==> Calm(o, made + added, after, x, after[x])
    {
      if x in added + [rest[0]] {
        VisitableAgain(care, places, o, made + added, after, x);
      } else {
        VisitableStill(care, o, made, added, before, after, x);
      }
    }
  }

  lemma StartCluster(o: Origin, made: seq<Key>, order: seq<Key>, services: Services, cluster: string,
                     clusters: seq<string>, keys: seq<Key>)
    requires DoneBut(o, made, services, clusters, [])
    requires forall k :: k in services <==> k in order
    requires forall k :: k in keys <==> k in order && k.cluster == cluster
    ensures DoneBut(o, made, services, clusters + [cluster], keys)
  {
    hide DoneAt;
    assert forall x :: x in services && x.cluster in clusters + [cluster] && x !in keys ==> x.cluster in clusters;
  }

  lemma VisitableAt(care: Care, o: Origin, made: seq<Key>, services: Services, k: Key)
    requires Visitable(care, o, made, services) && k in services
    ensures ExistsAt(o, made, k) && From(o, made, k, Latest(o, made, k), services[k])
    ensures care.regular ==> Calm(o, made, services, k, services[k])
  {
  }

  /** The services present when the loop over a cluster starts are visited in turn. */
  method DiscoverCluster(c: Config, cluster: string, ghost clusters: seq<string>, ghost o: Origin, ghost given: seq<Key>,
                         ghost care: Care)
      returns (r: Result<(), Error>, ghost made: seq<Key>)
    requires c.Valid() && Entered(c, cluster, care) && OnTheWay(c, o, given) && Visitable(care, o, given, c.services)
    requires DoneBut(o, given, c.services, clusters, [])
    modifies c`order, c`services
    ensures r.Ok? ==> c.Valid() && Fits(care, c.load, Places(c), c.services) && OnTheWay(c, o, made)
    ensures r.Ok? ==> Visitable(care, o, made, c.services) && DoneBut(o, made, c.services, clusters + [cluster], [])
    ensures r.Err? ==> MayFail(care, o, c.services, r.error)
  {
    hide DoneBut, DoneAt, Progress, Fits, MayFail, Built, Distinct, Calm, Filter, Story, Visitable, From, Latest, Visited;
    made := given;
    var keys := Filter(c.order, (k: Key) => k.cluster == cluster);
    StartCluster(o, made, c.order, c.services, cluster, clusters, keys);
    assert forall k :: k in keys ==> k in c.services;
    for t := 0 to |keys|
      invariant c.Valid() && Entered(c, cluster, care) && OnTheWay(c, o, made) && Visitable(care, o, made, c.services)
      invariant forall k :: k in keys ==> k in c.services
      invariant DoneBut(o, made, c.services, clusters + [cluster], keys[t..])
    {
      ghost var before := c.services;
      assert keys[t] in keys && keys[t..][1..] == keys[t + 1..] && keys[t..][0] == keys[t];
      VisitableAt(care, o, made, c.services, keys[t]);
      var added;
      r, added := DiscoverService(c, cluster, keys[t], o, made, care);
      if r.Err? {
        return;
      }
      VisitedOne(care, Places(c), o, made, added, before, c.services, clusters + [cluster], keys[t..]);
      made := made + added;
    }
    assert keys[|keys|..] == [];
    return Ok(()), made;
  }

  // ----- the causes of failure

  /** The dependency is declared, by a service or by a module. */
  ghost predicate Declares(o: Origin, dep: Dep) {
    || (exists m :: m in o.load && dep in o.load[m].deps)
    || (exists k :: k in o.given && dep in o.given[k].spec.deps)
  }

  /** The name is that of a service, or of a module that a dependency is on. */
  ghost predicate Mentions(o: Origin, name: string) {
    || (exists k :: k in o.given && k.name == name)
    || (exists dep :: Declares(o, dep) && Truthy(dep.path) == Some(name))
  }

  /** A name that reads as none or as a label, or a service that is given without a name. */
  ghost predicate Irregular(o: Origin) {
    || (exists name :: Mentions(o, name) && !Regular(name))
    || (exists dep :: Declares(o, dep) && !WellNamed(dep))
  }

  /**
   What in the declared configuration makes discovery fail: a module that cannot be loaded;
   one that two services of a cluster provide; a dependency with neither module nor service;
   a mention of a cluster that is unknown or has no table; an enabled automatic dependency
   of a service, after one that names a service which does not exist. That is on its first
   visit, unless names are irregular: a colon, or a name that reads as none, can make a
   resolved dependency name another service or cluster when it is visited again.
  */
  ghost predicate Cause(o: Origin, places: set<string>, e: Error) {
    match e
    case ModuleNotLoaded => !AllLoad(o.load, o.given) || exists dep :: Declares(o, dep) && !Loadable(dep, o.load)
    case AmbiguousModule => !OneProvider(o.given)
    case UnidentifiedDependency => exists dep :: Declares(o, dep) && !Identified(dep)
    case ClusterMissing =>
      || (exists dep :: Declares(o, dep) && !Located(dep, places))
      || exists name :: Mentions(o, name) && !Plain(name)
    case AutoServiceMissing(k, dep) => Lost(o, k, dep, Irregular(o))
    case _ => false
  }

  /** Each flag is set when there is no such cause. */
  ghost function Known(o: Origin, places: set<string>): Care {
    Care(!Cause(o, places, ModuleNotLoaded), !Cause(o, places, AmbiguousModule),
      !Cause(o, places, UnidentifiedDependency), !Cause(o, places, ClusterMissing), !Irregular(o))
  }

  /** No dependency has the name of another one beside it. */
  ghost predicate NamesApart(load: map<string, Definition>, services: Services) {
    && (forall m :: m in load ==> DistinctNames(load[m].deps))
    && (forall k :: k in services ==> DistinctNames(services[k].spec.deps))
  }

  lemma DeclaredFits(o: Origin, places: set<string>, dep: Dep)
    requires Declares(o, dep)
    ensures DepFits(Known(o, places), o.load, places, dep)
    ensures Known(o, places).regular ==> WellNamed(dep)
  {
    hide Declares, Located, Identified, Loadable, OneProvider, AllLoad, WellNamed, Lost;
    if Truthy(dep.path).Some? {
      assert Mentions(o, dep.path.value);
    }
  }

  lemma KnownFits(o: Origin, places: set<string>)
    requires NamesApart(o.load, o.given)
    ensures Fits(Known(o, places), o.load, places, o.given)
  {
    var care := Known(o, places);
    hide DepFits, WellNamed, Lost;
    forall dep | Declares(o, dep)
      ensures DepFits(care, o.load, places, dep) && (care.regular ==> WellNamed(dep))
    {
      DeclaredFits(o, places, dep);
    }
    forall m | m in o.load
      ensures DepsFit(care, o.load, places, o.load[m].deps) && (care.regular ==> AllWellNamed(o.load[m].deps))
    {
      assert forall d :: d in o.load[m].deps ==> Declares(o, d);
    }
    forall k | k in o.given
      ensures DepsFit(care, o.load, places, o.given[k].spec.deps) && KeyFits(care, k)
    {
      assert forall d :: d in o.given[k].spec.deps ==> Declares(o, d);
      assert Mentions(o, k.name);
    }
  }

  /** Nothing has been registered yet. */
  lemma NothingMade(care: Care, o: Origin)
    ensures Story(o, [], o.given) && Visitable(care, o, [], o.given) && DoneBut(o, [], o.given, [], [])
  {
    forall k | k in o.given
      ensures From(o, [], k, Latest(o, [], k), o.given[k])
    {
      FromItself(o, [], k, o.given[k]);
    }
  }

  /** A failure that nothing known excludes has its cause. */
  lemma FailureHasCause(o: Origin, places: set<string>, services: Services, e: Error)
    requires MayFail(Known(o, places), o, services, e)
    ensures Cause(o, places, e)
    ensures e == ModuleNotLoaded ==> !AllLoad(o.load, services)
    ensures e == AmbiguousModule ==> !OneProvider(services)
  {
    hide Lost, Irregular;
  }

  lemma FitsApart(care: Care, load: map<string, Definition>, places: set<string>, services: Services)
    requires Fits(care, load, places, services)
    ensures NamesApart(load, services)
  {
  }

  lemma AllDone(o: Origin, made: seq<Key>, services: Services)
    requires Story(o, made, services) && DoneBut(o, made, services, o.clusters, [])
    requires forall k :: k in services ==> k.cluster in o.clusters
    ensures Discovered(o, made, services)
  {
    hide DoneAt, History, ProvidesAt, Provides;
  }

  /**
   The first stage. It ends because every recursion registers a module under its own name
   that was not. Afterwards the services are those declared and those registered in `made`,
   each of which a dependency asked for; every one is what its visits made of it, and each
   enabled automatic dependency names an existing service. It fails only for a cause in the
   declared configuration, so a configuration without any of the five causes never fails.
  */
  method Discover(c: Config) returns (r: Result<(), Error>, ghost made: seq<Key>)
    requires c.Valid() && NamesApart(c.load, c.services)
    modifies c`tables, c`order, c`services
    ensures r.Ok? ==> c.Valid() && NamesApart(c.load, c.services)
    ensures r.Ok? ==> Discovered(Origin(c.load, c.clusters, old(c.services)), made, c.services)
    ensures r.Err? ==> Cause(Origin(c.load, c.clusters, old(c.services)), old(Places(c)), r.error)
    ensures r == Err(ModuleNotLoaded) ==> !AllLoad(c.load, c.services)
    ensures r == Err(AmbiguousModule) ==> !OneProvider(c.services)
  {
    hide DoneAt, Fits, Built, Distinct, MayFail, Known, Cause, NamesApart, DoneBut, Visitable, Story, Discovered;
    ghost var o, places := Origin(c.load, c.clusters, c.services), Places(c);
    ghost var care := Known(o, places);
    KnownFits(o, places);
    NothingMade(care, o);
    made := [];
    var clusters := c.clusters;
    for i := 0 to |clusters|
      invariant c.Valid() && Fits(care, c.load, Places(c), c.services)
      invariant OnTheWay(c, o, made) && Visitable(care, o, made, c.services)
      invariant DoneBut(o, made, c.services, clusters[..i], [])
    {
      ghost var before := Places(c);
      c.tables := c.tables + {clusters[i]};
      FitsMore(care, c.load, before, Places(c), c.services);
      assert clusters[..i + 1] == clusters[..i] + [clusters[i]];
      r, made := DiscoverCluster(c, clusters[i], clusters[..i], o, made, care);
      if r.Err? {
        FailureHasCause(o, places, c.services, r.error);
        return;
      }
    }
    assert clusters[..|clusters|] == clusters;
    FitsApart(care, c.load, Places(c), c.services);
    AllDone(o, made, c.services);
    return Ok(()), made;
  }
}
