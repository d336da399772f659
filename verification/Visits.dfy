/**
 What discovery does, told as a record: which services were registered and in which order,
 which visit asked for each of them, and how every dependency of a visit was decided.
*/
module Visits {
  import opened Prelude
  import opened Labels
  import opened Cluster
  import opened Merging

  // ----- what a visit reads

  /** The reference read last, shared by the dependencies that follow it. */
  datatype Reference = Reference(name: Option<string>, cluster: Option<string>)

  function ReadReference(dep: Dep, last: Reference): Reference {
    if Truthy(dep.service).None? then last
    else
      var (name, cluster) := ReadReversed(dep.service.value);
      Reference(Some(name), cluster)
  }

  /** Cluster and service of the dependency, before its module is looked up. */
  function Identify(dep: Dep, reference: Reference, outer: string): (r: Dep)
    ensures r.cluster.Some? && r.name == dep.name && r.path == dep.path
  {
    dep.(
      cluster := if dep.cluster.None? then Some(Truthy(reference.cluster).GetOr(outer)) else dep.cluster,
      service := Truthy(reference.name))
  }

  /** The reference after the first `j` dependencies of a visit have been read. */
  function ReadAll(deps: seq<Dep>, j: nat): Reference
    requires j <= |deps|
  {
    if j == 0 then Reference(None, None) else ReadReference(Unshort(deps[j - 1]), ReadAll(deps, j - 1))
  }

  /** The dependency at position `i` of a visit, before its module is looked up. */
  function First(deps: seq<Dep>, i: nat, outer: string): (r: Dep)
    requires i < |deps|
    ensures r.cluster.Some?
  {
    Identify(Unshort(deps[i]), ReadAll(deps, i + 1), outer)
  }

  lemma {:induction false} ReferenceStays(deps: seq<Dep>, i: nat, j: nat)
    requires i <= j < |deps| && forall m :: i < m <= j ==> !NamesService(deps[m])
    ensures NamesService(deps[i]) ==>
      ReadAll(deps, j + 1) == Reference(Some(NamedService(deps[i]).0), NamedService(deps[i]).1)
    ensures i == 0 && !NamesService(deps[0]) ==> ReadAll(deps, j + 1) == Reference(None, None)
    decreases j
  {
    if i < j {
      ReferenceStays(deps, i, j - 1);
      assert !NamesService(deps[j]);
    }
  }

  /**
   A dependency that names no service inherits the service that the last one before it
   named, whatever its own module, and its cluster unless it has one; it is looked up by
   module, in the cluster of the outer loop, when none before it did.
  */
  lemma ReferenceLeaks(deps: seq<Dep>, i: nat, j: nat, outer: string)
    requires i <= j < |deps| && forall m :: i < m <= j ==> !NamesService(deps[m])
    ensures var dep := First(deps, j, outer);
      && (NamesService(deps[i]) ==> dep.service == Truthy(Some(NamedService(deps[i]).0)))
      && (NamesService(deps[i]) && Unshort(deps[j]).cluster.None? ==>
            dep.cluster == Some(Truthy(NamedService(deps[i]).1).GetOr(outer)))
      && (i == 0 && !NamesService(deps[0]) ==> dep.service == None)
      && (i == 0 && !NamesService(deps[0]) && Unshort(deps[j]).cluster.None? ==> dep.cluster == Some(outer))
  {
    ReferenceStays(deps, i, j);
  }

  /** A reference that was read comes from the last dependency that names a service. */
  lemma {:induction false} LastNamed(deps: seq<Dep>, j: nat) returns (i: nat)
    requires j < |deps| && ReadAll(deps, j + 1).name.Some?
    ensures i <= j && NamesService(deps[i]) && forall m :: i < m <= j ==> !NamesService(deps[m])
    ensures ReadAll(deps, j + 1) == Reference(Some(NamedService(deps[i]).0), NamedService(deps[i]).1)
  {
    if NamesService(deps[j]) {
      i := j;
    } else {
      assert ReadAll(deps, j + 1) == ReadAll(deps, j);
      i := LastNamed(deps, j - 1);
    }
  }

  // ----- what has been registered

  /** The declared configuration. */
  datatype Origin = Origin(load: map<string, Definition>, clusters: seq<string>, given: Services)

  /** The service exists once those in `made` have been registered. */
  ghost predicate ExistsAt(o: Origin, made: seq<Key>, k: Key) {
    k in o.given || k in made
  }

  /** The service of that name loads the module, once those in `made` have been registered. */
  ghost predicate ProvidesAt(o: Origin, made: seq<Key>, cluster: string, path: string, name: string) {
    var k := Key(cluster, name);
    if k in made then name == path else k in o.given && ModuleOf(k, o.given[k]) == path
  }

  /** These are the services there are, and the modules they load. */
  ghost predicate Moment(o: Origin, made: seq<Key>, services: Services) {
    && (forall k :: k in services <==> ExistsAt(o, made, k))
    && forall cluster, path, name ::
      Provides(services, cluster, path, name) <==> ProvidesAt(o, made, cluster, path, name)
  }

  /** A service as it was declared, or as it was registered. */
  ghost predicate Starts(o: Origin, made: seq<Key>, k: Key, first: Service) {
    (k in o.given && first == o.given[k]) || (k in made && first == NewService(k.name))
  }

  /** What the service was last: registering it replaces a declared one. */
  ghost function Latest(o: Origin, made: seq<Key>, k: Key): (first: Service)
    requires ExistsAt(o, made, k)
    ensures Starts(o, made, k, first)
  {
    if k in made then NewService(k.name) else o.given[k]
  }

  // ----- what becomes of a dependency

  /** The dependency is automatic and enabled. */
  predicate Demands(dep: Dep) {
    !dep.short && Is(dep.auto) && dep.Enabled()
  }

  /**
   Decided when the first `t` services had been registered: a service that was named or
   inherited stays; otherwise it is the only one that loads the module, or the one then
   registered for an enabled automatic dependency, or none.
  */
  ghost predicate Decided(o: Origin, made: seq<Key>, t: nat, first: Dep, dep: Dep) {
    && t <= |made| && first.cluster.Some?
    && if first.service.Some? then dep == first && (Demands(first) ==> ExistsAt(o, made[..t], dep.Target()))
       else
         && Truthy(first.path).Some? && first.cluster.value in o.clusters
         && dep == first.(service := dep.service)
         && ByModule(o, made, t, Demands(first), first.cluster.value, first.path.value, dep)
  }

  ghost predicate ByModule(o: Origin, made: seq<Key>, t: nat, demanded: bool, cluster: string, path: string, dep: Dep)
    requires t <= |made|
  {
    match dep.service
    case None =>
      && (demanded ==> ExistsAt(o, made[..t], dep.Target()))
      && forall name :: !ProvidesAt(o, made[..t], cluster, path, name)
    case Some(found) =>
      || (forall name :: ProvidesAt(o, made[..t], cluster, path, name) <==> name == found)
      || (demanded && found == path && t < |made| && made[t] == Key(cluster, path)
          && forall name :: !ProvidesAt(o, made[..t], cluster, path, name))
  }

  ghost predicate Chooses(o: Origin, made: seq<Key>, first: Dep, dep: Dep) {
    exists t: nat :: Decided(o, made, t, first, dep)
  }

  /** What is decided stays decided, whatever is registered later. */
  lemma ChoosesMore(o: Origin, made: seq<Key>, more: seq<Key>, first: Dep, dep: Dep)
    requires Chooses(o, made, first, dep)
    ensures Chooses(o, made + more, first, dep)
  {
    hide ProvidesAt, ExistsAt;
    var t: nat :| Decided(o, made, t, first, dep);
    assert (made + more)[..t] == made[..t];
    assert Decided(o, made + more, t, first, dep);
  }

  lemma DecidedResolves(o: Origin, made: seq<Key>, deps: seq<Dep>, i: nat, outer: string, dep: Dep)
    requires i < |deps| && Chooses(o, made, First(deps, i, outer), dep)
    ensures Resolves(deps[i], dep)
  {
    hide ByModule, ReadAll, ExistsAt;
  }

  /** A visit in the loop over cluster `outer` makes `service` of `base`. */
  ghost predicate Visited(o: Origin, made: seq<Key>, outer: string, k: Key, base: Service, service: Service) {
    var path := base.spec.path.GetOr(k.name);
    path in o.load &&
    var deps := MergeDeps(base.spec.deps, o.load[path].deps);
    && service == WithDeps(Mutate(base, path, o.load[path]), service.spec.deps)
    && |service.spec.deps| == |deps|
    && forall i :: 0 <= i < |deps| ==> Chooses(o, made, First(deps, i, outer), service.spec.deps[i])
  }

  lemma VisitedMore(o: Origin, made: seq<Key>, more: seq<Key>, outer: string, k: Key, base: Service, service: Service)
    requires Visited(o, made, outer, k, base, service)
    ensures Visited(o, made + more, outer, k, base, service)
  {
    hide MergeDeps, Mutate, WithDeps, Chooses, First;
    var path := base.spec.path.GetOr(k.name);
    var deps := MergeDeps(base.spec.deps, o.load[path].deps);
    forall i | 0 <= i < |deps|
      ensures Chooses(o, made + more, First(deps, i, outer), service.spec.deps[i])
    {
      ChoosesMore(o, made, more, First(deps, i, outer), service.spec.deps[i]);
    }
  }

  lemma VisitedBuilds(o: Origin, made: seq<Key>, outer: string, k: Key, base: Service, service: Service)
    requires Visited(o, made, outer, k, base, service)
    ensures Built(o.load, k, base, service)
  {
    hide MergeDeps, Chooses, Resolves, First;
    var path := base.spec.path.GetOr(k.name);
    var deps := MergeDeps(base.spec.deps, o.load[path].deps);
    forall i | 0 <= i < |deps|
      ensures Resolves(deps[i], service.spec.deps[i])
    {
      DecidedResolves(o, made, deps, i, outer, service.spec.deps[i]);
    }
  }

  /** The loop in which the service is visited: for a declared one, that over its own cluster. */
  ghost predicate Loop(o: Origin, made: seq<Key>, k: Key, outer: string) {
    outer in o.clusters && (k !in made ==> outer == k.cluster)
  }

  /** `n` visits make `base` of `first`. */
  ghost predicate After(o: Origin, made: seq<Key>, k: Key, first: Service, n: nat, base: Service) {
    if n == 0 then base == first
    else exists mid, outer ::
      After(o, made, k, first, n - 1, mid) && Loop(o, made, k, outer) && Visited(o, made, outer, k, mid, base)
  }

  /** The service before or after visits. */
  ghost predicate From(o: Origin, made: seq<Key>, k: Key, first: Service, base: Service) {
    exists n: nat :: After(o, made, k, first, n, base)
  }

  lemma {:induction false} AfterMore(o: Origin, made: seq<Key>, more: seq<Key>, k: Key, first: Service, n: nat, base: Service)
    requires After(o, made, k, first, n, base)
    ensures After(o, made + more, k, first, n, base)
  {
    hide Visited;
    if n > 0 {
      var mid, outer := LastVisit(o, made, k, first, n, base);
      AfterMore(o, made, more, k, first, n - 1, mid);
      VisitedMore(o, made, more, outer, k, mid, base);
      assert Loop(o, made + more, k, outer);
    }
  }

  lemma LastVisit(o: Origin, made: seq<Key>, k: Key, first: Service, n: nat, base: Service)
      returns (mid: Service, outer: string)
    requires After(o, made, k, first, n, base) && n > 0
    ensures After(o, made, k, first, n - 1, mid) && Loop(o, made, k, outer) && Visited(o, made, outer, k, mid, base)
    ensures n == 1 ==> mid == first
  {
    hide Visited;
    mid, outer :|
      After(o, made, k, first, n - 1, mid) && Loop(o, made, k, outer) && Visited(o, made, outer, k, mid, base);
  }

  lemma FromMore(o: Origin, made: seq<Key>, more: seq<Key>, k: Key, first: Service, base: Service)
    requires From(o, made, k, first, base)
    ensures From(o, made + more, k, first, base)
  {
    var n: nat :| After(o, made, k, first, n, base);
    AfterMore(o, made, more, k, first, n, base);
  }

  lemma FromItself(o: Origin, made: seq<Key>, k: Key, first: Service)
    ensures From(o, made, k, first, first)
  {
    assert After(o, made, k, first, 0, first);
  }

  // ----- who asked for it

  function MergedDeps(load: map<string, Definition>, k: Key, base: Service): seq<Dep> {
    var path := base.spec.path.GetOr(k.name);
    if path in load then MergeDeps(base.spec.deps, load[path].deps) else []
  }

  /** A dependency of a visit: of `key`, which was `base`, in the loop over cluster `outer`. */
  datatype Ask = Ask(key: Key, base: Service, outer: string, index: nat)

  /** The visit is of a service that exists. */
  ghost predicate Reads(o: Origin, made: seq<Key>, ask: Ask) {
    && (exists first :: Starts(o, made, ask.key, first) && From(o, made, ask.key, first, ask.base))
    && Loop(o, made, ask.key, ask.outer)
    && ask.index < |MergedDeps(o.load, ask.key, ask.base)|
  }

  function Asked(o: Origin, ask: Ask): (r: Dep)
    requires ask.index < |MergedDeps(o.load, ask.key, ask.base)|
    ensures r.cluster.Some?
  {
    First(MergedDeps(o.load, ask.key, ask.base), ask.index, ask.outer)
  }

  /** An enabled automatic dependency on the module of `k`, which nothing in the cluster of `k` loads. */
  ghost predicate Asks(o: Origin, made: seq<Key>, ask: Ask, k: Key) {
    && Reads(o, made, ask)
    && var dep := Asked(o, ask);
    && dep.service.None? && Demands(dep)
    && Truthy(dep.path) == Some(k.name) && dep.cluster == Some(k.cluster) && k.cluster in o.clusters
    && forall name :: !ProvidesAt(o, made, k.cluster, k.name, name)
  }

  ghost predicate AskedFor(o: Origin, made: seq<Key>, k: Key) {
    exists ask :: Asks(o, made, ask, k)
  }

  /** Each service was registered because a dependency of a service there was then asked for it. */
  ghost predicate History(o: Origin, made: seq<Key>) {
    forall t {:trigger made[t]} :: 0 <= t < |made| ==> AskedFor(o, made[..t], made[t])
  }

  ghost predicate Story(o: Origin, made: seq<Key>, services: Services) {
    Moment(o, made, services) && History(o, made)
  }

  lemma HistoryMore(o: Origin, made: seq<Key>, ask: Ask, k: Key)
    requires History(o, made) && Asks(o, made, ask, k)
    ensures History(o, made + [k])
  {
    hide Asks;
    assert AskedFor(o, made, k);
    hide AskedFor;
    var more := made + [k];
    forall t | 0 <= t < |more|
      ensures AskedFor(o, more[..t], more[t])
    {
      if t < |made| {
        assert more[..t] == made[..t] && more[t] == made[t];
      } else {
        assert more[..t] == made;
      }
    }
  }

  /** Registering the service that is asked for goes on with the story. */
  lemma StoryMore(o: Origin, made: seq<Key>, services: Services, ask: Ask, k: Key)
    requires Story(o, made, services) && Asks(o, made, ask, k) && k.name != ""
    ensures Story(o, made + [k], services[k := NewService(k.name)])
  {
    hide *;
    StoryIs(o, made, services);
    HistoryMore(o, made, ask, k);
    var after := services[k := NewService(k.name)];
    forall x
      ensures x in after <==> ExistsAt(o, made + [k], x)
    {
      RegisteredExists(o, made, services, k, x);
    }
    forall cluster, path, name
      ensures Provides(after, cluster, path, name) <==> ProvidesAt(o, made + [k], cluster, path, name)
    {
      RegisteredProvides(o, made, services, k, cluster, path, name);
    }
    IsMoment(o, made + [k], after);
    IsStory(o, made + [k], after);
  }

  lemma StoryIs(o: Origin, made: seq<Key>, services: Services)
    requires Story(o, made, services)
    ensures Moment(o, made, services) && History(o, made)
  {
  }

  lemma IsStory(o: Origin, made: seq<Key>, services: Services)
    requires Moment(o, made, services) && History(o, made)
    ensures Story(o, made, services)
  {
  }

  lemma IsMoment(o: Origin, made: seq<Key>, services: Services)
    requires forall k :: k in services <==> ExistsAt(o, made, k)
    requires forall cluster, path, name ::
      Provides(services, cluster, path, name) <==> ProvidesAt(o, made, cluster, path, name)
    ensures Moment(o, made, services)
  {
  }

  lemma RegisteredExists(o: Origin, made: seq<Key>, services: Services, k: Key, x: Key)
    requires Moment(o, made, services)
    ensures x in services[k := NewService(k.name)] <==> ExistsAt(o, made + [k], x)
  {
    hide Provides, ProvidesAt;
  }

  lemma RegisteredProvides(o: Origin, made: seq<Key>, services: Services, k: Key, cluster: string, path: string, name: string)
    requires Moment(o, made, services) && k.name != ""
    ensures Provides(services[k := NewService(k.name)], cluster, path, name) <==>
      ProvidesAt(o, made + [k], cluster, path, name)
  {
    assert Provides(services, cluster, path, name) <==> ProvidesAt(o, made, cluster, path, name);
  }

  /** Writing a service without changing its module changes no moment. */
  lemma StoryWrite(o: Origin, made: seq<Key>, services: Services, k: Key, service: Service)
    requires Story(o, made, services) && k in services && ModuleOf(k, service) == ModuleOf(k, services[k])
    ensures Story(o, made, services[k := service])
  {
    hide History, ModuleOf, ProvidesAt, ExistsAt;
    var after := services[k := service];
    assert forall cluster, path, name ::
      Provides(after, cluster, path, name) <==> Provides(services, cluster, path, name);
  }

  // ----- what a service becomes

  /**
   The service is what the last visit made of it: of the one that was registered last under
   its key, else of the declared one, possibly visited before.
  */
  ghost predicate Came(o: Origin, made: seq<Key>, k: Key, base: Service, outer: string, service: Service) {
    && ExistsAt(o, made, k) && From(o, made, k, Latest(o, made, k), base)
    && Loop(o, made, k, outer) && Visited(o, made, outer, k, base, service)
  }

  lemma CameMore(o: Origin, made: seq<Key>, more: seq<Key>, k: Key, base: Service, outer: string, service: Service)
    requires Came(o, made, k, base, outer, service) && (k in made || k !in more)
    ensures Came(o, made + more, k, base, outer, service)
  {
    hide Visited, From;
    VisitedMore(o, made, more, outer, k, base, service);
    assert k in made + more <==> k in made;
    FromMore(o, made, more, k, Latest(o, made, k), base);
  }

  lemma CameIsFrom(o: Origin, made: seq<Key>, k: Key, base: Service, outer: string, service: Service)
    requires Came(o, made, k, base, outer, service)
    ensures From(o, made, k, Latest(o, made, k), service)
  {
    hide Visited;
    var n: nat :| After(o, made, k, Latest(o, made, k), n, base);
    assert After(o, made, k, Latest(o, made, k), n + 1, service);
  }

  // ----- what discovery leaves

  ghost predicate DepClosed(dep: Dep, services: Services) {
    && !dep.short
    && dep.cluster.Some?
    && (Is(dep.auto) && dep.Enabled() ==> dep.Target() in services)
  }

  /** Every automatic dependency of the service that is not disabled names an existing service. */
  ghost predicate ClosedAt(services: Services, k: Key) {
    k in services && forall i :: 0 <= i < |services[k].spec.deps| ==> DepClosed(services[k].spec.deps[i], services)
  }

  /** Moreover it is what its visits made of it. */
  ghost predicate DoneAt(o: Origin, made: seq<Key>, services: Services, k: Key)
    ensures DoneAt(o, made, services, k) ==> k in services
  {
    ClosedAt(services, k) && exists base, outer :: Came(o, made, k, base, outer, services[k])
  }

  /** It stays so while it is not registered anew. */
  lemma StillDone(o: Origin, made: seq<Key>, more: seq<Key>, before: Services, after: Services, k: Key)
    requires DoneAt(o, made, before, k) && before.Keys <= after.Keys && after[k] == before[k]
    requires k in made || k !in more
    ensures DoneAt(o, made + more, after, k)
  {
    hide Came;
    forall i | 0 <= i < |after[k].spec.deps|
      ensures DepClosed(after[k].spec.deps[i], after)
    {
      assert DepClosed(before[k].spec.deps[i], before);
    }
    var base, outer :| Came(o, made, k, base, outer, before[k]);
    CameMore(o, made, more, k, base, outer, before[k]);
  }

  /**
   What discovery makes of the declared configuration when it has registered `made`: the
   services are those declared and those registered, each registered one was asked for, and
   each is closed and what its visits made of it.
  */
  ghost predicate Discovered(o: Origin, made: seq<Key>, found: Services) {
    && (forall k :: k in found <==> ExistsAt(o, made, k))
    && History(o, made)
    && forall k :: k in found ==> DoneAt(o, made, found, k)
  }

  // ----- the automatic service that is missing

  /**
   A visit meets an enabled automatic dependency, and the service that it names, or that the
   last one before it named, does not exist.
  */
  ghost predicate Stray(o: Origin, made: seq<Key>, ask: Ask, i: nat) {
    var deps := MergedDeps(o.load, ask.key, ask.base);
    && Reads(o, made, ask) && Demands(deps[ask.index])
    && i <= ask.index && NamesService(deps[i]) && NamedService(deps[i]).0 != ""
    && (forall m :: i < m <= ask.index ==> !NamesService(deps[m]))
    && !ExistsAt(o, made, Asked(o, ask).Target())
  }

  /** That happens to the dependency `name` of `k`, on its first visit unless it may be `again`. */
  ghost predicate Lost(o: Origin, k: Key, name: string, again: bool) {
    exists made, ask, i ::
      History(o, made) && Stray(o, made, ask, i)
      && ask.key == k && MergedDeps(o.load, k, ask.base)[ask.index].name == name
      && (again || Starts(o, made, k, ask.base))
  }

  /** The dependency names a service that exists. */
  ghost predicate Seen(d: Dep, services: Services) {
    && d.cluster.Some? && NamesService(d) && NamedService(d).0 != ""
    && Key(d.cluster.value, NamedService(d).0) in services
  }

  /** Every enabled automatic dependency names one. */
  ghost predicate SeenDeps(deps: seq<Dep>, services: Services) {
    forall d :: d in deps && Demands(d) ==> Seen(d, services)
  }

  /** A service is visited for the first time, or with all its automatic dependencies in place. */
  ghost predicate Calm(o: Origin, made: seq<Key>, services: Services, k: Key, base: Service) {
    Starts(o, made, k, base) || SeenDeps(MergedDeps(o.load, k, base), services)
  }

  lemma CalmMore(o: Origin, made: seq<Key>, more: seq<Key>, before: Services, after: Services, k: Key, base: Service)
    requires Calm(o, made, before, k, base) && before.Keys <= after.Keys
    ensures Calm(o, made + more, after, k, base)
  {
  }

  lemma MissingIsLost(o: Origin, made: seq<Key>, services: Services, ask: Ask, again: bool)
    requires Story(o, made, services) && Reads(o, made, ask)
    requires again || Calm(o, made, services, ask.key, ask.base)
    requires var dep := Asked(o, ask); dep.service.Some? && Demands(dep) && dep.Target() !in services
    ensures Lost(o, ask.key, Asked(o, ask).name, again)
  {
    hide History;
    var deps := MergedDeps(o.load, ask.key, ask.base);
    hide MergedDeps;
    var i := LastNamed(deps, ask.index);
    assert Demands(deps[ask.index]) && deps[ask.index] in deps;
    assert !SeenDeps(deps, services);
    assert Stray(o, made, ask, i);
  }

  /** Its service was named in the declared configuration. */
  lemma StrayIsNamed(o: Origin, made: seq<Key>, ask: Ask, i: nat)
    requires Stray(o, made, ask, i) && Starts(o, made, ask.key, ask.base)
    ensures || (ask.key in o.given && exists d :: d in o.given[ask.key].spec.deps && NamesService(d))
            || exists m, d :: m in o.load && d in o.load[m].deps && NamesService(d)
  {
    var deps := MergedDeps(o.load, ask.key, ask.base);
    var path := ask.base.spec.path.GetOr(ask.key.name);
    assert deps[i] in deps;
    MergeOrigin(ask.base.spec.deps, o.load[path].deps, deps[i]);
    hide MergedDeps, MergeDeps;
    if x :| x in ask.base.spec.deps && deps[i] == MergedWith(x, o.load[path].deps) {
      if !NamesService(x) {
        var f := FindDep(o.load[path].deps, x.name).value;
        assert NamesService(f);
      }
    }
  }

  // ----- visits again

  /** Once resolved, an automatic dependency names a service that exists. */
  lemma SeenAgain(given: Dep, def: seq<Dep>, own: Dep, services: Services)
    requires given == MergedWith(given, def) && AllWellNamed(def) && Resolves(given, own)
    requires NamesService(given) && NamedService(given).0 != "" ==> own.service == Some(NamedService(given).0)
    requires DepClosed(own, services) && forall x :: x in services ==> Regular(x.name)
    requires Demands(MergedWith(own, def))
    ensures Seen(MergedWith(own, def), services)
  {
    assert FindDep(def, own.name) == FindDep(def, given.name);
    assert Demands(own);
  }

  lemma DecidedNamed(o: Origin, made: seq<Key>, deps: seq<Dep>, i: nat, outer: string, dep: Dep)
    requires i < |deps| && Chooses(o, made, First(deps, i, outer), dep)
    ensures NamesService(deps[i]) && NamedService(deps[i]).0 != "" ==> dep.service == Some(NamedService(deps[i]).0)
  {
    hide ByModule, ExistsAt;
    if NamesService(deps[i]) {
      ReferenceStays(deps, i, i);
    }
  }

  /** A service that is done is met calmly when it is visited again. */
  lemma DoneIsCalm(care: Care, places: set<string>, o: Origin, made: seq<Key>, services: Services, k: Key)
    requires Fits(care, o.load, places, services) && care.regular && DoneAt(o, made, services, k)
    ensures SeenDeps(MergedDeps(o.load, k, services[k]), services)
  {
    var base, outer :| Came(o, made, k, base, outer, services[k]);
    VisitedBuilds(o, made, outer, k, base, services[k]);
    var path, own := base.spec.path.GetOr(k.name), services[k].spec.deps;
    var def := o.load[path].deps;
    var given := MergeDeps(base.spec.deps, def);
    var deps := MergedDeps(o.load, k, services[k]);
    assert AllWellNamed(def) && DepsFit(care, o.load, places, def);
    SecondMerge(base.spec.deps, def, own);
    assert deps == MergeDeps(own, def);
    assert forall i :: 0 <= i < |own| ==> DepClosed(own[i], services) && Resolves(given[i], own[i]);
    assert forall i :: 0 <= i < |own| ==> Chooses(o, made, First(given, i, outer), own[i]);
    assert forall x :: x in services ==> Regular(x.name);
    hide *;
    forall i | 0 <= i < |deps| && Demands(deps[i])
      ensures Seen(deps[i], services)
    {
      MergedAgain(base.spec.deps, def, i);
      DecidedNamed(o, made, given, i, outer, own[i]);
      SeenAgain(given[i], def, own[i], services);
    }
    SeenByIndex(deps, services);
  }

  lemma SeenByIndex(deps: seq<Dep>, services: Services)
    requires forall i :: 0 <= i < |deps| && Demands(deps[i]) ==> Seen(deps[i], services)
    ensures SeenDeps(deps, services)
  {
  }
}
