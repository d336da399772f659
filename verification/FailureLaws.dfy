/** What each rejection says of the configuration it rejects. */
module FailureLaws {
  import opened Prelude
  import opened Affinities
  import opened AffinityForms
  import opened Cluster
  import opened Merging
  import opened Visits
  import opened Dependencies
  import opened Ordering
  import opened Placement
  import opened Configure
  import opened Compiler
  import Discovery
  import OrderLaws

  // ----- before placement

  /** A required dependency of the service, of that name, is in a cluster that does not exist. */
  ghost predicate NoCluster(services: Services, clusters: seq<string>, k: Key, name: string) {
    k in services &&
    exists d ::
      d in services[k].spec.deps && d.name == name && d.required == Some(true) && d.Target().cluster !in clusters
  }

  /** A required dependency of the service, of that name, is on a service that does not exist. */
  ghost predicate NoService(services: Services, clusters: seq<string>, k: Key, name: string) {
    k in services &&
    exists d ::
      d in services[k].spec.deps && d.name == name && d.required == Some(true)
      && d.Target().cluster in clusters && d.Target() !in services
  }

  /** Each key has an enabled dependency, on a service of another name, on the one before it, the first on the last. */
  ghost predicate Loop(services: Services, p: seq<Key>) {
    p != [] && forall i :: 0 <= i < |p| ==> EnabledOn(services, p[i], p[if i == 0 then |p| - 1 else i - 1])
  }

  ghost predicate EnabledOn(services: Services, k: Key, target: Key) {
    k in services &&
    exists d ::
      d in services[k].spec.deps && d.disabled != Some(true) && d.service != Some(k.name) && d.Target() == target
  }

  /** The module of the service: what it says, else its name. */
  ghost function Module(services: Services, k: Key): string
    requires k in services
  {
    match services[k].spec.path
    case Some(path) => if path == "" then k.name else path
    case None => k.name
  }

  /** The rejection before placement is deserved. */
  ghost predicate DeservedEarly(e: Error, o: Origin, order: seq<NodeId>, index: map<NodeId, seq<Entry>>, stages: Stages) {
    match e
    case ModuleNotLoaded =>
      || (exists k :: k in o.given && (if o.given[k].spec.path.Some? then o.given[k].spec.path.value else k.name) !in o.load)
      || exists dep :: Discovery.Declares(o, dep) && dep.path.Some? && dep.path.value != "" && dep.path.value !in o.load
    case AmbiguousModule =>
      exists a, b ::
        a in o.given && b in o.given && a != b && a.cluster == b.cluster && Module(o.given, a) == Module(o.given, b)
    case UnidentifiedDependency =>
      exists dep :: Discovery.Declares(o, dep) && dep.path in {None, Some("")}
        && (NamesService(dep) ==> NamedService(dep).0 == "")
    case InvalidAffinity(form) =>
      exists k, raw :: k in stages.discovered && raw in stages.discovered[k].spec.declared && NormalForm(raw) == Err(form)
    case RequiredClusterMissing(k, name) => NoCluster(stages.discovered, o.clusters, k, name)
    case RequiredServiceMissing(k, name) => NoService(stages.discovered, o.clusters, k, name)
    case NodeServiceMissing(n) =>
      n in order && n in index && exists x :: x in index[n] && x.key !in stages.discovered
    case Cycle => exists p :: Loop(stages.settled, p)
    case _ => e.ClusterMissing? || e.AutoServiceMissing?
  }

  lemma NeedsEnabled(services: Services, k: Key, target: Key)
    requires Needs(services, k, target)
    ensures EnabledOn(services, k, target)
  {
    var i :| 0 <= i < |services[k].spec.deps| && Orders(services[k].spec.deps[i], k.name, target);
    assert services[k].spec.deps[i] in services[k].spec.deps;
  }

  lemma LoopOfNeeds(services: Services)
    requires NeedsLoop(services)
    ensures exists p :: Loop(services, p)
  {
    hide Needs, EnabledOn;
    var p: seq<Key> :|
      && p != []
      && (forall i {:trigger p[i]} :: 0 <= i < |p| - 1 ==> Needs(services, p[i + 1], p[i]))
      && Needs(services, p[0], p[|p| - 1]);
    forall i | 0 <= i < |p|
      ensures EnabledOn(services, p[i], p[if i == 0 then |p| - 1 else i - 1])
    {
      if i == 0 {
        NeedsEnabled(services, p[0], p[|p| - 1]);
      } else {
        var j := i - 1;
        assert Needs(services, p[j + 1], p[j]);
        NeedsEnabled(services, p[i], p[i - 1]);
      }
    }
    assert Loop(services, p);
  }

  lemma RefusedDeserves(services: Services, before: Services, clusters: seq<string>, k: Key, e: Error)
    requires k in services && RefusesAt(k, services[k], clusters, services, e)
    requires before.Keys == services.Keys && before[k].spec == services[k].spec
    ensures e.RequiredClusterMissing? || e.RequiredServiceMissing?
    ensures e.RequiredClusterMissing? ==> NoCluster(before, clusters, e.key, e.dep)
    ensures e.RequiredServiceMissing? ==> NoService(before, clusters, e.key, e.dep)
  {
    var i :| 0 <= i < |services[k].spec.deps| && Refuses(k, services[k].spec.deps[i], clusters, services, e);
    assert services[k].spec.deps[i] in before[k].spec.deps;
  }

  /** Whatever rejects a configuration before placement is there. */
  lemma EarlyIsDeserved(e: Error, o: Origin, places: set<string>,
                        order: seq<NodeId>, index: map<NodeId, seq<Entry>>, stages: Stages)
    requires RejectedEarly(e, o, places, order, index, stages)
    ensures DeservedEarly(e, o, order, index, stages)
  {
    if Discovery.Cause(o, places, e) {
      CauseDeserves(e, o, places, order, index, stages);
    } else if Malformed(stages.discovered, e) {
      FormDeserves(e, o, order, index, stages);
    } else {
      hide Discovered, Discovery.Cause;
      MiddleDeserves(e, o, order, index, stages);
    }
  }

  lemma CauseDeserves(
    e: Error, o: Origin, places: set<string>, order: seq<NodeId>, index: map<NodeId, seq<Entry>>, stages: Stages)
    requires Discovery.Cause(o, places, e)
    ensures DeservedEarly(e, o, order, index, stages)
  {
    hide Discovery.Declares, Lost, Discovery.Irregular, Located, Loop, NoCluster, NoService;
    if e == AmbiguousModule {
      TwoProviders(o.given);
    }
  }

  lemma TwoProviders(services: Services)
    requires !OneProvider(services)
    ensures exists a, b ::
      a in services && b in services && a != b && a.cluster == b.cluster && Module(services, a) == Module(services, b)
  {
    var cluster, path, a, b :| Provides(services, cluster, path, a) && Provides(services, cluster, path, b) && a != b;
    assert Module(services, Key(cluster, a)) == Module(services, Key(cluster, b));
  }

  lemma FormDeserves(e: Error, o: Origin, order: seq<NodeId>, index: map<NodeId, seq<Entry>>, stages: Stages)
    requires Malformed(stages.discovered, e)
    ensures DeservedEarly(e, o, order, index, stages)
  {
    hide NormalForm;
    var k :| k in stages.discovered && MalformedAt(stages.discovered[k].spec.declared, e.form);
    var declared := stages.discovered[k].spec.declared;
    var i :| 0 <= i < |declared| && NormalForm(declared[i]) == Err(e.form);
    assert declared[i] in declared;
  }

  lemma RequiredDeserves(e: Error, o: Origin, order: seq<NodeId>, index: map<NodeId, seq<Entry>>, stages: Stages, k: Key)
    requires Formed(stages.discovered, stages.found)
    requires k in stages.found && RefusesAt(k, stages.found[k], o.clusters, stages.found, e)
    ensures DeservedEarly(e, o, order, index, stages)
  {
    assert stages.found[k].spec == stages.discovered[k].spec;
    hide FormsOf, RefusesAt, NoCluster, NoService, Formed;
    RefusedDeserves(stages.found, stages.discovered, o.clusters, k, e) by {
      KeysFormed(stages.discovered, stages.found);
    }
  }

  lemma KeysFormed(before: Services, after: Services)
    requires Formed(before, after)
    ensures after.Keys == before.Keys
  {
  }

  lemma NodeDeserves(e: Error, o: Origin, order: seq<NodeId>, index: map<NodeId, seq<Entry>>, stages: Stages)
    requires NodeMisses(stages.settled, order, index, e) && stages.settled.Keys == stages.discovered.Keys
    ensures DeservedEarly(e, o, order, index, stages)
  {
    var i :| 0 <= i < |index[e.node]| && index[e.node][i].key !in stages.settled;
    assert index[e.node][i] in index[e.node];
  }

  lemma MiddleDeserves(e: Error, o: Origin, order: seq<NodeId>, index: map<NodeId, seq<Entry>>, stages: Stages)
    requires Formed(stages.discovered, stages.found)
    requires RejectedMiddle(e, o.clusters, order, index, stages.found, stages.settled)
    ensures DeservedEarly(e, o, order, index, stages)
  {
    hide FormsOf, RefusesAt, NeedsLoop, Loop, AllSatisfied, SettledService, ClosedAt, NodeMisses;
    if k :| k in stages.found && RefusesAt(k, stages.found[k], o.clusters, stages.found, e) {
      hide DeservedEarly;
      RequiredDeserves(e, o, order, index, stages, k);
    } else if NodeMisses(stages.settled, order, index, e) {
      hide DeservedEarly;
      NodeDeserves(e, o, order, index, stages);
    } else {
      LoopOfNeeds(stages.settled);
    }
  }

  // ----- from placement on

  /** An enabled dependency names the key. */
  ghost predicate Named(services: Services, target: Key) {
    exists k, d :: k in services && d in services[k].spec.deps && d.disabled != Some(true) && d.Target() == target
  }

  /** The rejection from placement on is deserved. */
  ghost predicate DeservedLate(
    e: Error, fleet: Fleet, settled: Services, placed: Services, declared: map<NodeId, seq<Entry>>)
  {
    match e
    case Unresolvable => exists k, a :: k in settled && a in settled[k].affinity && Resolution(fleet, a).Err?
    case Dangling(d) => d !in settled && Named(settled, d)
    case RequiredLocal(k, name, n) =>
      k in placed && Hosts(placed[k], n) &&
      exists d ::
        d in placed[k].spec.deps && d.name == name && d.local == Some(true) && d.required == Some(true)
        && (d.Target() in placed ==> !Hosts(placed[d.Target()], n))
    case NotSingle =>
      exists k, d :: k in placed && placed[k].instances != [] && d in placed[k].spec.deps
        && d.disabled != Some(true) && d.single == Some(true)
        && d.Target() in placed && |placed[d.Target()].instances| != 1
    case ShouldNeverHappen =>
      exists n, i, j ::
        n in fleet.order && n in declared && 0 <= i < j < |declared[n]| && declared[n][i].key == declared[n][j].key
    case _ => false
  }

  /** Whatever rejects a configuration from placement on is there. */
  lemma LateIsDeserved(e: Error, fleet: Fleet, settled: Services, placed: Services,
                       declared: map<NodeId, seq<Entry>>, index: map<NodeId, seq<Entry>>, graph: seq<Key>)
    requires RejectedLate(e, fleet, settled, placed, declared, index, graph)
    ensures DeservedLate(e, fleet, settled, placed, declared)
  {
    if RejectedInPlacement(e, fleet, settled) {
      PlacementDeserves(e, fleet, settled, placed, declared);
    } else {
      hide RejectedInPlacement, RejectedLast, DeservedLate;
      KeysOfSorted(fleet, settled, placed, declared, index, graph);
      LastDeserves(e, fleet, settled, placed, declared);
    }
  }

  lemma KeysOfSorted(fleet: Fleet, settled: Services, placed: Services,
                     declared: map<NodeId, seq<Entry>>, index: map<NodeId, seq<Entry>>, graph: seq<Key>)
    requires PlacedAndSorted(fleet, settled, placed, declared, index, graph)
    ensures SameSpecs(placed, settled)
  {
    CompleteKeys(fleet, settled, placed, Reverse(graph));
  }

  lemma PlacementDeserves(e: Error, fleet: Fleet, settled: Services, placed: Services, declared: map<NodeId, seq<Entry>>)
    requires RejectedInPlacement(e, fleet, settled)
    ensures DeservedLate(e, fleet, settled, placed, declared)
  {
    hide Blocked;
    if e == Unresolvable {
      var k :| k in settled && SomeBlocked(fleet, settled[k]);
      var i :| 0 <= i < |settled[k].affinity| && Blocked(fleet, settled[k].affinity[i]);
      assert settled[k].affinity[i] in settled[k].affinity && Resolution(fleet, settled[k].affinity[i]).Err?;
    } else {
      MissedIsNamed(settled, e.key);
    }
  }

  lemma MissedIsNamed(services: Services, target: Key)
    requires Misses(services, target)
    ensures target !in services && Named(services, target)
  {
    var k, i :| k in services && 0 <= i < |services[k].spec.deps|
      && services[k].spec.deps[i].Enabled() && services[k].spec.deps[i].Target() == target;
    assert services[k].spec.deps[i] in services[k].spec.deps;
  }

  lemma LastDeserves(e: Error, fleet: Fleet, settled: Services, placed: Services, declared: map<NodeId, seq<Entry>>)
    requires RejectedLast(e, fleet.order, settled, placed, declared) && SameSpecs(placed, settled)
    ensures DeservedLate(e, fleet, settled, placed, declared)
  {
    match e
    case RequiredLocal(k, _, _) =>
      hide OrderLaws.NeedsWhatItActivates, Hosts;
      var i :| 0 <= i < |placed[k].spec.deps| && LocalStops(placed, k, placed[k].spec.deps[i], e);
      assert placed[k].spec.deps[i] in placed[k].spec.deps;
    case ShouldNeverHappen =>
      RepeatIs(fleet.order, declared);
    case Dangling(_) | NotSingle =>
      var k :| k in placed && placed[k].instances != [] && InjectionStopsAt(placed, placed[k].spec.deps, e);
      var i :| 0 <= i < |placed[k].spec.deps| && InjectionStops(placed, placed[k].spec.deps[i], e);
      assert placed[k].spec.deps[i] in placed[k].spec.deps;
  }

  lemma RepeatIs(order: seq<NodeId>, declared: map<NodeId, seq<Entry>>)
    requires !NoRepeats(order, declared)
    ensures exists n, i, j ::
      n in order && n in declared && 0 <= i < j < |declared[n]| && declared[n][i].key == declared[n][j].key
  {
    var n :| n in order && n in declared && !Distinct(Keys(declared[n]));
    var i, j :| 0 <= i < j < |Keys(declared[n])| && Keys(declared[n])[i] == Keys(declared[n])[j];
    assert declared[n][i].key == declared[n][j].key;
  }
}
