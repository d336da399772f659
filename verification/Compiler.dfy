/** The whole normalisation, stage after stage, and what a configuration that passes it satisfies. */
module Compiler {
  import opened Prelude
  import opened Affinities
  import opened AffinityForms
  import opened Cluster
  import opened Dependencies
  import opened Ordering
  import opened Placement
  import opened AffinityPass
  import opened PlacementLaws
  import opened OrderLaws
  import opened NodeIndex
  import opened Configure
  import opened Visits
  import Discovery

  // ----- normalising the services

  /** The declared affinities are well formed, and these are their normal forms. */
  ghost predicate FormsOf(declared: seq<Raw>, forms: seq<Affinity>) {
    |forms| == |declared| && forall i :: 0 <= i < |declared| ==> NormalForm(declared[i]) == Ok(forms[i])
  }

  ghost predicate WellFormed(declared: seq<Raw>) {
    forall i :: 0 <= i < |declared| ==> NormalForm(declared[i]).Ok?
  }

  method NormalizeAffinities(declared: seq<Raw>) returns (r: Result<seq<Affinity>, Error>)
    ensures r.Ok? <==> WellFormed(declared)
    ensures r.Ok? ==> FormsOf(declared, r.value)
    ensures r.Err? ==> r.error.InvalidAffinity?
    ensures r.Err? ==> MalformedAt(declared, r.error.form)
  {
    var forms: seq<Affinity> := [];
    for j := 0 to |declared|
      invariant |forms| == j && forall i :: 0 <= i < j ==> NormalForm(declared[i]) == Ok(forms[i])
    {
      var form := Normalize(declared[j]);
      if form.Err? {
        return Err(InvalidAffinity(form.error));
      }
      forms := forms + [form.value];
    }
    return Ok(forms);
  }

  /** A declared affinity is refused, with that error. */
  ghost predicate Malformed(services: Services, e: Error) {
    e.InvalidAffinity? && exists k :: k in services && MalformedAt(services[k].spec.declared, e.form)
  }

  ghost predicate MalformedAt(declared: seq<Raw>, form: FormError) {
    exists i :: 0 <= i < |declared| && NormalForm(declared[i]) == Err(form)
  }

  /** Normal affinities, and no instance yet. */
  ghost predicate Prepared(before: Service, after: Service) {
    after.spec == before.spec && after.instances == [] && FormsOf(before.spec.declared, after.affinity)
  }

  /** All services are prepared. */
  ghost predicate Formed(before: Services, after: Services) {
    after.Keys == before.Keys && forall k :: k in before ==> Prepared(before[k], after[k])
  }

  method NormalizeServices(c: Config) returns (r: Result<(), Error>)
    requires c.Valid()
    modifies c`services
    ensures r.Ok? <==> forall k :: k in old(c.services) ==> WellFormed(old(c.services)[k].spec.declared)
    ensures r.Ok? ==> c.Valid() && Formed(old(c.services), c.services)
    ensures r.Err? ==> Malformed(old(c.services), r.error)
  {
    hide WellFormed, FormsOf, MalformedAt;
    ghost var before := c.services;
    var order := c.order;
    for i := 0 to |order|
      invariant c.services.Keys == before.Keys
      invariant forall k :: k in order[..i] ==> WellFormed(before[k].spec.declared)
      invariant forall k :: k in before ==>
        if k in order[..i] then Prepared(before[k], c.services[k]) else c.services[k] == before[k]
    {
      var k := order[i];
      assert k in before && k !in order[..i];
      assert order[..i + 1] == order[..i] + [k];
      var forms := NormalizeAffinities(c.services[k].spec.declared);
      if forms.Err? {
        return Err(forms.error);
      }
      c.services := c.services[k := Service(c.services[k].spec, forms.value, [])];
    }
    assert order[..|order|] == order;
    return Ok(());
  }

  // ----- checking the nodes

  ghost predicate NodesKnow(services: Services, order: seq<NodeId>, index: map<NodeId, seq<Entry>>)
    requires forall n :: n in order ==> n in index
  {
    forall n, i :: n in order && 0 <= i < |index[n]| ==> index[n][i].key in services
  }

  /** The node declares a service that does not exist. */
  ghost predicate NodeMisses(services: Services, order: seq<NodeId>, index: map<NodeId, seq<Entry>>, e: Error) {
    && e.NodeServiceMissing? && e.node in order && e.node in index
    && exists i :: 0 <= i < |index[e.node]| && index[e.node][i].key !in services
  }

  /** A node may only declare services that exist. */
  method CheckNodes(c: Config) returns (r: Result<(), Error>)
    requires c.Valid()
    ensures r.Ok? <==> NodesKnow(c.services, c.fleet.order, c.index)
    ensures r.Err? ==> NodeMisses(c.services, c.fleet.order, c.index, r.error)
  {
    var order := c.fleet.order;
    for i := 0 to |order|
      invariant forall n, j :: n in order[..i] && 0 <= j < |c.index[n]| ==> c.index[n][j].key in c.services
    {
      var n := order[i];
      assert order[..i + 1] == order[..i] + [n];
      for l := 0 to |c.index[n]|
        invariant forall j :: 0 <= j < l ==> c.index[n][j].key in c.services
      {
        if c.index[n][l].key !in c.services {
          return Err(NodeServiceMissing(n));
        }
      }
    }
    assert order[..|order|] == order;
    return Ok(());
  }

  // ----- what the result satisfies

  /** The local check cannot reject a dependency that is activated automatically. */
  lemma AutoIsLocal(fleet: Fleet, before: Services, after: Services, rev: seq<Key>, k: Key, i: nat)
    requires Complete(fleet, before, after, rev) && Ordered(before, rev)
    requires k in before && i < |before[k].spec.deps|
    requires Is(before[k].spec.deps[i].auto) && before[k].spec.deps[i].Enabled()
    ensures LocalHolds(after, k, before[k].spec.deps[i])
  {
    var dep := before[k].spec.deps[i];
    assert AutoOn(dep, dep.Target()) && Activates(before[k], dep.Target());
    forall n | Hosts(after[k], n)
      ensures Hosts(after[dep.Target()], n)
    {
      CoLocated(fleet, before, after, rev, k, dep.Target(), n);
    }
  }

  /** Without repeats, at most one entry is for a given service. */
  lemma {:induction false} OneEntryPerKey(entries: seq<Entry>, k: Key)
    requires Distinct(Keys(entries))
    ensures |Filter(entries, OfKey(k))| <= 1
  {
    if entries != [] {
      assert Keys(entries[1..]) == Keys(entries)[1..];
      OneEntryPerKey(entries[1..], k);
      if entries[0].key == k {
        forall e | e in entries[1..]
          ensures e.key != k
        {
          var i :| 0 <= i < |entries[1..]| && entries[1..][i] == e;
          assert Keys(entries)[i + 1] == e.key;
        }
        FilterNone(entries[1..], OfKey(k));
      }
    }
  }

  /** No node declares a service twice. */
  ghost predicate NoRepeats(order: seq<NodeId>, declared: map<NodeId, seq<Entry>>) {
    forall n :: n in order && n in declared ==> Distinct(Keys(declared[n]))
  }

  /** The lists of the nodes once sorted. */
  ghost predicate Resorted(order: seq<NodeId>, graph: seq<Key>,
                           before: map<NodeId, seq<Entry>>, after: map<NodeId, seq<Entry>>) {
    && after.Keys == before.Keys
    && forall n :: n in before ==> (after[n] == if n in order then SortByRank(graph, before[n]) else before[n])
  }

  /** Declared lists without repeats never lead to a service listed twice. */
  lemma AllListedOnce(fleet: Fleet, before: Services, after: Services, graph: seq<Key>,
                      declared: map<NodeId, seq<Entry>>, listed: map<NodeId, seq<Entry>>, index: map<NodeId, seq<Entry>>,
                      k: Key)
    requires Complete(fleet, before, after, Reverse(graph)) && Enumerates(graph, before)
    requires Indexed(fleet, declared, listed, after, Reverse(graph), |graph|)
    requires Resorted(fleet.order, graph, listed, index)
    requires (forall n :: n in fleet.order ==> n in declared) && NoRepeats(fleet.order, declared)
    requires k in after
    ensures ListedOnce(after[k], index, k, |after[k].instances|)
  {
    hide Indexed, SortByRank, Filter, Distinct, Keys;
    forall i | 0 <= i < |after[k].instances|
      ensures after[k].instances[i].node in index
      ensures |Filter(index[after[k].instances[i].node], OfKey(k))| <= 1
    {
      var n := after[k].instances[i].node;
      assert Ids(after[k].instances)[i] == n && Hosts(after[k], n);
      HostsAreNodes(fleet, before, after, Reverse(graph), k, n);
      ListedExactly(fleet, before, after, graph, declared, listed, n);
      IndexedKeys(fleet, declared, listed, after, Reverse(graph), |graph|);
      SortKeys(graph, listed[n]);
      OneEntryPerKey(index[n], k);
    }
  }

  lemma IndexedKeys(fleet: Fleet, declared: map<NodeId, seq<Entry>>, index: map<NodeId, seq<Entry>>,
                    after: Services, rev: seq<Key>, m: nat)
    requires m <= |rev| && Indexed(fleet, declared, index, after, rev, m)
    ensures index.Keys == declared.Keys
  {
  }

  /** The lists of the nodes, node by node, once sorted. */
  lemma SortedLists(fleet: Fleet, settled: Services, placed: Services, graph: seq<Key>,
                    declared: map<NodeId, seq<Entry>>, listed: map<NodeId, seq<Entry>>, index: map<NodeId, seq<Entry>>,
                    n: NodeId)
    requires placed.Keys == settled.Keys && Enumerates(graph, settled)
    requires Indexed(fleet, declared, listed, placed, Reverse(graph), |graph|)
    requires Resorted(fleet.order, graph, listed, index)
    requires n in fleet.order && n in declared && Distinct(Keys(declared[n]))
    requires forall i :: 0 <= i < |declared[n]| ==> declared[n][i].key in settled
    ensures n in index && Keys(index[n]) == Filter(graph, OnNode(placed, Keys(declared[n]), n))
  {
    forall k | k in Keys(declared[n])
      ensures k in graph
    {
      var i :| 0 <= i < |declared[n]| && declared[n][i].key == k;
    }
    hide Indexed, SortByRank, Filter;
    IndexedKeys(fleet, declared, listed, placed, Reverse(graph), |graph|);
    TwoViewsAgree(fleet, settled, placed, graph, declared, listed, n);
  }

  // ----- the stages in order

  /** The state between the dependency stage and placement. */
  ghost predicate Ready(order: seq<NodeId>, index: map<NodeId, seq<Entry>>, services: Services, graph: seq<Key>) {
    && Distinct(graph)
    && (forall x :: x in graph <==> x in services || exists k :: Needs(services, k, x))
    && (forall a, b :: Needs(services, b, a) ==> Before(graph, a, b))
    && (forall k :: k in services ==> services[k].instances == [] && FormsOf(services[k].spec.declared, services[k].affinity))
    && (forall n :: n in order ==> n in index)
    && NodesKnow(services, order, index)
    && RequiredExist(services)
    && AllDistinctNames(services)
  }

  /** No two dependencies of a service share a name. */
  ghost predicate AllDistinctNames(services: Services) {
    forall k :: k in services ==> DistinctNames(services[k].spec.deps)
  }

  /** What discovery and the dependency stage make of the services. */
  ghost predicate Settles(clusters: seq<string>, found: Services, settled: Services) {
    && settled.Keys == found.Keys
    && (forall k :: k in found ==> k.cluster in clusters && ClosedAt(found, k))
    && (forall k :: k in found ==> AllSatisfied(found[k], |found[k].spec.deps|, clusters, found))
    && (forall k :: k in found ==> settled[k] == SettledService(found[k], clusters, found))
  }

  lemma ClosedKept(before: Services, after: Services)
    requires Formed(before, after) && forall k :: k in before ==> ClosedAt(before, k)
    ensures forall k :: k in after ==> ClosedAt(after, k)
  {
    forall k | k in after
      ensures ClosedAt(after, k)
    {
      assert ClosedAt(before, k) && after[k].spec == before[k].spec;
      forall i | 0 <= i < |after[k].spec.deps|
        ensures DepClosed(after[k].spec.deps[i], after)
      {
        assert DepClosed(before[k].spec.deps[i], before);
      }
    }
  }

  /** Settling touches neither affinities nor instances. */
  lemma SettlingKeeps(clusters: seq<string>, found: Services, settled: Services)
    requires settled.Keys == found.Keys
    requires forall k :: k in found ==> settled[k] == SettledService(found[k], clusters, found)
    ensures forall k :: k in found ==> settled[k].affinity == found[k].affinity
    ensures forall k :: k in found ==> settled[k].instances == found[k].instances
    ensures forall k :: k in found ==> settled[k].spec.declared == found[k].spec.declared
  {
  }

  lemma NamesSettled(clusters: seq<string>, found: Services, settled: Services)
    requires settled.Keys == found.Keys && AllDistinctNames(found)
    requires forall k :: k in found ==> settled[k] == SettledService(found[k], clusters, found)
    ensures AllDistinctNames(settled)
  {
    forall k | k in settled
      ensures DistinctNames(settled[k].spec.deps)
    {
      assert forall i :: 0 <= i < |settled[k].spec.deps| ==>
        settled[k].spec.deps[i] == Settled(found[k].spec.deps[i], clusters, found);
    }
  }

  lemma RequiredSettled(clusters: seq<string>, found: Services, settled: Services)
    requires settled.Keys == found.Keys
    requires forall k :: k in found ==> AllSatisfied(found[k], |found[k].spec.deps|, clusters, found)
    requires forall k :: k in found ==> settled[k] == SettledService(found[k], clusters, found)
    ensures RequiredExist(settled)
  {
    forall k, i | k in settled && 0 <= i < |settled[k].spec.deps| && Is(settled[k].spec.deps[i].required)
      ensures settled[k].spec.deps[i].Target() in settled
    {
      assert settled[k].spec.deps[i] == Settled(found[k].spec.deps[i], clusters, found);
      assert Satisfied(found[k].spec.deps[i], clusters, found);
    }
  }

  /**
   The services after each stage: those registered by discovery, all that it found, the same
   with normal affinities, with settled dependencies, and with instances.
  */
  datatype Stages = Stages(made: seq<Key>, discovered: Services, found: Services, settled: Services, placed: Services)
  {
    /** The services that are settled come from the declared ones. */
    ghost predicate Follow(o: Origin) {
      && Discovered(o, made, discovered)
      && Formed(discovered, found)
      && Settles(o.clusters, found, settled)
    }
  }

  /** Why the stages before placement fail, each on what the stages before it have left. */
  ghost predicate RejectedEarly(e: Error, o: Origin, places: set<string>,
                                order: seq<NodeId>, index: map<NodeId, seq<Entry>>, stages: Stages) {
    || Discovery.Cause(o, places, e)
    || (Discovered(o, stages.made, stages.discovered)
        && (Malformed(stages.discovered, e)
            || (Formed(stages.discovered, stages.found)
                && RejectedMiddle(e, o.clusters, order, index, stages.found, stages.settled))))
  }

  lemma DiscoveredIsClosed(o: Origin, made: seq<Key>, services: Services)
    requires Discovered(o, made, services)
    ensures forall k :: k in services ==> ClosedAt(services, k)
  {
    hide Came, ClosedAt, History;
    assert forall k :: k in services ==> DoneAt(o, made, services, k);
  }

  lemma AllFormed(before: Services, after: Services)
    requires Formed(before, after)
    ensures after.Keys == before.Keys
    ensures forall k :: k in after ==> after[k].instances == [] && FormsOf(after[k].spec.declared, after[k].affinity)
  {
    hide FormsOf;
  }

  /** The stages before placement. */
  method Prepare(c: Config) returns (r: Result<(), Error>, ghost stages: Stages)
    requires c.Valid() && Discovery.NamesApart(c.load, c.services)
    modifies c`tables, c`order, c`services, c`graph
    ensures r.Ok? ==> c.Valid() && Ready(c.fleet.order, c.index, c.services, c.graph)
    ensures r.Ok? ==> stages.settled == c.services && stages.Follow(Origin(c.load, c.clusters, old(c.services)))
    ensures r.Err? ==> RejectedEarly(r.error, Origin(c.load, c.clusters, old(c.services)), old(Discovery.Places(c)),
      c.fleet.order, c.index, stages)
  {
    hide ClosedAt, DoneAt, Discovery.Cause, Discovery.NamesApart, FormsOf, WellFormed, Ready, Settles, NodesKnow,
      NeedsLoop, DistinctNames, Discovered, Formed, Malformed, RejectedMiddle;
    ghost var o, places, made := Origin(c.load, c.clusters, c.services), Discovery.Places(c), [];
    stages := Stages([], c.services, c.services, c.services, c.services);
    r, made := Discovery.Discover(c);
    stages := stages.(made := made, discovered := c.services);
    if r.Err? {
      return;
    }
    DiscoveredIsClosed(o, made, c.services);
    ApartIsDistinct(c.load, c.services);
    r := NormalizeServices(c);
    stages := stages.(found := c.services);
    if r.Err? {
      return;
    }
    ClosedKept(stages.discovered, stages.found);
    AllFormed(stages.discovered, stages.found);
    FormedNames(stages.discovered, stages.found);
    r := SettleAndOrder(c);
    stages := stages.(settled := c.services);
  }

  lemma FormedNames(before: Services, after: Services)
    requires Formed(before, after) && AllDistinctNames(before)
    ensures AllDistinctNames(after)
  {
    hide FormsOf;
  }

  lemma ApartIsDistinct(load: map<string, Definition>, services: Services)
    requires Discovery.NamesApart(load, services)
    ensures AllDistinctNames(services)
  {
  }

  /** Why the dependency stage, the check of the nodes and the sort fail. */
  ghost predicate RejectedMiddle(e: Error, clusters: seq<string>, order: seq<NodeId>, index: map<NodeId, seq<Entry>>,
                                 found: Services, settled: Services) {
    || (exists k :: k in found && RefusesAt(k, found[k], clusters, found, e))
    || (Settles(clusters, found, settled)
        && (NodeMisses(settled, order, index, e) || (e == Cycle && NeedsLoop(settled))))
  }

  /** The dependency stage, the check of the nodes and the sort. */
  method SettleAndOrder(c: Config) returns (r: Result<(), Error>)
    requires c.Valid() && AllDistinctNames(c.services)
    requires forall k :: k in c.services ==> ClosedAt(c.services, k)
    requires forall k :: k in c.services ==>
      c.services[k].instances == [] && FormsOf(c.services[k].spec.declared, c.services[k].affinity)
    modifies c`services, c`graph
    ensures r.Ok? ==> c.Valid() && Ready(c.fleet.order, c.index, c.services, c.graph)
    ensures r.Ok? ==> Settles(c.clusters, old(c.services), c.services)
    ensures r.Err? ==> RejectedMiddle(r.error, c.clusters, c.fleet.order, c.index, old(c.services), c.services)
  {
    hide AllSatisfied, SettledService, ClosedAt, FormsOf, WellFormed, Needs, NeedsLoop, NodesKnow,
      RequiredExist, AllDistinctNames, RefusesAt, NodeMisses;
    ghost var found := c.services;
    r := Settle(c);
    if r.Err? {
      return;
    }
    SettlingKeeps(c.clusters, found, c.services);
    RequiredSettled(c.clusters, found, c.services);
    NamesSettled(c.clusters, found, c.services);
    r := CheckNodes(c);
    if r.Err? {
      return;
    }
    r := Order(c);
  }

  /**
   The list of a node: declared entries, which may have learnt the module of their service,
   and entries for the other services placed there, with its module and without options.
  */
  ghost predicate EntriesRight(declared: seq<Entry>, entries: seq<Entry>, placed: Services, n: NodeId) {
    && (forall e :: e in entries ==>
      || (exists x :: x in declared && Completed(x, e, placed))
      || (e.key !in Keys(declared) && e.key in placed && Hosts(placed[e.key], n)
          && e == Entry(e.key, placed[e.key].spec.path, map[])))
    && (forall x :: x in declared ==> exists e :: e in entries && Completed(x, e, placed))
    && forall k :: k in placed && Hosts(placed[k], n) ==>
      exists e :: e in entries && e.key == k && (e.path.Some? || placed[k].spec.path.None?)
  }

  ghost predicate ListsRight(order: seq<NodeId>, declared: map<NodeId, seq<Entry>>, index: map<NodeId, seq<Entry>>,
                             placed: Services) {
    forall n :: n in order && n in declared ==> n in index && EntriesRight(declared[n], index[n], placed, n)
  }

  lemma ListedParts(fleet: Fleet, settled: Services, placed: Services, graph: seq<Key>,
                    declared: map<NodeId, seq<Entry>>, listed: map<NodeId, seq<Entry>>, n: NodeId)
      returns (arrived: seq<Key>)
    requires placed.Keys == settled.Keys && Enumerates(graph, settled)
    requires Indexed(fleet, declared, listed, placed, Reverse(graph), |graph|) && n in fleet.order && n in declared
    ensures n in listed && KeepsEntries(declared[n], listed[n], placed)
    ensures Keys(listed[n]) == Keys(declared[n]) + arrived
    ensures forall k :: k in arrived ==> k !in Keys(declared[n]) && k in placed && Hosts(placed[k], n)
    ensures forall k :: k in placed && Hosts(placed[k], n) ==> KnowsPath(listed[n], k, placed[k].spec.path)
  {
    var rev := Reverse(graph);
    ReversedIn(graph);
    assert rev[..|graph|] == rev;
    arrived := Filter(rev, Arrives(placed, Keys(declared[n]), n));
    hide KeepsEntries, KnowsPath, Hosts, Keys, Filter;
    forall k | k in placed && Hosts(placed[k], n)
      ensures KnowsPath(listed[n], k, placed[k].spec.path)
    {
      var j :| 0 <= j < |rev| && rev[j] == k;
    }
  }

  /** An entry of the list comes from a declared one or was added for a service placed there. */
  lemma EntryOrigin(a: seq<Entry>, b: seq<Entry>, arrived: seq<Key>, placed: Services, n: NodeId, i: nat)
    requires i < |b| && KeepsEntries(a, b, placed) && Keys(b) == Keys(a) + arrived
    requires forall k :: k in arrived ==> k !in Keys(a) && k in placed && Hosts(placed[k], n)
    ensures || (exists x :: x in a && Completed(x, b[i], placed))
            || (b[i].key !in Keys(a) && b[i].key in placed && Hosts(placed[b[i].key], n)
                && b[i] == Entry(b[i].key, placed[b[i].key].spec.path, map[]))
  {
    hide Hosts, Completed;
    if i < |a| {
      assert a[i] in a;
    } else {
      assert Keys(b)[i] == arrived[i - |a|] == b[i].key;
    }
  }

  lemma DeclaredKept(a: seq<Entry>, b: seq<Entry>, placed: Services, x: Entry)
    requires KeepsEntries(a, b, placed) && x in a
    ensures exists e :: e in b && Completed(x, e, placed)
  {
    hide Completed;
    var i :| 0 <= i < |a| && a[i] == x;
    assert b[i] in b;
  }

  lemma ListedEntries(fleet: Fleet, settled: Services, placed: Services, graph: seq<Key>,
                      declared: map<NodeId, seq<Entry>>, listed: map<NodeId, seq<Entry>>, n: NodeId)
    requires placed.Keys == settled.Keys && Enumerates(graph, settled)
    requires Indexed(fleet, declared, listed, placed, Reverse(graph), |graph|) && n in fleet.order && n in declared
    ensures n in listed && EntriesRight(declared[n], listed[n], placed, n)
  {
    var arrived := ListedParts(fleet, settled, placed, graph, declared, listed, n);
    var a, b := declared[n], listed[n];
    hide Indexed, Hosts, Enumerates, Completed, Keys, Reverse, KeepsEntries;
    forall e | e in b
      ensures || (exists x :: x in a && Completed(x, e, placed))
              || (e.key !in Keys(a) && e.key in placed && Hosts(placed[e.key], n)
                  && e == Entry(e.key, placed[e.key].spec.path, map[]))
    {
      var i :| 0 <= i < |b| && b[i] == e;
      EntryOrigin(a, b, arrived, placed, n, i);
    }
    forall x | x in a
      ensures exists e :: e in b && Completed(x, e, placed)
    {
      DeclaredKept(a, b, placed, x);
    }
    forall k | k in placed && Hosts(placed[k], n)
      ensures exists e :: e in b && e.key == k && (e.path.Some? || placed[k].spec.path.None?)
    {
      PathKnown(b, k, placed[k].spec.path);
    }
  }

  lemma PathKnown(entries: seq<Entry>, k: Key, path: Option<string>)
    requires KnowsPath(entries, k, path)
    ensures exists e :: e in entries && e.key == k && (e.path.Some? || path.None?)
  {
    var i :| 0 <= i < |entries| && entries[i].key == k && (entries[i].path.Some? || path.None?);
    assert entries[i] in entries;
  }

  lemma SortedEntries(declared: seq<Entry>, listed: seq<Entry>, placed: Services, n: NodeId, graph: seq<Key>)
    requires EntriesRight(declared, listed, placed, n)
    ensures EntriesRight(declared, SortByRank(graph, listed), placed, n)
  {
    SortPermutes(graph, listed);
    var sorted := SortByRank(graph, listed);
    hide Completed, SortByRank, Hosts, RankSorted;
    forall e: Entry
      ensures e in sorted <==> e in listed
    {
      assert e in multiset(sorted) <==> e in multiset(listed);
    }
  }

  /**
   What the stages before placement, and its success, say of the settled services: names
   are distinct, what is required exists, affinities are normal and can be resolved, and
   the nodes declare existing services.
  */
  ghost predicate Sane(fleet: Fleet, settled: Services, declared: map<NodeId, seq<Entry>>) {
    && AllDistinctNames(settled) && RequiredExist(settled)
    && (forall k :: k in settled ==>
      FormsOf(settled[k].spec.declared, settled[k].affinity) && !SomeBlocked(fleet, settled[k]))
    && (forall n :: n in fleet.order ==> n in declared) && NodesKnow(settled, fleet.order, declared)
  }

  lemma ReadyIsSane(fleet: Fleet, settled: Services, declared: map<NodeId, seq<Entry>>, graph: seq<Key>)
    requires Ready(fleet.order, declared, settled, graph)
    requires forall k :: k in graph ==> Placeable(fleet, settled, k)
    ensures Sane(fleet, settled, declared)
  {
    hide FormsOf, SomeBlocked, Needs, Before, NodesKnow, RequiredExist, AllDistinctNames, Grounded, Distinct;
  }

  /** What is true of the services once placed and listed, given the services as they were settled. */
  ghost predicate WellPlaced(fleet: Fleet, settled: Services, placed: Services, services: Services,
                             declared: map<NodeId, seq<Entry>>, index: map<NodeId, seq<Entry>>, graph: seq<Key>) {
    && Enumerates(graph, settled)
    && (forall a, b :: Needs(settled, b, a) ==> Before(graph, a, b))
    && Complete(fleet, settled, placed, Reverse(graph))
    && (NeedsWhatItActivates(settled) ==> LeastSolution(fleet, settled, Assigned(services)))
    && (forall n :: n in fleet.order && n in declared && Distinct(Keys(declared[n])) ==>
      n in index && Keys(index[n]) == Filter(graph, OnNode(placed, Keys(declared[n]), n)))
    && Sane(fleet, settled, declared)
    && ListsRight(fleet.order, declared, index, placed)
    && forall k :: k in services ==> LocalsHold(services, k, |services[k].spec.deps|)
  }

  /** What is true of them once configured. */
  ghost predicate WellConfigured(placed: Services, services: Services, index: map<NodeId, seq<Entry>>,
                                 graph: seq<Key>, trace: seq<Event>) {
    && SameShape(services, placed)
    && OnKnownNodes(placed, index) && services == OptionsFor(placed, index, graph)
    && (forall k :: k in graph ==> k in placed)
    && (forall k :: k in graph ==> Configurable(placed, index, k))
    && trace == TraceOf(placed, graph, |graph|)
  }

  /** What the finished configuration satisfies. */
  ghost predicate Finished(fleet: Fleet, settled: Services, placed: Services, services: Services,
                           declared: map<NodeId, seq<Entry>>, index: map<NodeId, seq<Entry>>,
                           graph: seq<Key>, trace: seq<Event>) {
    && WellPlaced(fleet, settled, placed, services, declared, index, graph)
    && WellConfigured(placed, services, index, graph, trace)
  }

  lemma ReadyToPlace(order: seq<NodeId>, index: map<NodeId, seq<Entry>>, services: Services, graph: seq<Key>)
    requires Ready(order, index, services, graph)
    ensures Distinct(graph) && forall k :: k in services ==> services[k].instances == [] && k in graph
    ensures Sound(services) ==> forall k :: k in graph ==> Grounded(services, k)
    ensures (forall k :: k in graph ==> Grounded(services, k)) ==>
      Enumerates(graph, services) && Enumerates(Reverse(graph), services) && PlacementLaws.Closed(services)
  {
    ReversedIn(graph);
    if Sound(services) {
      forall k | k in graph
        ensures Grounded(services, k)
      {
      }
    }
    if forall k :: k in graph ==> Grounded(services, k) {
      forall k, d | k in services && Activates(services[k], d)
        ensures d in services
      {
        assert Grounded(services, k);
      }
    }
  }

  lemma PlacedOnNodes(fleet: Fleet, settled: Services, placed: Services, rev: seq<Key>, index: map<NodeId, seq<Entry>>)
    requires Complete(fleet, settled, placed, rev) && forall n :: n in fleet.order ==> n in index
    ensures OnKnownNodes(placed, index)
  {
    forall k, n | k in placed && Hosts(placed[k], n)
      ensures n in index
    {
      HostsAreNodes(fleet, settled, placed, rev, k, n);
    }
  }

  /** Options change nothing that the laws of placement speak about. */
  lemma ShapeKeeps(fleet: Fleet, settled: Services, placed: Services, services: Services)
    requires SameShape(services, placed)
    ensures Assigned(services) == Assigned(placed)
    ensures forall k :: k in placed && LocalsHold(placed, k, |placed[k].spec.deps|) ==>
      LocalsHold(services, k, |services[k].spec.deps|)
  {
    assert forall k, n :: k in placed ==> (Hosts(services[k], n) <==> Hosts(placed[k], n));
    assert Assigned(services) == Assigned(placed);
    forall k | k in placed && LocalsHold(placed, k, |placed[k].spec.deps|)
      ensures LocalsHold(services, k, |services[k].spec.deps|)
    {
      forall i | 0 <= i < |services[k].spec.deps|
        ensures LocalHolds(services, k, services[k].spec.deps[i])
      {
        assert LocalHolds(placed, k, placed[k].spec.deps[i]);
      }
    }
  }

  /**
   Why placement fails: an affinity of a service is blocked, or an enabled dependency names
   a service that does not exist.
  */
  ghost predicate RejectedInPlacement(e: Error, fleet: Fleet, settled: Services) {
    match e
    case Unresolvable => exists k :: k in settled && SomeBlocked(fleet, settled[k])
    case Dangling(d) => Misses(settled, d)
    case _ => false
  }

  lemma StopRejects(fleet: Fleet, settled: Services, graph: seq<Key>, k: Key, e: Error)
    requires forall x :: x in graph <==> x in settled || exists s :: Needs(settled, s, x)
    requires k in graph && Stops(fleet, settled, k, e)
    ensures RejectedInPlacement(e, fleet, settled)
  {
    if e.Dangling? {
      if e.key == k {
        var s :| Needs(settled, s, k);
        var i :| 0 <= i < |settled[s].spec.deps| && Orders(settled[s].spec.deps[i], s.name, k);
        assert Misses(settled, k);
      } else {
        var i :| 0 <= i < |settled[k].spec.deps| && AutoOn(settled[k].spec.deps[i], e.key);
        assert Misses(settled, e.key);
      }
    }
  }

  /** Placement and the sorting of the lists. */
  method PlaceAndSort(c: Config) returns (r: Result<(), Error>)
    requires c.Valid() && Ready(c.fleet.order, c.index, c.services, c.graph)
    modifies c`services, c`index
    ensures r.Ok? ==> c.Valid() && PlacedAndSorted(c.fleet, old(c.services), c.services, old(c.index), c.index, c.graph)
    ensures r.Ok? ==> Sane(c.fleet, old(c.services), old(c.index))
    ensures r.Err? ==> RejectedInPlacement(r.error, c.fleet, old(c.services))
  {
    hide Needs, FormsOf, NodesKnow, Grounded, Sound, Placed, Indexed, SortByRank, Enumerates, Distinct,
      RejectedInPlacement, Stops, Sane;
    ghost var settled, declared := c.services, c.index;
    ReadyToPlace(c.fleet.order, c.index, c.services, c.graph);
    r := Place(c);
    if r.Err? {
      ghost var k :| k in c.graph && Stops(c.fleet, settled, k, r.error);
      StopRejects(c.fleet, settled, c.graph, k, r.error);
      return;
    }
    ghost var listed := c.index;
    Reorder(c);
    IndexedKeys(c.fleet, declared, listed, c.services, Reverse(c.graph), |c.graph|);
    assert Resorted(c.fleet.order, c.graph, listed, c.index);
    PlaceableGrounded(c.fleet, settled, c.graph);
    ReadyIsSane(c.fleet, settled, declared, c.graph);
  }

  lemma PlaceableGrounded(fleet: Fleet, services: Services, graph: seq<Key>)
    requires forall k :: k in graph ==> Placeable(fleet, services, k)
    ensures forall k :: k in graph ==> Grounded(services, k)
  {
  }

  /** The placement is complete, and the lists of the nodes are sorted. */
  ghost predicate PlacedAndSorted(fleet: Fleet, settled: Services, placed: Services,
                                  declared: map<NodeId, seq<Entry>>, index: map<NodeId, seq<Entry>>, graph: seq<Key>) {
    && Enumerates(graph, settled)
    && Complete(fleet, settled, placed, Reverse(graph))
    && exists listed ::
      Indexed(fleet, declared, listed, placed, Reverse(graph), |graph|) && Resorted(fleet.order, graph, listed, index)
  }

  lemma SortedGuarantees(fleet: Fleet, settled: Services, placed: Services,
                         declared: map<NodeId, seq<Entry>>, index: map<NodeId, seq<Entry>>, graph: seq<Key>)
    requires PlacedAndSorted(fleet, settled, placed, declared, index, graph)
    requires (forall n :: n in fleet.order ==> n in declared) && NodesKnow(settled, fleet.order, declared)
    ensures OnKnownNodes(placed, index) && Distinct(graph)
    ensures NoRepeats(fleet.order, declared) ==>
      forall k :: k in placed ==> ListedOnce(placed[k], index, k, |placed[k].instances|)
    ensures forall n :: n in fleet.order && n in declared && Distinct(Keys(declared[n])) ==>
      n in index && Keys(index[n]) == Filter(graph, OnNode(placed, Keys(declared[n]), n))
    ensures ListsRight(fleet.order, declared, index, placed)
  {
    hide Indexed, Placed, SortByRank, Filter, Distinct, Keys, ListedOnce, EntriesRight;
    var listed :|
      Indexed(fleet, declared, listed, placed, Reverse(graph), |graph|) && Resorted(fleet.order, graph, listed, index);
    IndexedKeys(fleet, declared, listed, placed, Reverse(graph), |graph|);
    CompleteKeys(fleet, settled, placed, Reverse(graph));
    PlacedOnNodes(fleet, settled, placed, Reverse(graph), index);
    if NoRepeats(fleet.order, declared) {
      forall k | k in placed
        ensures ListedOnce(placed[k], index, k, |placed[k].instances|)
      {
        AllListedOnce(fleet, settled, placed, graph, declared, listed, index, k);
      }
    }
    forall n | n in fleet.order && n in declared && Distinct(Keys(declared[n]))
      ensures n in index && Keys(index[n]) == Filter(graph, OnNode(placed, Keys(declared[n]), n))
    {
      SortedLists(fleet, settled, placed, graph, declared, listed, index, n);
    }
    forall n | n in fleet.order && n in declared
      ensures n in index && EntriesRight(declared[n], index[n], placed, n)
    {
      ListedEntries(fleet, settled, placed, graph, declared, listed, n);
      SortedEntries(declared[n], listed[n], placed, n, graph);
    }
  }

  lemma CompleteKeys(fleet: Fleet, settled: Services, placed: Services, rev: seq<Key>)
    requires Complete(fleet, settled, placed, rev)
    ensures SameSpecs(placed, settled)
  {
  }

  lemma FinishedAll(fleet: Fleet, settled: Services, placed: Services, services: Services,
                    declared: map<NodeId, seq<Entry>>, index: map<NodeId, seq<Entry>>,
                    graph: seq<Key>, trace: seq<Event>)
    requires PlacedAndSorted(fleet, settled, placed, declared, index, graph)
    requires Ready(fleet.order, declared, settled, graph) && Sane(fleet, settled, declared)
    requires forall k :: k in placed ==> LocalsHold(placed, k, |placed[k].spec.deps|)
    requires WellConfigured(placed, services, index, graph, trace)
    ensures Finished(fleet, settled, placed, services, declared, index, graph, trace)
  {
    hide Indexed, Placed, SortByRank, Filter, Distinct, Keys, LocalsHold, TraceOf, Needs, FormsOf, NodesKnow,
      Solves, OptionsFor, NeedsWhatItActivates, ListsRight, Sane, RequiredExist, AllDistinctNames, Before, Relies, Activates;
    SortedGuarantees(fleet, settled, placed, declared, index, graph);
    ShapeKeeps(fleet, settled, placed, services);
    if NeedsWhatItActivates(settled) {
      NeedsGiveOrder(settled, graph);
      PassIsLeast(fleet, settled, placed, Reverse(graph));
    }
  }

  /** Why the local check and the configuration pass stop. */
  ghost predicate StopsLate(e: Error, placed: Services, index: map<NodeId, seq<Entry>>, graph: seq<Key>) {
    || (exists k :: LocalStopsAt(placed, k, e))
    || (exists k :: k in graph && ConfigureStops(placed, index, k, e))
  }

  /**
   Why they reject the placed services: a required local dependency is not on a node of its
   dependent, which an automatic one is; an enabled dependency of a service with instances
   names none, or is single and not exactly one; a node declares a service twice.
  */
  ghost predicate RejectedLast(e: Error, order: seq<NodeId>, settled: Services, placed: Services,
                               declared: map<NodeId, seq<Entry>>) {
    match e
    case RequiredLocal(k, _, _) =>
      k in placed && exists i ::
        0 <= i < |placed[k].spec.deps| && LocalStops(placed, k, placed[k].spec.deps[i], e)
        && (NeedsWhatItActivates(settled) ==> !Is(placed[k].spec.deps[i].auto) || !placed[k].spec.deps[i].Enabled())
    case Dangling(_) | NotSingle =>
      exists k :: k in placed && placed[k].instances != [] && InjectionStopsAt(placed, placed[k].spec.deps, e)
    case ShouldNeverHappen => !NoRepeats(order, declared)
    case _ => false
  }

  /** Why the stages from placement on fail, each on what the stages before it have left. */
  ghost predicate RejectedLate(e: Error, fleet: Fleet, settled: Services, placed: Services,
                               declared: map<NodeId, seq<Entry>>, index: map<NodeId, seq<Entry>>, graph: seq<Key>) {
    || RejectedInPlacement(e, fleet, settled)
    || (PlacedAndSorted(fleet, settled, placed, declared, index, graph)
        && RejectedLast(e, fleet.order, settled, placed, declared))
  }

  lemma LateIsLast(e: Error, fleet: Fleet, settled: Services, placed: Services,
                   declared: map<NodeId, seq<Entry>>, index: map<NodeId, seq<Entry>>, graph: seq<Key>)
    requires PlacedAndSorted(fleet, settled, placed, declared, index, graph)
    requires Ready(fleet.order, declared, settled, graph)
    requires StopsLate(e, placed, index, graph)
    ensures RejectedLast(e, fleet.order, settled, placed, declared)
  {
    hide Indexed, Placed, SortByRank, Filter, Distinct, Keys, ListedOnce, FormsOf, NodesKnow, InjectionStopsAt,
      LocalStops, NeedsWhatItActivates, NoRepeats, Enumerates, Needs, Before;
    SortedGuarantees(fleet, settled, placed, declared, index, graph);
    SoundKept(fleet, settled, placed, declared, index, graph);
    if k :| LocalStopsAt(placed, k, e) {
      LocalIsLast(e, fleet, settled, placed, graph, k, declared);
    } else {
      var k :| k in graph && ConfigureStops(placed, index, k, e);
      ConfigureIsLast(e, fleet.order, settled, placed, declared, index, k);
    }
  }

  lemma LocalIsLast(e: Error, fleet: Fleet, settled: Services, placed: Services, graph: seq<Key>, k: Key,
                    declared: map<NodeId, seq<Entry>>)
    requires Complete(fleet, settled, placed, Reverse(graph)) && Enumerates(graph, settled) && RequiredExist(placed)
    requires forall a, b :: Needs(settled, b, a) ==> Before(graph, a, b)
    requires LocalStopsAt(placed, k, e)
    ensures RejectedLast(e, fleet.order, settled, placed, declared)
  {
    hide Placed, NeedsWhatItActivates, NoRepeats, Enumerates, Needs, Before;
    CompleteKeys(fleet, settled, placed, Reverse(graph));
    var i: nat :| i < |placed[k].spec.deps| && LocalStops(placed, k, placed[k].spec.deps[i], e);
    var dep := placed[k].spec.deps[i];
    assert settled[k].spec.deps[i] == dep;
    if NeedsWhatItActivates(settled) && Is(dep.auto) && dep.Enabled() {
      NeedsGiveOrder(settled, graph);
      AutoIsLocal(fleet, settled, placed, Reverse(graph), k, i);
    }
  }

  lemma ConfigureIsLast(e: Error, order: seq<NodeId>, settled: Services, placed: Services,
                        declared: map<NodeId, seq<Entry>>, index: map<NodeId, seq<Entry>>, k: Key)
    requires k in placed && ConfigureStops(placed, index, k, e)
    requires NoRepeats(order, declared) ==> ListedOnce(placed[k], index, k, |placed[k].instances|)
    ensures RejectedLast(e, order, settled, placed, declared)
  {
    hide ListedOnce, NoRepeats, NeedsWhatItActivates;
  }

  /** The check of the local dependencies and the configuration pass. */
  method CheckAndConfigure(c: Config) returns (r: Result<(), Error>)
    requires c.Valid() && c.trace == [] && Distinct(c.graph) && OnKnownNodes(c.services, c.index)
    modifies c`services, c`trace
    ensures r.Ok? ==> c.Valid() && WellConfigured(old(c.services), c.services, c.index, c.graph, c.trace)
    ensures r.Ok? ==> forall k :: k in old(c.services) ==> LocalsHold(old(c.services), k, |old(c.services)[k].spec.deps|)
    ensures r.Err? ==> StopsLate(r.error, old(c.services), c.index, c.graph)
  {
    hide LocalsHold, TraceOf, ListedOnce, SameShape, Distinct, Configurable, OptionsFor, LocalStopsAt, ConfigureStops,
      OnKnownNodes;
    ghost var placed := c.services;
    r := CheckLocal(c);
    if r.Err? {
      return;
    }
    r := ConfigureAll(c);
    if r.Err? {
      return;
    }
    assert [] + TraceOf(placed, c.graph, |c.graph|) == TraceOf(placed, c.graph, |c.graph|);
  }

  /** The stages from placement on. */
  method Finish(c: Config) returns (r: Result<(), Error>, ghost placed: Services)
    requires c.Valid() && Ready(c.fleet.order, c.index, c.services, c.graph) && c.trace == []
    modifies c`services, c`index, c`trace
    ensures r.Ok? ==> c.Valid()
    ensures r.Ok? ==>
      Finished(c.fleet, old(c.services), placed, c.services, old(c.index), c.index, c.graph, c.trace)
    ensures r.Err? ==>
      RejectedLate(r.error, c.fleet, old(c.services), placed, old(c.index), c.index, c.graph)
  {
    hide Needs, FormsOf, Placed, Indexed, SortByRank, Enumerates, LocalsHold, TraceOf, Filter, ListedOnce,
      SameShape, PlacedAndSorted, NodesKnow, Distinct, OnKnownNodes, RequiredExist, Configurable, Placeable,
      Sound, NoRepeats, Finished, OptionsFor, StopsLate, Sane, RejectedLast, RejectedInPlacement;
    ghost var settled, declared := c.services, c.index;
    r := PlaceAndSort(c);
    placed := c.services;
    if r.Err? {
      return;
    }
    SortedGuarantees(c.fleet, settled, placed, declared, c.index, c.graph);
    r := CheckAndConfigure(c);
    if r.Ok? {
      FinishedAll(c.fleet, settled, placed, c.services, declared, c.index, c.graph, c.trace);
    } else {
      LateIsLast(r.error, c.fleet, settled, placed, declared, c.index, c.graph);
    }
  }

  /** The services of the graph, and what is required, exist after placement as before. */
  lemma SoundKept(fleet: Fleet, settled: Services, placed: Services,
                  declared: map<NodeId, seq<Entry>>, index: map<NodeId, seq<Entry>>, graph: seq<Key>)
    requires PlacedAndSorted(fleet, settled, placed, declared, index, graph)
    ensures forall k :: k in graph ==> k in placed
    ensures RequiredExist(settled) ==> RequiredExist(placed)
  {
    CompleteKeys(fleet, settled, placed, Reverse(graph));
  }

  /**
   Normalisation from the declared configuration to the configured services; `stages` are
   the services in between. On success each stage follows from the one before, from the
   declared services to the configured ones. A failure has its cause in the declared
   configuration, or in the services that the stages before it have left.
  */
  method Compile(c: Config) returns (r: Result<(), Error>, ghost stages: Stages)
    requires c.Valid() && Discovery.NamesApart(c.load, c.services) && c.trace == []
    modifies c
    ensures r.Ok? ==> c.Valid() && stages.Follow(Origin(c.load, c.clusters, old(c.services)))
    ensures r.Ok? ==>
      Finished(c.fleet, stages.settled, stages.placed, c.services, old(c.index), c.index, c.graph, c.trace)
    ensures r.Err? ==>
      || RejectedEarly(r.error, Origin(c.load, c.clusters, old(c.services)), old(Discovery.Places(c)),
           c.fleet.order, old(c.index), stages)
      || (stages.Follow(Origin(c.load, c.clusters, old(c.services)))
          && Ready(c.fleet.order, old(c.index), stages.settled, c.graph)
          && RejectedLate(r.error, c.fleet, stages.settled, stages.placed, old(c.index), c.index, c.graph))
  {
    hide Ready, Stages.Follow, Finished, RejectedEarly, RejectedLate;
    r, stages := Prepare(c);
    if r.Err? {
      return;
    }
    ghost var placed;
    r, placed := Finish(c);
    StagesFollow(stages, Origin(c.load, c.clusters, old(c.services)), placed);
    stages := stages.(placed := placed);
  }

  lemma StagesFollow(stages: Stages, o: Origin, placed: Services)
    requires stages.Follow(o)
    ensures stages.(placed := placed).Follow(o)
  {
  }
}
