/** The whole placement pass, from the last service of the graph to the first. */
module AffinityPass {
  import opened Prelude
  import opened Affinities
  import opened Cluster
  import opened Placement

  /**
   Where the pass puts the service `rev[m]`: on the nodes its own affinities select, and
   on the nodes of every service placed earlier that activates it.
  */
  ghost predicate Receives(fleet: Fleet, before: Services, after: Services, rev: seq<Key>, m: nat, x: Key, n: NodeId)
    requires m <= |rev| && x in before
    requires forall j :: 0 <= j < m ==> rev[j] in before && rev[j] in after
  {
    || Wants(fleet, before[x], n)
    || exists j :: 0 <= j < m && Activates(before[rev[j]], x) && Hosts(after[rev[j]], n)
  }

  /** The first `m` services have been placed. */
  ghost predicate Placed(fleet: Fleet, before: Services, after: Services, rev: seq<Key>, m: nat)
    requires m <= |rev|
  {
    && SameSpecs(after, before)
    && (forall j :: 0 <= j < m ==> rev[j] in before)
    && (forall j :: 0 <= j < m ==> InNodeOrder(fleet.order, Ids(after[rev[j]].instances)))
    && (forall j, n {:trigger Receives(fleet, before, after, rev, j, rev[j], n)} :: 0 <= j < m && n in fleet.order ==>
      (Hosts(after[rev[j]], n) <==> Receives(fleet, before, after, rev, j, rev[j], n)))
  }

  /** What the services not placed yet will receive, so far. */
  ghost predicate Pending(fleet: Fleet, before: Services, after: Services, rev: seq<Key>, m: nat)
    requires m <= |rev| && Placed(fleet, before, after, rev, m)
  {
    && (forall x :: x in before && x !in rev[..m] ==> after[x].instances == [])
    && (forall x :: x in before ==> SomeBlocked(fleet, after[x]) == SomeBlocked(fleet, before[x]))
    && (forall x, n {:trigger Receives(fleet, before, after, rev, m, x, n)} :: x in before && n in fleet.order ==>
      (Wants(fleet, after[x], n) <==> Receives(fleet, before, after, rev, m, x, n)))
  }

  /** The service exists, and so does everything it activates. */
  ghost predicate Grounded(services: Services, k: Key) {
    k in services && TargetsExist(services[k], |services[k].spec.deps|, services)
  }

  /** The pass gets through the service. */
  ghost predicate Placeable(fleet: Fleet, services: Services, k: Key) {
    Grounded(services, k) && !SomeBlocked(fleet, services[k])
  }

  /** The pass stops at the service, with that error. */
  ghost predicate Stops(fleet: Fleet, services: Services, k: Key, e: Error) {
    match e
    case Unresolvable => k in services && SomeBlocked(fleet, services[k])
    case Dangling(d) => d !in services && (d == k || (k in services && Activates(services[k], d)))
    case _ => false
  }

  /** One more service, `rev[m]`, gets its instances and hands its nodes down. */
  ghost predicate PlacesNext(fleet: Fleet, before: Services, mid: Services, put: Services, after: Services,
                             rev: seq<Key>, m: nat) {
    && m < |rev| && Distinct(rev) && rev[m] in before
    && Placed(fleet, before, mid, rev, m)
    && Pending(fleet, before, mid, rev, m)
    && put == mid[rev[m] := WithInstances(fleet, mid[rev[m]])]
    && PushedTo(fleet, put[rev[m]], |put[rev[m]].spec.deps|, put, after)
  }

  lemma NextKeeps(fleet: Fleet, before: Services, mid: Services, put: Services, after: Services, rev: seq<Key>, m: nat)
    requires PlacesNext(fleet, before, mid, put, after, rev, m)
    ensures SameSpecs(after, before)
    ensures forall x :: x in before && x != rev[m] ==> after[x].instances == mid[x].instances
    ensures forall j :: 0 <= j < m ==> rev[j] != rev[m]
    ensures Ids(after[rev[m]].instances) == WantedNodes(fleet, mid[rev[m]])
    ensures forall x :: x in before ==> SomeBlocked(fleet, after[x]) == SomeBlocked(fleet, before[x])
  {
    assert rev[m] !in rev[..m];
    assert Ids(put[rev[m]].instances) == WantedNodes(fleet, mid[rev[m]]);
  }

  lemma NextPlaced(fleet: Fleet, before: Services, mid: Services, put: Services, after: Services, rev: seq<Key>, m: nat)
    requires PlacesNext(fleet, before, mid, put, after, rev, m)
    ensures Placed(fleet, before, after, rev, m + 1)
  {
    hide Wants, SomeBlocked, PushedTo, WithInstances, Filter, Distinct;
    NextKeeps(fleet, before, mid, put, after, rev, m);
    FilterInNodeOrder(fleet.order, Wanting(fleet, mid[rev[m]]));
    ReceivesStable(fleet, before, mid, after, rev, m);
    forall j, n | 0 <= j < m + 1 && n in fleet.order
      ensures Hosts(after[rev[j]], n) <==> Receives(fleet, before, after, rev, j, rev[j], n)
    {
      if j < m {
        assert Hosts(mid[rev[j]], n) <==> Receives(fleet, before, mid, rev, j, rev[j], n);
      } else {
        assert Hosts(after[rev[m]], n) <==> Wants(fleet, mid[rev[m]], n);
      }
    }
  }

  lemma NextWants(fleet: Fleet, before: Services, mid: Services, put: Services, after: Services,
                  rev: seq<Key>, m: nat, x: Key, n: NodeId)
    requires PlacesNext(fleet, before, mid, put, after, rev, m)
    requires x in before && n in fleet.order
    requires Placed(fleet, before, after, rev, m + 1)
    ensures Wants(fleet, after[x], n) <==> Receives(fleet, before, after, rev, m + 1, x, n)
  {
    var k := rev[m];
    NextKeeps(fleet, before, mid, put, after, rev, m);
    ReceivesStable(fleet, before, mid, after, rev, m);
    ActivatesFixed(before[k], put[k], x);
    assert Wants(fleet, mid[x], n) <==> Receives(fleet, before, mid, rev, m, x, n);
    assert Wants(fleet, put[x], n) <==> Wants(fleet, mid[x], n);
    assert Hosts(put[k], n) <==> Hosts(after[k], n);
    ReceivesMore(fleet, before, after, rev, m, x, n);
  }

  lemma ReceivesMore(fleet: Fleet, before: Services, after: Services, rev: seq<Key>, m: nat, x: Key, n: NodeId)
    requires m < |rev| && x in before
    requires forall j :: 0 <= j <= m ==> rev[j] in before && rev[j] in after
    ensures Receives(fleet, before, after, rev, m + 1, x, n) <==>
      Receives(fleet, before, after, rev, m, x, n) || (Activates(before[rev[m]], x) && Hosts(after[rev[m]], n))
  {
  }

  /** The effect of placing one more service on all of them. */
  lemma PlacedOneMore(fleet: Fleet, before: Services, mid: Services, put: Services, after: Services, rev: seq<Key>, m: nat)
    requires PlacesNext(fleet, before, mid, put, after, rev, m)
    ensures Placed(fleet, before, after, rev, m + 1)
    ensures Pending(fleet, before, after, rev, m + 1)
  {
    hide PushedTo, Wants, SomeBlocked, Hosts, Receives, WithInstances, Distinct, InNodeOrder;
    NextPlaced(fleet, before, mid, put, after, rev, m);
    NextKeeps(fleet, before, mid, put, after, rev, m);
    forall x, n | x in before && n in fleet.order
      ensures Wants(fleet, after[x], n) <==> Receives(fleet, before, after, rev, m + 1, x, n)
    {
      NextWants(fleet, before, mid, put, after, rev, m, x, n);
    }
    assert rev[..m + 1] == rev[..m] + [rev[m]];
  }

  lemma ActivatesFixed(a: Service, b: Service, x: Key)
    requires a.spec == b.spec
    ensures Activates(a, x) <==> Activates(b, x)
    ensures Activates(b, x) <==> ActivatesWithin(b, |b.spec.deps|, x)
  {
  }

  /** What was received earlier does not depend on services placed later. */
  lemma ReceivesStable(fleet: Fleet, before: Services, mid: Services, after: Services, rev: seq<Key>, m: nat)
    requires m <= |rev| && mid.Keys == before.Keys == after.Keys
    requires forall j :: 0 <= j < m ==> rev[j] in before && after[rev[j]].instances == mid[rev[j]].instances
    ensures forall i, x, n :: 0 <= i <= m && x in before ==>
      (Receives(fleet, before, after, rev, i, x, n) <==> Receives(fleet, before, mid, rev, i, x, n))
  {
    forall i, x, n | 0 <= i <= m && x in before
      ensures Receives(fleet, before, after, rev, i, x, n) <==> Receives(fleet, before, mid, rev, i, x, n)
    {
      assert forall j :: 0 <= j < i ==> (Hosts(after[rev[j]], n) <==> Hosts(mid[rev[j]], n));
    }
  }

  // ----- the lists of the nodes

  ghost function Arrives(after: Services, declared: seq<Key>, n: NodeId): (keep: Key -> bool)
    ensures forall k :: keep(k) <==> k in after && Hosts(after[k], n) && k !in declared
  {
    k => k in after && Hosts(after[k], n) && k !in declared
  }

  /** The entry is as it was declared, or has learnt the module of the service. */
  ghost predicate Completed(declared: Entry, e: Entry, services: Services) {
    && e.key == declared.key && e.options == declared.options
    && (e.path == declared.path
        || (declared.path.None? && e.key in services && e.path == services[e.key].spec.path))
  }

  /** Declared entries stay in place, those added have the module of their service and no options. */
  ghost predicate KeepsEntries(a: seq<Entry>, b: seq<Entry>, services: Services) {
    && |a| <= |b|
    && (forall i :: 0 <= i < |a| ==> Completed(a[i], b[i], services))
    && forall i :: |a| <= i < |b| ==>
      b[i].key in services && b[i] == Entry(b[i].key, services[b[i].key].spec.path, map[])
  }

  /** An entry of the service has its module, if the service has one. */
  ghost predicate KnowsPath(entries: seq<Entry>, k: Key, path: Option<string>) {
    exists i :: 0 <= i < |entries| && entries[i].key == k && (entries[i].path.Some? || path.None?)
  }

  /** Every node lists its declared services, then those placed on it that it did not declare. */
  ghost predicate Indexed(fleet: Fleet, declared: map<NodeId, seq<Entry>>, index: map<NodeId, seq<Entry>>,
                          after: Services, rev: seq<Key>, m: nat)
    requires m <= |rev|
  {
    && index.Keys == declared.Keys
    && forall n :: n in fleet.order && n in declared ==>
      && KeepsEntries(declared[n], index[n], after)
      && Keys(index[n]) == Keys(declared[n]) + Filter(rev[..m], Arrives(after, Keys(declared[n]), n))
      && forall j :: 0 <= j < m && rev[j] in after && Hosts(after[rev[j]], n) ==>
        KnowsPath(index[n], rev[j], after[rev[j]].spec.path)
  }

  lemma {:induction false} FirstOf(entries: seq<Entry>, k: Key) returns (found: nat)
    ensures found <= |entries| && forall i :: 0 <= i < found ==> entries[i].key != k
    ensures found < |entries| ==> entries[found].key == k
  {
    if entries == [] || entries[0].key == k {
      found := 0;
    } else {
      found := FirstOf(entries[1..], k);
      found := found + 1;
    }
  }

  lemma EnrichKeeps(a: seq<Entry>, b: seq<Entry>, services: Services, k: Key, path: Option<string>)
    requires KeepsEntries(a, b, services) && k in services && path == services[k].spec.path
    ensures KeepsEntries(a, Enrich(b, k, path), services)
    ensures KnowsPath(Enrich(b, k, path), k, path)
    ensures forall x, p :: KnowsPath(b, x, p) ==> KnowsPath(Enrich(b, k, path), x, p)
  {
    var found := FirstOf(b, k);
    EnrichAt(b, k, path, found);
    hide Enrich;
    var after := Enrich(b, k, path);
    assert after[found].key == k && (after[found].path.Some? || path.None?);
    forall x, p | KnowsPath(b, x, p)
      ensures KnowsPath(after, x, p)
    {
      var i :| 0 <= i < |b| && b[i].key == x && (b[i].path.Some? || p.None?);
      assert after[i].key == x && (after[i].path.Some? || p.None?);
    }
  }

  /** Placement does not touch what the entries are made of. */
  lemma SameEntries(a: seq<Entry>, b: seq<Entry>, old_: Services, new_: Services)
    requires KeepsEntries(a, b, old_) && SameSpecs(new_, old_)
    ensures KeepsEntries(a, b, new_)
  {
  }

  /** The services arriving on a node, with one more service placed. */
  lemma ArrivesOneMore(declared: seq<Key>, old_: Services, new_: Services, rev: seq<Key>, m: nat, n: NodeId)
    requires m < |rev| && Distinct(rev) && rev[m] in new_
    requires forall j :: 0 <= j < m ==> rev[j] in old_ && rev[j] in new_
    requires forall j :: 0 <= j < m ==> (Hosts(new_[rev[j]], n) <==> Hosts(old_[rev[j]], n))
    ensures rev[m] !in Filter(rev[..m], Arrives(old_, declared, n))
    ensures Filter(rev[..m + 1], Arrives(new_, declared, n)) == Filter(rev[..m], Arrives(old_, declared, n))
      + if Hosts(new_[rev[m]], n) && rev[m] !in declared then [rev[m]] else []
  {
    var keep := Arrives(new_, declared, n);
    assert rev[..m + 1] == rev[..m] + [rev[m]];
    assert rev[m] !in rev[..m];
    FilterAppend(rev[..m], [rev[m]], keep);
    FilterSame(rev[..m], Arrives(old_, declared, n), keep);
    assert Filter([rev[m]], keep) == if keep(rev[m]) then [rev[m]] else [];
  }

  lemma IndexedNode(declared: seq<Entry>, mid: seq<Entry>, after: seq<Entry>, old_: Services, new_: Services,
                    rev: seq<Key>, m: nat, n: NodeId, path: Option<string>)
    requires m < |rev| && Distinct(rev) && rev[m] in new_ && SameSpecs(new_, old_) && path == new_[rev[m]].spec.path
    requires forall j :: 0 <= j < m ==> rev[j] in old_ && rev[j] in new_
    requires forall j :: 0 <= j < m ==> (Hosts(new_[rev[j]], n) <==> Hosts(old_[rev[j]], n))
    requires KeepsEntries(declared, mid, old_)
    requires Keys(mid) == Keys(declared) + Filter(rev[..m], Arrives(old_, Keys(declared), n))
    requires forall j :: 0 <= j < m && Hosts(old_[rev[j]], n) ==> KnowsPath(mid, rev[j], old_[rev[j]].spec.path)
    requires after == if Hosts(new_[rev[m]], n) then Enrich(mid, rev[m], path) else mid
    ensures KeepsEntries(declared, after, new_)
    ensures Keys(after) == Keys(declared) + Filter(rev[..m + 1], Arrives(new_, Keys(declared), n))
    ensures forall j :: 0 <= j < m + 1 && rev[j] in new_ && Hosts(new_[rev[j]], n) ==>
      KnowsPath(after, rev[j], new_[rev[j]].spec.path)
  {
    hide *;
    SameEntries(declared, mid, old_, new_);
    ArrivesOneMore(Keys(declared), old_, new_, rev, m, n);
    EnrichKeeps(declared, mid, new_, rev[m], path);
    EnrichKeys(mid, rev[m], path);
    KnownOneMore(mid, after, old_, new_, rev, m, n, path);
    assert rev[m] in Keys(mid) <==> rev[m] in Keys(declared);
  }

  lemma KnownOneMore(mid: seq<Entry>, after: seq<Entry>, old_: Services, new_: Services,
                     rev: seq<Key>, m: nat, n: NodeId, path: Option<string>)
    requires m < |rev| && rev[m] in new_ && SameSpecs(new_, old_) && path == new_[rev[m]].spec.path
    requires forall j :: 0 <= j < m ==> rev[j] in old_ && rev[j] in new_
    requires forall j :: 0 <= j < m ==> (Hosts(new_[rev[j]], n) <==> Hosts(old_[rev[j]], n))
    requires forall j :: 0 <= j < m && Hosts(old_[rev[j]], n) ==> KnowsPath(mid, rev[j], old_[rev[j]].spec.path)
    requires Hosts(new_[rev[m]], n) ==> KnowsPath(after, rev[m], path)
    requires forall x, p :: KnowsPath(mid, x, p) ==> KnowsPath(after, x, p)
    ensures forall j :: 0 <= j < m + 1 && rev[j] in new_ && Hosts(new_[rev[j]], n) ==>
      KnowsPath(after, rev[j], new_[rev[j]].spec.path)
  {
    hide Hosts, KnowsPath;
  }


  lemma IndexedOneMore(fleet: Fleet, declared: map<NodeId, seq<Entry>>, mid: map<NodeId, seq<Entry>>,
                       after: map<NodeId, seq<Entry>>, old_: Services, new_: Services, rev: seq<Key>, m: nat,
                       path: Option<string>)
    requires m < |rev| && Distinct(rev) && rev[m] in new_ && SameSpecs(new_, old_) && path == new_[rev[m]].spec.path
    requires forall j :: 0 <= j < m ==> rev[j] in old_ && rev[j] in new_
    requires forall j :: 0 <= j < m ==> new_[rev[j]].instances == old_[rev[j]].instances
    requires Indexed(fleet, declared, mid, old_, rev, m)
    requires ListedOn(mid, after, Ids(new_[rev[m]].instances), rev[m], path)
    ensures Indexed(fleet, declared, after, new_, rev, m + 1)
  {
    hide KeepsEntries, KnowsPath, SameSpecs, Enrich, Filter, Distinct;
    forall n | n in fleet.order && n in declared
      ensures KeepsEntries(declared[n], after[n], new_)
      ensures Keys(after[n]) == Keys(declared[n]) + Filter(rev[..m + 1], Arrives(new_, Keys(declared[n]), n))
      ensures forall j :: 0 <= j < m + 1 && rev[j] in new_ && Hosts(new_[rev[j]], n) ==>
        KnowsPath(after[n], rev[j], new_[rev[j]].spec.path)
    {
      IndexedNode(declared[n], mid[n], after[n], old_, new_, rev, m, n, path);
    }
  }

  // ----- the pass

  /** The state of the pass after `m` services. */
  ghost predicate Reached(fleet: Fleet, before: Services, services: Services,
                          declared: map<NodeId, seq<Entry>>, index: map<NodeId, seq<Entry>>, rev: seq<Key>, m: nat)
    requires m <= |rev|
  {
    && Placed(fleet, before, services, rev, m)
    && Pending(fleet, before, services, rev, m)
    && Indexed(fleet, declared, index, services, rev, m)
  }

  lemma AboutToPlace(fleet: Fleet, before: Services, mid: Services,
                     declared: map<NodeId, seq<Entry>>, index: map<NodeId, seq<Entry>>, rev: seq<Key>, m: nat)
    requires m < |rev| && Distinct(rev) && Distinct(fleet.order)
    requires Reached(fleet, before, mid, declared, index, rev, m)
    ensures mid.Keys == before.Keys
    ensures rev[m] in before ==>
      && Agrees(fleet, mid[rev[m]])
      && SomeBlocked(fleet, mid[rev[m]]) == SomeBlocked(fleet, before[rev[m]])
      && var put := WithInstances(fleet, mid[rev[m]]);
      && Distinct(Ids(put.instances))
      && (forall n :: n in Ids(put.instances) ==> n in fleet.order)
      && (forall d :: Activates(put, d) ==> Activates(before[rev[m]], d))
      && (TargetsExist(put, |put.spec.deps|, mid[rev[m] := put]) <==>
        TargetsExist(before[rev[m]], |before[rev[m]].spec.deps|, before))
  {
    if rev[m] in before {
      assert rev[m] !in rev[..m];
      FilterDistinct(fleet.order, Wanting(fleet, mid[rev[m]]));
      assert Ids(WithInstances(fleet, mid[rev[m]]).instances) == WantedNodes(fleet, mid[rev[m]]);
    }
  }

  lemma NextReached(fleet: Fleet, before: Services, mid: Services, put: Services, after: Services,
                    declared: map<NodeId, seq<Entry>>, listed: map<NodeId, seq<Entry>>, index: map<NodeId, seq<Entry>>,
                    rev: seq<Key>, m: nat)
    requires m < |rev| && Distinct(rev) && rev[m] in before
    requires Reached(fleet, before, mid, declared, listed, rev, m)
    requires put == mid[rev[m] := WithInstances(fleet, mid[rev[m]])]
    requires PushedTo(fleet, put[rev[m]], |put[rev[m]].spec.deps|, put, after)
    requires ListedOn(listed, index, Ids(put[rev[m]].instances), rev[m], put[rev[m]].spec.path)
    ensures after.Keys == before.Keys && index.Keys == listed.Keys
    ensures Reached(fleet, before, after, declared, index, rev, m + 1)
  {
    PlacedOneMore(fleet, before, mid, put, after, rev, m);
    NextKeeps(fleet, before, mid, put, after, rev, m);
    hide Placed, Pending, PushedTo, Wants, SomeBlocked;
    IndexedOneMore(fleet, declared, listed, index, mid, after, rev, m, put[rev[m]].spec.path);
  }

  /** One round of the pass. */
  method PlaceNext(c: Config, k: Key, ghost before: Services, ghost declared: map<NodeId, seq<Entry>>,
                   ghost rev: seq<Key>, ghost m: nat) returns (r: Result<(), Error>)
    requires c.Valid() && m < |rev| && Distinct(rev) && rev[m] == k
    requires Reached(c.fleet, before, c.services, declared, c.index, rev, m)
    modifies c`services, c`index
    ensures r.Ok? <==> Placeable(c.fleet, before, k)
    ensures r.Err? ==> Stops(c.fleet, before, k, r.error)
    ensures r.Ok? ==> c.Valid() && Reached(c.fleet, before, c.services, declared, c.index, rev, m + 1)
  {
    hide Reached, Placed, Pending, Indexed, PushedTo, TargetsExist, SomeBlocked, Agrees, Wants, WithInstances, ListedOn,
      Activates;
    ghost var mid, listed := c.services, c.index;
    AboutToPlace(c.fleet, before, mid, declared, listed, rev, m);
    if k !in c.services {
      return Err(Dangling(k));
    }
    r := PushInstances(c, k);
    if r.Err? {
      return;
    }
    ghost var put := c.services;
    EnrichNodes(c, k);
    r := PushAffinities(c, k);
    if r.Err? {
      return;
    }
    NextReached(c.fleet, before, mid, put, c.services, declared, listed, c.index, rev, m);
  }

  lemma ReachedStart(fleet: Fleet, before: Services, declared: map<NodeId, seq<Entry>>, rev: seq<Key>)
    requires forall k :: k in before ==> before[k].instances == []
    ensures Reached(fleet, before, before, declared, declared, rev, 0)
  {
    assert rev[..0] == [];
  }

  lemma ReversedIn<T>(s: seq<T>)
    ensures forall x :: x in s <==> x in Reverse(s)
    ensures Distinct(s) ==> Distinct(Reverse(s))
  {
    forall x | x in s
      ensures x in Reverse(s)
    {
      var i :| 0 <= i < |s| && s[i] == x;
      assert Reverse(s)[|s| - 1 - i] == x;
    }
  }

  method PlaceAll(c: Config, rev: seq<Key>) returns (r: Result<(), Error>)
    requires c.Valid() && Distinct(rev)
    requires forall k :: k in c.services ==> c.services[k].instances == []
    modifies c`services, c`index
    ensures r.Ok? <==> forall m :: 0 <= m < |rev| ==> Placeable(c.fleet, old(c.services), rev[m])
    ensures r.Err? ==> exists m :: 0 <= m < |rev| && Stops(c.fleet, old(c.services), rev[m], r.error)
    ensures r.Ok? ==> c.Valid() && Reached(c.fleet, old(c.services), c.services, old(c.index), c.index, rev, |rev|)
  {
    hide Reached, Placeable, Grounded, Stops;
    ghost var before, declared := c.services, c.index;
    ReachedStart(c.fleet, before, declared, rev);
    for m := 0 to |rev|
      invariant c.Valid()
      invariant Reached(c.fleet, before, c.services, declared, c.index, rev, m)
      invariant forall j :: 0 <= j < m ==> Placeable(c.fleet, before, rev[j])
    {
      r := PlaceNext(c, rev[m], before, declared, rev, m);
      if r.Err? {
        return;
      }
    }
    return Ok(());
  }

  /** Affinity discovery over the reversed graph. */
  method Place(c: Config) returns (r: Result<(), Error>)
    requires c.Valid() && Distinct(c.graph)
    requires forall k :: k in c.services ==> c.services[k].instances == []
    modifies c`services, c`index
    ensures r.Ok? <==> forall k :: k in c.graph ==> Placeable(c.fleet, old(c.services), k)
    ensures r.Err? ==> exists k :: k in c.graph && Stops(c.fleet, old(c.services), k, r.error)
    ensures r.Ok? ==> c.Valid()
    ensures r.Ok? ==> Placed(c.fleet, old(c.services), c.services, Reverse(c.graph), |c.graph|)
    ensures r.Ok? ==> Indexed(c.fleet, old(c.index), c.index, c.services, Reverse(c.graph), |c.graph|)
  {
    ReversedIn(c.graph);
    r := PlaceAll(c, Reverse(c.graph));
  }
}
