/** What can be said of discovered services, and a configuration in which discovery loses one. */
module DiscoveryLaws {
  import opened Prelude
  import opened Labels
  import opened Affinities
  import opened Cluster
  import opened Merging
  import opened Visits
  import opened Discovery

  /** Every service is what its module makes of the declared one, or of a new one when it was registered. */
  lemma DiscoveredBuilds(o: Origin, made: seq<Key>, found: Services, k: Key)
    requires Discovered(o, made, found) && k in found
    requires forall m :: m in o.load ==> DistinctNames(o.load[m].deps)
    ensures ExistsAt(o, made, k) && Built(o.load, k, Latest(o, made, k), found[k])
  {
    assert DoneAt(o, made, found, k);
    var base, outer :| Came(o, made, k, base, outer, found[k]);
    hide Visited, History, DoneAt;
    VisitedBuilds(o, made, outer, k, base, found[k]);
    var n: nat :| After(o, made, k, Latest(o, made, k), n, base);
    AfterBuilds(o, made, k, Latest(o, made, k), n, base);
    if n > 0 {
      BuiltTwice(o.load, k, Latest(o, made, k), base, found[k]);
    }
  }

  /** Several visits make of a service what one may make. */
  lemma {:induction false} AfterBuilds(o: Origin, made: seq<Key>, k: Key, first: Service, n: nat, base: Service)
    requires After(o, made, k, first, n, base)
    requires forall m :: m in o.load ==> DistinctNames(o.load[m].deps)
    ensures n == 0 ==> base == first
    ensures n > 0 ==> Built(o.load, k, first, base)
  {
    hide Visited;
    if n > 0 {
      var mid, outer := LastVisit(o, made, k, first, n, base);
      AfterBuilds(o, made, k, first, n - 1, mid);
      VisitedBuilds(o, made, outer, k, mid, base);
      if n > 1 {
        BuiltTwice(o.load, k, first, mid, base);
      }
    }
  }

  /** Of two declared dependencies, one has the module, and one is automatic if the result is. */
  ghost predicate Descends(o: Origin, d: Dep) {
    && (Truthy(d.path).Some? ==> exists dep :: Declares(o, dep) && Truthy(dep.path) == Truthy(d.path))
    && (Is(d.auto) ==> exists dep :: Declares(o, dep) && Is(dep.auto))
  }

  lemma MergeDescends(o: Origin, own: seq<Dep>, m: string, d: Dep)
    requires m in o.load && d in MergeDeps(own, o.load[m].deps) && forall x :: x in own ==> Descends(o, x)
    ensures Descends(o, d)
  {
    hide Descends, MergeDeps;
    var def := o.load[m].deps;
    forall f | f in def
      ensures Descends(o, f)
    {
      DeclaredDescends(o, f);
    }
    MergeOrigin(own, def, d);
    if x :| x in own && d == MergedWith(x, def) {
      if FindDep(def, x.name).Some? {
        PairDescends(o, x, FindDep(def, x.name).value);
      }
    }
  }

  lemma DeclaredDescends(o: Origin, d: Dep)
    requires Declares(o, d)
    ensures Descends(o, d)
  {
  }

  lemma PairDescends(o: Origin, own: Dep, def: Dep)
    requires Descends(o, own) && Descends(o, def)
    ensures Descends(o, MergeDep(own, def))
  {
    hide Declares;
  }

  /** A dependency of a visit has its module, and its being automatic, from declared ones. */
  lemma ReadDescends(o: Origin, made: seq<Key>, ask: Ask)
    requires Reads(o, made, ask)
    ensures Descends(o, MergedDeps(o.load, ask.key, ask.base)[ask.index])
  {
    var first :| Starts(o, made, ask.key, first) && From(o, made, ask.key, first, ask.base);
    var n: nat :| After(o, made, ask.key, first, n, ask.base);
    var deps := MergedDeps(o.load, ask.key, ask.base);
    StartDescends(o, made, ask.key, first);
    AfterDescends(o, made, ask.key, first, n, ask.base);
    hide Descends, MergeDeps;
    MergeDescends(o, ask.base.spec.deps, ask.base.spec.path.GetOr(ask.key.name), deps[ask.index]);
  }

  lemma {:induction false} AfterDescends(o: Origin, made: seq<Key>, k: Key, first: Service, n: nat, base: Service)
    requires After(o, made, k, first, n, base)
    requires forall d :: d in first.spec.deps ==> Descends(o, d)
    ensures forall d :: d in base.spec.deps ==> Descends(o, d)
  {
    hide Visited, Descends, Built;
    if n > 0 {
      var mid, outer := LastVisit(o, made, k, first, n, base);
      AfterDescends(o, made, k, first, n - 1, mid);
      VisitedBuilds(o, made, outer, k, mid, base);
      forall d | d in base.spec.deps
        ensures Descends(o, d)
      {
        BuiltDescends(o, k, mid, base, d);
      }
    }
  }

  lemma StartDescends(o: Origin, made: seq<Key>, k: Key, first: Service)
    requires Starts(o, made, k, first)
    ensures forall x :: x in first.spec.deps ==> Descends(o, x)
  {
    forall x | x in first.spec.deps
      ensures Descends(o, x)
    {
      DeclaredDescends(o, x);
    }
  }

  lemma BuiltDescends(o: Origin, k: Key, first: Service, base: Service, x: Dep)
    requires Built(o.load, k, first, base) && x in base.spec.deps
    requires forall d :: d in first.spec.deps ==> Descends(o, d)
    ensures Descends(o, x)
  {
    var path := first.spec.path.GetOr(k.name);
    var given := Mutate(first, path, o.load[path]).spec.deps;
    var i :| 0 <= i < |base.spec.deps| && base.spec.deps[i] == x;
    assert given[i] in given;
    hide MergeDeps;
    MergeDescends(o, first.spec.deps, path, given[i]);
  }

  lemma AskedDescends(o: Origin, made: seq<Key>, ask: Ask, k: Key)
    requires Asks(o, made, ask, k)
    ensures k.cluster in o.clusters
    ensures exists dep :: Declares(o, dep) && Truthy(dep.path) == Some(k.name)
    ensures exists dep :: Declares(o, dep) && Is(dep.auto)
  {
    hide Reads, MergedDeps, Declares, ReadAll, ProvidesAt;
    ReadDescends(o, made, ask);
  }

  /** What is registered is a module that a declared dependency is on, where one is automatic. */
  lemma RegisteredIsAsked(o: Origin, made: seq<Key>, k: Key)
    requires History(o, made) && k in made
    ensures k.cluster in o.clusters
    ensures exists dep :: Declares(o, dep) && Truthy(dep.path) == Some(k.name)
    ensures exists dep :: Declares(o, dep) && Is(dep.auto)
  {
    var t :| 0 <= t < |made| && made[t] == k;
    assert AskedFor(o, made[..t], made[t]);
    hide Asks, Declares, History;
    var ask :| Asks(o, made[..t], ask, k);
    AskedDescends(o, made[..t], ask, k);
  }

  /** It was registered for an automatic dependency on it, not disabled, of a service that existed before it. */
  lemma RegisteredForEnabled(o: Origin, made: seq<Key>, t: nat) returns (ask: Ask)
    requires History(o, made) && t < |made|
    ensures Reads(o, made[..t], ask) && ExistsAt(o, made[..t], ask.key)
    ensures var d := MergedDeps(o.load, ask.key, ask.base)[ask.index];
      && !d.short && d.auto == Some(true) && d.disabled != Some(true)
      && d.path == Some(made[t].name) && made[t].name != ""
      && (d.cluster.Some? ==> d.cluster == Some(made[t].cluster))
  {
    assert AskedFor(o, made[..t], made[t]);
    hide History, ProvidesAt, ReadAll;
    ask :| Asks(o, made[..t], ask, made[t]);
    hide MergedDeps, From;
  }

  /** Without automatic dependencies the services are the declared ones. */
  lemma OnlyOnDemand(o: Origin, made: seq<Key>, found: Services)
    requires Discovered(o, made, found) && forall dep :: Declares(o, dep) ==> !Is(dep.auto)
    ensures made == [] && found.Keys == o.given.Keys
  {
    hide DoneAt, History, Declares;
    if made != [] {
      RegisteredIsAsked(o, made, made[0]);
    }
  }

  /** Where no dependency names a service, no automatic one is missing on a first visit. */
  lemma NeverLost(o: Origin, k: Key, name: string)
    requires forall dep :: Declares(o, dep) ==> !NamesService(dep)
    ensures !Lost(o, k, name, false)
  {
    hide History, Declares;
    forall made, ask, i
      ensures !(Stray(o, made, ask, i) && Starts(o, made, ask.key, ask.base))
    {
      if Stray(o, made, ask, i) && Starts(o, made, ask.key, ask.base) {
        NamedIsDeclared(o, made, ask, i);
      }
    }
  }

  lemma NamedIsDeclared(o: Origin, made: seq<Key>, ask: Ask, i: nat)
    requires Stray(o, made, ask, i) && Starts(o, made, ask.key, ask.base)
    ensures exists dep :: Declares(o, dep) && NamesService(dep)
  {
    StrayIsNamed(o, made, ask, i);
    hide Stray;
    if ask.key in o.given && exists d :: d in o.given[ask.key].spec.deps && NamesService(d) {
      var d :| d in o.given[ask.key].spec.deps && NamesService(d);
      assert Declares(o, d);
    } else {
      var m, d :| m in o.load && d in o.load[m].deps && NamesService(d);
      assert Declares(o, d);
    }
  }

  // ----- a configuration in which an automatic service is missing

  /** A dependency on a service that does not exist. */
  const ABSENT := Dep("a", false, None, None, Some("x"), None, None, None, None, None)

  /** An automatic dependency on a module, listed after it. */
  const WANTED := Dep("b", false, Some("n"), None, None, Some(true), None, None, None, None)

  const BLANK := Definition([], [], map[], false, map[], None)
  const STRAYING := Key("c", "s")

  function StrayOrigin(): Origin {
    Origin(map["m" := BLANK, "n" := BLANK], ["c"],
      map[STRAYING := Service(Spec(Some("m"), [ABSENT, WANTED], [], map[], map[], false, map[], None), [], [])])
  }

  lemma StrayDeclares(dep: Dep)
    requires Declares(StrayOrigin(), dep)
    ensures dep == ABSENT || dep == WANTED
  {
  }

  lemma StrayRegisters(made: seq<Key>)
    requires History(StrayOrigin(), made)
    ensures forall k :: k in made ==> k.name == "n"
  {
    var o := StrayOrigin();
    hide History, StrayOrigin, Declares;
    forall k | k in made
      ensures k.name == "n"
    {
      RegisteredIsAsked(o, made, k);
      var dep :| Declares(o, dep) && Truthy(dep.path) == Some(k.name);
      StrayDeclares(dep);
    }
  }

  lemma StrayDeps(base: Service)
    requires base.spec.path == Some("m")
    ensures MergedDeps(StrayOrigin().load, STRAYING, base) == base.spec.deps
  {
    MergeParts(base.spec.deps, []);
  }

  lemma StrayFirst()
    ensures First([ABSENT, WANTED], 1, "c") ==
      Dep("b", false, Some("n"), Some("c"), Some("x"), Some(true), None, None, None, None)
  {
    Unlabelled("x");
    var deps := [ABSENT, WANTED];
    assert ReadAll(deps, 1) == Reference(Some("x"), None);
    assert ReadAll(deps, 2) == Reference(Some("x"), None);
  }

  lemma Unlabelled(name: string)
    requires Plain(name)
    ensures ReadReversed(name) == (name, None)
  {
  }

  lemma StrayChoice(made: seq<Key>, dep: Dep)
    requires forall k :: k in made ==> k.name == "n"
    ensures !Chooses(StrayOrigin(), made, First([ABSENT, WANTED], 1, "c"), dep)
  {
    StrayFirst();
    hide ReadAll, First;
    forall t: nat
      ensures !Decided(StrayOrigin(), made, t, First([ABSENT, WANTED], 1, "c"), dep)
    {
    }
  }

  lemma StrayVisit(made: seq<Key>, outer: string, service: Service)
    requires History(StrayOrigin(), made) && Loop(StrayOrigin(), made, STRAYING, outer)
    ensures !Visited(StrayOrigin(), made, outer, STRAYING, StrayOrigin().given[STRAYING], service)
  {
    var o := StrayOrigin();
    StrayRegisters(made);
    StrayDeps(o.given[STRAYING]);
    hide History;
    if Visited(o, made, outer, STRAYING, o.given[STRAYING], service) {
      StrayChoice(made, service.spec.deps[1]);
    }
  }

  lemma {:induction false} StrayNever(made: seq<Key>, n: nat, base: Service)
    requires History(StrayOrigin(), made) && STRAYING in StrayOrigin().given
    requires After(StrayOrigin(), made, STRAYING, StrayOrigin().given[STRAYING], n, base)
    ensures n == 0
  {
    hide *;
    if n > 0 {
      var o := StrayOrigin();
      var mid, outer := LastVisit(o, made, STRAYING, o.given[STRAYING], n, base);
      StrayNever(made, n - 1, mid);
      StrayVisit(made, outer, base);
      assert false;
    }
  }

  /** Discovery cannot succeed on it. */
  lemma StrayIsStuck(made: seq<Key>, found: Services)
    ensures !Discovered(StrayOrigin(), made, found)
  {
    var o := StrayOrigin();
    if Discovered(o, made, found) {
      assert DoneAt(o, made, found, STRAYING);
      StrayRegisters(made);
      hide Visited, History;
      var base, outer :| Came(o, made, STRAYING, base, outer, found[STRAYING]);
      var n: nat :| After(o, made, STRAYING, Latest(o, made, STRAYING), n, base);
      StrayNever(made, n, base);
      StrayVisit(made, outer, found[STRAYING]);
      assert false;
    }
  }

  /** Nor fail in any other way. */
  lemma StrayCause(e: Error)
    requires Cause(StrayOrigin(), {"c"}, e)
    ensures e == AutoServiceMissing(STRAYING, "b")
  {
    hide StrayOrigin, Declares, Mentions, Located, Identified, Loadable, Regular, WellNamed, Lost, AllLoad;
    StrayFits();
    StrayMentions();
    if e.AutoServiceMissing? {
      StrayLost(e.key, e.dep);
    }
  }

  lemma StrayMentions()
    ensures forall name :: Mentions(StrayOrigin(), name) ==> Regular(name) && Plain(name)
  {
    forall name | Mentions(StrayOrigin(), name)
      ensures Regular(name)
    {
      if dep :| Declares(StrayOrigin(), dep) && Truthy(dep.path) == Some(name) {
        StrayDeclares(dep);
      }
    }
  }

  lemma StrayFits()
    ensures AllLoad(StrayOrigin().load, StrayOrigin().given) && OneProvider(StrayOrigin().given)
    ensures forall dep :: Declares(StrayOrigin(), dep) ==>
      Loadable(dep, StrayOrigin().load) && Identified(dep) && Located(dep, {"c"}) && WellNamed(dep)
  {
    Unlabelled("x");
    forall dep | Declares(StrayOrigin(), dep)
      ensures Loadable(dep, StrayOrigin().load) && Identified(dep) && Located(dep, {"c"}) && WellNamed(dep)
    {
      StrayDeclares(dep);
    }
  }

  lemma StrayLost(k: Key, name: string)
    requires Lost(StrayOrigin(), k, name, false)
    ensures k == STRAYING && name == "b"
  {
    hide History, ReadAll, ReadReversed, Asked;
    var o := StrayOrigin();
    var made, ask, i :|
      History(o, made) && Stray(o, made, ask, i)
      && ask.key == k && MergedDeps(o.load, k, ask.base)[ask.index].name == name
      && Starts(o, made, k, ask.base);
    StrayRegisters(made);
    StrayAsk(made, ask, i);
  }

  lemma StrayAsk(made: seq<Key>, ask: Ask, i: nat)
    requires Stray(StrayOrigin(), made, ask, i) && Starts(StrayOrigin(), made, ask.key, ask.base)
    requires forall k :: k in made ==> k.name == "n"
    ensures ask.key == STRAYING && ask.index < |MergedDeps(StrayOrigin().load, STRAYING, ask.base)|
    ensures MergedDeps(StrayOrigin().load, STRAYING, ask.base)[ask.index].name == "b"
  {
    MergeParts(ask.base.spec.deps, []);
    hide ReadAll, ReadReversed, Asked, From, Loop, ExistsAt;
  }

  /** On it discovery is rejected for the automatic dependency that came after the named one. */
  method StrayRun() returns (r: Result<(), Error>)
    ensures r == Err(AutoServiceMissing(STRAYING, "b"))
  {
    var o := StrayOrigin();
    var c := new Config(o.load, o.clusters, Fleet([], map[]), {"c"}, [STRAYING], o.given, map[]);
    ghost var made;
    r, made := Discover(c);
    hide Discovered, Cause;
    if r.Ok? {
      StrayIsStuck(made, c.services);
      assert false;
    } else {
      StrayCause(r.error);
    }
  }
}
