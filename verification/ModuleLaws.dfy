/** What the services have after discovery, property by property: theirs, and their module's over it. */
module ModuleLaws {
  import opened Prelude
  import opened Cluster
  import opened Merging
  import opened Visits
  import opened DiscoveryLaws

  /** Every entry of both sides, that of the module where both have it. */
  ghost predicate Overlaid<V(!new)>(own: map<string, V>, over: map<string, V>, both: map<string, V>) {
    && (forall name :: name in both <==> name in own || name in over)
    && (forall name :: name in over ==> both[name] == over[name])
    && (forall name :: name in own && name !in over ==> both[name] == own[name])
  }

  /** The properties of a service besides its dependencies, once its module is loaded. */
  ghost predicate Loaded(own: Spec, path: string, def: Definition, spec: Spec) {
    && spec.path == Some(path)
    && (spec.configure <==> own.configure || def.configure)
    && (spec.plugin == if def.plugin.Some? then def.plugin else own.plugin)
    && (spec.declared == if def.declared != [] then def.declared else own.declared)
    && Overlaid(own.options, def.options, spec.options)
    && Overlaid(own.commands, def.commands, spec.commands)
    && spec.nodeOptions == own.nodeOptions
  }

  lemma BuiltIsLoaded(load: map<string, Definition>, k: Key, first: Service, service: Service)
    requires Built(load, k, first, service)
    ensures var path := first.spec.path.GetOr(k.name); path in load && Loaded(first.spec, path, load[path], service.spec)
    ensures service.affinity == first.affinity && service.instances == first.instances
  {
  }

  /** A declared service that was not replaced has its own properties with those of its module over them. */
  lemma DeclaredIsLoaded(o: Origin, made: seq<Key>, found: Services, k: Key)
    requires Discovered(o, made, found) && k in o.given && k !in made
    requires forall m :: m in o.load ==> DistinctNames(o.load[m].deps)
    ensures k in found
    ensures var own := o.given[k].spec;
      var path := if own.path.Some? then own.path.value else k.name;
      path in o.load && Loaded(own, path, o.load[path], found[k].spec)
  {
    assert ExistsAt(o, made, k);
    DiscoveredBuilds(o, made, found, k);
    hide Discovered, Built;
    BuiltIsLoaded(o.load, k, o.given[k], found[k]);
  }

  lemma NothingOver<V(!new)>(over: map<string, V>, both: map<string, V>)
    requires Overlaid(map[], over, both)
    ensures both == over
  {
    assert both.Keys == over.Keys;
  }

  /** A registered service has the properties of the module that it is named after. */
  lemma RegisteredIsLoaded(o: Origin, made: seq<Key>, found: Services, k: Key)
    requires Discovered(o, made, found) && k in made
    requires forall m :: m in o.load ==> DistinctNames(o.load[m].deps)
    ensures k in found && k.name in o.load
    ensures var def, spec := o.load[k.name], found[k].spec;
      && spec.path == Some(k.name) && spec.configure == def.configure && spec.plugin == def.plugin
      && spec.declared == def.declared && spec.options == def.options && spec.commands == def.commands
      && spec.nodeOptions == map[]
  {
    assert ExistsAt(o, made, k);
    DiscoveredBuilds(o, made, found, k);
    hide Discovered, Built, Overlaid;
    BuiltIsLoaded(o.load, k, NewService(k.name), found[k]);
    NothingOver(o.load[k.name].options, found[k].spec.options);
    NothingOver(o.load[k.name].commands, found[k].spec.commands);
  }

  // ----- dependencies

  /** The property of the definition, where it has one, else that of the user. */
  ghost predicate Chosen<T(!new)>(own: Option<T>, def: Option<T>, r: Option<T>) {
    (def.Some? ==> r == def) && (def.None? ==> r == own)
  }

  /** The dependency has all that was given; a bare module name gives nothing else. */
  ghost predicate Keeps(given: Dep, d: Dep) {
    && d.name == given.name && d.path == given.path
    && (given.short ==> d.auto == d.required == d.local == d.single == d.disabled == None)
    && (!given.short ==>
      && d.auto == given.auto && d.required == given.required && d.local == given.local && d.single == given.single
      && d.disabled == given.disabled && (given.cluster.Some? ==> d.cluster == given.cluster))
  }

  /** The dependency is made of what the user and the definition have under its name. */
  ghost predicate MadeOf(own: Option<Dep>, def: Option<Dep>, d: Dep) {
    match (own, def)
    case (None, None) => false
    case (Some(u), None) => Keeps(u, d)
    case (None, Some(m)) => Keeps(m, d)
    case (Some(u), Some(m)) =>
      if u.short || m.short then Keeps(m, d)
      else
        && d.name == u.name == m.name && Chosen(u.path, m.path, d.path)
        && Chosen(u.auto, m.auto, d.auto) && Chosen(u.required, m.required, d.required)
        && Chosen(u.local, m.local, d.local) && Chosen(u.single, m.single, d.single)
        && Chosen(u.disabled, m.disabled, d.disabled)
        && (m.cluster.Some? ==> d.cluster == m.cluster)
        && (m.cluster.None? && u.cluster.Some? ==> d.cluster == u.cluster)
  }

  lemma ResolvedMadeOf(own: Option<Dep>, def: Option<Dep>, given: Dep, d: Dep)
    requires own.Some? || def.Some?
    requires own.Some? && def.Some? ==> own.value.name == def.value.name
    requires given == if own.None? then def.value else if def.None? then own.value else MergeDep(own.value, def.value)
    requires Resolves(given, d)
    ensures MadeOf(own, def, d)
  {
  }

  /** The dependencies of a service, once its module is loaded, are those of both sides by name. */
  lemma BuiltDeps(load: map<string, Definition>, k: Key, first: Service, service: Service)
    requires Built(load, k, first, service)
    requires DistinctNames(first.spec.deps) && DistinctNames(load[first.spec.path.GetOr(k.name)].deps)
    ensures DistinctNames(service.spec.deps)
    ensures forall d :: d in service.spec.deps ==>
      MadeOf(FindDep(first.spec.deps, d.name), FindDep(load[first.spec.path.GetOr(k.name)].deps, d.name), d)
    ensures forall x ::
      x in first.spec.deps || x in load[first.spec.path.GetOr(k.name)].deps ==> FindDep(service.spec.deps, x.name).Some?
  {
    var own, def := first.spec.deps, load[first.spec.path.GetOr(k.name)].deps;
    var given, deps := MergeDeps(own, def), service.spec.deps;
    assert |deps| == |given| && forall i :: 0 <= i < |given| ==> Resolves(given[i], deps[i]);
    hide Built;
    MergeNames(own, def);
    assert forall i :: 0 <= i < |given| ==> deps[i].name == given[i].name;
    hide MergeDeps, FindDep, MadeOf, Resolves;
    forall d | d in deps
      ensures MadeOf(FindDep(own, d.name), FindDep(def, d.name), d)
    {
      var i :| 0 <= i < |deps| && deps[i] == d;
      assert given[i] in given;
      FindOwn(given, given[i]);
      MergeByName(own, def, d.name);
      ResolvedMadeOf(FindDep(own, d.name), FindDep(def, d.name), given[i], d);
    }
    forall x | x in own || x in def
      ensures FindDep(deps, x.name).Some?
    {
      MergeCovers(own, def, x);
      var i :| 0 <= i < |given| && given[i] == FindDep(given, x.name).value;
      assert deps[i] in deps;
    }
  }

  /** The dependencies of a declared service that was not replaced. */
  lemma DeclaredDeps(o: Origin, made: seq<Key>, found: Services, k: Key)
    requires Discovered(o, made, found) && k in o.given && k !in made && DistinctNames(o.given[k].spec.deps)
    requires forall m :: m in o.load ==> DistinctNames(o.load[m].deps)
    ensures k in found
    ensures var own := o.given[k].spec;
      var path := if own.path.Some? then own.path.value else k.name;
      && path in o.load && var def := o.load[path].deps;
      && (forall d :: d in found[k].spec.deps ==> MadeOf(FindDep(own.deps, d.name), FindDep(def, d.name), d))
      && (forall x :: x in own.deps || x in def ==> FindDep(found[k].spec.deps, x.name).Some?)
  {
    DeclaredIsLoaded(o, made, found, k);
    DiscoveredBuilds(o, made, found, k);
    hide Discovered, Built, Loaded, MadeOf, FindDep;
    BuiltDeps(o.load, k, o.given[k], found[k]);
  }

  /** Those of a registered one are those of its module. */
  lemma RegisteredDeps(o: Origin, made: seq<Key>, found: Services, k: Key)
    requires Discovered(o, made, found) && k in made
    requires forall m :: m in o.load ==> DistinctNames(o.load[m].deps)
    ensures k in found && k.name in o.load
    ensures forall d :: d in found[k].spec.deps ==>
      FindDep(o.load[k.name].deps, d.name).Some? && Keeps(FindDep(o.load[k.name].deps, d.name).value, d)
    ensures forall x :: x in o.load[k.name].deps ==> FindDep(found[k].spec.deps, x.name).Some?
  {
    RegisteredIsLoaded(o, made, found, k);
    DiscoveredBuilds(o, made, found, k);
    hide Discovered, Built, Keeps;
    BuiltDeps(o.load, k, NewService(k.name), found[k]);
  }

  // ----- the service of a dependency on a module

  /** The service loads the module: it says so, or it has only the name of it. */
  ghost predicate LoadsModule(o: Origin, made: seq<Key>, k: Key, path: string) {
    || (k in made && k.name == path)
    || (k in o.given && o.given[k].spec.path == Some(path))
    || (k in o.given && o.given[k].spec.path in {None, Some("")} && k.name == path)
  }

  lemma ByModuleLoads(o: Origin, made: seq<Key>, t: nat, demanded: bool, cluster: string, path: string, dep: Dep)
    requires t <= |made| && ByModule(o, made, t, demanded, cluster, path, dep) && dep.service.Some?
    ensures LoadsModule(o, made, Key(cluster, dep.service.value), path)
  {
    var k := Key(cluster, dep.service.value);
    if forall name :: ProvidesAt(o, made[..t], cluster, path, name) <==> name == dep.service.value {
      assert ProvidesAt(o, made[..t], cluster, path, dep.service.value);
    } else {
      assert made[t] == k;
    }
  }

  /**
   In every visit, a dependency on a module, before any that names a service, gets a
   service that loads this module, in its own cluster or in that of the loop.
  */
  lemma VisitFinds(o: Origin, made: seq<Key>, outer: string, k: Key, base: Service, service: Service, i: nat)
    requires Visited(o, made, outer, k, base, service)
    requires i < |MergedDeps(o.load, k, base)| && forall j :: 0 <= j <= i ==> !NamesService(MergedDeps(o.load, k, base)[j])
    ensures |service.spec.deps| == |MergedDeps(o.load, k, base)|
    ensures var given, d := MergedDeps(o.load, k, base)[i], service.spec.deps[i];
      && d.path.Some? && d.path.value != ""
      && d.cluster == (if given.short || given.cluster.None? then Some(outer) else given.cluster)
      && (d.service.Some? ==> LoadsModule(o, made, Key(d.cluster.value, d.service.value), d.path.value))
  {
    var deps := MergedDeps(o.load, k, base);
    var d := service.spec.deps[i];
    ReferenceLeaks(deps, 0, i, outer);
    assert Chooses(o, made, First(deps, i, outer), d);
    hide Visited, MergedDeps, ReadAll, ByModule;
    var t: nat :| Decided(o, made, t, First(deps, i, outer), d);
    if d.service.Some? {
      ByModuleLoads(o, made, t, Demands(First(deps, i, outer)), d.cluster.value, d.path.value, d);
    }
  }

  /** Every automatic dependency that is not disabled names a service that was found, or none. */
  lemma AutomaticExist(o: Origin, made: seq<Key>, found: Services, k: Key, d: Dep)
    requires Discovered(o, made, found) && k in found && d in found[k].spec.deps
    requires d.auto == Some(true) && d.disabled != Some(true)
    ensures d.cluster.Some? && (d.service.Some? ==> Key(d.cluster.value, d.service.value) in found)
  {
    assert DoneAt(o, made, found, k);
    hide Came, History;
    var i :| 0 <= i < |found[k].spec.deps| && found[k].spec.deps[i] == d;
    assert DepClosed(found[k].spec.deps[i], found);
  }
}
