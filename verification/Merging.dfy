/**
 The merge of a loaded module into a service, what discovery may change of its
 dependencies afterwards, and the causes for which discovery fails.
*/
module Merging {
  import opened Prelude
  import opened Labels
  import opened Cluster

  function Over<T>(own: Option<T>, def: Option<T>): Option<T> {
    if def.Some? then def else own
  }

  /** A definition overrides the user field by field, except where one of them is a bare name. */
  function MergeDep(own: Dep, def: Dep): Dep {
    if own.short || def.short then def
    else Dep(own.name, false, Over(own.path, def.path), Over(own.cluster, def.cluster), Over(own.service, def.service),
      Over(own.auto, def.auto), Over(own.required, def.required), Over(own.local, def.local),
      Over(own.single, def.single), Over(own.disabled, def.disabled))
  }

  function FindDep(deps: seq<Dep>, name: string): (r: Option<Dep>)
    ensures r.Some? ==> r.value in deps && r.value.name == name
    ensures r.None? ==> forall d :: d in deps ==> d.name != name
  {
    if deps == [] then None
    else if deps[0].name == name then Some(deps[0])
    else FindDep(deps[1..], name)
  }

  /** The dependency with what the definition says of the same name. */
  function MergedWith(own: Dep, def: seq<Dep>): Dep {
    var other := FindDep(def, own.name);
    if other.Some? then MergeDep(own, other.value) else own
  }

  ghost function NewTo(own: seq<Dep>): (keep: Dep -> bool)
    ensures forall d :: keep(d) <==> FindDep(own, d.name).None?
  {
    (d: Dep) => FindDep(own, d.name).None?
  }

  function MergeDeps(own: seq<Dep>, def: seq<Dep>): seq<Dep> {
    seq(|own|, i requires 0 <= i < |own| => MergedWith(own[i], def)) + Filter(def, (d: Dep) => FindDep(own, d.name).None?)
  }

  function Mutate(service: Service, path: string, def: Definition): Service {
    var spec := service.spec;
    service.(spec := Spec(Some(path), MergeDeps(spec.deps, def.deps),
      if def.declared != [] then def.declared else spec.declared,
      spec.options + def.options, spec.nodeOptions,
      spec.configure || def.configure, spec.commands + def.commands,
      if def.plugin.Some? then def.plugin else spec.plugin))
  }

  /** A bare module name stands for a dependency on that module. */
  function Unshort(dep: Dep): Dep {
    if dep.short then Dep(dep.name, false, dep.path, None, None, None, None, None, None, None) else dep
  }

  function ModuleOf(k: Key, service: Service): string {
    Truthy(service.spec.path).GetOr(k.name)
  }

  // ----- what the merge makes of the dependencies

  lemma MergeParts(own: seq<Dep>, def: seq<Dep>)
    ensures var merged := MergeDeps(own, def);
      && |merged| == |own| + |Filter(def, NewTo(own))|
      && (forall i :: 0 <= i < |own| ==> merged[i] == MergedWith(own[i], def) && merged[i].name == own[i].name)
      && merged[|own|..] == Filter(def, NewTo(own))
  {
    FilterSame(def, (d: Dep) => FindDep(own, d.name).None?, NewTo(own));
  }

  /** Every dependency of the merge is one of the user with the definition over it, or new from the definition. */
  lemma MergeOrigin(own: seq<Dep>, def: seq<Dep>, d: Dep)
    requires d in MergeDeps(own, def)
    ensures (exists o :: o in own && d == MergedWith(o, def)) || (d in def && FindDep(own, d.name).None?)
  {
    MergeParts(own, def);
    var merged := MergeDeps(own, def);
    var i :| 0 <= i < |merged| && merged[i] == d;
    if i < |own| {
      assert own[i] in own;
    } else {
      assert d == merged[|own|..][i - |own|];
      assert d in Filter(def, NewTo(own));
    }
  }

  lemma {:induction false} FilterNames(deps: seq<Dep>, keep: Dep -> bool)
    requires DistinctNames(deps)
    ensures DistinctNames(Filter(deps, keep))
  {
    if deps != [] {
      FilterNames(deps[1..], keep);
      forall d | d in Filter(deps[1..], keep)
        ensures d.name != deps[0].name
      {
        var i :| 0 <= i < |deps[1..]| && deps[1..][i] == d;
      }
    }
  }

  /** Two lists of distinct names with no name in common. */
  lemma NamesTogether(a: seq<Dep>, b: seq<Dep>)
    requires DistinctNames(a) && DistinctNames(b)
    requires forall d, e :: d in a && e in b ==> d.name != e.name
    ensures DistinctNames(a + b)
  {
    var all := a + b;
    forall i, j | 0 <= i < j < |all|
      ensures all[i].name != all[j].name
    {
      if i < |a| <= j {
        assert a[i] in a && b[j - |a|] in b;
      }
    }
  }

  /** The names of a merge are those of the user in order, then the new ones; none comes twice. */
  lemma MergeNames(own: seq<Dep>, def: seq<Dep>)
    requires DistinctNames(own) && DistinctNames(def)
    ensures DistinctNames(MergeDeps(own, def))
  {
    MergeParts(own, def);
    FilterNames(def, NewTo(own));
    hide Filter, FindDep, MergeDeps, MergedWith;
    var merged, added := MergeDeps(own, def), Filter(def, NewTo(own));
    var kept := merged[..|own|];
    assert DistinctNames(kept);
    forall d, e | d in kept && e in added
      ensures d.name != e.name
    {
      var i :| 0 <= i < |own| && kept[i] == d;
      assert own[i] in own && own[i].name == d.name;
    }
    NamesTogether(kept, added);
    assert merged == kept + added;
  }

  /** Every name of the two is in the merge. */
  lemma MergeCovers(own: seq<Dep>, def: seq<Dep>, d: Dep)
    requires d in own || d in def
    ensures FindDep(MergeDeps(own, def), d.name).Some?
  {
    MergeParts(own, def);
    hide Filter, FindDep, MergeDeps, MergedWith;
    var merged, added := MergeDeps(own, def), Filter(def, NewTo(own));
    if o :| o in own && o.name == d.name {
      var i :| 0 <= i < |own| && own[i] == o;
      assert merged[i] in merged;
    } else {
      assert FindDep(own, d.name).None? && d in added;
      var i :| 0 <= i < |added| && added[i] == d;
      assert merged[|own|..][i] == d && merged[|own| + i] in merged;
    }
  }

  /** With distinct names, looking a dependency up by its name finds it. */
  lemma {:induction false} FindOwn(deps: seq<Dep>, d: Dep)
    requires DistinctNames(deps) && d in deps
    ensures FindDep(deps, d.name) == Some(d)
  {
    if deps[0] != d {
      var i :| 0 <= i < |deps| && deps[i] == d;
      assert deps[1..][i - 1] == d;
      FindOwn(deps[1..], d);
    }
  }

  /**
   Looking a name up in the merge is merging what is found under it: the dependency of one
   side where the other has none, else that of the definition field by field over the user's.
  */
  lemma MergeByName(own: seq<Dep>, def: seq<Dep>, name: string)
    requires DistinctNames(own) && DistinctNames(def)
    ensures FindDep(MergeDeps(own, def), name) ==
      match (FindDep(own, name), FindDep(def, name))
      case (None, found) => found
      case (found, None) => found
      case (Some(o), Some(f)) => Some(MergeDep(o, f))
  {
    MergeNames(own, def);
    hide Filter, FindDep, MergeDeps, MergedWith, MergeDep, DistinctNames;
    if FindDep(own, name).Some? {
      OwnInMerge(own, def, FindDep(own, name).value);
      MergedWithFound(FindDep(own, name).value, def);
      FindOwn(MergeDeps(own, def), MergedWith(FindDep(own, name).value, def));
    } else if FindDep(def, name).Some? {
      NewInMerge(own, def, FindDep(def, name).value);
      FindOwn(MergeDeps(own, def), FindDep(def, name).value);
    } else if FindDep(MergeDeps(own, def), name).Some? {
      NothingElse(own, def, FindDep(MergeDeps(own, def), name).value);
    }
  }

  lemma MergedWithFound(own: Dep, def: seq<Dep>)
    ensures MergedWith(own, def) ==
      if FindDep(def, own.name).Some? then MergeDep(own, FindDep(def, own.name).value) else own
    ensures MergedWith(own, def).name == own.name
  {
  }

  lemma OwnInMerge(own: seq<Dep>, def: seq<Dep>, o: Dep)
    requires o in own
    ensures MergedWith(o, def) in MergeDeps(own, def)
  {
    MergeParts(own, def);
    hide MergeDeps, MergedWith, Filter;
    var i :| 0 <= i < |own| && own[i] == o;
    assert MergeDeps(own, def)[i] == MergedWith(o, def);
  }

  lemma NewInMerge(own: seq<Dep>, def: seq<Dep>, f: Dep)
    requires f in def && FindDep(own, f.name).None?
    ensures f in MergeDeps(own, def)
  {
    MergeParts(own, def);
    hide MergeDeps, MergedWith;
    var added := Filter(def, NewTo(own));
    assert f in added;
    var i :| 0 <= i < |added| && added[i] == f;
    assert MergeDeps(own, def)[|own|..][i] == f && MergeDeps(own, def)[|own| + i] in MergeDeps(own, def);
  }

  lemma NothingElse(own: seq<Dep>, def: seq<Dep>, d: Dep)
    requires d in MergeDeps(own, def)
    ensures FindDep(own, d.name).Some? || FindDep(def, d.name).Some?
  {
    MergeOrigin(own, def, d);
  }

  lemma MergedTwice(own: Dep, def: seq<Dep>)
    ensures MergedWith(MergedWith(own, def), def) == MergedWith(own, def)
  {
  }

  /** A merged dependency is not changed by its definition. */
  lemma MergedAgain(own: seq<Dep>, def: seq<Dep>, i: nat)
    requires DistinctNames(def) && i < |MergeDeps(own, def)|
    ensures MergedWith(MergeDeps(own, def)[i], def) == MergeDeps(own, def)[i]
  {
    MergeParts(own, def);
    var merged := MergeDeps(own, def);
    if i < |own| {
      MergedTwice(own[i], def);
    } else {
      assert merged[i] == merged[|own|..][i - |own|];
      assert merged[i] in Filter(def, NewTo(own));
      FindOwn(def, merged[i]);
    }
  }

  /** Merging a definition into what was merged before, whatever was changed but the names. */
  lemma SecondMerge(own: seq<Dep>, def: seq<Dep>, again: seq<Dep>)
    requires |again| == |MergeDeps(own, def)|
    requires forall i :: 0 <= i < |again| ==> again[i].name == MergeDeps(own, def)[i].name
    ensures |MergeDeps(again, def)| == |again|
    ensures forall i :: 0 <= i < |again| ==> MergeDeps(again, def)[i] == MergedWith(again[i], def)
  {
    var merged := MergeDeps(own, def);
    MergeParts(again, def);
    hide MergeDeps, Filter, MergedWith;
    forall d | d in def
      ensures FindDep(again, d.name).Some?
    {
      MergeCovers(own, def, d);
      var i :| 0 <= i < |merged| && merged[i] == FindDep(merged, d.name).value;
      assert again[i] in again;
    }
    FilterNone(def, NewTo(again));
  }

  /** Merging a definition once more changes nothing. */
  lemma MergeTwice(own: seq<Dep>, def: seq<Dep>)
    requires DistinctNames(own) && DistinctNames(def)
    ensures MergeDeps(MergeDeps(own, def), def) == MergeDeps(own, def)
  {
    var merged := MergeDeps(own, def);
    SecondMerge(own, def, merged);
    hide MergeDeps;
    forall i | 0 <= i < |merged|
      ensures MergeDeps(merged, def)[i] == merged[i]
    {
      MergedAgain(own, def, i);
    }
  }

  // ----- what discovery decides

  /** `dep` is `given` as an object, with its cluster decided unless it was given, and its service. */
  predicate Resolves(given: Dep, dep: Dep) {
    && !dep.short && dep == Unshort(given).(cluster := dep.cluster, service := dep.service)
    && (Unshort(given).cluster.Some? ==> dep.cluster == Unshort(given).cluster)
  }

  /** The service is `base` with its module merged in and its dependencies resolved. */
  predicate Built(load: map<string, Definition>, k: Key, base: Service, service: Service) {
    var path := base.spec.path.GetOr(k.name);
    path in load &&
    var merged := Mutate(base, path, load[path]);
    && service == WithDeps(merged, service.spec.deps)
    && |service.spec.deps| == |merged.spec.deps|
    && forall i :: 0 <= i < |merged.spec.deps| ==> Resolves(merged.spec.deps[i], service.spec.deps[i])
  }

  /** A resolved dependency, merged and resolved once more. */
  lemma ResolvesTwice(given: Dep, def: seq<Dep>, once: Dep, twice: Dep)
    requires given == MergedWith(given, def)
    requires Resolves(given, once) && Resolves(MergedWith(once, def), twice)
    ensures Resolves(given, twice)
  {
    assert FindDep(def, once.name) == FindDep(def, given.name);
  }

  /** Loading a module twice makes of a service what loading it once may make. */
  lemma BuiltTwice(load: map<string, Definition>, k: Key, first: Service, base: Service, service: Service)
    requires Built(load, k, first, base) && Built(load, k, base, service)
    requires DistinctNames(load[first.spec.path.GetOr(k.name)].deps)
    ensures Built(load, k, first, service)
  {
    var path := first.spec.path.GetOr(k.name);
    var def := load[path];
    var given := MergeDeps(first.spec.deps, def.deps);
    assert base.spec.path == Some(path);
    SecondMerge(first.spec.deps, def.deps, base.spec.deps);
    forall i | 0 <= i < |given|
      ensures Resolves(given[i], service.spec.deps[i])
    {
      MergedAgain(first.spec.deps, def.deps, i);
      ResolvesTwice(given[i], def.deps, base.spec.deps[i], service.spec.deps[i]);
    }
    MutatedTwice(first, path, def, base.spec.deps, service.spec.deps);
  }

  lemma MutatedTwice(first: Service, path: string, def: Definition, once: seq<Dep>, twice: seq<Dep>)
    ensures WithDeps(Mutate(WithDeps(Mutate(first, path, def), once), path, def), twice)
         == WithDeps(Mutate(first, path, def), twice)
  {
    var spec := first.spec;
    assert (spec.options + def.options) + def.options == spec.options + def.options;
    assert (spec.commands + def.commands) + def.commands == spec.commands + def.commands;
  }

  ghost predicate Provides(services: Services, cluster: string, path: string, name: string) {
    Key(cluster, name) in services && ModuleOf(Key(cluster, name), services[Key(cluster, name)]) == path
  }

  // ----- the conditions that exclude each failure

  predicate NamesService(dep: Dep) {
    !dep.short && Truthy(dep.service).Some?
  }

  /** The service named by the dependency, and the cluster if it names one. */
  function NamedService(dep: Dep): (string, Option<string>)
    requires NamesService(dep)
  {
    ReadReversed(dep.service.value)
  }

  /** The dependency says which module or which service it is on. */
  predicate Identified(dep: Dep) {
    Truthy(dep.path).Some? || (NamesService(dep) && NamedService(dep).0 != "")
  }

  /** The clusters that the dependency mentions are known and have a table of services. */
  predicate Located(dep: Dep, places: set<string>) {
    && (!dep.short && dep.cluster.Some? ==> dep.cluster.value in places)
    && (NamesService(dep) && Truthy(NamedService(dep).1).Some? ==> NamedService(dep).1.value in places)
  }

  predicate HasService(dep: Dep) {
    !dep.short && dep.service.Some?
  }

  /** A service that is given has a name. */
  predicate WellNamed(dep: Dep) {
    HasService(dep) ==> NamesService(dep) && NamedService(dep).0 != ""
  }

  /** The module of the dependency, if it has one, can be loaded. */
  predicate Loadable(dep: Dep, load: map<string, Definition>) {
    Truthy(dep.path).Some? ==> dep.path.value in load
  }

  predicate Plain(name: string) {
    COLON !in name
  }

  /** Not empty, not what a missing service reads as, and without a colon. */
  predicate Regular(name: string) {
    Plain(name) && name != "" && name != "null"
  }

  ghost predicate AllLoad(load: map<string, Definition>, services: Services) {
    forall k :: k in services ==> services[k].spec.path.GetOr(k.name) in load
  }

  ghost predicate OneProvider(services: Services) {
    forall cluster, path, a, b ::
      Provides(services, cluster, path, a) && Provides(services, cluster, path, b) ==> a == b
  }

  /** What is known to be excluded: one flag for each way in which discovery fails. */
  datatype Care = Care(loads: bool, provided: bool, identified: bool, located: bool, regular: bool)

  ghost predicate DepFits(care: Care, load: map<string, Definition>, places: set<string>, dep: Dep) {
    && (care.loads ==> Loadable(dep, load))
    && (care.identified ==> Identified(dep))
    && (care.located ==> Located(dep, places))
    && (care.located && Truthy(dep.path).Some? ==> Plain(dep.path.value))
    && (care.regular && Truthy(dep.path).Some? ==> Regular(dep.path.value))
  }

  ghost predicate DepsFit(care: Care, load: map<string, Definition>, places: set<string>, deps: seq<Dep>) {
    DistinctNames(deps) && forall d :: d in deps ==> DepFits(care, load, places, d)
  }

  ghost predicate AllWellNamed(deps: seq<Dep>) {
    forall d :: d in deps ==> WellNamed(d)
  }

  ghost predicate LoadFits(care: Care, load: map<string, Definition>, places: set<string>) {
    forall m :: m in load ==> DepsFit(care, load, places, load[m].deps) && (care.regular ==> AllWellNamed(load[m].deps))
  }

  ghost predicate KeyFits(care: Care, k: Key) {
    (care.located ==> Plain(k.name)) && (care.regular ==> Regular(k.name))
  }

  /** The services keep what is known. */
  ghost predicate Fits(care: Care, load: map<string, Definition>, places: set<string>, services: Services) {
    && LoadFits(care, load, places)
    && (forall k :: k in services ==> KeyFits(care, k) && DepsFit(care, load, places, services[k].spec.deps))
    && (care.loads ==> AllLoad(load, services))
    && (care.provided ==> OneProvider(services))
  }

  lemma MergeDepFits(care: Care, load: map<string, Definition>, places: set<string>, own: Dep, def: Dep)
    requires DepFits(care, load, places, own) && DepFits(care, load, places, def)
    ensures DepFits(care, load, places, MergeDep(own, def))
  {
  }

  lemma MergeFits(care: Care, load: map<string, Definition>, places: set<string>, own: seq<Dep>, def: seq<Dep>)
    requires DepsFit(care, load, places, own) && DepsFit(care, load, places, def)
    ensures DepsFit(care, load, places, MergeDeps(own, def))
  {
    hide DepFits, MergeDep, MergeDeps, FindDep;
    MergeNames(own, def);
    forall d | d in MergeDeps(own, def)
      ensures DepFits(care, load, places, d)
    {
      MergeOrigin(own, def, d);
      if o :| o in own && d == MergedWith(o, def) && FindDep(def, o.name).Some? {
        MergeDepFits(care, load, places, o, FindDep(def, o.name).value);
      }
    }
  }

  /** Writing a service without changing its module keeps what is known. */
  lemma WriteFits(care: Care, load: map<string, Definition>, places: set<string>, services: Services,
                  k: Key, service: Service)
    requires Fits(care, load, places, services) && k in services && DepsFit(care, load, places, service.spec.deps)
    requires service.spec.path.GetOr(k.name) == services[k].spec.path.GetOr(k.name)
    requires ModuleOf(k, service) == ModuleOf(k, services[k])
    ensures Fits(care, load, places, services[k := service])
  {
    hide DepsFit, KeyFits, LoadFits;
    var after := services[k := service];
    assert forall cluster, path, name :: Provides(after, cluster, path, name) <==> Provides(services, cluster, path, name);
  }

  function NewService(path: string): Service {
    Service(Spec(Some(path), [], [], map[], map[], false, map[], None), [], [])
  }

  /** So does adding the service of a module nobody provides. */
  lemma RegisterFits(care: Care, load: map<string, Definition>, places: set<string>, services: Services,
                     cluster: string, path: string)
    requires Fits(care, load, places, services) && path != ""
    requires (care.loads ==> path in load) && KeyFits(care, Key(cluster, path))
    requires forall name :: !Provides(services, cluster, path, name)
    ensures Fits(care, load, places, services[Key(cluster, path) := NewService(path)])
  {
    hide LoadFits, KeyFits, DepFits;
    var after := services[Key(cluster, path) := NewService(path)];
    forall c, p, name | Provides(after, c, p, name)
      ensures Provides(services, c, p, name) || (c == cluster && p == path && name == path)
    {
    }
  }

  lemma FitsMore(care: Care, load: map<string, Definition>, places: set<string>, more: set<string>, services: Services)
    requires Fits(care, load, places, services) && places <= more
    ensures Fits(care, load, more, services)
  {
    forall deps | DepsFit(care, load, places, deps)
      ensures DepsFit(care, load, more, deps)
    {
    }
  }
}
