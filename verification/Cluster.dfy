/**
 The configuration object that normalisation rewrites in place: clusters of services,
 nodes with the services they run, the order of the services and the trace of the
 configuration pass.
*/
module Cluster {
  import opened Prelude
  import opened Affinities
  import opened AffinityForms

  /** A service of a cluster, written `cluster:service` in the source. */
  datatype Key = Key(cluster: string, name: string)

  type Options = map<string, string>
  type Flag = Option<bool>

  predicate Is(flag: Flag) {
    flag == Some(true)
  }

  /** A property that is absent, null or empty counts as missing. */
  function Truthy(text: Option<string>): Option<string> {
    if text == Some("") then None else text
  }

  /** `short` marks a dependency written as a bare module name; `path` is its module. */
  datatype Dep = Dep(
    name: string, short: bool,
    path: Option<string>, cluster: Option<string>, service: Option<string>,
    auto: Flag, required: Flag, local: Flag, single: Flag, disabled: Flag)
  {
    predicate Enabled() {
      !Is(disabled)
    }

    /** The key under which the dependency is looked up; a missing part reads as its JavaScript name. */
    function Target(): Key {
      Key(cluster.GetOr("undefined"), service.GetOr("null"))
    }
  }

  datatype Instance = Instance(node: NodeId, options: Options)

  /** The part of a service that placement leaves alone. */
  datatype Spec = Spec(
    path: Option<string>, deps: seq<Dep>, declared: seq<Raw>,
    options: Options, nodeOptions: map<NodeId, Options>,
    configure: bool, commands: map<string, seq<string>>, plugin: Option<string>)

  datatype Service = Service(spec: Spec, affinity: seq<Affinity>, instances: seq<Instance>)

  function WithDeps(service: Service, deps: seq<Dep>): (r: Service)
    ensures r.spec.deps == deps
  {
    service.(spec := service.spec.(deps := deps))
  }

  /** What loading a module yields. */
  datatype Definition = Definition(
    deps: seq<Dep>, declared: seq<Raw>, options: Options,
    configure: bool, commands: map<string, seq<string>>, plugin: Option<string>)

  /** A service listed by a node. */
  datatype Entry = Entry(key: Key, path: Option<string>, options: Options)

  /** What a dependency becomes in the argument of a `configure` call. */
  datatype Injection = Null | One(key: Key, node: NodeId) | Every(key: Key, nodes: seq<NodeId>)

  datatype Event =
    | Merged(key: Key, node: NodeId)
    | Configured(key: Key, node: NodeId, deps: map<string, Injection>)

  datatype Error =
    | ModuleNotLoaded
    | UnidentifiedDependency
    | AmbiguousModule
    | AutoServiceMissing(key: Key, dep: string)
    | ClusterMissing
    | InvalidAffinity(form: FormError)
    | RequiredClusterMissing(key: Key, dep: string)
    | RequiredServiceMissing(key: Key, dep: string)
    | NodeServiceMissing(node: NodeId)
    | Cycle
    | Dangling(key: Key)
    | Unresolvable
    | NoAffinityFound
    | RequiredLocal(key: Key, dep: string, node: NodeId)
    | ShouldNeverHappen
    | NotSingle

  type Services = map<Key, Service>

  /** Dependencies are the properties of one object, so no two share a name. */
  ghost predicate DistinctNames(deps: seq<Dep>) {
    forall i, j :: 0 <= i < j < |deps| ==> deps[i].name != deps[j].name
  }

  /** The services are listed once each, in clusters that have a table of services. */
  ghost predicate Registry(order: seq<Key>, services: Services, clusters: seq<string>, tables: set<string>) {
    && Distinct(order)
    && (forall k :: k in services <==> k in order)
    && forall k :: k in services ==> k.cluster in clusters && k.cluster in tables
  }

  lemma RegistryKeys(order: seq<Key>, a: Services, b: Services, clusters: seq<string>, tables: set<string>)
    requires a.Keys == b.Keys && Registry(order, a, clusters, tables)
    ensures Registry(order, b, clusters, tables)
  {
  }

  class Config {
    const load: map<string, Definition>
    const clusters: seq<string>
    const fleet: Fleet
    /** The clusters whose table of services exists. */
    var tables: set<string>
    /** The keys of `services`, in the order they were added. */
    var order: seq<Key>
    var services: Services
    /** The services listed by each node. */
    var index: map<NodeId, seq<Entry>>
    var graph: seq<Key>
    var trace: seq<Event>

    constructor (load: map<string, Definition>, clusters: seq<string>, fleet: Fleet, tables: set<string>,
                 order: seq<Key>, services: Services, index: map<NodeId, seq<Entry>>)
      ensures this.load == load && this.clusters == clusters && this.fleet == fleet && this.tables == tables
      ensures this.order == order && this.services == services && this.index == index
      ensures this.graph == [] && this.trace == []
    {
      this.load, this.clusters, this.fleet, this.tables := load, clusters, fleet, tables;
      this.order, this.services, this.index := order, services, index;
      this.graph, this.trace := [], [];
    }

    ghost predicate Valid()
      reads this
    {
      && Registry(order, services, clusters, tables)
      && fleet.Valid()
      && (forall n :: n in fleet.order ==> n in index)
    }
  }

  /** The nodes of a list of instances. */
  function Ids(instances: seq<Instance>): (ids: seq<NodeId>)
    ensures |ids| == |instances| && forall i :: 0 <= i < |ids| ==> ids[i] == instances[i].node
  {
    seq(|instances|, i requires 0 <= i < |instances| => instances[i].node)
  }

  /** The services listed, in order. */
  function Keys(entries: seq<Entry>): (keys: seq<Key>)
    ensures |keys| == |entries| && forall i :: 0 <= i < |keys| ==> keys[i] == entries[i].key
  {
    seq(|entries|, i requires 0 <= i < |entries| => entries[i].key)
  }
}
