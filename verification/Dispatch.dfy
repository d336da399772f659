/**
 Running a command on a node: its services are filtered, the plugins of all of them are
 called, then the modules of the filtered ones, each with the instance found by node.
*/
module Dispatch {
  import opened Prelude
  import opened Affinities
  import opened Cluster
  import opened Placement
  import opened NodeIndex

  datatype LookupError = FoundNone | FoundSeveral | NoService(key: Key)

  /** The one element that passes the search. */
  method ArrayGet<T(!new)>(elements: seq<T>, search: T -> bool) returns (r: Result<T, LookupError>)
    ensures r.Ok? <==> |Filter(elements, search)| == 1
    ensures r == Err(FoundNone) <==> forall e :: e in elements ==> !search(e)
    ensures r == Err(FoundSeveral) <==> |Filter(elements, search)| > 1
    ensures r.Ok? ==> r.value in elements && search(r.value)
    ensures r.Ok? ==> Filter(elements, search) == [r.value]
  {
    var found: seq<T> := [];
    for i := 0 to |elements|
      invariant found == Filter(elements[..i], search)
    {
      FilterAppend(elements[..i], [elements[i]], search);
      assert elements[..i + 1] == elements[..i] + [elements[i]];
      if search(elements[i]) {
        found := found + [elements[i]];
      }
    }
    assert elements[..|elements|] == elements;
    if |found| == 0 {
      assert forall e :: e in elements && search(e) ==> e in found;
      return Err(FoundNone);
    }
    assert found[0] in found;
    if |found| > 1 {
      return Err(FoundSeveral);
    }
    return Ok(found[0]);
  }

  /** A module called for a service on a node, with the options of the instance. */
  datatype Call = Call(key: Key, name: string, options: Options)

  ghost function OnThis(node: NodeId): (keep: Instance -> bool)
    ensures forall i: Instance :: keep(i) <==> i.node == node
  {
    (i: Instance) => i.node == node
  }

  /** The service exists and has exactly one instance on the node. */
  ghost predicate Found(services: Services, k: Key, node: NodeId) {
    k in services && |Filter(services[k].instances, OnThis(node))| == 1
  }

  ghost function InstanceOf(services: Services, k: Key, node: NodeId): Instance
    requires Found(services, k, node)
  {
    Filter(services[k].instances, OnThis(node))[0]
  }

  method FindInstance(services: Services, k: Key, node: NodeId) returns (r: Result<Instance, LookupError>)
    requires k in services
    ensures r.Ok? <==> Found(services, k, node)
    ensures r.Ok? ==> r.value == InstanceOf(services, k, node)
    ensures r == Err(FoundNone) <==> !Hosts(services[k], node)
    ensures r == Err(FoundSeveral) <==> |Filter(services[k].instances, OnThis(node))| > 1
    ensures r.Ok? ==> r.value in services[k].instances && r.value.node == node
  {
    var instances := services[k].instances;
    FilterSame(instances, (i: Instance) => i.node == node, OnThis(node));
    r := ArrayGet(instances, (i: Instance) => i.node == node);
    assert Hosts(services[k], node) <==> exists i :: i in instances && i.node == node by {
      if Hosts(services[k], node) {
        var x :| 0 <= x < |instances| && Ids(instances)[x] == node;
        assert instances[x] in instances;
      }
      if i :| i in instances && i.node == node {
        var x :| 0 <= x < |instances| && instances[x] == i;
        assert Ids(instances)[x] == node;
      }
    }
  }

  // ----- plugins

  ghost function PluginCalls(services: Services, entries: seq<Entry>, node: NodeId): seq<Call>
    requires forall e ::
      e in entries && e.key in services && services[e.key].spec.plugin.Some? ==> Found(services, e.key, node)
  {
    if entries == [] then []
    else
      var front, last := entries[..|entries| - 1], entries[|entries| - 1];
      PluginCalls(services, front, node) +
      if last.key in services && services[last.key].spec.plugin.Some? then
        [Call(last.key, services[last.key].spec.plugin.value, InstanceOf(services, last.key, node).options)]
      else []
  }

  /** Every entry names a service, and those with a plugin are found. */
  ghost predicate Pluggable(services: Services, entries: seq<Entry>, node: NodeId) {
    forall e :: e in entries ==>
      e.key in services && (services[e.key].spec.plugin.Some? ==> Found(services, e.key, node))
  }

  method CallPlugins(services: Services, entries: seq<Entry>, node: NodeId) returns (r: Result<seq<Call>, LookupError>)
    ensures r.Ok? <==> Pluggable(services, entries, node)
    ensures r.Ok? ==> r.value == PluginCalls(services, entries, node)
    ensures r.Ok? ==> forall e :: e in entries ==> e.key in services
  {
    var results: seq<Call> := [];
    for k := 0 to |entries|
      invariant Pluggable(services, entries[..k], node)
      invariant results == PluginCalls(services, entries[..k], node)
    {
      var entry := entries[k];
      assert entry in entries;
      assert entries[..k + 1][..k] == entries[..k] && entries[..k + 1] == entries[..k] + [entry];
      if entry.key !in services {
        return Err(NoService(entry.key));
      }
      var service := services[entry.key];
      if service.spec.plugin.None? {
        continue;
      }
      var instance := FindInstance(services, entry.key, node);
      if instance.Err? {
        return Err(instance.error);
      }
      results := results + [Call(entry.key, service.spec.plugin.value, instance.value.options)];
    }
    assert entries[..|entries|] == entries;
    return Ok(results);
  }

  // ----- commands

  /** The entry is kept for the command. */
  ghost predicate Serves(services: Services, command: string, entry: Entry) {
    entry.key in services && command in services[entry.key].spec.commands
  }

  ghost function ModuleCalls(k: Key, modules: seq<string>, options: Options): (r: seq<Call>)
    ensures |r| == |modules| && forall i :: 0 <= i < |modules| ==> r[i] == Call(k, modules[i], options)
  {
    seq(|modules|, i requires 0 <= i < |modules| => Call(k, modules[i], options))
  }

  ghost predicate Runnable(services: Services, entries: seq<Entry>, command: string, node: NodeId) {
    forall e :: e in entries ==> Serves(services, command, e) && Found(services, e.key, node)
  }

  ghost function CallsOf(services: Services, k: Key, command: string, node: NodeId): seq<Call>
    requires Found(services, k, node) && command in services[k].spec.commands
  {
    ModuleCalls(k, services[k].spec.commands[command], InstanceOf(services, k, node).options)
  }

  ghost function CommandCalls(services: Services, entries: seq<Entry>, command: string, node: NodeId): seq<Call>
    requires Runnable(services, entries, command, node)
  {
    if entries == [] then []
    else
      var front, last := entries[..|entries| - 1], entries[|entries| - 1];
      CommandCalls(services, front, command, node) + CallsOf(services, last.key, command, node)
  }

  method CallModules(k: Key, modules: seq<string>, options: Options) returns (results: seq<Call>)
    ensures results == ModuleCalls(k, modules, options)
  {
    results := [];
    for l := 0 to |modules|
      invariant results == ModuleCalls(k, modules, options)[..l]
    {
      results := results + [Call(k, modules[l], options)];
    }
  }

  lemma NoCommands(services: Services, command: string, node: NodeId)
    ensures Runnable(services, [], command, node) && CommandCalls(services, [], command, node) == []
  {
  }

  lemma CommandStep(services: Services, entries: seq<Entry>, command: string, node: NodeId, k: nat)
    requires k < |entries| && Runnable(services, entries[..k], command, node) && Serves(services, command, entries[k])
    ensures Runnable(services, entries, command, node) ==> Found(services, entries[k].key, node)
    ensures Found(services, entries[k].key, node) ==>
      && Runnable(services, entries[..k + 1], command, node)
      && CommandCalls(services, entries[..k + 1], command, node)
        == CommandCalls(services, entries[..k], command, node) + CallsOf(services, entries[k].key, command, node)
  {
    assert entries[k] in entries;
    assert entries[..k + 1][..k] == entries[..k] && entries[..k + 1] == entries[..k] + [entries[k]];
  }

  method CallCommands(services: Services, entries: seq<Entry>, command: string, node: NodeId)
      returns (r: Result<seq<Call>, LookupError>)
    requires forall e :: e in entries ==> Serves(services, command, e)
    ensures r.Ok? <==> Runnable(services, entries, command, node)
    ensures r.Ok? ==> r.value == CommandCalls(services, entries, command, node)
  {
    hide Runnable, CommandCalls, Found;
    NoCommands(services, command, node);
    var results: seq<Call> := [];
    for k := 0 to |entries|
      invariant Runnable(services, entries[..k], command, node)
      invariant results == CommandCalls(services, entries[..k], command, node)
    {
      var entry := entries[k];
      assert entry in entries;
      CommandStep(services, entries, command, node, k);
      var service := services[entry.key];
      var instance := FindInstance(services, entry.key, node);
      if instance.Err? {
        return Err(instance.error);
      }
      var calls := CallModules(entry.key, service.spec.commands[command], instance.value.options);
      results := results + calls;
    }
    assert entries[..|entries|] == entries;
    return Ok(results);
  }

  // ----- one node

  ghost function Serving(services: Services, command: string): (keep: Entry -> bool)
    ensures forall e :: keep(e) <==> Serves(services, command, e)
  {
    e => Serves(services, command, e)
  }

  /** The services of a node that the module and cluster filters keep and that have the command. */
  ghost function Selected(services: Services, entries: seq<Entry>, keep: Entry -> bool, command: string): seq<Entry> {
    Filter(Filter(entries, keep), Serving(services, command))
  }

  /** The command is run with no lookup failing. */
  ghost predicate Dispatchable(services: Services, entries: seq<Entry>, keep: Entry -> bool, command: string, node: NodeId) {
    && (forall e :: e in entries && keep(e) ==> e.key in services)
    && (Selected(services, entries, keep, command) != [] ==>
      && Pluggable(services, entries, node)
      && Runnable(services, Selected(services, entries, keep, command), command, node))
  }

  /** The second filter: the services that have the command. */
  method SelectEntries(services: Services, entries: seq<Entry>, command: string) returns (r: Result<seq<Entry>, LookupError>)
    ensures r.Ok? <==> forall e :: e in entries ==> e.key in services
    ensures r.Ok? ==> r.value == Filter(entries, Serving(services, command))
  {
    var selected: seq<Entry> := [];
    for i := 0 to |entries|
      invariant forall e :: e in entries[..i] ==> e.key in services
      invariant selected == Filter(entries[..i], Serving(services, command))
    {
      assert entries[i] in entries;
      if entries[i].key !in services {
        return Err(NoService(entries[i].key));
      }
      FilterAppend(entries[..i], [entries[i]], Serving(services, command));
      assert entries[..i + 1] == entries[..i] + [entries[i]];
      if command in services[entries[i].key].spec.commands {
        selected := selected + [entries[i]];
      }
    }
    assert entries[..|entries|] == entries;
    return Ok(selected);
  }

  /** Nothing selected, nothing called; otherwise all plugins, then the selected modules. */
  method RunNode(c: Config, node: NodeId, keep: Entry -> bool, command: string)
      returns (r: Result<(seq<Call>, seq<Call>), LookupError>)
    requires node in c.index
    ensures r.Ok? <==> Dispatchable(c.services, c.index[node], keep, command, node)
    ensures r.Ok? ==> var selected := Selected(c.services, c.index[node], keep, command);
      if selected == [] then r.value == ([], [])
      else r.value == (PluginCalls(c.services, c.index[node], node), CommandCalls(c.services, selected, command, node))
  {
    hide Pluggable, Runnable, Found, CommandCalls, PluginCalls, Filter;
    var entries := Filter(c.index[node], keep);
    var serving := SelectEntries(c.services, entries, command);
    if serving.Err? {
      return Err(serving.error);
    }
    var selected := serving.value;
    if selected == [] {
      return Ok(([], []));
    }
    var plugins := CallPlugins(c.services, c.index[node], node);
    if plugins.Err? {
      return Err(plugins.error);
    }
    var modules := CallCommands(c.services, selected, command, node);
    if modules.Err? {
      return Err(modules.error);
    }
    return Ok((plugins.value, modules.value));
  }

  // ----- laws

  /** With at most one instance per node, a lookup succeeds exactly where the service runs. */
  lemma {:induction false} LookupExact(instances: seq<Instance>, node: NodeId)
    requires Distinct(Ids(instances))
    ensures |Filter(instances, OnThis(node))| == if node in Ids(instances) then 1 else 0
  {
    if instances != [] {
      assert Ids(instances) == [instances[0].node] + Ids(instances[1..]);
      assert Ids(instances[1..]) == Ids(instances)[1..];
      LookupExact(instances[1..], node);
    }
  }

  lemma LastCalls(services: Services, entries: seq<Entry>, command: string, node: NodeId)
    requires Runnable(services, entries, command, node) && entries != []
    ensures var front, last := entries[..|entries| - 1], entries[|entries| - 1];
      && Runnable(services, front, command, node) && Keys(entries) == Keys(front) + [last.key]
      && var before, calls := CommandCalls(services, front, command, node), CommandCalls(services, entries, command, node);
      && |before| <= |calls| && before == calls[..|before|]
      && forall p :: |before| <= p < |calls| ==> calls[p].key == last.key
  {
  }

  lemma {:induction false} CallKeys(services: Services, entries: seq<Entry>, command: string, node: NodeId)
    requires Runnable(services, entries, command, node)
    ensures var calls := CommandCalls(services, entries, command, node);
      forall p :: 0 <= p < |calls| ==> calls[p].key in Keys(entries)
    decreases |entries|
  {
    if entries != [] {
      hide CommandCalls, Runnable;
      LastCalls(services, entries, command, node);
      var front := entries[..|entries| - 1];
      CallKeys(services, front, command, node);
      var before, calls := CommandCalls(services, front, command, node), CommandCalls(services, entries, command, node);
      forall p | 0 <= p < |calls|
        ensures calls[p].key in Keys(entries)
      {
        if p < |before| {
          assert calls[p] == before[p];
        }
      }
    }
  }

  /** Whatever is called later is called for the same service or for one later in the graph. */
  lemma {:induction false} CallsInOrder(services: Services, entries: seq<Entry>, graph: seq<Key>,
                                        command: string, node: NodeId)
    requires Runnable(services, entries, command, node) && Follows(graph, Keys(entries))
    ensures CallsFollow(graph, CommandCalls(services, entries, command, node))
    decreases |entries|
  {
    if entries != [] {
      hide CommandCalls, Runnable, Before;
      LastCalls(services, entries, command, node);
      var front, last := entries[..|entries| - 1], entries[|entries| - 1];
      FollowsFront(graph, Keys(front), last.key);
      CallsInOrder(services, front, graph, command, node);
      CallKeys(services, front, command, node);
      hide Follows;
      var before, calls := CommandCalls(services, front, command, node), CommandCalls(services, entries, command, node);
      forall p, q | 0 <= p < q < |calls|
        ensures calls[p].key == calls[q].key || Before(graph, calls[p].key, calls[q].key)
      {
        if p < |before| {
          assert calls[p] == before[p];
        }
        if q < |before| {
          assert calls[q] == before[q];
        }
      }
    }
  }

  lemma FollowsFront(graph: seq<Key>, front: seq<Key>, last: Key)
    requires Follows(graph, front + [last])
    ensures Follows(graph, front) && forall k :: k in front ==> Before(graph, k, last)
  {
    var keys := front + [last];
    forall i, j | 0 <= i < j < |front|
      ensures Before(graph, front[i], front[j])
    {
      assert Before(graph, keys[i], keys[j]);
    }
    forall k | k in front
      ensures Before(graph, k, last)
    {
      var i :| 0 <= i < |front| && front[i] == k;
      assert Before(graph, keys[i], keys[|front|]);
    }
  }

  /** Two calls are of one service, or in the order of the graph. */
  ghost predicate CallsFollow(graph: seq<Key>, calls: seq<Call>) {
    forall p, q :: 0 <= p < q < |calls| ==> calls[p].key == calls[q].key || Before(graph, calls[p].key, calls[q].key)
  }

  /** All calls of the service that comes first in the graph are made before any of the other one. */
  lemma AllBefore(graph: seq<Key>, calls: seq<Call>, d: Key, k: Key)
    requires Distinct(graph) && CallsFollow(graph, calls) && Before(graph, d, k)
    ensures forall p, q :: 0 <= p < |calls| && 0 <= q < |calls| && calls[p].key == d && calls[q].key == k ==> p < q
  {
    BeforeIsStrict(graph, d, k);
  }

  lemma FilterKeysFollow(graph: seq<Key>, entries: seq<Entry>, keep: Entry -> bool)
    requires Follows(graph, Keys(entries))
    ensures Follows(graph, Keys(Filter(entries, keep)))
  {
    var kept := Filter(entries, keep);
    FilterOrdered(entries, keep);
    forall i, j | 0 <= i < j < |kept|
      ensures Before(graph, Keys(kept)[i], Keys(kept)[j])
    {
      assert Before(entries, kept[i], kept[j]);
      var x, y :| 0 <= x < y < |entries| && entries[x] == kept[i] && entries[y] == kept[j];
      assert Keys(entries)[x] == Keys(kept)[i] && Keys(entries)[y] == Keys(kept)[j];
    }
  }

  /** Dispatch order: under any filter, the modules run in the order of the graph, service by service. */
  lemma ModulesFollowGraph(services: Services, entries: seq<Entry>, graph: seq<Key>, keep: Entry -> bool,
                           command: string, node: NodeId)
    requires Follows(graph, Keys(entries))
    requires Runnable(services, Selected(services, entries, keep, command), command, node)
    ensures CallsFollow(graph, CommandCalls(services, Selected(services, entries, keep, command), command, node))
  {
    hide CommandCalls, Runnable, CallsFollow, Follows;
    FilterKeysFollow(graph, entries, keep);
    FilterKeysFollow(graph, Filter(entries, keep), Serving(services, command));
    CallsInOrder(services, Selected(services, entries, keep, command), graph, command, node);
  }

  /**
   No lookup fails for any filter and any command exactly when the node lists only
   services it hosts.
  */
  lemma LookupsSucceed(services: Services, entries: seq<Entry>, node: NodeId)
    requires forall k :: k in services ==> Distinct(Ids(services[k].instances))
    requires forall e :: e in entries ==> e.key in services
    ensures (forall e :: e in entries ==> Hosts(services[e.key], node)) <==>
      forall e :: e in entries ==> Found(services, e.key, node)
    ensures (forall e :: e in entries ==> Hosts(services[e.key], node)) ==>
      forall keep: Entry -> bool, command :: Dispatchable(services, entries, keep, command, node)
  {
    forall e | e in entries
      ensures Found(services, e.key, node) <==> Hosts(services[e.key], node)
    {
      LookupExact(services[e.key].instances, node);
    }
  }
}
