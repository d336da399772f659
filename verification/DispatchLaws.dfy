/** Which plugins and modules a command run calls, and with which options. */
module DispatchLaws {
  import opened Prelude
  import opened Affinities
  import opened Cluster
  import opened Dispatch

  /** The call is for the service and has the options of its instance on the node. */
  ghost predicate CallFor(services: Services, k: Key, node: NodeId, call: Call) {
    && call.key == k && k in services
    && (exists i :: i in services[k].instances && i.node == node)
    && forall i :: i in services[k].instances && i.node == node ==> call.options == i.options
  }

  lemma TheInstance(services: Services, k: Key, node: NodeId)
    requires Found(services, k, node)
    ensures InstanceOf(services, k, node) in services[k].instances && InstanceOf(services, k, node).node == node
    ensures forall i :: i in services[k].instances && i.node == node ==> i == InstanceOf(services, k, node)
  {
    var here := Filter(services[k].instances, OnThis(node));
    assert here[0] in here;
    forall i | i in services[k].instances && i.node == node
      ensures i == here[0]
    {
      assert i in here;
    }
  }

  ghost function Plugged(services: Services): (keep: Entry -> bool)
    ensures forall e: Entry :: keep(e) <==> e.key in services && services[e.key].spec.plugin.Some?
  {
    (e: Entry) => e.key in services && services[e.key].spec.plugin.Some?
  }

  lemma LastPlugin(services: Services, entries: seq<Entry>, node: NodeId)
    requires Pluggable(services, entries, node) && entries != []
    ensures var front, last := entries[..|entries| - 1], entries[|entries| - 1];
      && Pluggable(services, front, node)
      && Filter(entries, Plugged(services)) ==
        Filter(front, Plugged(services)) + (if Plugged(services)(last) then [last] else [])
      && (Plugged(services)(last) ==> Found(services, last.key, node))
      && (Plugged(services)(last) ==>
        PluginCalls(services, entries, node) == PluginCalls(services, front, node)
          + [Call(last.key, services[last.key].spec.plugin.value, InstanceOf(services, last.key, node).options)])
      && (!Plugged(services)(last) ==> PluginCalls(services, entries, node) == PluginCalls(services, front, node))
  {
    var front, last := entries[..|entries| - 1], entries[|entries| - 1];
    FilterAppend(front, [last], Plugged(services));
    assert entries == front + [last];
  }

  /** One call for each entry whose service has a plugin, in order: that plugin, with the options of the instance. */
  lemma {:induction false} PluginsExactly(services: Services, entries: seq<Entry>, node: NodeId)
    requires Pluggable(services, entries, node)
    ensures var plugged, calls := Filter(entries, Plugged(services)), PluginCalls(services, entries, node);
      && |calls| == |plugged|
      && forall i :: 0 <= i < |calls| ==>
        && CallFor(services, plugged[i].key, node, calls[i])
        && services[plugged[i].key].spec.plugin == Some(calls[i].name)
    decreases |entries|
  {
    if entries != [] {
      var front, last := entries[..|entries| - 1], entries[|entries| - 1];
      LastPlugin(services, entries, node);
      PluginsExactly(services, front, node);
      hide Filter, PluginCalls, Pluggable, Found, InstanceOf;
      if Plugged(services)(last) {
        TheInstance(services, last.key, node);
      }
    }
  }

  ghost function ForService(k: Key): (keep: Call -> bool)
    ensures forall call: Call :: keep(call) <==> call.key == k
  {
    (call: Call) => call.key == k
  }

  /** The calls are those of the command of the service: its modules in order, with the options of the instance. */
  ghost predicate RunsCommand(services: Services, k: Key, command: string, node: NodeId, calls: seq<Call>) {
    && k in services && command in services[k].spec.commands
    && |calls| == |services[k].spec.commands[command]|
    && forall l :: 0 <= l < |calls| ==>
      CallFor(services, k, node, calls[l]) && calls[l].name == services[k].spec.commands[command][l]
  }

  lemma {:induction false} AllKept<T(!new)>(s: seq<T>, keep: T -> bool)
    requires forall x :: x in s ==> keep(x)
    ensures Filter(s, keep) == s
  {
    if s != [] {
      AllKept(s[1..], keep);
    }
  }

  lemma OwnCalls(services: Services, k: Key, command: string, node: NodeId, x: Key)
    requires Found(services, k, node) && command in services[k].spec.commands
    ensures var calls := CallsOf(services, k, command, node);
      && Filter(calls, ForService(x)) == (if x == k then calls else [])
      && RunsCommand(services, k, command, node, calls)
  {
    TheInstance(services, k, node);
    var calls := CallsOf(services, k, command, node);
    forall c | c in calls
      ensures c.key == k
    {
    }
    if x == k {
      AllKept(calls, ForService(x));
    } else {
      FilterNone(calls, ForService(x));
    }
  }

  lemma LastCommand(services: Services, entries: seq<Entry>, command: string, node: NodeId, k: Key)
    requires Runnable(services, entries, command, node) && entries != []
    ensures var front, last := entries[..|entries| - 1], entries[|entries| - 1];
      && Runnable(services, front, command, node) && Keys(entries) == Keys(front) + [last.key]
      && Found(services, last.key, node) && command in services[last.key].spec.commands
      && Filter(CommandCalls(services, entries, command, node), ForService(k))
        == Filter(CommandCalls(services, front, command, node), ForService(k))
          + Filter(CallsOf(services, last.key, command, node), ForService(k))
  {
    var front, last := entries[..|entries| - 1], entries[|entries| - 1];
    hide Filter, CallsOf;
    FilterAppend(CommandCalls(services, front, command, node), CallsOf(services, last.key, command, node), ForService(k));
  }

  /** Of entries without repeats, each service has exactly the calls of its command, and no other service has any. */
  lemma {:induction false} CommandsExactly(services: Services, entries: seq<Entry>, command: string, node: NodeId, k: Key)
    requires Runnable(services, entries, command, node) && Distinct(Keys(entries))
    ensures var mine := Filter(CommandCalls(services, entries, command, node), ForService(k));
      if k in Keys(entries) then RunsCommand(services, k, command, node, mine) else mine == []
    decreases |entries|
  {
    if entries != [] {
      var front, last := entries[..|entries| - 1], entries[|entries| - 1];
      hide *;
      LastCommand(services, entries, command, node, k);
      FrontDistinct(Keys(front), last.key);
      CommandsExactly(services, front, command, node, k);
      OwnCalls(services, last.key, command, node, k);
      var before, own := Filter(CommandCalls(services, front, command, node), ForService(k)),
        Filter(CallsOf(services, last.key, command, node), ForService(k));
      assert k in Keys(entries) <==> k in Keys(front) || k == last.key;
      if k == last.key {
        assert before + own == own;
      } else {
        assert before + own == before;
      }
    } else {
      NoCalls(services, command, node, k);
    }
  }

  lemma NoCalls(services: Services, command: string, node: NodeId, k: Key)
    ensures Runnable(services, [], command, node)
    ensures Filter(CommandCalls(services, [], command, node), ForService(k)) == [] && k !in Keys([])
  {
  }

  lemma FrontDistinct(front: seq<Key>, last: Key)
    requires Distinct(front + [last])
    ensures Distinct(front) && last !in front
  {
    var all := front + [last];
    forall i, j | 0 <= i < j < |front|
      ensures front[i] != front[j]
    {
      assert all[i] != all[j];
    }
    forall i | 0 <= i < |front|
      ensures front[i] != last
    {
      assert all[i] != all[|front|];
    }
  }

  /** The command reaches the entries that the filters keep and whose service has it, in their order. */
  lemma SelectedExactly(services: Services, entries: seq<Entry>, keep: Entry -> bool, command: string)
    ensures forall e :: e in Selected(services, entries, keep, command) <==>
      e in entries && keep(e) && e.key in services && command in services[e.key].spec.commands
    ensures forall a, b :: (a in Selected(services, entries, keep, command) && b in Selected(services, entries, keep, command)
      && Before(entries, a, b)) ==> Before(Selected(services, entries, keep, command), a, b)
  {
    hide Before, Filter;
    forall a, b | a in Selected(services, entries, keep, command) && b in Selected(services, entries, keep, command)
        && Before(entries, a, b)
      ensures Before(Selected(services, entries, keep, command), a, b)
    {
      FilterBefore(entries, keep, a, b);
      FilterBefore(Filter(entries, keep), Serving(services, command), a, b);
    }
  }
}
