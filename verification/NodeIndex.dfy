/**
 The list of services of each node, sorted by position in the graph, and the two ways to
 ask where a service runs: its instances and the lists of the nodes.
*/
module NodeIndex {
  import opened Prelude
  import opened Affinities
  import opened Cluster
  import opened Placement
  import opened AffinityPass
  import opened PlacementLaws

  /** JavaScript's `indexOf`: the first position, or -1. */
  function IndexOf(graph: seq<Key>, k: Key): (i: int)
    ensures -1 <= i < |graph|
    ensures i == -1 <==> k !in graph
    ensures i >= 0 ==> graph[i] == k && k !in graph[..i]
  {
    if graph == [] then -1
    else if graph[0] == k then 0
    else
      var rest := IndexOf(graph[1..], k);
      assert rest >= 0 ==> graph[..rest + 1] == [graph[0]] + graph[1..][..rest];
      if rest == -1 then -1 else rest + 1
  }

  function Rank(graph: seq<Key>, entry: Entry): int {
    IndexOf(graph, entry.key)
  }

  /** Inserts an entry after those that do not come later. */
  function Insert(graph: seq<Key>, entry: Entry, entries: seq<Entry>): seq<Entry> {
    if entries == [] || Rank(graph, entry) < Rank(graph, entries[0]) then [entry] + entries
    else [entries[0]] + Insert(graph, entry, entries[1..])
  }

  /** A stable sort by position in the graph. */
  function SortByRank(graph: seq<Key>, entries: seq<Entry>): seq<Entry> {
    if entries == [] then []
    else Insert(graph, entries[|entries| - 1], SortByRank(graph, entries[..|entries| - 1]))
  }

  /** Re-orders the services of every node. */
  method Reorder(c: Config)
    requires c.Valid()
    modifies c`index
    ensures c.Valid() && c.index.Keys == old(c.index).Keys
    ensures forall n :: n in c.index ==>
      (c.index[n] == if n in c.fleet.order then SortByRank(c.graph, old(c.index)[n]) else old(c.index)[n])
  {
    hide SortByRank, Registry;
    var order := c.fleet.order;
    for i := 0 to |order|
      invariant c.index.Keys == old(c.index).Keys
      invariant forall n :: n in c.index ==>
        (c.index[n] == if n in order[..i] then SortByRank(c.graph, old(c.index)[n]) else old(c.index)[n])
    {
      var n := order[i];
      assert n in order && n !in order[..i];
      assert order[..i + 1] == order[..i] + [n];
      c.index := c.index[n := SortByRank(c.graph, c.index[n])];
    }
    assert order[..|order|] == order;
  }

  // ----- the sort

  ghost predicate RankSorted(graph: seq<Key>, entries: seq<Entry>) {
    forall i, j :: 0 <= i < j < |entries| ==> Rank(graph, entries[i]) <= Rank(graph, entries[j])
  }

  ghost function OfRank(graph: seq<Key>, r: int): (keep: Entry -> bool)
    ensures forall e :: keep(e) <==> Rank(graph, e) == r
  {
    e => Rank(graph, e) == r
  }

  lemma InsertHead(graph: seq<Key>, entry: Entry, entries: seq<Entry>)
    ensures Insert(graph, entry, entries) ==
      if entries == [] || Rank(graph, entry) < Rank(graph, entries[0]) then [entry] + entries
      else [entries[0]] + Insert(graph, entry, entries[1..])
  {
  }

  lemma {:induction false} InsertElements(graph: seq<Key>, entry: Entry, entries: seq<Entry>)
    ensures forall e :: e in Insert(graph, entry, entries) <==> e == entry || e in entries
    ensures multiset(Insert(graph, entry, entries)) == multiset(entries) + multiset{entry}
  {
    if entries != [] && Rank(graph, entry) >= Rank(graph, entries[0]) {
      InsertElements(graph, entry, entries[1..]);
      assert entries == [entries[0]] + entries[1..];
    }
  }

  /** Nothing in the list comes before the rank. */
  ghost predicate AllFrom(graph: seq<Key>, entries: seq<Entry>, rank: int) {
    forall e :: e in entries ==> rank <= Rank(graph, e)
  }

  lemma SortedCons(graph: seq<Key>, first: Entry, rest: seq<Entry>)
    ensures RankSorted(graph, [first] + rest) <==> RankSorted(graph, rest) && AllFrom(graph, rest, Rank(graph, first))
  {
    hide Rank;
    var all := [first] + rest;
    if RankSorted(graph, rest) && AllFrom(graph, rest, Rank(graph, first)) {
      forall i, j | 0 <= i < j < |all|
        ensures Rank(graph, all[i]) <= Rank(graph, all[j])
      {
        assert all[j] == rest[j - 1] && rest[j - 1] in rest;
      }
    }
    if RankSorted(graph, all) {
      forall e | e in rest
        ensures Rank(graph, first) <= Rank(graph, e)
      {
        var i :| 0 <= i < |rest| && rest[i] == e;
        assert Rank(graph, all[0]) <= Rank(graph, all[i + 1]);
      }
      forall i, j | 0 <= i < j < |rest|
        ensures Rank(graph, rest[i]) <= Rank(graph, rest[j])
      {
        assert all[i + 1] == rest[i] && all[j + 1] == rest[j];
      }
    }
  }

  lemma {:induction false} InsertSorts(graph: seq<Key>, entry: Entry, entries: seq<Entry>)
    requires RankSorted(graph, entries)
    ensures RankSorted(graph, Insert(graph, entry, entries))
  {
    hide Rank, Insert, RankSorted;
    InsertHead(graph, entry, entries);
    SortedCons(graph, entry, entries);
    if entries != [] {
      assert [entries[0]] + entries[1..] == entries;
      SortedCons(graph, entries[0], entries[1..]);
      if Rank(graph, entry) >= Rank(graph, entries[0]) {
        InsertSorts(graph, entry, entries[1..]);
        InsertElements(graph, entry, entries[1..]);
        SortedCons(graph, entries[0], Insert(graph, entry, entries[1..]));
      } else {
        assert forall e :: e in entries ==> e == entries[0] || e in entries[1..];
      }
    } else {
      OneSorted(graph, entry);
    }
  }

  lemma OneSorted(graph: seq<Key>, entry: Entry)
    ensures RankSorted(graph, [entry] + [])
  {
  }

  lemma {:induction false} InsertKeys(graph: seq<Key>, entry: Entry, entries: seq<Entry>)
    ensures forall k :: k in Keys(Insert(graph, entry, entries)) <==> k == entry.key || k in Keys(entries)
    ensures Distinct(Keys(entries)) && entry.key !in Keys(entries) ==> Distinct(Keys(Insert(graph, entry, entries)))
  {
    hide Insert, Rank;
    InsertHead(graph, entry, entries);
    if entries == [] || Rank(graph, entry) < Rank(graph, entries[0]) {
      assert Keys([entry] + entries) == [entry.key] + Keys(entries);
    } else {
      var rest := Insert(graph, entry, entries[1..]);
      InsertKeys(graph, entry, entries[1..]);
      assert Keys([entries[0]] + rest) == [entries[0].key] + Keys(rest);
      assert Keys(entries) == [entries[0].key] + Keys(entries[1..]);
      assert Keys(entries[1..]) == Keys(entries)[1..];
      if Distinct(Keys(entries)) && entry.key !in Keys(entries) {
        assert entries[0].key !in Keys(entries)[1..];
        DistinctCons(entries[0].key, Keys(rest));
      }
    }
  }

  lemma {:induction false} SortKeys(graph: seq<Key>, entries: seq<Entry>)
    ensures forall k :: k in Keys(SortByRank(graph, entries)) <==> k in Keys(entries)
    ensures Distinct(Keys(entries)) ==> Distinct(Keys(SortByRank(graph, entries)))
  {
    if entries != [] {
      var front, last := entries[..|entries| - 1], entries[|entries| - 1];
      SortKeys(graph, front);
      InsertKeys(graph, last, SortByRank(graph, front));
      assert Keys(entries) == Keys(front) + [last.key];
    }
  }

  /** Insertion goes behind every entry of the same rank. */
  lemma {:induction false} InsertStable(graph: seq<Key>, entry: Entry, entries: seq<Entry>, r: int)
    requires RankSorted(graph, entries)
    ensures Filter(Insert(graph, entry, entries), OfRank(graph, r)) ==
      Filter(entries, OfRank(graph, r)) + if Rank(graph, entry) == r then [entry] else []
  {
    hide Rank, Insert, Filter;
    var keep := OfRank(graph, r);
    InsertHead(graph, entry, entries);
    FilterHead(entries, keep);
    FilterHead([entry] + entries, keep);
    assert ([entry] + entries)[1..] == entries;
    if entries != [] {
      if Rank(graph, entry) < Rank(graph, entries[0]) {
        if Rank(graph, entry) == r {
          FilterNone(entries, keep);
        }
      } else {
        InsertStable(graph, entry, entries[1..], r);
        var rest := Insert(graph, entry, entries[1..]);
        FilterHead([entries[0]] + rest, keep);
        assert ([entries[0]] + rest)[1..] == rest;
      }
    }
  }

  lemma {:induction false} SortPermutes(graph: seq<Key>, entries: seq<Entry>)
    ensures RankSorted(graph, SortByRank(graph, entries))
    ensures multiset(SortByRank(graph, entries)) == multiset(entries)
  {
    if entries != [] {
      var front, last := entries[..|entries| - 1], entries[|entries| - 1];
      SortPermutes(graph, front);
      InsertSorts(graph, last, SortByRank(graph, front));
      InsertElements(graph, last, SortByRank(graph, front));
      assert entries == front + [last];
    }
  }

  lemma SortNone(graph: seq<Key>)
    ensures SortByRank(graph, []) == []
  {
  }

  lemma SortLast(graph: seq<Key>, entries: seq<Entry>)
    requires entries != []
    ensures SortByRank(graph, entries) == Insert(graph, entries[|entries| - 1], SortByRank(graph, entries[..|entries| - 1]))
  {
  }

  /** Entries of one rank keep their order. */
  lemma {:induction false} SortIsStable(graph: seq<Key>, entries: seq<Entry>, r: int)
    ensures Filter(SortByRank(graph, entries), OfRank(graph, r)) == Filter(entries, OfRank(graph, r))
  {
    hide *;
    if entries == [] {
      SortNone(graph);
    } else {
      var front, last := entries[..|entries| - 1], entries[|entries| - 1];
      SortIsStable(graph, front, r);
      SortLast(graph, entries);
      assert RankSorted(graph, SortByRank(graph, front)) by {
        SortPermutes(graph, front);
      }
      StableStep(graph, front, last, SortByRank(graph, front), r);
      assert entries == front + [last];
    }
  }

  lemma StableStep(graph: seq<Key>, front: seq<Entry>, last: Entry, sorted: seq<Entry>, r: int)
    requires RankSorted(graph, sorted) && Filter(sorted, OfRank(graph, r)) == Filter(front, OfRank(graph, r))
    ensures Filter(Insert(graph, last, sorted), OfRank(graph, r)) == Filter(front + [last], OfRank(graph, r))
  {
    hide Rank, Insert, Filter, RankSorted;
    var keep := OfRank(graph, r);
    InsertStable(graph, last, sorted, r);
    FilterAppend(front, [last], keep);
    FilterHead([last], keep);
    assert [last][1..] == [];
    FilterHead([last][1..], keep);
  }

  // ----- sorted lists are subsequences of the graph

  /** The list follows the order of the graph. */
  ghost predicate Follows(graph: seq<Key>, keys: seq<Key>) {
    forall i, j :: 0 <= i < j < |keys| ==> Before(graph, keys[i], keys[j])
  }

  lemma FilterFollows(graph: seq<Key>, keep: Key -> bool)
    ensures Follows(graph, Filter(graph, keep))
  {
    FilterOrdered(graph, keep);
  }

  /** A list in graph order is determined by its elements. */
  lemma {:induction false} FollowsUnique(graph: seq<Key>, a: seq<Key>, b: seq<Key>)
    requires Distinct(graph) && Follows(graph, a) && Follows(graph, b)
    requires forall k :: k in a <==> k in b
    ensures a == b
    decreases |a|
  {
    SameEmpty(a, b);
    if a != [] {
      assert a[0] in b;
      assert b[0] in a;
      SameFirst(graph, a, b);
      forall k | k in a[1..]
        ensures k in b[1..]
      {
        TailDiffers(graph, a, k);
        assert k in b;
      }
      forall k | k in b[1..]
        ensures k in a[1..]
      {
        TailDiffers(graph, b, k);
        assert k in a;
      }
      FollowsUnique(graph, a[1..], b[1..]);
    }
  }

  lemma SameFirst(graph: seq<Key>, a: seq<Key>, b: seq<Key>)
    requires Distinct(graph) && Follows(graph, a) && Follows(graph, b)
    requires a != [] && b != [] && a[0] in b && b[0] in a
    ensures a[0] == b[0]
  {
    var j :| 0 <= j < |b| && b[j] == a[0];
    var i :| 0 <= i < |a| && a[i] == b[0];
    if i > 0 && j > 0 {
      BeforeIsStrict(graph, a[0], b[0]);
    }
  }

  lemma TailDiffers(graph: seq<Key>, a: seq<Key>, k: Key)
    requires Distinct(graph) && Follows(graph, a) && a != [] && k in a[1..]
    ensures k != a[0] && k in a
  {
    var i :| 0 <= i < |a[1..]| && a[1..][i] == k;
    assert a[i + 1] == k;
    BeforeIsStrict(graph, a[0], k);
  }

  /** Without repeats, sorting puts the keys strictly in graph order: it filters the graph. */
  lemma SortFiltersGraph(graph: seq<Key>, entries: seq<Entry>)
    requires Distinct(graph) && Distinct(Keys(entries))
    requires forall k :: k in Keys(entries) ==> k in graph
    ensures Keys(SortByRank(graph, entries)) == Filter(graph, k => k in Keys(entries))
    ensures Follows(graph, Keys(SortByRank(graph, entries)))
  {
    var sorted := SortByRank(graph, entries);
    SortPermutes(graph, entries);
    SortKeys(graph, entries);
    forall i, j | 0 <= i < j < |sorted|
      ensures Before(graph, sorted[i].key, sorted[j].key)
    {
      assert Keys(sorted)[i] in Keys(sorted) && Keys(sorted)[j] in Keys(sorted);
      assert Keys(sorted)[i] != Keys(sorted)[j];
      var x, y := Rank(graph, sorted[i]), Rank(graph, sorted[j]);
      assert x <= y && graph[x] == sorted[i].key && graph[y] == sorted[j].key;
    }
    var keep := k => k in Keys(entries);
    FilterFollows(graph, keep);
    FollowsUnique(graph, Keys(sorted), Filter(graph, keep));
  }

  /** The sorted list, when what is listed is known. */
  lemma SortFiltersBy(graph: seq<Key>, entries: seq<Entry>, keep: Key -> bool)
    requires Distinct(graph) && Distinct(Keys(entries))
    requires forall k :: k in Keys(entries) <==> keep(k)
    requires forall k :: keep(k) ==> k in graph
    ensures Keys(SortByRank(graph, entries)) == Filter(graph, keep)
    ensures Follows(graph, Keys(SortByRank(graph, entries)))
  {
    SortFiltersGraph(graph, entries);
    FilterSame(graph, k => k in Keys(entries), keep);
  }

  // ----- two views of one placement

  /** The services a node ends up with: those placed on it and those it declared. */
  ghost function OnNode(after: Services, declared: seq<Key>, n: NodeId): (keep: Key -> bool)
    ensures forall k :: keep(k) <==> (k in after && Hosts(after[k], n)) || k in declared
  {
    k => (k in after && Hosts(after[k], n)) || k in declared
  }

  /** What a node lists before sorting: no repeats, and what it hosts or declared. */
  lemma ListedExactly(fleet: Fleet, before: Services, after: Services, graph: seq<Key>,
                      declared: map<NodeId, seq<Entry>>, index: map<NodeId, seq<Entry>>, n: NodeId)
    requires after.Keys == before.Keys && Enumerates(graph, before)
    requires Indexed(fleet, declared, index, after, Reverse(graph), |graph|)
    requires n in fleet.order && n in declared
    requires Distinct(Keys(declared[n]))
    ensures Distinct(Keys(index[n]))
    ensures forall k :: k in Keys(index[n]) <==> OnNode(after, Keys(declared[n]), n)(k)
  {
    var rev, own := Reverse(graph), Keys(declared[n]);
    var arrived := Filter(rev, Arrives(after, own, n));
    assert rev[..|graph|] == rev;
    assert Keys(index[n]) == own + arrived;
    ReversedIn(graph);
    FilterDistinct(rev, Arrives(after, own, n));
    hide Filter, Hosts, KeepsEntries, Reverse;
    DistinctAppend(own, arrived);
  }

  /**
   After placement and sorting, a node that declared its services without repeats lists,
   in graph order and once each, exactly the services it hosts and those it declared.
  */
  lemma TwoViewsAgree(fleet: Fleet, before: Services, after: Services, graph: seq<Key>,
                      declared: map<NodeId, seq<Entry>>, index: map<NodeId, seq<Entry>>, n: NodeId)
    requires after.Keys == before.Keys && Enumerates(graph, before)
    requires Indexed(fleet, declared, index, after, Reverse(graph), |graph|)
    requires n in fleet.order && n in declared
    requires Distinct(Keys(declared[n])) && forall k :: k in Keys(declared[n]) ==> k in graph
    ensures Keys(SortByRank(graph, index[n])) == Filter(graph, OnNode(after, Keys(declared[n]), n))
    ensures Follows(graph, Keys(SortByRank(graph, index[n])))
    ensures Distinct(Keys(index[n]))
  {
    ListedExactly(fleet, before, after, graph, declared, index, n);
    hide Indexed, SortByRank, Filter, Follows, Hosts;
    SortFiltersBy(graph, index[n], OnNode(after, Keys(declared[n]), n));
  }

  /** A service has at most one instance on a node. */
  lemma OneInstancePerNode(fleet: Fleet, before: Services, after: Services, rev: seq<Key>, k: Key)
    requires Complete(fleet, before, after, rev) && k in before && Distinct(fleet.order)
    ensures Distinct(Ids(after[k].instances))
  {
    var m :| 0 <= m < |rev| && rev[m] == k;
    assert InNodeOrder(fleet.order, Ids(after[rev[m]].instances));
    FilterDistinct(fleet.order, n => n in Ids(after[k].instances));
  }
}
