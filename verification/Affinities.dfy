/**
 The affinity language: boolean trees (all, any, none) over node tags, node names and
 nested trees. `Satisfies` gives its meaning one node at a time; `Resolve` is the list
 computation of the source and is proved to return exactly the satisfying nodes.
*/
module Affinities {
  import opened Prelude

  type NodeId = string

  datatype Match = All | Any | NoneOf

  /** A scalar or a list: the form of a tag on a node, and of what is matched against it. */
  datatype Term = Text(text: string) | Many(texts: seq<string>) {
    function AsList(): seq<string> {
      if Text? then [text] else texts
    }

    /** Every list is truthy, even an empty one; only the empty string is not. */
    predicate Truthy() {
      this != Text("")
    }
  }

  /** The nodes in declaration order, each with its tags. */
  datatype Fleet = Fleet(order: seq<NodeId>, tags: map<NodeId, map<string, Term>>) {
    ghost predicate Valid() {
      Distinct(order) && "" !in order && forall n :: n in order ==> n in tags
    }

    function Tag(n: NodeId, name: string): Option<Term> {
      if n in tags && name in tags[n] then Some(tags[n][name]) else None
    }
  }

  datatype TagRule = TagRule(name: string, how: Option<Match>, keys: seq<string>)

  /** A normalised affinity. */
  datatype Affinity =
    | Generic(how: Option<Match>, parts: seq<Affinity>)
    | Tags(how: Option<Match>, rules: seq<TagRule>)
    | Nodes(how: Option<Match>, keys: seq<string>)

  /** Matching `none` reads a list that a node without the tag does not have. */
  datatype ResolveError = TagMissing

  // ----- meaning

  /** The boolean reading of one tag rule on one node. */
  ghost predicate SatisfiesRule(fleet: Fleet, rule: TagRule, n: NodeId) {
    var tag := fleet.Tag(n, rule.name);
    match rule.how.GetOr(All)
    case All => tag.Some? && tag.value.Truthy() && forall k :: k in rule.keys ==> k in tag.value.AsList()
    case Any => tag.Some? && tag.value.Truthy() && exists k :: k in rule.keys && k in tag.value.AsList()
    case NoneOf => tag.Some? ==> forall k :: k in rule.keys ==> k !in tag.value.AsList()
  }

  /** The boolean reading of a whole tree: intersection, union, complement of the union. */
  ghost predicate Satisfies(fleet: Fleet, a: Affinity, n: NodeId) {
    match a
    case Generic(how, parts) => (
      match how.GetOr(All)
      case All => forall i :: 0 <= i < |parts| ==> Satisfies(fleet, parts[i], n)
      case Any => exists i :: 0 <= i < |parts| && Satisfies(fleet, parts[i], n)
      case NoneOf => forall i :: 0 <= i < |parts| ==> !Satisfies(fleet, parts[i], n))
    case Tags(how, rules) => (
      match how.GetOr(All)
      case All => forall i :: 0 <= i < |rules| ==> SatisfiesRule(fleet, rules[i], n)
      case Any => exists i :: 0 <= i < |rules| && SatisfiesRule(fleet, rules[i], n)
      case NoneOf => forall i :: 0 <= i < |rules| ==> !SatisfiesRule(fleet, rules[i], n))
    case Nodes(how, keys) => (
      match how.GetOr(All)
      case All => forall k :: k in keys ==> k == n
      case Any => n in keys
      case NoneOf => n !in keys)
  }

  /** A rule no fleet with an untagged node can resolve. */
  ghost predicate BlockedRule(fleet: Fleet, rule: TagRule) {
    && rule.how == Some(NoneOf)
    && rule.keys != []
    && exists n :: n in fleet.order && fleet.Tag(n, rule.name).None?
  }

  ghost predicate Blocked(fleet: Fleet, a: Affinity) {
    match a
    case Generic(_, parts) => exists i :: 0 <= i < |parts| && Blocked(fleet, parts[i])
    case Tags(_, rules) => exists i :: 0 <= i < |rules| && BlockedRule(fleet, rules[i])
    case Nodes(_, _) => false
  }

  ghost function Meaning(fleet: Fleet, a: Affinity): (m: NodeId -> bool)
    ensures forall n :: m(n) == Satisfies(fleet, a, n)
  {
    n => Satisfies(fleet, a, n)
  }

  ghost function Resolution(fleet: Fleet, a: Affinity): Result<seq<NodeId>, ResolveError> {
    if Blocked(fleet, a) then Err(TagMissing)
    else Ok(Filter(fleet.order, Meaning(fleet, a)))
  }

  // ----- computation

  /** What a match looks at: a node and the subject read from it, when there is one. */
  datatype Test = Test(output: NodeId, subject: Option<Term>)

  ghost predicate Shares(a: seq<string>, b: seq<string>) {
    exists x :: x in a && x in b
  }

  /** The test passes `how` against the left values. */
  ghost predicate Passes(how: Match, values: seq<Term>, test: Test) {
    match how
    case All =>
      && test.subject.Some? && test.subject.value.Truthy()
      && forall v :: v in values ==> Shares(v.AsList(), test.subject.value.AsList())
    case Any =>
      && test.subject.Some? && test.subject.value.Truthy()
      && exists v :: v in values && Shares(v.AsList(), test.subject.value.AsList())
    case NoneOf =>
      test.subject.Some? ==> forall v :: v in values ==> !Shares(v.AsList(), test.subject.value.AsList())
  }

  ghost function Passing(how: Match, values: seq<Term>, tests: seq<Test>): seq<NodeId> {
    if tests == [] then []
    else (if Passes(how, values, tests[0]) then [tests[0].output] else []) + Passing(how, values, tests[1..])
  }

  lemma {:induction false} PassingSnoc(how: Match, values: seq<Term>, tests: seq<Test>, t: Test)
    ensures Passing(how, values, tests + [t])
         == Passing(how, values, tests) + if Passes(how, values, t) then [t.output] else []
  {
    if tests == [] {
      assert tests + [t] == [t];
    } else {
      assert (tests + [t])[0] == tests[0] && (tests + [t])[1..] == tests[1..] + [t];
      PassingSnoc(how, values, tests[1..], t);
    }
  }

  method SharesAny(a: seq<string>, b: seq<string>) returns (found: bool)
    ensures found <==> Shares(a, b)
  {
    for j := 0 to |a|
      invariant forall x :: x in a[..j] ==> x !in b
    {
      if a[j] in b {
        return true;
      }
    }
    assert a[..|a|] == a;
    return false;
  }

  /** One test of `match.all`, `match.any` or `match.none`. */
  method PassesTest(how: Match, values: seq<Term>, test: Test) returns (r: bool)
    requires how == NoneOf && values != [] ==> test.subject.Some?
    ensures r <==> Passes(how, values, test)
  {
    if how != NoneOf && (test.subject.None? || !test.subject.value.Truthy()) {
      return false;
    }
    var ok := true;
    for j := 0 to |values|
      invariant how == All ==> (ok <==> forall v :: v in values[..j] ==> Shares(v.AsList(), test.subject.value.AsList()))
      invariant how != All ==> ok && forall v :: v in values[..j] ==> !Shares(v.AsList(), test.subject.value.AsList())
    {
      assert values[..j + 1] == values[..j] + [values[j]];
      var found := SharesAny(values[j].AsList(), test.subject.value.AsList());
      if how == All {
        ok := ok && found;
      } else if found {
        return how == Any;
      }
    }
    assert values[..|values|] == values;
    return if how == Any then false else ok;
  }

  /** `match[how](values, tests)`: the outputs of the tests that pass, in order. */
  method MatchTests(how: Match, values: seq<Term>, tests: seq<Test>) returns (r: Result<seq<NodeId>, ResolveError>)
    ensures r.Err? <==> how == NoneOf && values != [] && exists i :: 0 <= i < |tests| && tests[i].subject.None?
    ensures r.Ok? ==> r.value == Passing(how, values, tests)
  {
    var out: seq<NodeId> := [];
    for i := 0 to |tests|
      invariant out == Passing(how, values, tests[..i])
      invariant how == NoneOf && values != [] ==> forall j :: 0 <= j < i ==> tests[j].subject.Some?
    {
      if how == NoneOf && values != [] && tests[i].subject.None? {
        return Err(TagMissing);
      }
      var pass := PassesTest(how, values, tests[i]);
      assert tests[..i + 1] == tests[..i] + [tests[i]];
      PassingSnoc(how, values, tests[..i], tests[i]);
      if pass {
        out := out + [tests[i].output];
      }
    }
    assert tests[..|tests|] == tests;
    return Ok(out);
  }

  /** One test per node, whose subject is the node's own name. */
  function SelfTests(order: seq<NodeId>): (tests: seq<Test>) {
    seq(|order|, i requires 0 <= i < |order| => Test(order[i], Some(Text(order[i]))))
  }

  /** One test per node, whose subject is the node's value for a tag. */
  function TagTests(fleet: Fleet, name: string): (tests: seq<Test>) {
    seq(|fleet.order|, i requires 0 <= i < |fleet.order| => Test(fleet.order[i], fleet.Tag(fleet.order[i], name)))
  }

  function Texts(keys: seq<string>): (r: seq<Term>)
    ensures |r| == |keys| && forall i :: 0 <= i < |keys| ==> r[i] == Text(keys[i])
  {
    seq(|keys|, i requires 0 <= i < |keys| => Text(keys[i]))
  }

  /** If tests mirror the nodes one by one, what passes is a filter of the nodes. */
  lemma {:induction false} PassingIsFilter(
      how: Match, values: seq<Term>, tests: seq<Test>, order: seq<NodeId>, keep: NodeId -> bool)
    requires |tests| == |order|
    requires forall i :: 0 <= i < |order| ==> tests[i].output == order[i]
    requires forall i :: 0 <= i < |order| ==> Passes(how, values, tests[i]) == keep(order[i])
    ensures Passing(how, values, tests) == Filter(order, keep)
  {
    if order != [] {
      PassingIsFilter(how, values, tests[1..], order[1..], keep);
    }
  }

  lemma SharesText(keys: seq<string>, list: seq<string>)
    ensures forall k: string :: Shares([k], list) <==> k in list
    ensures (forall v :: v in Texts(keys) ==> Shares(v.AsList(), list)) <==> forall k :: k in keys ==> k in list
    ensures (exists v :: v in Texts(keys) && Shares(v.AsList(), list)) <==> exists k :: k in keys && k in list
  {
    forall k: string
      ensures Shares([k], list) <==> k in list
    {
      if k in list {
        assert k in [k];
      }
    }
    forall k | k in keys
      ensures Text(k) in Texts(keys)
    {
      var i :| 0 <= i < |keys| && keys[i] == k;
      assert Texts(keys)[i] == Text(k);
    }
    forall v | v in Texts(keys)
      ensures v.Text? && v.text in keys
    {
    }
    if k :| k in keys && k in list {
      assert Text(k) in Texts(keys) && Shares(Text(k).AsList(), list);
    }
    if forall v :: v in Texts(keys) ==> Shares(v.AsList(), list) {
      forall k | k in keys
        ensures k in list
      {
        assert Text(k) in Texts(keys) && Text(k).AsList() == [k];
      }
    }
  }

  /** The nodes on which a tag rule holds. */
  method ResolveRule(fleet: Fleet, rule: TagRule) returns (r: Result<seq<NodeId>, ResolveError>)
    ensures r.Err? <==> BlockedRule(fleet, rule)
    ensures r.Ok? ==> r.value == Filter(fleet.order, n => SatisfiesRule(fleet, rule, n))
  {
    var tests := TagTests(fleet, rule.name);
    r := MatchTests(rule.how.GetOr(All), Texts(rule.keys), tests);
    assert r.Err? <==> BlockedRule(fleet, rule) by {
      if i :| 0 <= i < |tests| && tests[i].subject.None? {
        assert fleet.order[i] in fleet.order;
      }
      if BlockedRule(fleet, rule) {
        var n :| n in fleet.order && fleet.Tag(n, rule.name).None?;
        var i :| 0 <= i < |fleet.order| && fleet.order[i] == n;
        assert tests[i].subject.None?;
      }
    }
    if r.Ok? {
      forall i | 0 <= i < |fleet.order|
        ensures Passes(rule.how.GetOr(All), Texts(rule.keys), tests[i]) == SatisfiesRule(fleet, rule, fleet.order[i])
      {
        var tag := fleet.Tag(fleet.order[i], rule.name);
        if tag.Some? {
          SharesText(rule.keys, tag.value.AsList());
        }
      }
      PassingIsFilter(rule.how.GetOr(All), Texts(rule.keys), tests, fleet.order, n => SatisfiesRule(fleet, rule, n));
    }
  }

  /** A node's own name is shared with a list of nodes exactly when it is listed. */
  lemma SharesSelf(list: seq<NodeId>, n: NodeId)
    ensures Shares(list, [n]) <==> n in list
    ensures Shares([n], [n])
  {
    assert n in [n];
  }

  /** Matching lists of nodes against the nodes themselves never reads a missing subject. */
  method MatchNodes(fleet: Fleet, how: Option<Match>, values: seq<Term>, ghost keep: NodeId -> bool)
      returns (r: Result<seq<NodeId>, ResolveError>)
    requires fleet.Valid()
    requires forall n :: n in fleet.order ==> keep(n) == Passes(how.GetOr(All), values, Test(n, Some(Text(n))))
    ensures r == Ok(Filter(fleet.order, keep))
  {
    var tests := SelfTests(fleet.order);
    r := MatchTests(how.GetOr(All), values, tests);
    forall i | 0 <= i < |fleet.order|
      ensures Passes(how.GetOr(All), values, tests[i]) == keep(fleet.order[i])
    {
      assert fleet.order[i] in fleet.order;
    }
    PassingIsFilter(how.GetOr(All), values, tests, fleet.order, keep);
  }

  /** The lists collected for the parts of a tree, matched against a node, give the part's meanings back. */
  lemma ListsMean(values: seq<Term>, n: NodeId, means: seq<bool>)
    requires |values| == |means|
    requires forall i :: 0 <= i < |values| ==> values[i].Many? && (n in values[i].texts <==> means[i])
    requires n != ""
    ensures Passes(All, values, Test(n, Some(Text(n)))) <==> forall i :: 0 <= i < |means| ==> means[i]
    ensures Passes(Any, values, Test(n, Some(Text(n)))) <==> exists i :: 0 <= i < |means| && means[i]
    ensures Passes(NoneOf, values, Test(n, Some(Text(n)))) <==> forall i :: 0 <= i < |means| ==> !means[i]
  {
    forall i | 0 <= i < |values|
      ensures Shares(values[i].AsList(), [n]) <==> means[i]
    {
      SharesSelf(values[i].texts, n);
    }
    if i :| 0 <= i < |means| && means[i] {
      assert values[i] in values;
    }
    if i :| 0 <= i < |means| && !means[i] {
      assert values[i] in values;
    }
  }

  /** Part `i` of a tree holds on `n`: a nested tree for `Generic`, a rule for `Tags`. */
  ghost predicate PartHolds(fleet: Fleet, a: Affinity, i: nat, n: NodeId)
    requires !a.Nodes? && i < Parts(a)
  {
    if a.Generic? then Satisfies(fleet, a.parts[i], n) else SatisfiesRule(fleet, a.rules[i], n)
  }

  function Parts(a: Affinity): nat
    requires !a.Nodes?
  {
    if a.Generic? then |a.parts| else |a.rules|
  }

  /** The lists collected so far hold, part by part, the nodes where the part holds. */
  ghost predicate Collected(fleet: Fleet, a: Affinity, matched: seq<Term>)
    requires !a.Nodes?
  {
    && |matched| <= Parts(a)
    && forall i :: 0 <= i < |matched| ==>
      matched[i].Many? && forall n :: n in matched[i].texts <==> n in fleet.order && PartHolds(fleet, a, i, n)
  }

  lemma CollectedMeans(fleet: Fleet, a: Affinity, matched: seq<Term>, n: NodeId)
    requires !a.Nodes? && Collected(fleet, a, matched) && |matched| == Parts(a)
    requires fleet.Valid() && n in fleet.order
    ensures Satisfies(fleet, a, n) == Passes(a.how.GetOr(All), matched, Test(n, Some(Text(n))))
  {
    var means := seq(Parts(a), i requires 0 <= i < Parts(a) => PartHolds(fleet, a, i, n));
    ListsMean(matched, n, means);
    if a.Generic? {
      GenericMeans(fleet, a, n, means);
    } else {
      TagsMeans(fleet, a, n, means);
    }
  }

  lemma NamesMean(fleet: Fleet, a: Affinity, n: NodeId)
    requires a.Nodes? && n != ""
    ensures Satisfies(fleet, a, n) == Passes(a.how.GetOr(All), Texts(a.keys), Test(n, Some(Text(n))))
  {
    hide Shares;
    SharesText(a.keys, [n]);
    assert forall k :: k in [n] <==> k == n;
    assert Text(n).AsList() == [n];
    assert (exists v :: v in Texts(a.keys) && Shares(v.AsList(), [n])) <==> n in a.keys;
    assert (forall v :: v in Texts(a.keys) ==> Shares(v.AsList(), [n])) <==> forall k :: k in a.keys ==> k == n;
  }

  method ResolveParts(fleet: Fleet, a: Affinity) returns (r: Result<seq<Term>, ResolveError>)
    requires fleet.Valid() && !a.Nodes?
    ensures r.Err? <==> Blocked(fleet, a)
    ensures r.Ok? ==> Collected(fleet, a, r.value) && |r.value| == Parts(a)
    decreases a, 0
  {
    var matched: seq<Term> := [];
    for j := 0 to Parts(a)
      invariant |matched| == j && Collected(fleet, a, matched)
      invariant a.Generic? ==> forall i :: 0 <= i < j ==> !Blocked(fleet, a.parts[i])
      invariant a.Tags? ==> forall i :: 0 <= i < j ==> !BlockedRule(fleet, a.rules[i])
    {
      var part;
      if a.Generic? {
        part := Resolve(fleet, a.parts[j]);
      } else {
        part := ResolveRule(fleet, a.rules[j]);
      }
      if part.Err? {
        return Err(TagMissing);
      }
      assert forall n :: n in part.value <==> n in fleet.order && PartHolds(fleet, a, j, n);
      matched := matched + [Many(part.value)];
    }
    return Ok(matched);
  }

  /**
   The source's `resolve`: the lists of the parts are collected in a loop and matched
   against the nodes. The result is the boolean meaning, in node order, without repeats.
  */
  method Resolve(fleet: Fleet, a: Affinity) returns (r: Result<seq<NodeId>, ResolveError>)
    requires fleet.Valid()
    ensures r == Resolution(fleet, a)
    decreases a, 1
  {
    var values: seq<Term>;
    if a.Nodes? {
      values := Texts(a.keys);
      forall n | n in fleet.order
        ensures Satisfies(fleet, a, n) == Passes(a.how.GetOr(All), values, Test(n, Some(Text(n))))
      {
        NamesMean(fleet, a, n);
      }
    } else {
      var matched := ResolveParts(fleet, a);
      if matched.Err? {
        return Err(TagMissing);
      }
      values := matched.value;
      forall n | n in fleet.order
        ensures Satisfies(fleet, a, n) == Passes(a.how.GetOr(All), values, Test(n, Some(Text(n))))
      {
        CollectedMeans(fleet, a, values, n);
      }
    }
    r := MatchNodes(fleet, a.how, values, Meaning(fleet, a));
  }

  lemma GenericMeans(fleet: Fleet, a: Affinity, n: NodeId, means: seq<bool>)
    requires a.Generic? && |means| == |a.parts|
    requires forall i :: 0 <= i < |means| ==> means[i] == Satisfies(fleet, a.parts[i], n)
    ensures Satisfies(fleet, a, n) ==
      match a.how.GetOr(All)
      case All => forall i :: 0 <= i < |means| ==> means[i]
      case Any => exists i :: 0 <= i < |means| && means[i]
      case NoneOf => forall i :: 0 <= i < |means| ==> !means[i]
  {
  }

  lemma TagsMeans(fleet: Fleet, a: Affinity, n: NodeId, means: seq<bool>)
    requires a.Tags? && |means| == |a.rules|
    requires forall i :: 0 <= i < |means| ==> means[i] == SatisfiesRule(fleet, a.rules[i], n)
    ensures Satisfies(fleet, a, n) ==
      match a.how.GetOr(All)
      case All => forall i :: 0 <= i < |means| ==> means[i]
      case Any => exists i :: 0 <= i < |means| && means[i]
      case NoneOf => forall i :: 0 <= i < |means| ==> !means[i]
  {
  }

  /** What `Resolution` promises a reader of its list. */
  lemma ResolutionIsExact(fleet: Fleet, a: Affinity)
    requires fleet.Valid() && !Blocked(fleet, a)
    ensures Distinct(Resolution(fleet, a).value)
    ensures forall n :: n in Resolution(fleet, a).value <==> n in fleet.order && Satisfies(fleet, a, n)
    ensures forall m, n ::
      (m in Resolution(fleet, a).value && n in Resolution(fleet, a).value && Before(fleet.order, m, n)) ==>
        Before(Resolution(fleet, a).value, m, n)
  {
    var keep := Meaning(fleet, a);
    FilterDistinct(fleet.order, keep);
    forall m, n | m in Filter(fleet.order, keep) && n in Filter(fleet.order, keep) && Before(fleet.order, m, n)
      ensures Before(Filter(fleet.order, keep), m, n)
    {
      FilterBefore(fleet.order, keep, m, n);
    }
  }
}
