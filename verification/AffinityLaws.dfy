/** What affinities mean, value by value, and what normalisation keeps of a declaration. */
module AffinityLaws {
  import opened Prelude
  import opened Affinities
  import opened AffinityForms

  // ----- the values of one tag

  /** What the node has under the name of a tag. */
  ghost function TagOf(fleet: Fleet, n: NodeId, name: string): Option<Term> {
    if n !in fleet.tags then None
    else if name in fleet.tags[n] then Some(fleet.tags[n][name])
    else None
  }

  /** One value on one node: a scalar tag is that value, a list tag holds it; the empty text matches nothing. */
  lemma OneValue(fleet: Fleet, name: string, how: Option<Match>, k: string, n: NodeId)
    ensures var tag, holds := TagOf(fleet, n, name), SatisfiesRule(fleet, TagRule(name, how, [k]), n);
      match tag
      case None => holds <==> how == Some(NoneOf)
      case Some(Text(t)) => holds <==> (if how == Some(NoneOf) then t != k else t == k && t != "")
      case Some(Many(ts)) => holds <==> (if how == Some(NoneOf) then k !in ts else k in ts)
  {
    assert k in [k];
  }

  /** Without values a node needs the tag, or nothing is selected, or everything is. */
  lemma NoValue(fleet: Fleet, name: string, how: Option<Match>, n: NodeId)
    ensures var tag, holds := TagOf(fleet, n, name), SatisfiesRule(fleet, TagRule(name, how, []), n);
      match how
      case None => holds <==> tag.Some? && tag != Some(Text(""))
      case Some(All) => holds <==> tag.Some? && tag != Some(Text(""))
      case Some(Any) => !holds
      case Some(NoneOf) => holds
  {
  }

  /** The rule with one of its values. */
  ghost predicate HoldsFor(fleet: Fleet, rule: TagRule, k: string, n: NodeId) {
    SatisfiesRule(fleet, rule.(keys := [k]), n)
  }

  /** Several values of a tag are read one by one: all of them, one of them, or none of them. */
  lemma ValuesOfTag(fleet: Fleet, rule: TagRule, n: NodeId)
    requires rule.keys != []
    ensures rule.how.None? || rule.how == Some(All) ==>
      (SatisfiesRule(fleet, rule, n) <==> forall k :: k in rule.keys ==> HoldsFor(fleet, rule, k, n))
    ensures rule.how == Some(Any) ==>
      (SatisfiesRule(fleet, rule, n) <==> exists k :: k in rule.keys && HoldsFor(fleet, rule, k, n))
    ensures rule.how == Some(NoneOf) ==>
      (SatisfiesRule(fleet, rule, n) <==> forall k :: k in rule.keys ==> HoldsFor(fleet, rule, k, n))
  {
    assert rule.keys[0] in rule.keys;
    var tag := fleet.Tag(n, rule.name);
    forall k
      ensures HoldsFor(fleet, rule, k, n) <==>
        match rule.how.GetOr(All)
        case NoneOf => tag.Some? ==> k !in tag.value.AsList()
        case _ => tag.Some? && tag.value.Truthy() && k in tag.value.AsList()
    {
      assert k in [k];
    }
  }

  // ----- trees

  /** What a list of nodes holds for a tree, from what it holds for the parts. */
  lemma ResolutionOfTree(fleet: Fleet, how: Option<Match>, parts: seq<Affinity>, n: NodeId)
    requires !Blocked(fleet, Generic(how, parts))
    ensures forall i :: 0 <= i < |parts| ==> Resolution(fleet, parts[i]).Ok?
    ensures var found := Resolution(fleet, Generic(how, parts));
      && found.Ok?
      && (how.None? || how == Some(All) ==>
        (n in found.value <==> n in fleet.order && forall i :: 0 <= i < |parts| ==> n in Resolution(fleet, parts[i]).value))
      && (how == Some(Any) ==>
        (n in found.value <==> exists i :: 0 <= i < |parts| && n in Resolution(fleet, parts[i]).value))
      && (how == Some(NoneOf) ==>
        (n in found.value <==> n in fleet.order && forall i :: 0 <= i < |parts| ==> n !in Resolution(fleet, parts[i]).value))
  {
    forall i | 0 <= i < |parts|
      ensures n in Resolution(fleet, parts[i]).value <==> n in fleet.order && Satisfies(fleet, parts[i], n)
    {
      assert !Blocked(fleet, parts[i]);
    }
  }

  /** The same for the rules of a tags affinity, each on its own. */
  lemma ResolutionOfTags(fleet: Fleet, how: Option<Match>, rules: seq<TagRule>, n: NodeId)
    requires !Blocked(fleet, Tags(how, rules))
    ensures var found := Resolution(fleet, Tags(how, rules));
      && found.Ok?
      && (how.None? || how == Some(All) ==>
        (n in found.value <==> n in fleet.order && forall i :: 0 <= i < |rules| ==> SatisfiesRule(fleet, rules[i], n)))
      && (how == Some(Any) ==>
        (n in found.value <==> n in fleet.order && exists i :: 0 <= i < |rules| && SatisfiesRule(fleet, rules[i], n)))
      && (how == Some(NoneOf) ==>
        (n in found.value <==> n in fleet.order && forall i :: 0 <= i < |rules| ==> !SatisfiesRule(fleet, rules[i], n)))
  {
    hide SatisfiesRule;
  }

  /** Of a list of names: all asks that no other is listed, any that the node is, none that it is not. */
  lemma ResolutionOfNodes(fleet: Fleet, how: Option<Match>, keys: seq<string>, n: NodeId)
    ensures var found := Resolution(fleet, Nodes(how, keys));
      && found.Ok?
      && (how.None? || how == Some(All) ==>
        (n in found.value <==> n in fleet.order && forall k :: k in keys ==> k == n))
      && (how == Some(Any) ==> (n in found.value <==> n in fleet.order && n in keys))
      && (how == Some(NoneOf) ==> (n in found.value <==> n in fleet.order && n !in keys))
  {
  }

  /** The rule is somewhere in the tree. */
  ghost predicate HasRule(a: Affinity, rule: TagRule) {
    match a
    case Generic(_, parts) => exists i :: 0 <= i < |parts| && HasRule(parts[i], rule)
    case Tags(_, rules) => rule in rules
    case Nodes(_, _) => false
  }

  /** A tree cannot be resolved exactly when one of its rules, at any depth, matches none on a tag some node lacks. */
  lemma {:induction false} UnresolvableExactly(fleet: Fleet, a: Affinity)
    ensures Resolution(fleet, a).Err? <==>
      exists rule, n ::
        HasRule(a, rule) && rule.how == Some(NoneOf) && rule.keys != [] && n in fleet.order && fleet.Tag(n, rule.name).None?
  {
    BlockedRules(fleet, a);
    if rule, n :|
        HasRule(a, rule) && rule.how == Some(NoneOf) && rule.keys != [] && n in fleet.order && fleet.Tag(n, rule.name).None? {
      assert BlockedRule(fleet, rule);
    }
  }

  lemma {:induction false} BlockedRules(fleet: Fleet, a: Affinity)
    ensures Blocked(fleet, a) <==> exists rule :: HasRule(a, rule) && BlockedRule(fleet, rule)
  {
    hide BlockedRule;
    match a
    case Generic(_, parts) =>
      forall i | 0 <= i < |parts|
        ensures Blocked(fleet, parts[i]) <==> exists rule :: HasRule(parts[i], rule) && BlockedRule(fleet, rule)
      {
        BlockedRules(fleet, parts[i]);
      }
    case Tags(_, rules) =>
      forall i | 0 <= i < |rules|
        ensures rules[i] in rules
      {
      }
    case Nodes(_, _) =>
  }

  // ----- what a normal form keeps

  /** The keys are the texts of the list, each once. */
  ghost predicate KeysOfTexts(items: seq<Item>, keys: seq<string>) {
    && Distinct(keys) && (forall i :: 0 <= i < |items| ==> items[i].Str? && items[i].text in keys)
    && forall k :: k in keys ==> Str(k) in items
  }

  ghost predicate DescribesRule(raw: RawRule, rule: TagRule) {
    rule.name == raw.name &&
    match raw
    case Bare(_, item) => rule.how.None? && |rule.keys| == 1 && item == Str(rule.keys[0])
    case Several(_, items) => rule.how.None? && KeysOfTexts(items, rule.keys)
    case Conf(_, how, body) => (
      rule.how == how &&
      match body
      case NoValues => false
      case Listed(items) => KeysOfTexts(items, rule.keys)
      case Keyed(keys) => rule.keys == keys)
  }

  /** The same kind, match and values at every depth. */
  ghost predicate Describes(raw: Raw, a: Affinity)
    decreases raw
  {
    match (raw, a)
    case (RawGeneric(how, Parts(parts)), Generic(h, normal)) =>
      h == how && |normal| == |parts| && forall i :: 0 <= i < |parts| ==> Describes(parts[i], normal[i])
    case (RawTags(how, Table(rules)), Tags(h, normal)) =>
      h == how && |normal| == |rules| && forall i :: 0 <= i < |rules| ==> DescribesRule(rules[i], normal[i])
    case (RawNodes(how, values), Nodes(h, keys)) => (
      h == how &&
      match values
      case NoNodes => false
      case OneNode(text) => keys == [text]
      case NodeList(items) => KeysOfTexts(items, keys)
      case NodeKeys(given) => keys == given)
    case _ => false
  }

  lemma {:induction false} KeysAreTexts(items: seq<Item>)
    requires AllStrings(items)
    ensures KeysOfTexts(items, KeysOf(items))
  {
    if items != [] {
      var front, last := items[..|items| - 1], items[|items| - 1];
      KeysAreTexts(front);
      assert items == front + [last];
      forall i | 0 <= i < |items|
        ensures items[i].text in KeysOf(items)
      {
        if i < |front| {
          assert front[i] == items[i];
        }
      }
    }
  }

  lemma OneText(text: string)
    ensures NormalItems([Str(text)]) == Ok([text])
  {
    var items := [Str(text)];
    assert items[..0] == [];
    assert KeysOf(items) == [text];
  }

  lemma NormalRuleDescribes(raw: RawRule)
    requires NormalRule(raw).Ok?
    ensures DescribesRule(raw, NormalRule(raw).value)
  {
    match raw
    case Bare(_, item) =>
      OneText(item.text);
    case Several(_, items) => KeysAreTexts(items);
    case Conf(_, _, body) =>
      if body.Listed? {
        KeysAreTexts(body.items);
      }
  }

  /** A normal form has the kind, the match and exactly the values of the declaration, at every depth. */
  lemma {:induction false} NormalFormDescribes(raw: Raw)
    requires NormalForm(raw).Ok?
    ensures Describes(raw, NormalForm(raw).value)
  {
    match raw
    case RawGeneric(_, Parts(parts)) =>
      PartsLength(raw, |parts|);
      forall i | 0 <= i < |parts|
        ensures Describes(parts[i], NormalForm(raw).value.parts[i])
      {
        NormalFormDescribes(parts[i]);
      }
    case RawTags(_, Table(rules)) =>
      RulesLength(rules, |rules|);
      forall i | 0 <= i < |rules|
        ensures DescribesRule(rules[i], NormalForm(raw).value.rules[i])
      {
        NormalRuleDescribes(rules[i]);
      }
    case RawNodes(_, values) =>
      match values {
        case OneNode(text) =>
          OneText(text);
        case NodeList(items) => KeysAreTexts(items);
        case NodeKeys(_) =>
      }
  }

  // ----- what is refused

  /** Two different texts are given. */
  ghost predicate Differ(items: seq<Item>) {
    exists i, j :: 0 <= i < j < |items| && items[i] != items[j]
  }

  /** A list of values, given without `match` or with one, is refused with that error. */
  ghost predicate RefusesList(items: seq<Item>, how: Option<Match>, e: FormError) {
    || (e == NotAString && NotStr in items)
    || (e == MatchRequired && how.None? && Differ(items))
  }

  ghost predicate RefusesRule(raw: RawRule, e: FormError) {
    match raw
    case Bare(_, item) => (e == NotAString && item.NotStr?) || (e == MustBeTrue && item == Str("length"))
    case Several(_, items) => RefusesList(items, None, e) || (e == MustBeTrue && Str("length") in items)
    case Conf(_, how, body) =>
      match body
      case NoValues => e == NoKeys
      case Listed(items) => RefusesList(items, how, e) || (e == MustBeTrue && Str("length") in items)
      case Keyed(keys) => (e == MatchRequired && how.None? && |keys| > 1) || (e == MustBeTrue && "length" in keys)
  }

  /** The declaration, or a part of it at some depth, deserves the error. */
  ghost predicate Refuses(raw: Raw, e: FormError) {
    match raw
    case RawGeneric(_, NoParts) => e == MissingValues
    case RawGeneric(_, NotAList) => e == NotAnArray
    case RawGeneric(_, Parts(parts)) => exists i :: 0 <= i < |parts| && Refuses(parts[i], e)
    case RawTags(_, NoTable) => e == MissingValues
    case RawTags(_, NotATable) => e == NotAnObject
    case RawTags(how, Table(rules)) =>
      || (exists i :: 0 <= i < |rules| && RefusesRule(rules[i], e))
      || (e == MatchRequired && how.None? && |rules| > 1)
    case RawNodes(how, values) => (
      match values
      case NoNodes => e == MissingValues
      case OneNode(text) => e == MissingValues && text == ""
      case NodeList(items) => RefusesList(items, how, e)
      case NodeKeys(keys) => e == MatchRequired && how.None? && |keys| > 1)
    case Untyped => e == MissingType
    case UnknownType => e == UnsupportedType
  }

  lemma SeveralKeys(items: seq<Item>)
    requires AllStrings(items)
    ensures |KeysOf(items)| > 1 <==> Differ(items)
    ensures forall text :: text in KeysOf(items) <==> Str(text) in items
    ensures NotStr !in items
  {
    KeysAreTexts(items);
    var keys := KeysOf(items);
    if |keys| > 1 {
      assert Str(keys[0]) in items && Str(keys[1]) in items;
    }
    if i, j :| 0 <= i < j < |items| && items[i] != items[j] {
      assert items[i].text in keys && items[j].text in keys;
    }
  }

  lemma RuleRefusedExactly(raw: RawRule)
    ensures NormalRule(raw).Err? ==> RefusesRule(raw, NormalRule(raw).error)
    ensures NormalRule(raw).Ok? ==> forall e :: !RefusesRule(raw, e)
  {
    var body := BodyOf(raw);
    if body.Listed? {
      if AllStrings(body.items) {
        SeveralKeys(body.items);
      } else {
        assert NotStr in body.items;
      }
    }
  }

  lemma NodesRefusedExactly(raw: Raw)
    requires raw.RawNodes?
    ensures NormalForm(raw).Err? ==> Refuses(raw, NormalForm(raw).error)
    ensures NormalForm(raw).Ok? ==> forall e :: !Refuses(raw, e)
  {
    match raw.values
    case NodeList(items) =>
      if AllStrings(items) {
        SeveralKeys(items);
      } else {
        assert NotStr in items;
      }
    case OneNode(text) =>
      OneText(text);
    case _ =>
  }

  lemma {:induction false} RulesRefused(rules: seq<RawRule>, k: nat)
    requires k <= |rules|
    ensures NormalRules(rules, k).Err? ==> exists i :: 0 <= i < k && RefusesRule(rules[i], NormalRules(rules, k).error)
    ensures NormalRules(rules, k).Ok? ==> forall i, e :: 0 <= i < k ==> !RefusesRule(rules[i], e)
    decreases k
  {
    hide NormalRule, RefusesRule;
    if k > 0 {
      RulesRefused(rules, k - 1);
      RuleRefusedExactly(rules[k - 1]);
    }
  }

  lemma {:induction false} PartsRefused(whole: Raw, k: nat)
    requires whole.RawGeneric? && whole.list.Parts? && k <= |whole.list.parts|
    ensures NormalParts(whole, k).Err? ==>
      exists i :: 0 <= i < k && Refuses(whole.list.parts[i], NormalParts(whole, k).error)
    ensures NormalParts(whole, k).Ok? ==> forall i, e :: 0 <= i < k ==> !Refuses(whole.list.parts[i], e)
    decreases whole, 0, k
  {
    hide NormalForm, Refuses;
    if k > 0 {
      PartsRefused(whole, k - 1);
      RefusedExactly(whole.list.parts[k - 1]);
    }
  }

  /** A declaration is refused for an error that it deserves somewhere, and accepted when it deserves none. */
  lemma {:induction false} RefusedExactly(raw: Raw)
    ensures NormalForm(raw).Err? ==> Refuses(raw, NormalForm(raw).error)
    ensures NormalForm(raw).Ok? ==> forall e :: !Refuses(raw, e)
    decreases raw, 1
  {
    match raw
    case RawGeneric(_, Parts(parts)) => PartsRefused(raw, |parts|);
    case RawTags(_, Table(rules)) =>
      hide RefusesRule, NormalRule;
      RulesRefused(rules, |rules|);
    case RawNodes(_, _) => NodesRefusedExactly(raw);
    case _ =>
  }
}
