/**
 The spellings a user may give an affinity, and their normalisation: a value set may be
 written as a scalar, a list or an object whose keys are the values. The `Normalize`
 methods follow the source's loops; `NormalForm` is what they are proved to compute.
*/
module AffinityForms {
  import opened Prelude
  import opened Affinities

  datatype Item = Str(text: string) | NotStr

  datatype RuleBody = NoValues | Listed(items: seq<Item>) | Keyed(keys: seq<string>)

  /** One entry of the table of a tags affinity. */
  datatype RawRule =
    | Bare(name: string, item: Item)
    | Several(name: string, items: seq<Item>)
    | Conf(name: string, how: Option<Match>, body: RuleBody)

  datatype RuleTable = NoTable | NotATable | Table(rules: seq<RawRule>)
  datatype NodeValues = NoNodes | OneNode(text: string) | NodeList(items: seq<Item>) | NodeKeys(keys: seq<string>)
  datatype PartList = NoParts | NotAList | Parts(parts: seq<Raw>)

  datatype Raw =
    | RawGeneric(how: Option<Match>, list: PartList)
    | RawTags(how: Option<Match>, table: RuleTable)
    | RawNodes(how: Option<Match>, values: NodeValues)
    | Untyped
    | UnknownType

  datatype FormError =
    | MissingValues | NotAnArray | NotAnObject | MissingType | UnsupportedType
    | NotAString | MatchRequired | MustBeTrue | NoKeys

  // ----- what normalisation computes

  ghost predicate AllStrings(items: seq<Item>) {
    forall i :: 0 <= i < |items| ==> items[i].Str?
  }

  /** The keys of the object built from a list: first occurrences, in order. */
  ghost function KeysOf(items: seq<Item>): seq<string>
    requires AllStrings(items)
  {
    if items == [] then []
    else
      var keys := KeysOf(items[..|items| - 1]);
      var last := items[|items| - 1].text;
      if last in keys then keys else keys + [last]
  }

  ghost function NormalItems(items: seq<Item>): Result<seq<string>, FormError> {
    if AllStrings(items) then Ok(KeysOf(items)) else Err(NotAString)
  }

  ghost function BodyOf(raw: RawRule): RuleBody {
    match raw
    case Bare(_, item) => Listed([item])
    case Several(_, items) => Listed(items)
    case Conf(_, _, body) => body
  }

  ghost function HowOf(raw: RawRule): Option<Match> {
    if raw.Conf? then raw.how else None
  }

  /** A value named `length` is mistaken for the length of the key object. */
  const LENGTH := "length"

  ghost function NormalRule(raw: RawRule): Result<TagRule, FormError> {
    var keys: Result<seq<string>, FormError> :=
      match BodyOf(raw)
      case NoValues => Err(NoKeys)
      case Listed(items) => NormalItems(items)
      case Keyed(keys) => Ok(keys);
    if keys.Err? then Err(keys.error)
    else if |keys.value| > 1 && HowOf(raw).None? then Err(MatchRequired)
    else if LENGTH in keys.value then Err(MustBeTrue)
    else Ok(TagRule(raw.name, HowOf(raw), keys.value))
  }

  /** The first `k` rules in order, or the first error among them. */
  ghost function NormalRules(rules: seq<RawRule>, k: nat): Result<seq<TagRule>, FormError>
    requires k <= |rules|
  {
    if k == 0 then Ok([])
    else
      var front := NormalRules(rules, k - 1);
      var last := NormalRule(rules[k - 1]);
      if front.Err? then front
      else if last.Err? then Err(last.error)
      else Ok(front.value + [last.value])
  }

  ghost function NormalNodeKeys(values: NodeValues): Result<seq<string>, FormError> {
    match values
    case NoNodes => Err(MissingValues)
    case OneNode(text) => if text == "" then Err(MissingValues) else NormalItems([Str(text)])
    case NodeList(items) => NormalItems(items)
    case NodeKeys(keys) => Ok(keys)
  }

  ghost function NormalForm(raw: Raw): Result<Affinity, FormError>
    decreases raw, 1
  {
    match raw
    case RawGeneric(how, NoParts) => Err(MissingValues)
    case RawGeneric(how, NotAList) => Err(NotAnArray)
    case RawGeneric(how, Parts(parts)) =>
      var normal := NormalParts(raw, |parts|);
      if normal.Err? then Err(normal.error) else Ok(Generic(how, normal.value))
    case RawTags(how, NoTable) => Err(MissingValues)
    case RawTags(how, NotATable) => Err(NotAnObject)
    case RawTags(how, Table(rules)) =>
      var normal := NormalRules(rules, |rules|);
      if normal.Err? then Err(normal.error)
      else if |rules| > 1 && how.None? then Err(MatchRequired)
      else Ok(Tags(how, normal.value))
    case RawNodes(how, values) =>
      var keys := NormalNodeKeys(values);
      if keys.Err? then Err(keys.error)
      else if |keys.value| > 1 && how.None? then Err(MatchRequired)
      else Ok(Nodes(how, keys.value))
    case Untyped => Err(MissingType)
    case UnknownType => Err(UnsupportedType)
  }

  ghost function NormalParts(whole: Raw, k: nat): Result<seq<Affinity>, FormError>
    requires whole.RawGeneric? && whole.list.Parts? && k <= |whole.list.parts|
    decreases whole, 0, k
  {
    if k == 0 then Ok([])
    else
      var front := NormalParts(whole, k - 1);
      var last := NormalForm(whole.list.parts[k - 1]);
      if front.Err? then front
      else if last.Err? then Err(last.error)
      else Ok(front.value + [last.value])
  }

  // ----- the source's loops

  method NormalizeItems(items: seq<Item>) returns (r: Result<seq<string>, FormError>)
    ensures r == NormalItems(items)
  {
    var keys: seq<string> := [];
    for j := 0 to |items|
      invariant AllStrings(items[..j]) && keys == KeysOf(items[..j])
    {
      if items[j].NotStr? {
        return Err(NotAString);
      }
      assert items[..j + 1][..j] == items[..j];
      if items[j].text !in keys {
        keys := keys + [items[j].text];
      }
    }
    assert items[..|items|] == items;
    return Ok(keys);
  }

  method NormalizeRule(raw: RawRule) returns (r: Result<TagRule, FormError>)
    ensures r == NormalRule(raw)
  {
    var how, body;
    match raw {
      case Bare(_, item) => how, body := None, Listed([item]);
      case Several(_, items) => how, body := None, Listed(items);
      case Conf(_, h, b) => how, body := h, b;
    }
    var keys: seq<string>;
    match body {
      case NoValues =>
        return Err(NoKeys);
      case Listed(items) =>
        var listed := NormalizeItems(items);
        if listed.Err? {
          return Err(listed.error);
        }
        keys := listed.value;
      case Keyed(given) =>
        keys := given;
    }
    if |keys| > 1 && how.None? {
      return Err(MatchRequired);
    }
    if LENGTH in keys {
      return Err(MustBeTrue);
    }
    return Ok(TagRule(raw.name, how, keys));
  }

  lemma {:induction false} RulesErrEarly(rules: seq<RawRule>, j: nat, k: nat)
    requires j <= k <= |rules| && NormalRules(rules, j).Err?
    ensures NormalRules(rules, k) == NormalRules(rules, j)
    decreases k
  {
    if j < k {
      RulesErrEarly(rules, j, k - 1);
    }
  }

  method NormalizeRules(rules: seq<RawRule>) returns (r: Result<seq<TagRule>, FormError>)
    ensures r == NormalRules(rules, |rules|)
  {
    var normal: seq<TagRule> := [];
    for j := 0 to |rules|
      invariant NormalRules(rules, j) == Ok(normal)
    {
      var rule := NormalizeRule(rules[j]);
      if rule.Err? {
        RulesErrEarly(rules, j + 1, |rules|);
        return Err(rule.error);
      }
      normal := normal + [rule.value];
    }
    return Ok(normal);
  }

  lemma {:induction false} PartsErrEarly(whole: Raw, j: nat, k: nat)
    requires whole.RawGeneric? && whole.list.Parts? && j <= k <= |whole.list.parts|
    requires NormalParts(whole, j).Err?
    ensures NormalParts(whole, k) == NormalParts(whole, j)
    decreases k
  {
    if j < k {
      PartsErrEarly(whole, j, k - 1);
    }
  }

  method NormalizeParts(whole: Raw) returns (r: Result<seq<Affinity>, FormError>)
    requires whole.RawGeneric? && whole.list.Parts?
    ensures r == NormalParts(whole, |whole.list.parts|)
    decreases whole, 0
  {
    var parts := whole.list.parts;
    var normal: seq<Affinity> := [];
    for j := 0 to |parts|
      invariant NormalParts(whole, j) == Ok(normal)
    {
      var part := Normalize(parts[j]);
      if part.Err? {
        PartsErrEarly(whole, j + 1, |parts|);
        return Err(part.error);
      }
      normal := normal + [part.value];
    }
    return Ok(normal);
  }

  method Normalize(raw: Raw) returns (r: Result<Affinity, FormError>)
    ensures r == NormalForm(raw)
    decreases raw, 1
  {
    match raw {
      case RawGeneric(how, list) =>
        if list.NoParts? {
          return Err(MissingValues);
        } else if list.NotAList? {
          return Err(NotAnArray);
        }
        var normal := NormalizeParts(raw);
        return if normal.Err? then Err(normal.error) else Ok(Generic(how, normal.value));
      case RawTags(how, table) =>
        if table.NoTable? {
          return Err(MissingValues);
        } else if table.NotATable? {
          return Err(NotAnObject);
        }
        var normal := NormalizeRules(table.rules);
        if normal.Err? {
          return Err(normal.error);
        } else if |table.rules| > 1 && how.None? {
          return Err(MatchRequired);
        }
        return Ok(Tags(how, normal.value));
      case RawNodes(how, values) =>
        var keys: Result<seq<string>, FormError>;
        match values {
          case NoNodes => keys := Err(MissingValues);
          case OneNode(text) =>
            if text == "" {
              keys := Err(MissingValues);
            } else {
              keys := NormalizeItems([Str(text)]);
            }
          case NodeList(items) => keys := NormalizeItems(items);
          case NodeKeys(given) => keys := Ok(given);
        }
        if keys.Err? {
          return Err(keys.error);
        } else if |keys.value| > 1 && how.None? {
          return Err(MatchRequired);
        }
        return Ok(Nodes(how, keys.value));
      case Untyped => return Err(MissingType);
      case UnknownType => return Err(UnsupportedType);
    }
  }

  // ----- laws

  /** A normal form written back as a spelling: every value set as an object. */
  ghost function Respell(a: Affinity): Raw {
    match a
    case Generic(how, parts) => RawGeneric(how, Parts(seq(|parts|, i requires 0 <= i < |parts| => Respell(parts[i]))))
    case Tags(how, rules) =>
      RawTags(how, Table(seq(|rules|, i requires 0 <= i < |rules| => RespellRule(rules[i]))))
    case Nodes(how, keys) => RawNodes(how, NodeKeys(keys))
  }

  ghost function RespellRule(rule: TagRule): RawRule {
    Conf(rule.name, rule.how, Keyed(rule.keys))
  }

  /** Normalising a normal form changes nothing, at any depth. */
  lemma {:induction false} NormalFormIdempotent(raw: Raw)
    requires NormalForm(raw).Ok?
    ensures NormalForm(Respell(NormalForm(raw).value)) == NormalForm(raw)
    decreases raw, 1
  {
    match raw
    case RawGeneric(how, Parts(parts)) =>
      PartsIdempotent(raw, Respell(NormalForm(raw).value), |parts|);
    case RawTags(how, Table(rules)) =>
      RulesLength(rules, |rules|);
      RulesIdempotent(rules, Respell(NormalForm(raw).value).table.rules, |rules|);
    case RawNodes(how, values) =>
  }

  lemma {:induction false} PartsLength(whole: Raw, k: nat)
    requires whole.RawGeneric? && whole.list.Parts? && k <= |whole.list.parts|
    requires NormalParts(whole, k).Ok?
    ensures |NormalParts(whole, k).value| == k
    ensures forall i :: 0 <= i < k ==> NormalForm(whole.list.parts[i]) == Ok(NormalParts(whole, k).value[i])
    decreases k
  {
    if k > 0 {
      PartsLength(whole, k - 1);
    }
  }

  lemma {:induction false} RulesLength(rules: seq<RawRule>, k: nat)
    requires k <= |rules| && NormalRules(rules, k).Ok?
    ensures |NormalRules(rules, k).value| == k
    ensures forall i :: 0 <= i < k ==> NormalRule(rules[i]) == Ok(NormalRules(rules, k).value[i])
    decreases k
  {
    if k > 0 {
      RulesLength(rules, k - 1);
    }
  }

  lemma {:induction false} PartsIdempotent(whole: Raw, again: Raw, k: nat)
    requires whole.RawGeneric? && whole.list.Parts? && k <= |whole.list.parts|
    requires NormalForm(whole).Ok? && again == Respell(NormalForm(whole).value)
    ensures |again.list.parts| == |whole.list.parts| && NormalParts(again, k) == NormalParts(whole, k)
    decreases whole, 0, k
  {
    var n := |whole.list.parts|;
    PartsLength(whole, n);
    if k > 0 {
      PartsIdempotent(whole, again, k - 1);
      NormalFormIdempotent(whole.list.parts[k - 1]);
      if NormalParts(whole, k).Err? {
        PartsErrEarly(whole, k, n);
      }
    }
  }

  lemma {:induction false} RulesIdempotent(rules: seq<RawRule>, again: seq<RawRule>, k: nat)
    requires NormalRules(rules, |rules|).Ok? && k <= |rules| == |again|
    requires |NormalRules(rules, |rules|).value| == |rules|
    requires forall i :: 0 <= i < |rules| ==> again[i] == RespellRule(NormalRules(rules, |rules|).value[i])
    ensures NormalRules(again, k) == NormalRules(rules, k)
    decreases k
  {
    RulesLength(rules, |rules|);
    if k > 0 {
      RulesIdempotent(rules, again, k - 1);
      if NormalRules(rules, k).Err? {
        RulesErrEarly(rules, k, |rules|);
      }
    }
  }

  /** The value set of a list of strings, whatever the spelling. */
  ghost function TextSet(items: seq<Item>): set<string> {
    set i | 0 <= i < |items| && items[i].Str? :: items[i].text
  }

  ghost predicate Spells(body: RuleBody, texts: set<string>) {
    match body
    case NoValues => false
    case Listed(items) => AllStrings(items) && TextSet(items) == texts
    case Keyed(keys) => Distinct(keys) && (set k | k in keys) == texts
  }

  function NodeBody(values: NodeValues): RuleBody {
    match values
    case NoNodes => NoValues
    case OneNode(text) => if text == "" then NoValues else Listed([Str(text)])
    case NodeList(items) => Listed(items)
    case NodeKeys(keys) => Keyed(keys)
  }

  ghost predicate SameRule(a: RawRule, b: RawRule) {
    a.name == b.name && HowOf(a) == HowOf(b) && exists texts :: Spells(BodyOf(a), texts) && Spells(BodyOf(b), texts)
  }

  /** The same tree of value sets and matches, each set in any spelling. */
  ghost predicate SameSurface(a: Raw, b: Raw)
    decreases a
  {
    match (a, b)
    case (RawGeneric(h, Parts(ps)), RawGeneric(g, Parts(qs))) =>
      h == g && |ps| == |qs| && forall i :: 0 <= i < |ps| ==> SameSurface(ps[i], qs[i])
    case (RawTags(h, Table(rs)), RawTags(g, Table(ss))) =>
      h == g && |rs| == |ss| && forall i :: 0 <= i < |rs| ==> SameRule(rs[i], ss[i])
    case (RawNodes(h, vs), RawNodes(g, ws)) =>
      h == g && exists texts :: Spells(NodeBody(vs), texts) && Spells(NodeBody(ws), texts)
    case _ => false
  }

  /** Trees that no fleet and no node can tell apart. */
  ghost predicate Indistinguishable(a: Affinity, b: Affinity) {
    && (forall fleet: Fleet :: Blocked(fleet, a) == Blocked(fleet, b))
    && forall fleet: Fleet, n :: Satisfies(fleet, a, n) == Satisfies(fleet, b, n)
  }

  ghost predicate IndistinguishableRules(a: TagRule, b: TagRule) {
    && (forall fleet: Fleet :: BlockedRule(fleet, a) == BlockedRule(fleet, b))
    && forall fleet: Fleet, n :: SatisfiesRule(fleet, a, n) == SatisfiesRule(fleet, b, n)
  }

  lemma {:induction false} KeysOfExact(items: seq<Item>)
    requires AllStrings(items)
    ensures Distinct(KeysOf(items))
    ensures forall x :: x in KeysOf(items) <==> x in TextSet(items)
  {
    if items != [] {
      var front, last := items[..|items| - 1], items[|items| - 1].text;
      KeysOfExact(front);
      assert TextSet(items) == TextSet(front) + {last};
    }
  }

  /** Two repeat-free lists of the same values have a second value together or not at all. */
  lemma SameSetSameMany(a: seq<string>, b: seq<string>)
    requires Distinct(a) && Distinct(b) && forall x :: x in a <==> x in b
    ensures |a| > 1 <==> |b| > 1
    ensures a == [] <==> b == []
  {
    if |a| > 1 {
      assert a[0] in b && a[1] in b && a[0] != a[1];
    }
    if |b| > 1 {
      assert b[0] in a && b[1] in a && b[0] != b[1];
    }
    if a != [] {
      assert a[0] in b;
    }
    if b != [] {
      assert b[0] in a;
    }
  }

  ghost function BodyKeys(body: RuleBody): Result<seq<string>, FormError> {
    match body
    case NoValues => Err(NoKeys)
    case Listed(items) => NormalItems(items)
    case Keyed(keys) => Ok(keys)
  }

  /** Bodies that spell one set normalise to lists of the same keys. */
  lemma SpellingsAgree(a: RuleBody, b: RuleBody, texts: set<string>)
    requires Spells(a, texts) && Spells(b, texts)
    ensures BodyKeys(a).Ok? && BodyKeys(b).Ok?
    ensures forall x :: x in BodyKeys(a).value <==> x in BodyKeys(b).value
    ensures |BodyKeys(a).value| > 1 <==> |BodyKeys(b).value| > 1
    ensures BodyKeys(a).value == [] <==> BodyKeys(b).value == []
  {
    if a.Listed? {
      KeysOfExact(a.items);
    }
    if b.Listed? {
      KeysOfExact(b.items);
    }
    assert forall x :: x in BodyKeys(a).value <==> x in texts;
    assert forall x :: x in BodyKeys(b).value <==> x in texts;
    SameSetSameMany(BodyKeys(a).value, BodyKeys(b).value);
  }

  lemma SameRuleAgrees(a: RawRule, b: RawRule)
    requires SameRule(a, b)
    ensures NormalRule(a).Ok? == NormalRule(b).Ok?
    ensures NormalRule(a).Ok? ==> IndistinguishableRules(NormalRule(a).value, NormalRule(b).value)
  {
    var texts :| Spells(BodyOf(a), texts) && Spells(BodyOf(b), texts);
    SpellingsAgree(BodyOf(a), BodyOf(b), texts);
  }

  /**
   The spelling of the value sets does not matter: both trees are accepted or both are
   refused, and once accepted every fleet resolves them to the same nodes.
  */
  lemma {:induction false} SurfaceIrrelevant(a: Raw, b: Raw)
    requires SameSurface(a, b)
    ensures NormalForm(a).Ok? == NormalForm(b).Ok?
    ensures NormalForm(a).Ok? ==> Indistinguishable(NormalForm(a).value, NormalForm(b).value)
    decreases a, 1
  {
    match a
    case RawGeneric(_, _) => SameGeneric(a, b);
    case RawTags(_, _) => SameTags(a, b);
    case RawNodes(_, _) =>
      var texts :| Spells(NodeBody(a.values), texts) && Spells(NodeBody(b.values), texts);
      SpellingsAgree(NodeBody(a.values), NodeBody(b.values), texts);
  }

  /** The surface law for what callers see: the resolved list of nodes. */
  lemma SurfaceResolvesAlike(a: Raw, b: Raw, fleet: Fleet)
    requires SameSurface(a, b) && NormalForm(a).Ok?
    ensures NormalForm(b).Ok?
    ensures Resolution(fleet, NormalForm(a).value) == Resolution(fleet, NormalForm(b).value)
  {
    SurfaceIrrelevant(a, b);
    FilterSame(fleet.order, Meaning(fleet, NormalForm(a).value), Meaning(fleet, NormalForm(b).value));
  }

  lemma {:induction false} SameGeneric(a: Raw, b: Raw)
    requires SameSurface(a, b) && a.RawGeneric?
    ensures NormalForm(a).Ok? == NormalForm(b).Ok?
    ensures NormalForm(a).Ok? ==> Indistinguishable(NormalForm(a).value, NormalForm(b).value)
    decreases a, 0
  {
    var n := |a.list.parts|;
    forall i | 0 <= i < n
      ensures NormalForm(a.list.parts[i]).Ok? == NormalForm(b.list.parts[i]).Ok?
      ensures NormalForm(a.list.parts[i]).Ok? ==>
        Indistinguishable(NormalForm(a.list.parts[i]).value, NormalForm(b.list.parts[i]).value)
    {
      SurfaceIrrelevant(a.list.parts[i], b.list.parts[i]);
    }
    PartsOk(a, b, n);
    if NormalForm(a).Ok? {
      PartsLength(a, n);
      PartsLength(b, n);
      GenericCongruence(a.how, NormalForm(a).value.parts, NormalForm(b).value.parts);
    }
  }

  lemma GenericCongruence(how: Option<Match>, ps: seq<Affinity>, qs: seq<Affinity>)
    requires |ps| == |qs| && forall i :: 0 <= i < |ps| ==> Indistinguishable(ps[i], qs[i])
    ensures Indistinguishable(Generic(how, ps), Generic(how, qs))
  {
    forall fleet: Fleet, n
      ensures Satisfies(fleet, Generic(how, ps), n) == Satisfies(fleet, Generic(how, qs), n)
    {
      assert forall i :: 0 <= i < |ps| ==> Satisfies(fleet, ps[i], n) == Satisfies(fleet, qs[i], n);
    }
    forall fleet: Fleet
      ensures Blocked(fleet, Generic(how, ps)) == Blocked(fleet, Generic(how, qs))
    {
      assert forall i :: 0 <= i < |ps| ==> Blocked(fleet, ps[i]) == Blocked(fleet, qs[i]);
    }
  }

  lemma {:induction false} PartsOk(a: Raw, b: Raw, k: nat)
    requires a.RawGeneric? && a.list.Parts? && b.RawGeneric? && b.list.Parts?
    requires k <= |a.list.parts| == |b.list.parts|
    requires forall i :: 0 <= i < k ==> NormalForm(a.list.parts[i]).Ok? == NormalForm(b.list.parts[i]).Ok?
    ensures NormalParts(a, k).Ok? == NormalParts(b, k).Ok?
    decreases k
  {
    if k > 0 {
      PartsOk(a, b, k - 1);
    }
  }

  lemma {:induction false} RulesOk(a: seq<RawRule>, b: seq<RawRule>, k: nat)
    requires k <= |a| == |b|
    requires forall i :: 0 <= i < k ==> NormalRule(a[i]).Ok? == NormalRule(b[i]).Ok?
    ensures NormalRules(a, k).Ok? == NormalRules(b, k).Ok?
    decreases k
  {
    if k > 0 {
      RulesOk(a, b, k - 1);
    }
  }

  lemma SameTags(a: Raw, b: Raw)
    requires SameSurface(a, b) && a.RawTags?
    ensures NormalForm(a).Ok? == NormalForm(b).Ok?
    ensures NormalForm(a).Ok? ==> Indistinguishable(NormalForm(a).value, NormalForm(b).value)
  {
    var rs, ss := a.table.rules, b.table.rules;
    forall i | 0 <= i < |rs|
      ensures NormalRule(rs[i]).Ok? == NormalRule(ss[i]).Ok?
      ensures NormalRule(rs[i]).Ok? ==> IndistinguishableRules(NormalRule(rs[i]).value, NormalRule(ss[i]).value)
    {
      SameRuleAgrees(rs[i], ss[i]);
    }
    RulesOk(rs, ss, |rs|);
    if NormalForm(a).Ok? {
      RulesLength(rs, |rs|);
      RulesLength(ss, |ss|);
      var ra, rb := NormalForm(a).value.rules, NormalForm(b).value.rules;
      assert forall i :: 0 <= i < |rs| ==> NormalRule(rs[i]) == Ok(ra[i]) && NormalRule(ss[i]) == Ok(rb[i]);
      hide NormalRule, NormalRules, IndistinguishableRules, Indistinguishable;
      SameTagRules(a.how, ra, rb);
    }
  }

  lemma SameTagRules(how: Option<Match>, rs: seq<TagRule>, ss: seq<TagRule>)
    requires |rs| == |ss| && forall i :: 0 <= i < |rs| ==> IndistinguishableRules(rs[i], ss[i])
    ensures Indistinguishable(Tags(how, rs), Tags(how, ss))
  {
    hide SatisfiesRule, BlockedRule;
    forall fleet: Fleet, n
      ensures Satisfies(fleet, Tags(how, rs), n) == Satisfies(fleet, Tags(how, ss), n)
    {
      assert forall i :: 0 <= i < |rs| ==> SatisfiesRule(fleet, rs[i], n) == SatisfiesRule(fleet, ss[i], n);
    }
    forall fleet: Fleet
      ensures Blocked(fleet, Tags(how, rs)) == Blocked(fleet, Tags(how, ss))
    {
      assert forall i :: 0 <= i < |rs| ==> BlockedRule(fleet, rs[i]) == BlockedRule(fleet, ss[i]);
    }
  }

  function With(a: Affinity, how: Match): Affinity {
    match a
    case Generic(_, parts) => Generic(Some(how), parts)
    case Tags(_, rules) => Tags(Some(how), rules)
    case Nodes(_, keys) => Nodes(Some(how), keys)
  }

  /** Reading the affinity with `all` or with `any` makes no difference anywhere. */
  ghost predicate MatchIndifferent(a: Affinity) {
    forall fleet: Fleet, n :: Satisfies(fleet, With(a, All), n) == Satisfies(fleet, With(a, Any), n)
  }

  ghost predicate RuleIndifferent(rule: TagRule) {
    forall fleet: Fleet, n ::
      SatisfiesRule(fleet, rule.(how := Some(All)), n) == SatisfiesRule(fleet, rule.(how := Some(Any)), n)
  }

  lemma NodesIndifferent(a: Affinity)
    requires a.Nodes? && |a.keys| <= 1
    ensures MatchIndifferent(a) <==> |a.keys| == 1
  {
    if |a.keys| == 1 {
      assert a.keys == [a.keys[0]];
      assert a.keys[0] in a.keys;
      assert forall fleet: Fleet, n :: Satisfies(fleet, With(a, All), n) <==> n == a.keys[0];
    } else {
      var fleet := Fleet([], map[]);
      assert Satisfies(fleet, With(a, All), "n") && !Satisfies(fleet, With(a, Any), "n");
    }
  }

  lemma TagsIndifferent(a: Affinity)
    requires a.Tags? && |a.rules| <= 1
    ensures MatchIndifferent(a) <==> |a.rules| == 1
  {
    if |a.rules| == 1 {
      forall fleet: Fleet, n
        ensures Satisfies(fleet, With(a, All), n) <==> SatisfiesRule(fleet, a.rules[0], n)
        ensures Satisfies(fleet, With(a, Any), n) <==> SatisfiesRule(fleet, a.rules[0], n)
      {
      }
    } else {
      var fleet := Fleet([], map[]);
      assert Satisfies(fleet, With(a, All), "n") && !Satisfies(fleet, With(a, Any), "n");
    }
  }

  lemma RuleIndifference(rule: TagRule)
    requires |rule.keys| <= 1
    ensures RuleIndifferent(rule) <==> |rule.keys| == 1
  {
    if |rule.keys| == 1 {
      assert rule.keys == [rule.keys[0]];
      forall fleet: Fleet, n
        ensures SatisfiesRule(fleet, rule.(how := Some(All)), n) == SatisfiesRule(fleet, rule.(how := Some(Any)), n)
      {
        var tag := fleet.Tag(n, rule.name);
        if tag.Some? && rule.keys[0] in tag.value.AsList() {
          assert rule.keys[0] in rule.keys;
        }
      }
    } else {
      var fleet := Fleet(["n"], map["n" := map[rule.name := Text("v")]]);
      assert fleet.Tag("n", rule.name) == Some(Text("v"));
      assert SatisfiesRule(fleet, rule.(how := Some(All)), "n") && !SatisfiesRule(fleet, rule.(how := Some(Any)), "n");
    }
  }

  /**
   Only an affinity with at most one value is accepted without `match`, and the omission
   is harmless exactly when there is one: on the nodes, on the tags of a tags affinity,
   and on the values of each tag.
  */
  lemma OmittedMatch(raw: Raw)
    requires NormalForm(raw).Ok? && !NormalForm(raw).value.Generic?
    ensures var a := NormalForm(raw).value; a.Nodes? && a.how.None? ==>
      |a.keys| <= 1 && (MatchIndifferent(a) <==> |a.keys| == 1)
    ensures var a := NormalForm(raw).value; a.Tags? && a.how.None? ==>
      |a.rules| <= 1 && (MatchIndifferent(a) <==> |a.rules| == 1)
    ensures var a := NormalForm(raw).value; a.Tags? ==>
      forall i :: 0 <= i < |a.rules| && a.rules[i].how.None? ==>
        |a.rules[i].keys| <= 1 && (RuleIndifferent(a.rules[i]) <==> |a.rules[i].keys| == 1)
  {
    var a := NormalForm(raw).value;
    if a.Nodes? {
      if a.how.None? {
        NodesIndifferent(a);
      }
    } else {
      RulesLength(raw.table.rules, |raw.table.rules|);
      if a.how.None? {
        TagsIndifferent(a);
      }
      forall i | 0 <= i < |a.rules| && a.rules[i].how.None?
        ensures |a.rules[i].keys| <= 1 && (RuleIndifferent(a.rules[i]) <==> |a.rules[i].keys| == 1)
      {
        assert NormalRule(raw.table.rules[i]) == Ok(a.rules[i]);
        RuleIndifference(a.rules[i]);
      }
    }
  }
}
