/**
 Link rules and what checking a document against them reports. There are two checks: the one whole-store validation
 makes, with every form of rule, and the one a commit makes on top of it for the documents its writes can affect.
 */
module LinkRules {
  import opened Keys
  import opened Paths
  import opened LinkGraph

  /** A rule's condition, evaluated over the store, and its text in messages. */
  datatype Condition = Condition(holds: (Graph, Key) -> bool, text: string)

  /** What a filter evaluates to for a document: the keys it allows, or a failure to resolve its anchors. */
  datatype Resolved = Allowed(keys: set<Key>) | Failed(error: string)
  type Filter = (Graph, Key) -> Resolved

  /** Keys the document's front matter names, each of which has to be linked and allowed. */
  datatype Coverage = Coverage(wanted: (Graph, Key) -> set<Key>, satisfied: Filter, text: string)

  datatype LinkRule = LinkRule(when: Option<Condition>, section: Option<string>, scope: Scope, min: nat,
      max: Option<nat>, target: Option<Filter>, some: Option<Filter>, covers: Option<Coverage>, reach: Option<Key>)

  /** Where a message says the rule looked: its section and its condition, when it names them. */
  datatype Place = Place(section: Option<string>, when: Option<string>)

  datatype Part = TargetFilter | SomeFilter | CoversFilter

  datatype Message =
    | TooFew(count: nat, place: Place, min: nat)
    | TooMany(count: nat, place: Place, max: nat)
    | NoSuchDocument(target: Key, place: Place)
    | OffTarget(target: Key, place: Place)
    | NoneSatisfies(place: Place)
    | NotLinked(value: Key, place: Place, text: string)
    | NotCovered(value: Key, place: Place, text: string)
    | Unresolved(part: Part, error: string)
    | NoChain(place: Place, goal: Key)
    | Other(text: string)

  /** The counts alone, for a partial graph; every form of rule, for the whole store; the forms an index bounds, at
      commit. */
  datatype Check = Counts | Complete | Bounded

  function PlaceOf(rule: LinkRule): Place {
    Place(rule.section, if rule.when.Some? then Some(rule.when.value.text) else None)
  }

  predicate Applies(rule: LinkRule, g: Graph, key: Key) {
    rule.when.Some? ==> rule.when.value.holds(g, key)
  }

  // ----- What the checks report, without saying how -----

  predicate Resolves(filter: Option<Filter>, g: Graph, key: Key) {
    filter.Some? && filter.value(g, key).Allowed?
  }

  predicate Fails(filter: Option<Filter>, g: Graph, key: Key, error: string) {
    filter.Some? && filter.value(g, key) == Failed(error)
  }

  function FilterOf(rule: LinkRule, part: Part): Option<Filter> {
    match part
    case TargetFilter => rule.target
    case SomeFilter => rule.some
    case CoversFilter => if rule.covers.Some? then Some(rule.covers.value.satisfied) else None
  }

  /** The document breaks a form of the rule that only the complete check looks at. */
  ghost predicate BreaksFilter(g: Graph, key: Key, rule: LinkRule, m: Message)
    requires key in g
  {
    var targets := TargetsWithin(g[key], rule.scope);
    match m
    case OffTarget(t, place) =>
      && place == PlaceOf(rule) && t in targets && t in g
      && Resolves(rule.target, g, key) && t !in rule.target.value(g, key).keys
    case NoneSatisfies(place) =>
      && place == PlaceOf(rule)
      && Resolves(rule.some, g, key) && forall t :: t in targets ==> t !in rule.some.value(g, key).keys
    case NotLinked(v, place, text) =>
      && place == PlaceOf(rule) && Resolves(FilterOf(rule, CoversFilter), g, key) && text == rule.covers.value.text
      && v in rule.covers.value.wanted(g, key) && v !in targets
    case NotCovered(v, place, text) =>
      && place == PlaceOf(rule) && Resolves(FilterOf(rule, CoversFilter), g, key) && text == rule.covers.value.text
      && v in rule.covers.value.wanted(g, key) && v in targets
      && v !in rule.covers.value.satisfied(g, key).keys
    case Unresolved(part, error) => Fails(FilterOf(rule, part), g, key, error)
    case _ => false
  }

  /** The document breaks the rule in the way the message says, as far as the check looks. A link to no document is
      reported by the complete check only where the rule has a target filter. */
  ghost predicate Violates(g: Graph, key: Key, rule: LinkRule, check: Check, m: Message)
    requires key in g
  {
    var targets := TargetsWithin(g[key], rule.scope);
    Applies(rule, g, key) &&
    match m
    case TooFew(count, place, min) => place == PlaceOf(rule) && count == |targets| < min == rule.min
    case TooMany(count, place, max) => place == PlaceOf(rule) && rule.max == Some(max) && count == |targets| > max
    case NoSuchDocument(t, place) =>
      && place == PlaceOf(rule) && t in targets && t !in g
      && (check.Bounded? || (check.Complete? && Resolves(rule.target, g, key)))
    case NoChain(place, goal) =>
      && !check.Counts? && place == PlaceOf(rule) && rule.reach == Some(goal)
      && key != goal && !Leads(ScopedEdges(g, rule.scope), key, goal)
    case _ => check.Complete? && BreaksFilter(g, key, rule, m)
  }

  ghost predicate Breaks(g: Graph, key: Key, rules: seq<LinkRule>, check: Check, m: Message)
    requires key in g
  {
    exists i :: 0 <= i < |rules| && Violates(g, key, rules[i], check, m)
  }

  lemma {:induction false} BreaksMore(g: Graph, key: Key, rules: seq<LinkRule>, check: Check, n: nat)
    requires key in g && n < |rules|
    ensures forall m :: Breaks(g, key, rules[..n + 1], check, m) <==>
              Breaks(g, key, rules[..n], check, m) || Violates(g, key, rules[n], check, m)
  {
  }

  // ----- When there is nothing to report -----

  /** The keys that blocks inside the scope link to. */
  function LinkedKeys(doc: Document, scope: Scope): set<Key> {
    set i, k | 0 <= i < |doc.blocks| && scope(doc, i) && k in doc.blocks[i].targets :: k
  }

  lemma {:induction false} DistinctCount(keys: seq<Key>)
    requires Distinct(keys)
    ensures |SetOf(keys)| == |keys|
  {
    if keys != [] {
      var front, last := keys[..|keys| - 1], keys[|keys| - 1];
      DistinctCount(front);
      assert SetOf(keys) == SetOf(front) + {last};
      assert last !in SetOf(front);
    }
  }

  lemma {:induction false} TargetsCount(doc: Document, scope: Scope)
    ensures SetOf(TargetsWithin(doc, scope)) == LinkedKeys(doc, scope)
    ensures |TargetsWithin(doc, scope)| == |LinkedKeys(doc, scope)|
  {
    TargetsUpToExact(doc, scope, |doc.blocks|);
    DistinctCount(TargetsWithin(doc, scope));
    assert SetOf(TargetsWithin(doc, scope)) == LinkedKeys(doc, scope);
  }

  predicate Within(count: nat, min: nat, max: Option<nat>) {
    min <= count && (max.Some? ==> count <= max.value)
  }

  /** The counts are fine exactly when the rule does not apply or the number of different documents linked in its scope
      is within its bounds, in every check. */
  lemma {:induction false} CountsFine(g: Graph, key: Key, rule: LinkRule, check: Check)
    requires key in g
    ensures (forall m: Message :: m.TooFew? || m.TooMany? ==> !Violates(g, key, rule, check, m)) <==>
              (Applies(rule, g, key) ==> Within(|LinkedKeys(g[key], rule.scope)|, rule.min, rule.max))
  {
    TargetsCount(g[key], rule.scope);
    var count := |TargetsWithin(g[key], rule.scope)|;
    if Applies(rule, g, key) && count < rule.min {
      assert Violates(g, key, rule, check, TooFew(count, PlaceOf(rule), rule.min));
    }
    if Applies(rule, g, key) && rule.max.Some? && count > rule.max.value {
      assert Violates(g, key, rule, check, TooMany(count, PlaceOf(rule), rule.max.value));
    }
  }

  /** The chain is fine exactly when the rule has no goal or does not apply, the document is the goal itself, or a chain
      of links inside the scope leads to it. */
  lemma {:induction false} ChainFine(g: Graph, key: Key, rule: LinkRule, check: Check)
    requires key in g && !check.Counts?
    ensures (forall m: Message :: m.NoChain? ==> !Violates(g, key, rule, check, m)) <==>
              (Applies(rule, g, key) && rule.reach.Some? ==>
                 key == rule.reach.value || Leads(ScopedEdges(g, rule.scope), key, rule.reach.value))
  {
    if Applies(rule, g, key) && rule.reach.Some? && key != rule.reach.value
       && !Leads(ScopedEdges(g, rule.scope), key, rule.reach.value) {
      assert Violates(g, key, rule, check, NoChain(PlaceOf(rule), rule.reach.value));
    }
  }

  /** What the rule's filters ask for: every linked document allowed, some linked document satisfying, every named key
      linked and allowed. */
  ghost predicate FiltersFine(g: Graph, key: Key, rule: LinkRule)
    requires key in g
  {
    var linked := LinkedKeys(g[key], rule.scope);
    && (rule.target.Some? ==>
          var r := rule.target.value(g, key); r.Allowed? && forall t :: t in linked ==> t in g && t in r.keys)
    && (rule.some.Some? ==>
          var r := rule.some.value(g, key); r.Allowed? && exists t :: t in linked && t in r.keys)
    && (rule.covers.Some? ==>
          var r := rule.covers.value.satisfied(g, key);
          r.Allowed? && forall v :: v in rule.covers.value.wanted(g, key) ==> v in linked && v in r.keys)
  }

  /** The complete check reports nothing but counts and chains exactly when the rule does not apply or its filters have
      what they ask for. */
  lemma {:induction false} FiltersReport(g: Graph, key: Key, rule: LinkRule)
    requires key in g
    ensures (forall m :: AboutTarget(m) || AboutSome(m) || AboutCovers(m) ==> !Violates(g, key, rule, Complete, m)) <==>
              (Applies(rule, g, key) ==> FiltersFine(g, key, rule))
  {
    TargetsCount(g[key], rule.scope);
    if Applies(rule, g, key) && !FiltersFine(g, key, rule) {
      FilterReported(g, key, rule);
    }
  }

  lemma {:induction false} FilterReported(g: Graph, key: Key, rule: LinkRule)
    requires key in g && Applies(rule, g, key) && !FiltersFine(g, key, rule)
    ensures exists m :: (AboutTarget(m) || AboutSome(m) || AboutCovers(m)) && Violates(g, key, rule, Complete, m)
  {
    TargetsCount(g[key], rule.scope);
    var targets, linked, place := TargetsWithin(g[key], rule.scope), LinkedKeys(g[key], rule.scope), PlaceOf(rule);
    assert forall t :: t in targets <==> t in linked by {
      assert forall t :: t in targets <==> t in SetOf(targets);
    }
    if part :| Fails(FilterOf(rule, part), g, key, ErrorOf(rule, part, g, key)) {
      assert Violates(g, key, rule, Complete, Unresolved(part, ErrorOf(rule, part, g, key)));
    } else {
      assert !Fails(FilterOf(rule, TargetFilter), g, key, ErrorOf(rule, TargetFilter, g, key));
      assert !Fails(FilterOf(rule, SomeFilter), g, key, ErrorOf(rule, SomeFilter, g, key));
      assert !Fails(FilterOf(rule, CoversFilter), g, key, ErrorOf(rule, CoversFilter, g, key));
      if t :| rule.target.Some? && t in linked && (t !in g || t !in rule.target.value(g, key).keys) {
        assert Violates(g, key, rule, Complete, if t in g then OffTarget(t, place) else NoSuchDocument(t, place));
      } else if rule.some.Some? && forall t :: t in linked ==> t !in rule.some.value(g, key).keys {
        assert Violates(g, key, rule, Complete, NoneSatisfies(place));
      } else {
        var covers := rule.covers.value;
        var v :| v in covers.wanted(g, key) && (v !in linked || v !in covers.satisfied(g, key).keys);
        assert Violates(g, key, rule, Complete,
            if v in linked then NotCovered(v, place, covers.text) else NotLinked(v, place, covers.text));
      }
    }
  }

  function ErrorOf(rule: LinkRule, part: Part, g: Graph, key: Key): string {
    var filter := FilterOf(rule, part);
    if filter.Some? && filter.value(g, key).Failed? then filter.value(g, key).error else ""
  }

  // ----- What a run remembers -----

  /** The keys a condition holds for. */
  function Matching(g: Graph, when: Condition): set<Key> {
    set k | k in g && when.holds(g, k)
  }

  /** What one run has evaluated so far, shared by every document it checks: the keys each condition holds for, and the
      scoped targets each `reach` rule's searches have looked up. A rule is known by its schema and its position. */
  class RunCache {
    var filters: map<(string, nat), set<Key>>
    var via: map<(string, nat), map<Key, seq<Key>>>

    constructor ()
      ensures filters == map[] && via == map[]
    {
      filters, via := map[], map[];
    }

    /** Everything remembered is right for its rule and this store. */
    ghost predicate Valid(rules: map<string, seq<LinkRule>>, g: Graph)
      reads this
    {
      && (forall schema, i :: (schema, i) in filters ==>
            schema in rules && i < |rules[schema]| && rules[schema][i].when.Some?
            && filters[(schema, i)] == Matching(g, rules[schema][i].when.value))
      && (forall schema, i :: (schema, i) in via ==>
            schema in rules && i < |rules[schema]| && MemoOk(g, rules[schema][i].scope, via[(schema, i)]))
    }

    /** Whether a rule applies, through the remembered keys of its condition. */
    method WhenApplies(rules: map<string, seq<LinkRule>>, g: Graph, schema: string, i: nat, key: Key)
        returns (applies: bool)
      requires Valid(rules, g) && schema in rules && i < |rules[schema]| && key in g
      modifies this
      ensures Valid(rules, g)
      ensures applies <==> Applies(rules[schema][i], g, key)
    {
      var rule := rules[schema][i];
      if rule.when.None? {
        return true;
      }
      if (schema, i) !in filters {
        filters := filters[(schema, i) := Matching(g, rule.when.value)];
      }
      applies := key in filters[(schema, i)];
    }

    /** One search through the shared memo. */
    method ReachesGoal(rules: map<string, seq<LinkRule>>, g: Graph, schema: string, i: nat, key: Key, goal: Key)
        returns (found: bool)
      requires Valid(rules, g) && schema in rules && i < |rules[schema]|
      modifies this
      ensures Valid(rules, g)
      ensures found <==> Leads(ScopedEdges(g, rules[schema][i].scope), key, goal)
    {
      var memo := if (schema, i) in via then via[(schema, i)] else map[];
      found, memo := Reaches(g, key, goal, rules[schema][i].scope, memo);
      via := via[(schema, i) := memo];
    }
  }

  // ----- The checks of one rule -----

  /** The link counts. */
  method CheckCounts(g: Graph, key: Key, rule: LinkRule) returns (out: seq<Message>)
    requires key in g && Applies(rule, g, key)
    ensures forall m :: m in out <==> (m.TooFew? || m.TooMany?) && Violates(g, key, rule, Counts, m)
  {
    out := [];
    var count, place := |TargetsWithin(g[key], rule.scope)|, PlaceOf(rule);
    if count < rule.min {
      out := out + [TooFew(count, place, rule.min)];
    }
    if rule.max.Some? && count > rule.max.value {
      out := out + [TooMany(count, place, rule.max.value)];
    }
  }

  /** The targets no document exists for. */
  method CheckExistence(g: Graph, key: Key, rule: LinkRule) returns (out: seq<Message>)
    requires key in g && Applies(rule, g, key)
    ensures forall m :: m in out <==> m.NoSuchDocument? && Violates(g, key, rule, Bounded, m)
  {
    out := [];
    var targets, place := TargetsWithin(g[key], rule.scope), PlaceOf(rule);
    for n := 0 to |targets|
      invariant forall m :: m in out <==>
                  m.NoSuchDocument? && Violates(g, key, rule, Bounded, m) && m.target in targets[..n]
    {
      assert targets[..n + 1] == targets[..n] + [targets[n]];
      if targets[n] !in g {
        out := out + [NoSuchDocument(targets[n], place)];
      }
    }
    assert targets[..|targets|] == targets;
  }

  predicate AboutTarget(m: Message) {
    m.NoSuchDocument? || m.OffTarget? || (m.Unresolved? && m.part.TargetFilter?)
  }

  predicate AboutSome(m: Message) {
    m.NoneSatisfies? || (m.Unresolved? && m.part.SomeFilter?)
  }

  predicate AboutCovers(m: Message) {
    m.NotLinked? || m.NotCovered? || (m.Unresolved? && m.part.CoversFilter?)
  }

  /** The targets the filter does not allow, or that do not exist. */
  method CheckTarget(g: Graph, key: Key, rule: LinkRule) returns (out: seq<Message>)
    requires key in g && Applies(rule, g, key)
    ensures forall m :: m in out <==> AboutTarget(m) && Violates(g, key, rule, Complete, m)
  {
    out := [];
    if rule.target.None? {
      return;
    }
    var resolved := rule.target.value(g, key);
    if resolved.Failed? {
      return [Unresolved(TargetFilter, resolved.error)];
    }
    var targets, place := TargetsWithin(g[key], rule.scope), PlaceOf(rule);
    for n := 0 to |targets|
      invariant forall m :: m in out <==>
                  (m.NoSuchDocument? || m.OffTarget?) && Violates(g, key, rule, Complete, m) && m.target in targets[..n]
    {
      assert targets[..n + 1] == targets[..n] + [targets[n]];
      if targets[n] !in g {
        out := out + [NoSuchDocument(targets[n], place)];
      } else if targets[n] !in resolved.keys {
        out := out + [OffTarget(targets[n], place)];
      }
    }
    assert targets[..|targets|] == targets;
  }

  /** At least one target is allowed. */
  method CheckSome(g: Graph, key: Key, rule: LinkRule) returns (out: seq<Message>)
    requires key in g && Applies(rule, g, key)
    ensures forall m :: m in out <==> AboutSome(m) && Violates(g, key, rule, Complete, m)
  {
    if rule.some.None? {
      return [];
    }
    var resolved := rule.some.value(g, key);
    if resolved.Failed? {
      return [Unresolved(SomeFilter, resolved.error)];
    }
    var targets := TargetsWithin(g[key], rule.scope);
    if exists t :: t in targets && t in resolved.keys {
      return [];
    }
    out := [NoneSatisfies(PlaceOf(rule))];
  }

  /** Every key the front matter names is linked in scope, and allowed. */
  method CheckCovers(g: Graph, key: Key, rule: LinkRule) returns (out: seq<Message>)
    requires key in g && Applies(rule, g, key)
    ensures forall m :: m in out <==> AboutCovers(m) && Violates(g, key, rule, Complete, m)
  {
    out := [];
    if rule.covers.None? {
      return;
    }
    var covers, targets, place := rule.covers.value, TargetsWithin(g[key], rule.scope), PlaceOf(rule);
    var resolved := covers.satisfied(g, key);
    if resolved.Failed? {
      return [Unresolved(CoversFilter, resolved.error)];
    }
    var todo := covers.wanted(g, key);
    while todo != {}
      invariant todo <= covers.wanted(g, key)
      invariant forall m :: m in out <==>
                  (m.NotLinked? || m.NotCovered?) && Violates(g, key, rule, Complete, m) && m.value !in todo
      decreases |todo|
    {
      var v :| v in todo;
      if v !in targets {
        out := out + [NotLinked(v, place, covers.text)];
      } else if v !in resolved.keys {
        out := out + [NotCovered(v, place, covers.text)];
      }
      todo := todo - {v};
    }
  }

  /** The chain of links to the rule's goal. */
  method CheckReach(rules: map<string, seq<LinkRule>>, g: Graph, key: Key, schema: string, i: nat, cache: RunCache)
      returns (out: seq<Message>)
    requires schema in rules && i < |rules[schema]| && key in g && Applies(rules[schema][i], g, key)
    requires cache.Valid(rules, g)
    modifies cache
    ensures cache.Valid(rules, g)
    ensures forall m :: m in out <==> m.NoChain? && Violates(g, key, rules[schema][i], Bounded, m)
  {
    out := [];
    var rule := rules[schema][i];
    if rule.reach.Some? && key != rule.reach.value {
      var found := cache.ReachesGoal(rules, g, schema, i, key, rule.reach.value);
      if !found {
        out := [NoChain(PlaceOf(rule), rule.reach.value)];
      }
    }
  }

  /** One rule, as validation checks it: only its counts on a partial graph. */
  method CheckRule(rules: map<string, seq<LinkRule>>, g: Graph, key: Key, schema: string, i: nat, full: bool,
      cache: RunCache)
      returns (out: seq<Message>)
    requires schema in rules && i < |rules[schema]| && key in g && cache.Valid(rules, g)
    modifies cache
    ensures cache.Valid(rules, g)
    ensures forall m :: m in out <==> Violates(g, key, rules[schema][i], if full then Complete else Counts, m)
  {
    var applies := cache.WhenApplies(rules, g, schema, i, key);
    if !applies {
      return [];
    }
    var rule := rules[schema][i];
    out := CheckCounts(g, key, rule);
    if full {
      var target := CheckTarget(g, key, rule);
      var some := CheckSome(g, key, rule);
      var covers := CheckCovers(g, key, rule);
      var reach := CheckReach(rules, g, key, schema, i, cache);
      CompleteParts(g, key, rule);
      out := out + target + some + covers + reach;
    }
  }

  /** The complete check is its five parts. */
  lemma {:induction false} CompleteParts(g: Graph, key: Key, rule: LinkRule)
    requires key in g
    ensures forall m :: Violates(g, key, rule, Complete, m) <==>
              || ((m.TooFew? || m.TooMany?) && Violates(g, key, rule, Counts, m))
              || ((AboutTarget(m) || AboutSome(m) || AboutCovers(m)) && Violates(g, key, rule, Complete, m))
              || (m.NoChain? && Violates(g, key, rule, Bounded, m))
  {
  }

  /** One rule, as a commit checks it. */
  method CheckRuleBounded(rules: map<string, seq<LinkRule>>, g: Graph, key: Key, schema: string, i: nat,
      cache: RunCache)
      returns (out: seq<Message>)
    requires schema in rules && i < |rules[schema]| && key in g && cache.Valid(rules, g)
    modifies cache
    ensures cache.Valid(rules, g)
    ensures forall m :: m in out <==> Violates(g, key, rules[schema][i], Bounded, m)
  {
    var applies := cache.WhenApplies(rules, g, schema, i, key);
    if !applies {
      return [];
    }
    out := CheckCounts(g, key, rules[schema][i]);
    var missing := CheckExistence(g, key, rules[schema][i]);
    var reach := CheckReach(rules, g, key, schema, i, cache);
    out := out + missing + reach;
  }

  // ----- The checks of one document under one schema -----

  function RulesIn(rules: map<string, seq<LinkRule>>, schema: string): seq<LinkRule> {
    if schema in rules then rules[schema] else []
  }

  /** Every rule of the schema, with every form it has; on a partial graph only the counts. */
  method CheckLinks(rules: map<string, seq<LinkRule>>, g: Graph, key: Key, schema: string, full: bool, cache: RunCache)
      returns (out: seq<Message>)
    requires key in g && cache.Valid(rules, g)
    modifies cache
    ensures cache.Valid(rules, g)
    ensures forall m :: m in out <==> Breaks(g, key, RulesIn(rules, schema), if full then Complete else Counts, m)
  {
    out := [];
    var own := RulesIn(rules, schema);
    for i := 0 to |own|
      invariant cache.Valid(rules, g)
      invariant forall m :: m in out <==> Breaks(g, key, own[..i], if full then Complete else Counts, m)
    {
      var more := CheckRule(rules, g, key, schema, i, full, cache);
      BreaksMore(g, key, own, if full then Complete else Counts, i);
      out := out + more;
    }
    assert own[..|own|] == own;
  }

  /** The forms of every rule of the schema that an index bounds. */
  method CheckLinksBounded(rules: map<string, seq<LinkRule>>, g: Graph, key: Key, schema: string, cache: RunCache)
      returns (out: seq<Message>)
    requires key in g && cache.Valid(rules, g)
    modifies cache
    ensures cache.Valid(rules, g)
    ensures forall m :: m in out <==> Breaks(g, key, RulesIn(rules, schema), Bounded, m)
  {
    out := [];
    var own := RulesIn(rules, schema);
    for i := 0 to |own|
      invariant cache.Valid(rules, g)
      invariant forall m :: m in out <==> Breaks(g, key, own[..i], Bounded, m)
    {
      var more := CheckRuleBounded(rules, g, key, schema, i, cache);
      BreaksMore(g, key, own, Bounded, i);
      out := out + more;
    }
    assert own[..|own|] == own;
  }
}
