/**
 Validating a store as a whole, and validating a commit on the documents its writes can affect: the touched documents,
 the documents that link to one, and the documents a walk over references finds to lead to one inside a `reach` rule's
 scope.
*/
module AffectedSet {
  import opened Keys
  import opened Paths
  import opened LinkGraph
  import opened LinkRules

  /** What a violation is known by: which rule of the schema reported it is not part of it. */
  datatype Finding = Finding(key: Key, schema: string, message: Message)

  const INVARIANT_SCHEMA := "config"

  /** The schemas bound to each key, their link rules, every other check of a document under a schema, and the reports
      of the graph-wide invariants, each under a key of its own. */
  datatype Config = Config(
    bindings: Key -> set<string>,
    rules: map<string, seq<LinkRule>>,
    rest: (Graph, Key, string) -> set<string>,
    invariants: Graph -> set<(Key, string)>)

  // ----- What is reported, without saying how -----

  /** The check, run on every document, reports it. */
  ghost predicate StandsIn(c: Config, g: Graph, check: Check, f: Finding) {
    && f.key in g && f.schema in c.bindings(f.key)
    && if f.message.Other? then !check.Bounded? && f.message.text in c.rest(g, f.key, f.schema)
       else Breaks(g, f.key, RulesIn(c.rules, f.schema), check, f.message)
  }

  /** Either of the two checks made at commit reports it. */
  ghost predicate Stands(c: Config, g: Graph, f: Finding) {
    StandsIn(c, g, Complete, f) || StandsIn(c, g, Bounded, f)
  }

  ghost predicate InvariantFails(c: Config, g: Graph, f: Finding) {
    f.schema == INVARIANT_SCHEMA && f.message.Other? && (f.key, f.message.text) in c.invariants(g)
  }

  /** Validating the whole store reports it. */
  ghost predicate StandsInStore(c: Config, g: Graph, f: Finding) {
    StandsIn(c, g, Complete, f) || InvariantFails(c, g, f)
  }

  /** Both scopes see what the other checks report of a document under its schemas; what the invariants report is seen
      in full scope only, unless a schema of that name is bound to the key. */
  lemma {:induction false} OtherReports(c: Config, g: Graph, k: Key, schema: string, text: string)
    ensures k in g && schema in c.bindings(k) && text in c.rest(g, k, schema) ==>
              Stands(c, g, Finding(k, schema, Other(text))) && StandsInStore(c, g, Finding(k, schema, Other(text)))
    ensures INVARIANT_SCHEMA !in c.bindings(k) ==>
              && !Stands(c, g, Finding(k, INVARIANT_SCHEMA, Other(text)))
              && (StandsInStore(c, g, Finding(k, INVARIANT_SCHEMA, Other(text))) <==> (k, text) in c.invariants(g))
  {
  }

  ghost predicate LinksInto(g: Graph, k: Key, touched: set<Key>) {
    k in g && !(Links(g[k]) !! touched)
  }

  ghost predicate WalksInto(c: Config, g: Graph, k: Key, touched: set<Key>) {
    exists schema, i :: schema in c.rules && 0 <= i < |c.rules[schema]|
                        && RuleWalksInto(c.rules[schema][i], g, k, touched)
  }

  ghost predicate RuleWalksInto(rule: LinkRule, g: Graph, k: Key, touched: set<Key>) {
    rule.reach.Some? && LeadsInto(WalkedEdges(g, rule.scope), k, touched)
  }

  ghost predicate Affected(c: Config, g: Graph, touched: set<Key>, k: Key) {
    k in touched || LinksInto(g, k, touched) || WalksInto(c, g, k, touched)
  }

  /** Without a rule that has a goal, affected are the touched documents and those that link to one, however they do. */
  lemma {:induction false} OneHopWithoutGoals(c: Config, g: Graph, touched: set<Key>, k: Key)
    requires forall schema, i :: schema in c.rules && 0 <= i < |c.rules[schema]| ==> c.rules[schema][i].reach.None?
    ensures Affected(c, g, touched, k) <==>
              || k in touched
              || (k in g && exists i, t :: 0 <= i < |g[k].blocks| && t in g[k].blocks[i].targets && t in touched)
  {
    if k in g {
      forall t ensures t in Links(g[k]) <==> exists i :: 0 <= i < |g[k].blocks| && t in g[k].blocks[i].targets {
      }
    }
  }

  // ----- Validating documents -----

  /** Everything the schemas bound to one document report for it. */
  method CheckDocument(c: Config, g: Graph, key: Key, full: bool, cache: RunCache) returns (findings: set<Finding>)
    requires key in g && cache.Valid(c.rules, g)
    modifies cache
    ensures cache.Valid(c.rules, g)
    ensures forall f :: f in findings <==> f.key == key && StandsIn(c, g, if full then Complete else Counts, f)
  {
    findings := {};
    var todo := c.bindings(key);
    while todo != {}
      invariant cache.Valid(c.rules, g) && todo <= c.bindings(key)
      invariant forall f :: f in findings <==>
                  f.key == key && f.schema !in todo && StandsIn(c, g, if full then Complete else Counts, f)
      decreases |todo|
    {
      var schema :| schema in todo;
      var links := CheckLinks(c.rules, g, key, schema, full, cache);
      findings := findings + (set m | m in links :: Finding(key, schema, m))
        + (set t | t in c.rest(g, key, schema) :: Finding(key, schema, Other(t)));
      todo := todo - {schema};
    }
  }

  /** The documents given, under one run's cache. */
  method ValidateDocuments(c: Config, g: Graph, keys: set<Key>, full: bool) returns (findings: set<Finding>)
    requires keys <= g.Keys
    ensures forall f :: f in findings <==> f.key in keys && StandsIn(c, g, if full then Complete else Counts, f)
  {
    var cache := new RunCache();
    findings := {};
    var todo := keys;
    while todo != {}
      invariant cache.Valid(c.rules, g) && todo <= keys
      invariant forall f :: f in findings <==>
                  f.key in keys && f.key !in todo && StandsIn(c, g, if full then Complete else Counts, f)
      decreases |todo|
    {
      var key :| key in todo;
      var found := CheckDocument(c, g, key, full, cache);
      findings := findings + found;
      todo := todo - {key};
    }
  }

  /** The whole store: every document completely, and the invariants. */
  method ValidateStore(c: Config, g: Graph) returns (findings: set<Finding>)
    ensures forall f :: f in findings <==> StandsInStore(c, g, f)
  {
    findings := ValidateDocuments(c, g, g.Keys, true);
    var failing := c.invariants(g);
    findings := findings + set p | p in failing :: Finding(p.0, INVARIANT_SCHEMA, Other(p.1));
    forall f ensures f in findings <==> StandsInStore(c, g, f) {
      if InvariantFails(c, g, f) {
        assert f == Finding((f.key, f.message.text).0, INVARIANT_SCHEMA, Other((f.key, f.message.text).1));
      }
    }
  }

  // ----- The affected documents -----

  /** Everything a walk over one scope finds to lead to a touched document. */
  method WalkScope(g: Graph, scope: Scope, touched: seq<Key>) returns (out: set<Key>)
    ensures forall k :: k in out || k in SetOf(touched) <==>
        k in SetOf(touched) || LeadsInto(WalkedEdges(g, scope), k, SetOf(touched))
  {
    out := {};
    for n := 0 to |touched|
      invariant forall k :: k in out ==> LeadsInto(WalkedEdges(g, scope), k, SetOf(touched))
      invariant forall m, k :: 0 <= m < n && k != touched[m] && Leads(WalkedEdges(g, scope), k, touched[m]) ==> k in out
    {
      var reached := Inbound(g, scope, touched[n]);
      assert touched[n] in SetOf(touched);
      out := out + reached;
    }
  }

  method WalkRules(g: Graph, rules: seq<LinkRule>, touched: seq<Key>) returns (out: set<Key>)
    ensures forall k :: k in out || k in SetOf(touched) <==>
              k in SetOf(touched) || exists i :: 0 <= i < |rules| && RuleWalksInto(rules[i], g, k, SetOf(touched))
  {
    out := {};
    for n := 0 to |rules|
      invariant forall k :: k in out || k in SetOf(touched) <==>
                  k in SetOf(touched) || exists i :: 0 <= i < n && RuleWalksInto(rules[i], g, k, SetOf(touched))
    {
      if rules[n].reach.Some? {
        var reached := WalkScope(g, rules[n].scope, touched);
        out := out + reached;
      }
    }
  }

  /** The documents with a link or an inclusion of the key. */
  function LinkersOf(g: Graph, key: Key): set<Key> {
    set k | k in g && key in Links(g[k])
  }

  method AffectedKeys(c: Config, g: Graph, touched: seq<Key>) returns (affected: set<Key>)
    ensures forall k :: k in affected <==> Affected(c, g, SetOf(touched), k)
  {
    affected := SetOf(touched);
    for n := 0 to |touched|
      invariant forall k :: k in affected <==> k in SetOf(touched) || LinksInto(g, k, SetOf(touched[..n]))
    {
      assert touched[..n + 1] == touched[..n] + [touched[n]];
      affected := affected + LinkersOf(g, touched[n]);
    }
    assert touched[..|touched|] == touched;
    var todo := c.rules.Keys;
    while todo != {}
      invariant todo <= c.rules.Keys
      invariant forall k :: k in affected <==>
          k in SetOf(touched) || LinksInto(g, k, SetOf(touched)) || WalksIntoBut(c, g, k, SetOf(touched), todo)
      decreases |todo|
    {
      var schema :| schema in todo;
      var reached := WalkRules(g, c.rules[schema], touched);
      WalksIntoSplit(c, g, SetOf(touched), todo, schema);
      affected := affected + reached;
      todo := todo - {schema};
    }
    assert forall k :: WalksIntoBut(c, g, k, SetOf(touched), {}) <==> WalksInto(c, g, k, SetOf(touched));
  }

  /** As far as the schemas outside `todo` go. */
  ghost predicate WalksIntoBut(c: Config, g: Graph, k: Key, touched: set<Key>, todo: set<string>) {
    exists schema, i :: schema in c.rules && schema !in todo && 0 <= i < |c.rules[schema]|
        && RuleWalksInto(c.rules[schema][i], g, k, touched)
  }

  lemma {:induction false} WalksIntoSplit(c: Config, g: Graph, touched: set<Key>, todo: set<string>, schema: string)
    requires schema in todo && todo <= c.rules.Keys
    ensures forall k :: WalksIntoBut(c, g, k, touched, todo - {schema}) <==>
              WalksIntoBut(c, g, k, touched, todo)
              || exists i :: 0 <= i < |c.rules[schema]| && RuleWalksInto(c.rules[schema][i], g, k, touched)
  {
  }

  // ----- Validating a commit -----

  /** The bounded link checks of one document under all its schemas. */
  method CheckDocumentBounded(c: Config, g: Graph, key: Key, cache: RunCache) returns (findings: set<Finding>)
    requires key in g && cache.Valid(c.rules, g)
    modifies cache
    ensures cache.Valid(c.rules, g)
    ensures forall f :: f in findings <==> f.key == key && StandsIn(c, g, Bounded, f)
  {
    findings := {};
    var todo := c.bindings(key);
    while todo != {}
      invariant cache.Valid(c.rules, g) && todo <= c.bindings(key)
      invariant forall f :: f in findings <==> f.key == key && f.schema !in todo && StandsIn(c, g, Bounded, f)
      decreases |todo|
    {
      var schema :| schema in todo;
      var links := CheckLinksBounded(c.rules, g, key, schema, cache);
      assert forall m :: m in links ==> !m.Other?;
      findings := findings + set m | m in links :: Finding(key, schema, m);
      todo := todo - {schema};
    }
  }

  /** The commit-time validation: the complete check of the affected documents, and the bounded link checks on top. It
      reports everything that stands at an affected document, and nothing else. */
  method ValidateAffectedSet(c: Config, g: Graph, touched: seq<Key>)
      returns (findings: set<Finding>, affected: set<Key>)
    ensures forall k :: k in affected <==> Affected(c, g, SetOf(touched), k)
    ensures forall f :: f in findings <==> Stands(c, g, f) && Affected(c, g, SetOf(touched), f.key)
  {
    affected := AffectedKeys(c, g, touched);
    var present := affected * g.Keys;
    var complete := ValidateDocuments(c, g, present, true);
    var cache := new RunCache();
    var extra: set<Finding> := {};
    var todo := present;
    while todo != {}
      invariant cache.Valid(c.rules, g) && todo <= present
      invariant forall f :: f in extra <==> f.key in present && f.key !in todo && StandsIn(c, g, Bounded, f)
      decreases |todo|
    {
      var key :| key in todo;
      var found := CheckDocumentBounded(c, g, key, cache);
      extra := extra + found;
      todo := todo - {key};
    }
    findings := complete + extra;
  }

  datatype ValidationScope = Off | AffectedOnly | Full

  ghost predicate Reported(c: Config, scope: ValidationScope, g: Graph, touched: set<Key>, f: Finding) {
    match scope
    case Off => false
    case AffectedOnly => Stands(c, g, f) && Affected(c, g, touched, f.key)
    case Full => StandsInStore(c, g, f)
  }

  method ReportsFor(c: Config, scope: ValidationScope, g: Graph, touched: seq<Key>) returns (findings: set<Finding>)
    ensures forall f :: f in findings <==> Reported(c, scope, g, SetOf(touched), f)
  {
    match scope {
      case Off => findings := {};
      case Full => findings := ValidateStore(c, g);
      case AffectedOnly =>
        var affected;
        findings, affected := ValidateAffectedSet(c, g, touched);
    }
  }

  /** What a commit introduces: what is reported after it and not before. */
  ghost predicate Introduces(c: Config, scope: ValidationScope, before: Graph, after: Graph, touched: set<Key>,
      f: Finding) {
    Reported(c, scope, after, touched, f) && !Reported(c, scope, before, touched, f)
  }

  /** What the commit is refused for. The current state is validated only when the final one has reports. */
  method ValidateFinalState(c: Config, scope: ValidationScope, before: Graph, after: Graph, touched: seq<Key>)
      returns (introduced: set<Finding>)
    ensures forall f :: f in introduced <==> Introduces(c, scope, before, after, SetOf(touched), f)
  {
    var reports := ReportsFor(c, scope, after, touched);
    if reports == {} {
      return {};
    }
    var standing := ReportsFor(c, scope, before, touched);
    introduced := reports - standing;
  }
}
