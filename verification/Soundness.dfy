/**
 What validating only the affected documents is worth: which violations it can miss, and which it can refuse.
 */
module Soundness {
  import opened Keys
  import opened Paths
  import opened LinkGraph
  import opened LinkRules
  import opened AffectedSet

  /** A commit's writes change the touched documents only. */
  ghost predicate SameDocuments(g: Graph, h: Graph, touched: set<Key>) {
    forall k :: k !in touched ==> (k in g <==> k in h) && (k in g ==> g[k] == h[k])
  }

  // ----- The affected documents are the same before and after -----

  lemma {:induction false} SameWalks(g: Graph, h: Graph, touched: set<Key>, scope: Scope)
    requires SameDocuments(g, h, touched)
    ensures SameOutside(WalkedEdges(g, scope), WalkedEdges(h, scope), touched)
    ensures SameOutside(ScopedEdges(g, scope), ScopedEdges(h, scope), touched)
  {
  }

  lemma {:induction false} RuleWalkUnchanged(rule: LinkRule, g: Graph, h: Graph, touched: set<Key>, k: Key)
    requires SameDocuments(g, h, touched) && k !in touched
    ensures RuleWalksInto(rule, g, k, touched) <==> RuleWalksInto(rule, h, k, touched)
  {
    SameWalks(g, h, touched, rule.scope);
    LeadsIntoUnchanged(WalkedEdges(g, rule.scope), WalkedEdges(h, rule.scope), touched, k);
  }

  /** The affected documents computed on the state before a commit are those computed on the state after it. */
  lemma {:induction false} AffectedUnchanged(c: Config, g: Graph, h: Graph, touched: set<Key>, k: Key)
    requires SameDocuments(g, h, touched)
    ensures Affected(c, g, touched, k) <==> Affected(c, h, touched, k)
  {
    if k !in touched {
      forall schema, i | schema in c.rules && 0 <= i < |c.rules[schema]|
        ensures RuleWalksInto(c.rules[schema][i], g, k, touched) <==> RuleWalksInto(c.rules[schema][i], h, k, touched)
      {
        RuleWalkUnchanged(c.rules[schema][i], g, h, touched, k);
      }
    }
  }

  /** So no commit is refused for a violation that already stood, anywhere in the store. */
  lemma {:induction false} IntroducedIsNew(c: Config, g: Graph, h: Graph, touched: set<Key>, f: Finding)
    requires SameDocuments(g, h, touched)
    requires Introduces(c, AffectedOnly, g, h, touched, f)
    ensures Stands(c, h, f) && !Stands(c, g, f)
  {
    AffectedUnchanged(c, g, h, touched, f.key);
  }

  // ----- When the unaffected documents keep their verdicts -----

  /** Every scoped target of the document, other than itself, is also linked by a reference somewhere in it. */
  predicate Walkable(key: Key, doc: Document, scope: Scope) {
    forall t :: t in TargetsWithin(doc, scope) ==> t == key || t in References(doc)
  }

  ghost predicate AllWalkable(g: Graph, touched: set<Key>, scope: Scope) {
    forall k :: k in g && k !in touched ==> Walkable(k, g[k], scope)
  }

  lemma {:induction false} WalkableCovers(g: Graph, touched: set<Key>, scope: Scope)
    requires AllWalkable(g, touched, scope)
    ensures Covers(WalkedEdges(g, scope), ScopedEdges(g, scope), touched)
  {
  }

  /** A chain that starts outside the touched documents and does not walk into one is still there afterwards. */
  lemma {:induction false} ChainKept(g: Graph, h: Graph, touched: set<Key>, scope: Scope, k: Key, goal: Key)
    requires SameDocuments(g, h, touched) && AllWalkable(g, touched, scope) && k !in touched
    requires !LeadsInto(WalkedEdges(g, scope), k, touched)
    ensures Leads(ScopedEdges(g, scope), k, goal) ==> Leads(ScopedEdges(h, scope), k, goal)
  {
    if Leads(ScopedEdges(g, scope), k, goal) {
      var p :| Chain(ScopedEdges(g, scope), p, k, goal);
      SameWalks(g, h, touched, scope);
      WalkableCovers(g, touched, scope);
      CutAtTouched(ScopedEdges(g, scope), ScopedEdges(h, scope), WalkedEdges(g, scope), touched, p, k, goal);
    }
  }

  lemma {:induction false} SameDocumentsSymmetric(g: Graph, h: Graph, touched: set<Key>)
    requires SameDocuments(g, h, touched)
    ensures SameDocuments(h, g, touched)
  {
  }

  lemma {:induction false} ReachUnchanged(g: Graph, h: Graph, touched: set<Key>, scope: Scope, k: Key, goal: Key)
    requires SameDocuments(g, h, touched) && AllWalkable(g, touched, scope) && k !in touched
    requires !LeadsInto(WalkedEdges(g, scope), k, touched)
    ensures Leads(ScopedEdges(g, scope), k, goal) <==> Leads(ScopedEdges(h, scope), k, goal)
  {
    ChainKept(g, h, touched, scope, k, goal);
    SameDocumentsSymmetric(g, h, touched);
    SameWalks(g, h, touched, scope);
    LeadsIntoUnchanged(WalkedEdges(g, scope), WalkedEdges(h, scope), touched, k);
    ChainKept(h, g, touched, scope, k, goal);
  }

  /** The untouched documents are walkable inside the scope of every rule with a goal. */
  ghost predicate StoreWalkable(c: Config, g: Graph, touched: set<Key>) {
    forall schema, i :: schema in c.rules && 0 <= i < |c.rules[schema]| && c.rules[schema][i].reach.Some? ==>
      AllWalkable(g, touched, c.rules[schema][i].scope)
  }

  /** The condition is about the document itself: it holds alike in all stores that hold the same document. */
  ghost predicate Local(when: Condition) {
    forall g: Graph, h: Graph, k: Key :: k in g && k in h && g[k] == h[k] ==> (when.holds(g, k) <==> when.holds(h, k))
  }

  ghost predicate LocalConditions(c: Config) {
    forall schema, i :: schema in c.rules && 0 <= i < |c.rules[schema]| && c.rules[schema][i].when.Some? ==>
      Local(c.rules[schema][i].when.value)
  }

  /** What incremental validation is sound for: link counts, links to no document, and chains. */
  predicate Indexed(m: Message) {
    m.TooFew? || m.TooMany? || m.NoSuchDocument? || m.NoChain?
  }

  /** Of these, the bounded check reports at least what the complete one does. */
  lemma {:induction false} BoundedReportsMore(c: Config, g: Graph, f: Finding)
    requires Indexed(f.message)
    ensures Stands(c, g, f) <==> StandsIn(c, g, Bounded, f)
  {
    if StandsIn(c, g, Complete, f) {
      var rules := RulesIn(c.rules, f.schema);
      var i :| 0 <= i < |rules| && Violates(g, f.key, rules[i], Complete, f.message);
      assert Violates(g, f.key, rules[i], Bounded, f.message);
    }
  }

  /** Targets of a document that links to nothing touched exist before exactly when they exist after. */
  lemma {:induction false} TargetsUnchanged(g: Graph, h: Graph, touched: set<Key>, scope: Scope, k: Key, t: Key)
    requires SameDocuments(g, h, touched) && k in g && !LinksInto(g, k, touched)
    requires t in TargetsWithin(g[k], scope)
    ensures t in g <==> t in h
  {
    ScopedAreLinks(g[k], scope, t);
    assert t !in touched;
  }

  /** A document outside the affected set gets the same verdict from every rule, on link counts, on the existence of
      what it links to and on its chains. */
  lemma {:induction false} VerdictUnchanged(c: Config, g: Graph, h: Graph, touched: set<Key>, k: Key, schema: string,
      i: nat, m: Message)
    requires SameDocuments(g, h, touched) && StoreWalkable(c, g, touched) && LocalConditions(c)
    requires k in g && !Affected(c, g, touched, k) && i < |RulesIn(c.rules, schema)|
    ensures k in h
    ensures var rule := RulesIn(c.rules, schema)[i];
            Violates(g, k, rule, Bounded, m) <==> Violates(h, k, rule, Bounded, m)
  {
    var rule := RulesIn(c.rules, schema)[i];
    assert schema in c.rules && rule == c.rules[schema][i];
    assert g[k] == h[k] && (Applies(rule, g, k) <==> Applies(rule, h, k));
    if m.NoSuchDocument? {
      if m.target in TargetsWithin(g[k], rule.scope) {
        TargetsUnchanged(g, h, touched, rule.scope, k, m.target);
      }
    } else if m.NoChain? && rule.reach.Some? {
      assert !RuleWalksInto(rule, g, k, touched);
      ReachUnchanged(g, h, touched, rule.scope, k, m.goal);
    }
  }

  lemma {:induction false} BreaksUnchanged(c: Config, g: Graph, h: Graph, touched: set<Key>, f: Finding)
    requires SameDocuments(g, h, touched) && StoreWalkable(c, g, touched) && LocalConditions(c)
    requires !Affected(c, g, touched, f.key) && Indexed(f.message)
    ensures Stands(c, g, f) <==> Stands(c, h, f)
  {
    BoundedReportsMore(c, g, f);
    BoundedReportsMore(c, h, f);
    var rules := RulesIn(c.rules, f.schema);
    if f.key in g {
      forall i | 0 <= i < |rules|
        ensures f.key in h
        ensures Violates(g, f.key, rules[i], Bounded, f.message) <==> Violates(h, f.key, rules[i], Bounded, f.message)
      {
        VerdictUnchanged(c, g, h, touched, f.key, f.schema, i, f.message);
      }
      SameBreaks(g, h, f.key, rules, f.message);
    }
  }

  lemma {:induction false} SameBreaks(g: Graph, h: Graph, k: Key, rules: seq<LinkRule>, m: Message)
    requires k in g && k in h
    requires forall i :: 0 <= i < |rules| ==>
               (Violates(g, k, rules[i], Bounded, m) <==> Violates(h, k, rules[i], Bounded, m))
    ensures Breaks(g, k, rules, Bounded, m) <==> Breaks(h, k, rules, Bounded, m)
  {
  }

  /** Incremental validation is sound and complete: it introduces a link violation exactly when the store gains one,
      anywhere. */
  lemma {:induction false} IncrementalAgrees(c: Config, g: Graph, h: Graph, touched: set<Key>, f: Finding)
    requires SameDocuments(g, h, touched) && StoreWalkable(c, g, touched) && LocalConditions(c) && Indexed(f.message)
    ensures Introduces(c, AffectedOnly, g, h, touched, f) <==> Stands(c, h, f) && !Stands(c, g, f)
  {
    AffectedUnchanged(c, g, h, touched, f.key);
    if !Affected(c, g, touched, f.key) {
      BreaksUnchanged(c, g, h, touched, f);
    }
  }

  // ----- The two scopes -----

  /** On link counts and chains the two checks are the same. */
  lemma {:induction false} CountsAndChainsAgree(c: Config, g: Graph, f: Finding)
    requires Indexed(f.message) && !f.message.NoSuchDocument?
    ensures StandsInStore(c, g, f) <==> StandsIn(c, g, Bounded, f)
  {
    var rules := RulesIn(c.rules, f.schema);
    if f.key in g {
      forall i | 0 <= i < |rules|
        ensures Violates(g, f.key, rules[i], Complete, f.message) <==> Violates(g, f.key, rules[i], Bounded, f.message)
      {
      }
    }
  }

  /** So there a commit introduces the same in affected-set scope as in full scope. */
  lemma {:induction false} ScopesAgree(c: Config, g: Graph, h: Graph, touched: set<Key>, f: Finding)
    requires SameDocuments(g, h, touched) && StoreWalkable(c, g, touched) && LocalConditions(c)
    requires Indexed(f.message) && !f.message.NoSuchDocument?
    ensures Introduces(c, AffectedOnly, g, h, touched, f) <==> Introduces(c, Full, g, h, touched, f)
  {
    IncrementalAgrees(c, g, h, touched, f);
    CountsAndChainsAgree(c, g, f);
    CountsAndChainsAgree(c, h, f);
    BoundedReportsMore(c, g, f);
    BoundedReportsMore(c, h, f);
  }

  /** A link to no document that the bounded check reports is reported in full scope exactly when one of the rules it
      breaks has a target filter that resolves. */
  lemma {:induction false} DanglingInFull(c: Config, g: Graph, f: Finding)
    requires f.message.NoSuchDocument?
    ensures StandsInStore(c, g, f) <==>
              && StandsIn(c, g, Bounded, f)
              && exists i :: 0 <= i < |RulesIn(c.rules, f.schema)|
                             && Violates(g, f.key, RulesIn(c.rules, f.schema)[i], Bounded, f.message)
                             && Resolves(RulesIn(c.rules, f.schema)[i].target, g, f.key)
  {
    var rules := RulesIn(c.rules, f.schema);
    if StandsInStore(c, g, f) {
      var i :| 0 <= i < |rules| && Violates(g, f.key, rules[i], Complete, f.message);
      assert Violates(g, f.key, rules[i], Bounded, f.message);
    }
    if f.key in g {
      forall i | 0 <= i < |rules|
                 && Violates(g, f.key, rules[i], Bounded, f.message) && Resolves(rules[i].target, g, f.key)
        ensures Violates(g, f.key, rules[i], Complete, f.message)
      {
      }
    }
  }

  /** One schema, bound to one document, with one rule. */
  function OneRule(key: Key, schema: string, rule: LinkRule): Config {
    Config(k => if k == key then {schema} else {}, map[schema := [rule]], (g, k, s) => {}, g => {})
  }

  /** A rule that only asks for links to exist, anywhere in the document. */
  function AnyLinks(): LinkRule {
    LinkRule(None, None, (doc, i) => true, 0, None, None, None, None, None)
  }

  function LinkingTo(k: Key): Document {
    Document("", [Block(false, [k])])
  }

  /** Two documents, one linking to the other, which a commit removes: in affected-set scope the commit is refused for
      the link it leaves dangling, in full scope it is accepted. */
  lemma {:induction false} DanglingLinkLetThrough(a: Key, b: Key, schema: string)
    requires a != b
    ensures var c := OneRule(a, schema, AnyLinks());
            var g, h := map[a := LinkingTo(b), b := Document("", [])], map[a := LinkingTo(b)];
            && SameDocuments(g, h, {b})
            && Introduces(c, AffectedOnly, g, h, {b}, Finding(a, schema, NoSuchDocument(b, Place(None, None))))
            && forall f :: !Introduces(c, Full, g, h, {b}, f)
  {
    var rule := AnyLinks();
    var c := OneRule(a, schema, rule);
    var g, h := map[a := LinkingTo(b), b := Document("", [])], map[a := LinkingTo(b)];
    var doc := LinkingTo(b);
    assert rule.scope(doc, 0) && b in doc.blocks[0].targets;
    TargetsExact(doc, rule.scope, b);
    ScopedAreLinks(doc, rule.scope, b);
    var m := NoSuchDocument(b, Place(None, None));
    assert RulesIn(c.rules, schema) == [rule];
    assert Violates(h, a, [rule][0], Bounded, m) && !Violates(g, a, rule, Bounded, m);
    assert b in Links(g[a]) * {b} && b in Links(h[a]) * {b};
    assert LinksInto(g, a, {b}) && LinksInto(h, a, {b});
    forall f ensures !Introduces(c, Full, g, h, {b}, f) {
      assert f.key == a ==> !Violates(h, a, rule, Complete, f.message);
    }
  }

  // ----- Over a run of commits -----

  /** One commit: the documents its writes name, and what they put there; a touched key without one is removed. */
  datatype Attempt = Attempt(touched: seq<Key>, docs: Graph)

  function Landed(g: Graph, a: Attempt): Graph {
    map k | k in g.Keys + a.docs.Keys && (if k in a.touched then k in a.docs else k in g) ::
      if k in a.touched then a.docs[k] else g[k]
  }

  lemma {:induction false} LandedSame(g: Graph, a: Attempt)
    ensures SameDocuments(g, Landed(g, a), SetOf(a.touched))
  {
  }

  /** Nothing is introduced. */
  ghost predicate Lands(c: Config, scope: ValidationScope, g: Graph, a: Attempt) {
    forall f :: !Introduces(c, scope, g, Landed(g, a), SetOf(a.touched), f)
  }

  /** The store after a run of commits, of which the refused ones change nothing. */
  ghost function After(c: Config, scope: ValidationScope, start: Graph, attempts: seq<Attempt>): Graph {
    if attempts == [] then start
    else
      var g, last := After(c, scope, start, attempts[..|attempts| - 1]), attempts[|attempts| - 1];
      if Lands(c, scope, g, last) then Landed(g, last) else g
  }

  /** That run, made by validating each commit. */
  method CommitAll(c: Config, scope: ValidationScope, start: Graph, attempts: seq<Attempt>) returns (g: Graph)
    ensures g == After(c, scope, start, attempts)
  {
    g := start;
    for n := 0 to |attempts|
      invariant g == After(c, scope, start, attempts[..n])
    {
      assert attempts[..n + 1][..n] == attempts[..n];
      var landed := Landed(g, attempts[n]);
      var introduced := ValidateFinalState(c, scope, g, landed, attempts[n].touched);
      assert Lands(c, scope, g, attempts[n]) <==> introduced == {} by {
        assert introduced == {} <==> forall f :: f !in introduced;
      }
      if introduced == {} {
        g := landed;
      }
    }
    assert attempts[..|attempts|] == attempts;
  }

  /** In full scope, whatever a whole-store validation reports after a run of commits stood at every point before:
      nothing is ever added, in any document. */
  lemma {:induction false} FullRunShrinks(c: Config, start: Graph, attempts: seq<Attempt>, n: nat, f: Finding)
    requires n <= |attempts| && StandsInStore(c, After(c, Full, start, attempts), f)
    ensures StandsInStore(c, After(c, Full, start, attempts[..n]), f)
  {
    if n == |attempts| {
      assert attempts[..n] == attempts;
    } else {
      var front, last := attempts[..|attempts| - 1], attempts[|attempts| - 1];
      var g := After(c, Full, start, front);
      assert front[..n] == attempts[..n];
      if Lands(c, Full, g, last) {
        assert !Introduces(c, Full, g, Landed(g, last), SetOf(last.touched), f);
      }
      FullRunShrinks(c, start, front, n, f);
    }
  }

  /** Every commit of the run meets a store whose untouched documents are walkable. */
  ghost predicate RunWalkable(c: Config, start: Graph, attempts: seq<Attempt>) {
    attempts != [] ==>
      var front, last := attempts[..|attempts| - 1], attempts[|attempts| - 1];
      && RunWalkable(c, start, front)
      && StoreWalkable(c, After(c, AffectedOnly, start, front), SetOf(last.touched))
  }

  /** A commit that lands in affected-set scope adds no link violation anywhere. */
  lemma {:induction false} LandedAddsNothing(c: Config, g: Graph, a: Attempt, f: Finding)
    requires Lands(c, AffectedOnly, g, a) && StoreWalkable(c, g, SetOf(a.touched)) && LocalConditions(c)
    requires Indexed(f.message) && Stands(c, Landed(g, a), f)
    ensures Stands(c, g, f)
  {
    LandedSame(g, a);
    IncrementalAgrees(c, g, Landed(g, a), SetOf(a.touched), f);
    assert !Introduces(c, AffectedOnly, g, Landed(g, a), SetOf(a.touched), f);
  }

  /** In affected-set scope the same holds of every count, every link to no document and every chain, at affected
      documents and all others. */
  lemma {:induction false} AffectedRunShrinks(c: Config, start: Graph, attempts: seq<Attempt>, n: nat, f: Finding)
    requires n <= |attempts| && RunWalkable(c, start, attempts) && LocalConditions(c) && Indexed(f.message)
    requires Stands(c, After(c, AffectedOnly, start, attempts), f)
    ensures Stands(c, After(c, AffectedOnly, start, attempts[..n]), f)
  {
    if n == |attempts| {
      assert attempts[..n] == attempts;
    } else {
      var end := |attempts| - 1;
      var front, last := attempts[..end], attempts[end];
      var g := After(c, AffectedOnly, start, front);
      assert front[..n] == attempts[..n];
      if Lands(c, AffectedOnly, g, last) {
        LandedAddsNothing(c, g, last, f);
      }
      AffectedRunShrinks(c, start, front, n, f);
    }
  }

  // ----- Why the documents must be walkable -----

  /** A store before and after a commit, an untouched document in it and the goal its chain is to reach. */
  datatype Case = Case(pre: Graph, post: Graph, touched: set<Key>, at: Key, goal: Key)

  /** The document at `key` is one of the untouched ones, every other untouched one is walkable, and `at` is not
      affected. */
  ghost predicate Scenario(x: Case, scope: Scope, key: Key, doc: Document) {
    && SameDocuments(x.pre, x.post, x.touched)
    && key !in x.touched && key in x.pre && x.pre[key] == doc
    && (forall k :: k in x.pre && k !in x.touched && k != key ==> Walkable(k, x.pre[k], scope))
    && x.at !in x.touched && !LinksInto(x.pre, x.at, x.touched)
        && !LeadsInto(WalkedEdges(x.pre, scope), x.at, x.touched)
  }

  ghost predicate SameVerdict(x: Case, scope: Scope) {
    Leads(ScopedEdges(x.pre, scope), x.at, x.goal) <==> Leads(ScopedEdges(x.post, scope), x.at, x.goal)
  }

  /** Inside the scope, a document can link to any given key and nothing else, by a reference. */
  ghost predicate Linkable(scope: Scope, link: Key -> Document) {
    forall k :: TargetsWithin(link(k), scope) == [k] && k in References(link(k))
  }

  /** With only `key` holding a target no reference links to, a document is missed: the chain runs through that target
      to a touched document and on to the goal. */
  function Missing(key: Key, doc: Document, link: Key -> Document, t: Key, u: Key, goal: Key): Case {
    Case(map[key := doc, t := link(u), u := link(goal)], map[key := doc, t := link(u)], {u}, key, goal)
  }

  lemma {:induction false} MissedScenario(scope: Scope, key: Key, doc: Document, link: Key -> Document, t: Key,
      u: Key, goal: Key)
    requires Linkable(scope, link) && key != t && u != key && u != t
    requires t in TargetsWithin(doc, scope) && t !in References(doc) && u !in Links(doc)
    ensures Scenario(Missing(key, doc, link, t, u, goal), scope, key, doc)
  {
    var x := Missing(key, doc, link, t, u, goal);
    var e := WalkedEdges(x.pre, scope);
    if LeadsInto(e, key, {u}) {
      var p :| Chain(e, p, key, u);
      OnlyItself(x.pre, scope, key, doc, t, u, p);
    }
    assert Walkable(t, link(u), scope);
  }

  /** No walk leaves `key` but for documents that are not there. */
  lemma {:induction false} OnlyItself(g: Graph, scope: Scope, key: Key, doc: Document, t: Key, u: Key, p: seq<Key>)
    requires g.Keys == {key, t, u} && g[key] == doc && key != t && u != key && u != t
    requires t !in References(doc) && u !in Links(doc)
    requires Chain(WalkedEdges(g, scope), p, key, u)
    ensures false
    decreases |p|
  {
    var e := WalkedEdges(g, scope);
    ChainTail(e, p, key, u);
    assert p[1] in TargetsWithin(doc, scope) && p[1] in References(doc);
    ScopedAreLinks(doc, scope, p[1]);
    if |p| > 2 {
      ChainTail(e, p[1..], p[1], u);
      assert p[1] in g;
      OnlyItself(g, scope, key, doc, t, u, p[1..]);
    }
  }

  lemma {:induction false} MissedVerdict(scope: Scope, key: Key, doc: Document, link: Key -> Document, t: Key,
      u: Key, goal: Key)
    requires Linkable(scope, link) && key != t && u != key && u != t && goal !in {key, t, u}
    requires t in TargetsWithin(doc, scope) && u !in Links(doc) && goal !in Links(doc)
    ensures var x := Missing(key, doc, link, t, u, goal);
            Leads(ScopedEdges(x.pre, scope), key, goal) && !Leads(ScopedEdges(x.post, scope), key, goal)
  {
    var x := Missing(key, doc, link, t, u, goal);
    var e, f := ScopedEdges(x.pre, scope), ScopedEdges(x.post, scope);
    assert TargetsWithin(link(u), scope) == [u] && TargetsWithin(link(goal), scope) == [goal];
    assert t in Next(e, key) && u in Next(e, t) && goal in Next(e, u);
    LeadsAtOnce(e, u, goal);
    LeadsFirst(e, t, u, goal);
    LeadsFirst(e, key, t, goal);
    if goal in TargetsWithin(doc, scope) {
      ScopedAreLinks(doc, scope, goal);
    }
    NotReached(f, {key, t} + SetOf(TargetsWithin(doc, scope)) + {u}, key, goal);
  }

  /** Incremental validation detects every lost chain whatever the rest of the store is, as long as it is walkable,
      exactly when the document itself is. */
  lemma {:induction false} DetectsIffWalkable(scope: Scope, key: Key, doc: Document, link: Key -> Document)
    requires Linkable(scope, link)
    ensures (forall x :: Scenario(x, scope, key, doc) ==> SameVerdict(x, scope)) <==> Walkable(key, doc, scope)
  {
    if Walkable(key, doc, scope) {
      forall x | Scenario(x, scope, key, doc) ensures SameVerdict(x, scope) {
        ReachUnchanged(x.pre, x.post, x.touched, scope, x.at, x.goal);
      }
    } else {
      var t :| t in TargetsWithin(doc, scope) && t != key && t !in References(doc);
      var u := FreshKey(Links(doc) + {key, t});
      var goal := FreshKey(Links(doc) + {key, t, u});
      MissedScenario(scope, key, doc, link, t, u, goal);
      MissedVerdict(scope, key, doc, link, t, u, goal);
    }
  }

  /** The rule that asks for a chain inside the scope. */
  function ChainTo(scope: Scope, goal: Key): LinkRule {
    LinkRule(None, None, scope, 0, None, None, None, None, Some(goal))
  }

  /** And the commit that loses such a chain is accepted: with the rule bound to the missed document alone, affected-set
      scope introduces nothing, while the document has newly lost its chain. In full scope the commit is refused. */
  lemma {:induction false} MissedCommitAccepted(scope: Scope, key: Key, doc: Document, link: Key -> Document,
      schema: string)
    requires Linkable(scope, link) && !Walkable(key, doc, scope)
    ensures exists x: Case :: Scenario(x, scope, key, doc) && AcceptedUnnoticed(x, scope, schema)
  {
    var t :| t in TargetsWithin(doc, scope) && t != key && t !in References(doc);
    var u := FreshKey(Links(doc) + {key, t});
    var goal := FreshKey(Links(doc) + {key, t, u});
    var x := Missing(key, doc, link, t, u, goal);
    MissedScenario(scope, key, doc, link, t, u, goal);
    MissedVerdict(scope, key, doc, link, t, u, goal);
    OnlyBound(x, scope, key, doc, schema);
  }

  ghost predicate AcceptedUnnoticed(x: Case, scope: Scope, schema: string) {
    var c := OneRule(x.at, schema, ChainTo(scope, x.goal));
    var f := Finding(x.at, schema, NoChain(Place(None, None), x.goal));
    && (forall f :: !Introduces(c, AffectedOnly, x.pre, x.post, x.touched, f))
    && Stands(c, x.post, f) && !Stands(c, x.pre, f)
    && Introduces(c, Full, x.pre, x.post, x.touched, f)
  }

  /** What one bound document reports under one rule about chains. */
  lemma {:induction false} OneChain(g: Graph, check: Check, key: Key, schema: string, scope: Scope, goal: Key)
    requires key in g && !check.Counts? && goal != key
    ensures var f := Finding(key, schema, NoChain(Place(None, None), goal));
            StandsIn(OneRule(key, schema, ChainTo(scope, goal)), g, check, f)
            <==> !Leads(ScopedEdges(g, scope), key, goal)
  {
    var rule, m := ChainTo(scope, goal), NoChain(Place(None, None), goal);
    var rules := [rule];
    assert RulesIn(OneRule(key, schema, rule).rules, schema) == rules;
    assert Violates(g, key, rules[0], check, m) <==> !Leads(ScopedEdges(g, scope), key, goal);
  }

  /** With rules for one unaffected document only, nothing is reported in affected-set scope. */
  lemma {:induction false} NothingReported(x: Case, scope: Scope, key: Key, doc: Document, schema: string, f: Finding)
    requires Scenario(x, scope, key, doc) && x.at == key
    ensures !Reported(OneRule(key, schema, ChainTo(scope, x.goal)), AffectedOnly, x.post, x.touched, f)
  {
    var c := OneRule(key, schema, ChainTo(scope, x.goal));
    assert !Affected(c, x.pre, x.touched, key);
    AffectedUnchanged(c, x.pre, x.post, x.touched, key);
    assert f.key != key ==> c.bindings(f.key) == {};
  }

  lemma {:induction false} OnlyBound(x: Case, scope: Scope, key: Key, doc: Document, schema: string)
    requires Scenario(x, scope, key, doc) && x.at == key && x.goal != key
    requires Leads(ScopedEdges(x.pre, scope), key, x.goal) && !Leads(ScopedEdges(x.post, scope), key, x.goal)
    ensures AcceptedUnnoticed(x, scope, schema)
  {
    OneChain(x.pre, Complete, key, schema, scope, x.goal);
    OneChain(x.pre, Bounded, key, schema, scope, x.goal);
    OneChain(x.post, Complete, key, schema, scope, x.goal);
    forall f {
      NothingReported(x, scope, key, doc, schema, f);
    }
  }

  /** A rule without a section looks at every block, and any key can be linked there. */
  lemma {:induction false} EverywhereLinkable(scope: Scope, link: Key -> Document)
    requires Everywhere(scope)
    requires forall k :: link(k) == Document("", [Block(false, [k])])
    ensures Linkable(scope, link)
  {
    forall k ensures TargetsWithin(link(k), scope) == [k] && k in References(link(k)) {
      var doc := link(k);
      assert scope(doc, 0) && doc.blocks[0].targets == [k] && !doc.blocks[0].inclusion;
      TargetsExact(doc, scope, k);
      assert [k][..0] == [];
      assert AddNew([], [k][..0]) == [];
      assert AddNew([], [k]) == [k];
      assert TargetsUpTo(doc, scope, 1) == AddNew(TargetsUpTo(doc, scope, 0), [k]);
    }
  }

  /** Read off the blocks: a document is walkable exactly when every key a selected block links to, other than the
      document itself, is linked by a block that is no inclusion. */
  lemma {:induction false} WalkableMeans(key: Key, doc: Document, scope: Scope)
    ensures Walkable(key, doc, scope) <==>
              forall i, t :: 0 <= i < |doc.blocks| && scope(doc, i) && t in doc.blocks[i].targets && t != key ==>
                Referenced(doc, t)
  {
    forall t ensures t in References(doc) <==> Referenced(doc, t) {
    }
    forall t
      ensures t in TargetsWithin(doc, scope) <==>
              exists i :: 0 <= i < |doc.blocks| && scope(doc, i) && t in doc.blocks[i].targets
    {
      TargetsExact(doc, scope, t);
    }
  }

  /** So for a rule without a section, every document that links to another one by inclusions alone is missed by some
      commit: it is accepted in affected-set scope although the document newly breaks the rule, and refused in full. */
  lemma {:induction false} InclusionMissed(scope: Scope, key: Key, doc: Document, i: nat, t: Key, schema: string)
    requires Everywhere(scope) && t != key
    requires i < |doc.blocks| && t in doc.blocks[i].targets && !Referenced(doc, t)
    ensures exists x: Case :: Scenario(x, scope, key, doc) && AcceptedUnnoticed(x, scope, schema)
  {
    var link := (k: Key) => Document("", [Block(false, [k])]);
    EverywhereLinkable(scope, link);
    WalkableMeans(key, doc, scope);
    assert scope(doc, i);
    MissedCommitAccepted(scope, key, doc, link, schema);
  }

  /** The smallest such document: one that is nothing but an inclusion. */
  lemma {:induction false} LoneInclusionMissed(scope: Scope, key: Key, t: Key, schema: string)
    requires Everywhere(scope) && t != key
    ensures var doc := Document("", [Block(true, [t])]);
            exists x: Case :: Scenario(x, scope, key, doc) && AcceptedUnnoticed(x, scope, schema)
  {
    InclusionMissed(scope, key, Document("", [Block(true, [t])]), 0, t, schema);
  }
}
