/**
 Which writes a document's own state permits: the `freeze` marker, the properties a schema marks immutable, and the
 prohibition of deleting, judged from the document before the write and the content about to be written.
 */
module Permissions {
  import opened Keys
  import opened FrontMatter

  const FREEZE_FIELD := "freeze"

  /** The body, or a front-matter field at a path. */
  datatype Property = Body | Field(path: Path)

  datatype MutabilityRule = MutabilityRule(property: Property, mutable: bool)

  datatype DeletableRule = DeletableRule(deletable: bool, description: string)

  datatype Operation = Write | Delete

  datatype Decision = Allowed | Frozen | DeleteProhibited(rule: DeletableRule) | PropertyImmutable(property: Property)

  // ----- Reading a document -----

  function FrontOf(page: Option<Page>): Mapping {
    if page.Some? && page.value.front.Some? then page.value.front.value else map[]
  }

  function BodyOf(page: Option<Page>): string {
    if page.Some? then page.value.body else ""
  }

  predicate IsFrozen(front: Mapping) {
    FREEZE_FIELD in front && front[FREEZE_FIELD] == Bool(true)
  }

  function WithoutFreeze(front: Mapping): Mapping {
    front - {FREEZE_FIELD}
  }

  predicate IsOperator(segment: string) {
    segment != "" && segment[0] == '$'
  }

  /** Descends through nested mappings, one segment at a time. */
  function Descend(front: Mapping, path: Path): Option<Value>
    requires path != []
    decreases |path|
  {
    if path[0] !in front then None
    else if |path| == 1 then Some(front[path[0]])
    else if front[path[0]].Map? then Descend(front[path[0]].fields, path[1..])
    else None
  }

  /** The value at a path; a path with an operator segment is never found. */
  function Resolve(front: Mapping, path: Path): Option<Value> {
    if path == [] || exists i :: 0 <= i < |path| && IsOperator(path[i]) then None else Descend(front, path)
  }

  /** What a document has at a property: its body, or the value or absence of a field. */
  datatype Reading = Text(body: string) | At(value: Option<Value>)

  function ReadingOf(page: Option<Page>, property: Property): Reading {
    match property
    case Body => Text(BodyOf(page))
    case Field(path) => At(Resolve(FrontOf(page), path))
  }

  /** Whether a write changes the property, field by field or as a whole. */
  predicate PropertyTouched(prior: Mapping, next: Mapping, priorBody: string, nextBody: string, property: Property) {
    match property
    case Body => priorBody != nextBody
    case Field(path) =>
      match (Resolve(prior, path), Resolve(next, path))
      case (None, None) => false
      case (Some(a), Some(b)) => a != b
      case (_, _) => true
  }

  /** The write's sole effect is lifting the freeze. */
  predicate IsSolitaryUnfreeze(prior: Page, next: Page) {
    && prior.body == next.body
    && IsFrozen(FrontOf(Some(prior))) && !IsFrozen(FrontOf(Some(next)))
    && WithoutFreeze(FrontOf(Some(prior))) == WithoutFreeze(FrontOf(Some(next)))
  }

  // ----- The check -----

  /** The first rule on a property is the one that counts. */
  ghost predicate Immutable(rules: seq<MutabilityRule>, property: Property) {
    exists i :: 0 <= i < |rules| && rules[i] == MutabilityRule(property, false)
                && forall j :: 0 <= j < i ==> rules[j].property != property
  }

  /** What the rules come to, for every document, write and set of rules. */
  ghost predicate Permitted(prior: Option<Page>, next: Page, rules: seq<MutabilityRule>, op: Operation,
      deletable: Option<DeletableRule>) {
    if IsFrozen(FrontOf(prior)) then IsSolitaryUnfreeze(prior.value, next)
    else match op
      case Delete => deletable.Some? ==> deletable.value.deletable
      case Write => forall p :: Immutable(rules, p) ==> ReadingOf(prior, p) == ReadingOf(Some(next), p)
  }

  /** The property's own check: a frozen document permits nothing, otherwise the first rule that names the property
      decides. */
  method CheckProperty(front: Mapping, property: Property, rules: seq<MutabilityRule>) returns (decision: Decision)
    ensures decision == if IsFrozen(front) then Frozen
                        else if Immutable(rules, property) then PropertyImmutable(property) else Allowed
  {
    if IsFrozen(front) {
      return Frozen;
    }
    var i := 0;
    while i < |rules| && rules[i].property != property
      invariant i <= |rules| && forall j :: 0 <= j < i ==> rules[j].property != property
    {
      i := i + 1;
    }
    if i < |rules| && !rules[i].mutable {
      assert rules[i] == MutabilityRule(property, false);
      return PropertyImmutable(property);
    }
    decision := Allowed;
  }

  /** The whole-document check, in the order the program makes it: freeze, deletion, then every declared property. */
  method CheckWrite(prior: Option<Page>, next: Page, rules: seq<MutabilityRule>, op: Operation,
      deletable: Option<DeletableRule>)
    returns (decision: Decision)
    ensures decision == Allowed <==> Permitted(prior, next, rules, op, deletable)
    ensures decision == Frozen ==> IsFrozen(FrontOf(prior))
    ensures decision.DeleteProhibited? ==> op == Delete && deletable == Some(decision.rule)
    ensures decision.PropertyImmutable? ==>
              op == Write && Immutable(rules, decision.property)
                  && ReadingOf(prior, decision.property) != ReadingOf(Some(next), decision.property)
  {
    if IsFrozen(FrontOf(prior)) {
      return if IsSolitaryUnfreeze(prior.value, next) then Allowed else Frozen;
    }
    if op == Delete {
      return if deletable.Some? && !deletable.value.deletable then DeleteProhibited(deletable.value) else Allowed;
    }
    for n := 0 to |rules|
      invariant forall m :: 0 <= m < n && Immutable(rules, rules[m].property) ==>
                  ReadingOf(prior, rules[m].property) == ReadingOf(Some(next), rules[m].property)
    {
      var property := rules[n].property;
      if PropertyTouched(FrontOf(prior), FrontOf(Some(next)), BodyOf(prior), next.body, property) {
        decision := CheckProperty(FrontOf(prior), property, rules);
        if decision != Allowed {
          return;
        }
      }
    }
    forall p | Immutable(rules, p) ensures ReadingOf(prior, p) == ReadingOf(Some(next), p) {
      var i :| 0 <= i < |rules| && rules[i] == MutabilityRule(p, false);
      assert Immutable(rules, rules[i].property);
    }
    decision := Allowed;
  }

  /** Of all schemas a key is bound to, the most restrictive answer wins; one that forbids is found wherever it is. */
  method ResolveDeletable(declared: seq<Option<DeletableRule>>) returns (rule: Option<DeletableRule>)
    ensures (exists i :: 0 <= i < |declared| && declared[i].Some? && !declared[i].value.deletable) <==>
        rule.Some? && !rule.value.deletable
    ensures rule.Some? ==> rule in declared
    ensures rule.None? <==> forall i :: 0 <= i < |declared| ==> declared[i].None?
  {
    rule := None;
    for n := 0 to |declared|
      invariant rule.Some? ==> rule.value.deletable && rule in declared
      invariant forall i :: 0 <= i < n && declared[i].Some? ==> declared[i].value.deletable && rule.Some?
    {
      if declared[n].Some? {
        if !declared[n].value.deletable {
          return declared[n];
        }
        rule := declared[n];
      }
    }
  }

  // ----- Runs of writes -----

  /** One attempt on a document: to write it, or to delete it. */
  datatype Attempt = Put(next: Page) | Remove

  const EMPTY := Page(None, "")

  ghost predicate Goes(state: Option<Page>, attempt: Attempt, rules: seq<MutabilityRule>,
      deletable: Option<DeletableRule>) {
    match attempt
    case Put(next) => Permitted(state, next, rules, Write, deletable)
    case Remove => Permitted(state, EMPTY, rules, Delete, deletable)
  }

  /** The document after a run of attempts; a refused one changes nothing. */
  ghost function After(start: Option<Page>, attempts: seq<Attempt>, rules: seq<MutabilityRule>,
      deletable: Option<DeletableRule>): Option<Page> {
    if attempts == [] then start
    else
      var state, last := After(start, attempts[..|attempts| - 1], rules, deletable), attempts[|attempts| - 1];
      if !Goes(state, last, rules, deletable) then state
      else if last.Put? then Some(last.next) else None
  }

  /** The property is the freeze marker itself, or inside it. */
  predicate RootedAtFreeze(property: Property) {
    property.Field? && property.path != [] && property.path[0] == FREEZE_FIELD
  }

  lemma {:induction false} UnfreezeKeeps(prior: Page, next: Page, property: Property)
    requires IsSolitaryUnfreeze(prior, next) && !RootedAtFreeze(property)
    ensures ReadingOf(Some(prior), property) == ReadingOf(Some(next), property)
  {
    if property.Field? && property.path != [] {
      var a, b, k := FrontOf(Some(prior)), FrontOf(Some(next)), property.path[0];
      assert k in WithoutFreeze(a) <==> k in WithoutFreeze(b);
      assert k in WithoutFreeze(a) ==> WithoutFreeze(a)[k] == WithoutFreeze(b)[k];
      assert k in a <==> k in b;
      assert k in a ==> a[k] == b[k];
    }
  }

  lemma {:induction false} WriteKeeps(prior: Option<Page>, next: Page, rules: seq<MutabilityRule>,
      deletable: Option<DeletableRule>, property: Property)
    requires Permitted(prior, next, rules, Write, deletable)
    requires Immutable(rules, property) && !RootedAtFreeze(property)
    ensures ReadingOf(prior, property) == ReadingOf(Some(next), property)
  {
    if IsFrozen(FrontOf(prior)) {
      UnfreezeKeeps(prior.value, next, property);
    }
  }

  /** What a document that is not there has at a property. */
  function Gone(property: Property): (reading: Reading)
    ensures reading == ReadingOf(None, property)
  {
    match property
    case Body => Text("")
    case Field(path) => At(None)
  }

  /** One attempt leaves an immutable property as it is, or removes the document. */
  lemma {:induction false} AttemptKeeps(state: Option<Page>, attempt: Attempt, rules: seq<MutabilityRule>,
      deletable: Option<DeletableRule>, property: Property)
    requires Immutable(rules, property) && !RootedAtFreeze(property) && Goes(state, attempt, rules, deletable)
    ensures attempt.Put? ==> ReadingOf(Some(attempt.next), property) == ReadingOf(state, property)
  {
    if attempt.Put? {
      WriteKeeps(state, attempt.next, rules, deletable, property);
    }
  }

  /** Over any run of writes and removals, refused or not, an immutable property has its first value or none; it never
      has another, not by creating the document, not by freezing it, not by lifting the freeze. Without a removal it
      keeps its first value or absence. */
  lemma {:induction false} ImmutableForever(start: Option<Page>, attempts: seq<Attempt>, rules: seq<MutabilityRule>,
      deletable: Option<DeletableRule>, property: Property)
    requires Immutable(rules, property) && !RootedAtFreeze(property)
    ensures var now := ReadingOf(After(start, attempts, rules, deletable), property);
            && (now == ReadingOf(start, property) || now == Gone(property))
            && ((forall n :: 0 <= n < |attempts| ==> attempts[n].Put?) ==> now == ReadingOf(start, property))
  {
    if attempts != [] {
      var front, last := attempts[..|attempts| - 1], attempts[|attempts| - 1];
      ImmutableForever(start, front, rules, deletable, property);
      var state := After(start, front, rules, deletable);
      if Goes(state, last, rules, deletable) {
        AttemptKeeps(state, last, rules, deletable, property);
      }
    }
  }

  /** And once it has none, whether it never had a value or its document was removed, it never has one again: the
      document can only be created without it. */
  lemma {:induction false} GoneForGood(start: Option<Page>, attempts: seq<Attempt>, n: nat, rules: seq<MutabilityRule>,
      deletable: Option<DeletableRule>, property: Property)
    requires Immutable(rules, property) && !RootedAtFreeze(property) && n <= |attempts|
    requires ReadingOf(After(start, attempts[..n], rules, deletable), property) == Gone(property)
    ensures ReadingOf(After(start, attempts, rules, deletable), property) == Gone(property)
  {
    if n == |attempts| {
      assert attempts[..n] == attempts;
    } else {
      var front, last := attempts[..|attempts| - 1], attempts[|attempts| - 1];
      assert front[..n] == attempts[..n];
      GoneForGood(start, front, n, rules, deletable, property);
      var state := After(start, front, rules, deletable);
      if Goes(state, last, rules, deletable) {
        AttemptKeeps(state, last, rules, deletable, property);
      }
    }
  }

  /** The exception is real: lifting the freeze is permitted even where a rule says the marker is immutable. */
  lemma {:induction false} FreezeMarkerMoves(body: string, deletable: Option<DeletableRule>)
    ensures var marker, rules := Field([FREEZE_FIELD]), [MutabilityRule(Field([FREEZE_FIELD]), false)];
            var frozen, lifted := Page(Some(map[FREEZE_FIELD := Bool(true)]), body), Page(None, body);
            && Immutable(rules, marker) && Permitted(Some(frozen), lifted, rules, Write, deletable)
            && ReadingOf(Some(frozen), marker) != ReadingOf(Some(lifted), marker)
  {
    var front: Mapping := map[FREEZE_FIELD := Bool(true)];
    var rules := [MutabilityRule(Field([FREEZE_FIELD]), false)];
    assert rules[0] == MutabilityRule(Field([FREEZE_FIELD]), false);
    assert WithoutFreeze(front) == WithoutFreeze(map[]);
    assert FREEZE_FIELD[0] == 'f';
    assert !IsOperator([FREEZE_FIELD][0]);
    assert Resolve(front, [FREEZE_FIELD]) == Some(Bool(true));
  }

  /** What lifts the freeze of a frozen document: a write that does nothing else, or a removal that happens to look like
      one. */
  ghost predicate Lifts(page: Page, attempt: Attempt) {
    IsSolitaryUnfreeze(page, if attempt.Put? then attempt.next else EMPTY)
  }

  /** A frozen document stays exactly as it is, under every schema, until an attempt whose only effect is lifting the
      freeze; every attempt before that is refused. */
  lemma {:induction false} FrozenUntilLifted(page: Page, attempts: seq<Attempt>, rules: seq<MutabilityRule>,
      deletable: Option<DeletableRule>)
    requires IsFrozen(FrontOf(Some(page)))
    ensures After(Some(page), attempts, rules, deletable) == Some(page)
            || exists n :: 0 <= n < |attempts| && Lifts(page, attempts[n])
  {
    if attempts != [] {
      var front, last := attempts[..|attempts| - 1], |attempts| - 1;
      FrozenUntilLifted(page, front, rules, deletable);
      if After(Some(page), front, rules, deletable) == Some(page) {
        assert Goes(Some(page), attempts[last], rules, deletable) ==> Lifts(page, attempts[last]);
      } else {
        var n :| 0 <= n < |front| && Lifts(page, front[n]);
        assert Lifts(page, attempts[n]);
      }
    }
  }

  /** A frozen document can be removed exactly when it has no body and no other field, whatever its schemas say about
      deleting: the freeze decides before that rule is looked at. */
  lemma {:induction false} FrozenRemoval(page: Page, rules: seq<MutabilityRule>, deletable: Option<DeletableRule>)
    requires IsFrozen(FrontOf(Some(page)))
    ensures Goes(Some(page), Remove, rules, deletable) <==>
        page.body == "" && FrontOf(Some(page)).Keys == {FREEZE_FIELD}
  {
    var front := FrontOf(Some(page));
    assert FrontOf(Some(EMPTY)) == map[];
    if front.Keys == {FREEZE_FIELD} {
      assert WithoutFreeze(front) == map[] == WithoutFreeze(map[]);
    } else {
      var k :| k in front && k != FREEZE_FIELD;
      assert k in WithoutFreeze(front) && k !in WithoutFreeze(map[]);
    }
  }

  /** So a removal goes through exactly when the document is frozen and otherwise empty, or not frozen and no schema
      prohibits it: a prohibition protects every document but the empty frozen ones. */
  lemma {:induction false} DeletionProhibited(page: Page, rules: seq<MutabilityRule>, deletable: Option<DeletableRule>)
    ensures Goes(Some(page), Remove, rules, deletable) <==>
              if IsFrozen(FrontOf(Some(page))) then page.body == "" && FrontOf(Some(page)).Keys == {FREEZE_FIELD}
              else deletable.None? || deletable.value.deletable
  {
    if IsFrozen(FrontOf(Some(page))) {
      FrozenRemoval(page, rules, deletable);
    }
  }

  /** Without any rule, a document resists some write exactly when its freeze marker is the value true; any other value
      there freezes nothing. */
  lemma {:induction false} FreezeProtects(front: Mapping, body: string)
    ensures (exists next :: !Permitted(Some(Page(Some(front), body)), next, [], Write, None)) <==>
              FREEZE_FIELD in front && front[FREEZE_FIELD] == Bool(true)
  {
    var page := Page(Some(front), body);
    if FREEZE_FIELD in front && front[FREEZE_FIELD] == Bool(true) {
      assert !Permitted(Some(page), Page(Some(front), body + "x"), [], Write, None);
    }
  }

  /** The one write a frozen document permits: the same text, the same value or absence at every other field, and a
      marker that is no longer true. */
  lemma {:induction false} FrozenPermits(page: Page, next: Page, rules: seq<MutabilityRule>, op: Operation,
      deletable: Option<DeletableRule>)
    requires IsFrozen(FrontOf(Some(page)))
    ensures var a, b := FrontOf(Some(page)), FrontOf(Some(next));
            Permitted(Some(page), next, rules, op, deletable) <==>
              && next.body == page.body
              && (forall k :: k != FREEZE_FIELD ==> (k in a <==> k in b) && (k in a && k in b ==> a[k] == b[k]))
              && (FREEZE_FIELD in b ==> b[FREEZE_FIELD] != Bool(true))
  {
    var a, b := FrontOf(Some(page)), FrontOf(Some(next));
    SameBut(a, b);
  }

  lemma {:induction false} SameBut(a: Mapping, b: Mapping)
    ensures WithoutFreeze(a) == WithoutFreeze(b) <==>
            forall k :: k != FREEZE_FIELD ==> (k in a <==> k in b) && (k in a && k in b ==> a[k] == b[k])
  {
    forall k | k != FREEZE_FIELD
      ensures (k in WithoutFreeze(a) <==> k in a) && (k in WithoutFreeze(b) <==> k in b)
      ensures k in a ==> WithoutFreeze(a)[k] == a[k]
      ensures k in b ==> WithoutFreeze(b)[k] == b[k]
    {
    }
    if WithoutFreeze(a) == WithoutFreeze(b) {
      forall k | k != FREEZE_FIELD ensures (k in a <==> k in b) && (k in a && k in b ==> a[k] == b[k]) {
        assert k in WithoutFreeze(a) <==> k in WithoutFreeze(b);
      }
    }
  }

  // ----- Which rule counts -----

  /** The first rule that names a property decides about it, whatever later ones say; rules about others do not
      matter. */
  lemma {:induction false} FirstRuleCounts(first: MutabilityRule, rest: seq<MutabilityRule>, property: Property)
    ensures Immutable([first] + rest, property) <==>
              if first.property == property then !first.mutable else Immutable(rest, property)
  {
    var rules := [first] + rest;
    if first.property == property {
      assert rules[0] == MutabilityRule(property, first.mutable);
      forall i | 0 < i < |rules| && rules[i].property == property
        ensures exists j :: 0 <= j < i && rules[j].property == property
      {
        assert rules[0].property == property;
      }
    } else {
      if Immutable(rest, property) {
        var i :| 0 <= i < |rest| && rest[i] == MutabilityRule(property, false)
          && forall j :: 0 <= j < i ==> rest[j].property != property;
        assert rules[i + 1] == rest[i];
        assert forall j :: 0 < j <= i ==> rules[j] == rest[j - 1];
      }
      if Immutable(rules, property) {
        var i :| 0 <= i < |rules| && rules[i] == MutabilityRule(property, false)
          && forall j :: 0 <= j < i ==> rules[j].property != property;
        assert rest[i - 1] == rules[i];
        assert forall j :: 0 <= j < i - 1 ==> rest[j] == rules[j + 1];
      }
    }
  }

  // ----- Fields inside fields -----

  /** A path that can be resolved. */
  predicate Plain(path: Path) {
    path != [] && forall i :: 0 <= i < |path| ==> !IsOperator(path[i])
  }

  /** Resolving a joined path is resolving its second part in the mapping found at the first. */
  lemma {:induction false} ResolveSplits(front: Mapping, p: Path, q: Path)
    requires Plain(p) && Plain(q)
    ensures Resolve(front, p + q) ==
            match Resolve(front, p) {
              case Some(Map(fields)) => Resolve(fields, q)
              case _ => None
            }
  {
    assert forall i :: 0 <= i < |p + q| ==> !IsOperator((p + q)[i]);
    DescendSplits(front, p, q);
  }

  lemma {:induction false} DescendSplits(front: Mapping, p: Path, q: Path)
    requires p != [] && q != []
    ensures Descend(front, p + q) ==
            match Descend(front, p) {
              case Some(Map(fields)) => Descend(fields, q)
              case _ => None
            }
    decreases |p|
  {
    assert (p + q)[0] == p[0] && (p + q)[1..] == p[1..] + q;
    if |p| == 1 {
      assert p[1..] + q == q;
    } else if p[0] in front && front[p[0]].Map? {
      DescendSplits(front[p[0]].fields, p[1..], q);
    }
  }

  /** A rule on a path with an operator segment holds nothing: no document has anything there. */
  lemma {:induction false} OperatorRuleIdle(path: Path, i: nat, prior: Option<Page>, next: Page)
    requires i < |path| && IsOperator(path[i])
    ensures ReadingOf(prior, Field(path)) == ReadingOf(Some(next), Field(path)) == At(None)
  {
  }

  lemma {:induction false} NestedFound(path: Path, v: Value)
    requires Plain(path)
    ensures Nest(path, v).Map? && Resolve(Nest(path, v).fields, path) == Some(v)
  {
    DescendNested(path, v);
  }

  lemma {:induction false} DescendNested(path: Path, v: Value)
    requires path != []
    ensures Nest(path, v).Map? && Descend(Nest(path, v).fields, path) == Some(v)
    decreases |path|
  {
    if |path| > 1 {
      DescendNested(path[1..], v);
    }
  }

  /** A rule on a field at any depth holds it: with the field immutable, a write may change the text and must not change
      the field. */
  lemma {:induction false} NestedFieldHeld(path: Path, v: Value, w: Value, body: string, text: string,
      deletable: Option<DeletableRule>)
    requires Plain(path) && path[0] != FREEZE_FIELD
    ensures Nest(path, v).Map? && Nest(path, w).Map?
    ensures var prior, next := Page(Some(Nest(path, v).fields), body), Page(Some(Nest(path, w).fields), text);
            Permitted(Some(prior), next, [MutabilityRule(Field(path), false)], Write, deletable) <==> v == w
  {
    NestedFound(path, v);
    NestedFound(path, w);
    var rules := [MutabilityRule(Field(path), false)];
    assert rules == [rules[0]] + [];
    forall p ensures Immutable(rules, p) <==> p == Field(path) {
      FirstRuleCounts(rules[0], [], p);
    }
    var prior, next := Some(Page(Some(Nest(path, v).fields), body)), Page(Some(Nest(path, w).fields), text);
    assert !IsFrozen(FrontOf(prior));
    assert ReadingOf(prior, Field(path)) == At(Some(v)) && ReadingOf(Some(next), Field(path)) == At(Some(w));
  }

  /** A document can be created exactly when it is created without a value at any immutable property: without text when
      its body is one, and without each field that is one. */
  lemma {:induction false} CreatedWithout(next: Page, rules: seq<MutabilityRule>, deletable: Option<DeletableRule>)
    ensures Permitted(None, next, rules, Write, deletable) <==>
              && (Immutable(rules, Body) ==> next.body == "")
              && forall path :: Immutable(rules, Field(path)) ==> Resolve(FrontOf(Some(next)), path) == None
  {
    assert ReadingOf(None, Body) == Text("");
    forall path ensures ReadingOf(None, Field(path)) == At(None) {
    }
    if Permitted(None, next, rules, Write, deletable) {
      forall path | Immutable(rules, Field(path)) ensures Resolve(FrontOf(Some(next)), path) == None {
        assert ReadingOf(None, Field(path)) == ReadingOf(Some(next), Field(path));
      }
    }
  }

  /** So a schema that makes the body immutable permits no new document with text, and one that makes `id` immutable
      none with an `id`, however it came by it. */
  lemma {:induction false} CreationRefused(id: Value, body: string, deletable: Option<DeletableRule>)
    requires body != ""
    ensures !Permitted(None, Page(None, body), [MutabilityRule(Body, false)], Write, deletable)
    ensures !Permitted(None, Page(Some(map["id" := id]), body), [MutabilityRule(Field(["id"]), false)], Write,
                       deletable)
  {
    var whole, field := [MutabilityRule(Body, false)], [MutabilityRule(Field(["id"]), false)];
    assert whole[0] == MutabilityRule(Body, false) && Immutable(whole, Body);
    CreatedWithout(Page(None, body), whole, deletable);
    assert field[0] == MutabilityRule(Field(["id"]), false) && Immutable(field, Field(["id"]));
    var next := Page(Some(map["id" := id]), body);
    CreatedWithout(next, field, deletable);
    assert "id"[0] == 'i' && !IsOperator(["id"][0]);
    assert Resolve(FrontOf(Some(next)), ["id"]) == Some(id);
  }
}
