/**
 A validating transaction over the document files: writes are staged against a conflict baseline, judged as one final
 state, applied, and put back when a checker rejects the applied result.
 */
module Transaction {
  import opened Keys
  import opened Store
  import AffectedSet
  import Integrity
  import LinkGraph
  import LinkRules
  import Soundness

  /** What the configuration decides: how contents digest and are cleaned when read, which keys may be written, the
      schemas and the scope they are validated in, and the integrity gate with the parser and fingerprint it uses. */
  datatype Rules = Rules(
    digest: Content -> nat,
    clean: Content -> Content,
    permitted: Key -> bool,
    scope: AffectedSet.ValidationScope,
    schemas: AffectedSet.Config,
    env: Integrity.Env,
    context: Integrity.Context)

  /** What happens around one commit: how taking the store's lock went, whether the fencing check found it still held,
      and whether the checkers accepted the applied state. A store without a lock root commits unlocked and unfenced. */
  datatype Locking = Locked | TimedOut | Unlockable
  datatype Circumstances = Circumstances(locking: Locking, current: bool, checkersAccept: bool)

  datatype Failure =
    | LockTimeout | Conflict(keys: set<Key>) | WriteScopeDenied(denied: seq<Key>)
    | Violations(findings: set<AffectedSet.Finding>)
    | BreaksIntegrity(broken: set<(Key, Key)>, orphans: set<Key>)
    | LockStale | CheckerFailed

  datatype Outcome = Committed | FailedState | Refused(failure: Failure)

  // ----- The judgement, as functions of the state read -----

  function DigestAt(docs: State, key: Key, digest: Content -> nat): Option<nat> {
    if key in docs then Some(digest(docs[key])) else None
  }

  /** The staged keys whose content no longer digests to what was seen when they were first written. */
  function Conflicts(baseline: map<Key, Option<nat>>, docs: State, digest: Content -> nat): set<Key> {
    set k | k in baseline && DigestAt(docs, k, digest) != baseline[k]
  }

  /** The distinct keys of the writes, each where it is first mentioned. */
  function FirstMentions(writes: seq<Write>): seq<Key> {
    if writes == [] then []
    else
      var front, key := FirstMentions(writes[..|writes| - 1]), writes[|writes| - 1].key;
      if key in front then front else front + [key]
  }

  function Denied(touched: seq<Key>, permitted: Key -> bool): seq<Key> {
    if touched == [] then []
    else
      var front, key := Denied(touched[..|touched| - 1], permitted), touched[|touched| - 1];
      if permitted(key) then front else front + [key]
  }

  function GraphOf(r: Rules, state: State): LinkGraph.Graph {
    r.env.parse(state, r.context.format)
  }

  /** Validating the state the writes would produce reports this, and validating the current one does not. Both are seen
      as read, that is with every document cleaned. */
  ghost predicate Breaches(r: Rules, docs: State, writes: seq<Write>, f: AffectedSet.Finding) {
    var before := Sanitized(docs, r.clean);
    var g, h := GraphOf(r, before), GraphOf(r, ApplyAll(before, writes));
    AffectedSet.Introduces(r.schemas, r.scope, g, h, Touched(writes), f)
  }

  /** What the integrity gate says of these states, from what its cache holds. */
  ghost function Gate(r: Rules, slot: Option<Integrity.Cached>, docs: State, writes: seq<Write>): Integrity.Checked {
    var before := Sanitized(docs, r.clean);
    Integrity.Check(r.env, r.context, slot, before, ApplyAll(before, writes))
  }

  /** The first reason, in the order the checks are made, not to apply the writes; none when there is no reason. */
  ghost predicate Judged(r: Rules, slot: Option<Integrity.Cached>, docs: State, writes: seq<Write>,
      baseline: map<Key, Option<nat>>, c: Circumstances, failure: Option<Failure>) {
    var conflicts, denied := Conflicts(baseline, docs, r.digest), Denied(FirstMentions(writes), r.permitted);
    var gate := Gate(r, slot, docs, writes).verdict;
    if c.locking == TimedOut then failure == Some(LockTimeout)
    else if conflicts != {} then failure == Some(Conflict(conflicts))
    else if denied != [] then failure == Some(WriteScopeDenied(denied))
    else if exists f :: Breaches(r, docs, writes, f) then
      && failure.Some? && failure.value.Violations?
      && forall f :: f in failure.value.findings <==> Breaches(r, docs, writes, f)
    else if gate.Refused? then failure == Some(BreaksIntegrity(gate.broken, gate.orphans))
    else if c.locking == Locked && !c.current then failure == Some(LockStale)
    else if !c.checkersAccept then failure == Some(CheckerFailed)
    else failure == None
  }

  /** What the gate's cache holds afterwards: the debt of the state that landed, or what judging it left there. */
  ghost function SlotAfter(r: Rules, slot: Option<Integrity.Cached>, docs: State, writes: seq<Write>,
      failure: Option<Failure>): Option<Integrity.Cached> {
    var checked := Gate(r, slot, docs, writes);
    match failure
    case None => if checked.landed.Some? then checked.landed else checked.slot
    case Some(f) =>
      if f.LockTimeout? || f.Conflict? || f.WriteScopeDenied? || f.Violations? then slot else checked.slot
  }

  // ----- What the judgement means -----

  /** The touched keys are the written ones, each once, in the order of their first mention. */
  lemma {:induction false} FirstMentionsExact(writes: seq<Write>)
    ensures forall k :: k in FirstMentions(writes) <==> k in Touched(writes)
    ensures forall a, b :: 0 <= a < b < |FirstMentions(writes)| ==> FirstMentions(writes)[a] != FirstMentions(writes)[b]
  {
    if writes != [] {
      var last := |writes| - 1;
      FirstMentionsExact(writes[..last]);
      TouchedSnoc(writes);
    }
  }

  lemma {:induction false} TouchedSnoc(writes: seq<Write>)
    requires writes != []
    ensures Touched(writes) == Touched(writes[..|writes| - 1]) + {writes[|writes| - 1].key}
  {
  }

  lemma {:induction false} DeniedExact(touched: seq<Key>, permitted: Key -> bool, key: Key)
    ensures key in Denied(touched, permitted) <==> key in touched && !permitted(key)
  {
    if touched != [] {
      var last := |touched| - 1;
      DeniedExact(touched[..last], permitted, key);
      assert touched == touched[..last] + [touched[last]];
    }
  }

  /** The digest tells apart what a key held when first written from what it holds now. */
  ghost predicate Separates(digest: Content -> nat, seen: Option<Content>, now: Option<Content>) {
    seen.Some? && now.Some? && digest(seen.value) == digest(now.value) ==> seen == now
  }

  ghost predicate Digests(baseline: map<Key, Option<nat>>, seen: map<Key, Option<Content>>, digest: Content -> nat) {
    && baseline.Keys == seen.Keys
    && forall k :: k in seen ==> baseline[k] == if seen[k].Some? then Some(digest(seen[k].value)) else None
  }

  /** A staged key is reported exactly when it changed since its first write, for every key on which the digest can tell
      the two contents apart, and on no other. */
  lemma {:induction false} ConflictExact(r: Rules, seen: map<Key, Option<Content>>, baseline: map<Key, Option<nat>>,
      docs: State, key: Key)
    requires Digests(baseline, seen, r.digest) && key in seen
    ensures (key in Conflicts(baseline, docs, r.digest) <==> At(docs, key) != seen[key]) <==>
        Separates(r.digest, seen[key], At(docs, key))
  {
  }

  /** A commit is accepted exactly when the lock was not timed out, every staged key is as it was first seen, only
      permitted keys are written, nothing is introduced, the integrity gate accepts, a lock that was taken is still
      held, and the checkers accept the applied state. The gate decides as one that recomputes both debts. */
  lemma {:induction false} AcceptedMeans(r: Rules, slot: Option<Integrity.Cached>, docs: State, writes: seq<Write>,
      seen: map<Key, Option<Content>>, baseline: map<Key, Option<nat>>, c: Circumstances)
    requires Digests(baseline, seen, r.digest)
    requires forall k :: k in seen ==> Separates(r.digest, seen[k], At(docs, k))
    ensures Judged(r, slot, docs, writes, baseline, c, None) <==>
              && c.locking != TimedOut
              && (forall k :: k in seen ==> At(docs, k) == seen[k])
              && (forall k :: k in Touched(writes) ==> r.permitted(k))
              && (forall f :: !Breaches(r, docs, writes, f))
              && Gate(r, slot, docs, writes).verdict.Accepted?
              && (c.locking == Locked ==> c.current)
              && c.checkersAccept
    ensures Integrity.Separates(r.env) && Integrity.SlotOk(r.env, slot) ==>
              var before := Sanitized(docs, r.clean);
              Gate(r, slot, docs, writes).verdict ==
              Integrity.Fresh(r.env, r.context, before, ApplyAll(before, writes))
  {
    NoConflictsMeans(r, seen, baseline, docs);
    NothingDenied(writes, r.permitted);
    if Integrity.Separates(r.env) && Integrity.SlotOk(r.env, slot) {
      var before := Sanitized(docs, r.clean);
      Integrity.CheckTransparent(r.env, r.context, slot, before, ApplyAll(before, writes));
    }
  }

  lemma {:induction false} NoConflictsMeans(r: Rules, seen: map<Key, Option<Content>>,
      baseline: map<Key, Option<nat>>, docs: State)
    requires Digests(baseline, seen, r.digest)
    requires forall k :: k in seen ==> Separates(r.digest, seen[k], At(docs, k))
    ensures Conflicts(baseline, docs, r.digest) == {} <==> forall k :: k in seen ==> At(docs, k) == seen[k]
  {
    forall k | k in seen ensures k in Conflicts(baseline, docs, r.digest) <==> At(docs, k) != seen[k] {
      ConflictExact(r, seen, baseline, docs, k);
    }
    assert forall k :: k in Conflicts(baseline, docs, r.digest) ==> k in seen;
  }

  lemma {:induction false} NothingDenied(writes: seq<Write>, permitted: Key -> bool)
    ensures Denied(FirstMentions(writes), permitted) == [] <==> forall k :: k in Touched(writes) ==> permitted(k)
  {
    var denied := Denied(FirstMentions(writes), permitted);
    FirstMentionsExact(writes);
    forall k ensures k in denied <==> k in Touched(writes) && !permitted(k) {
      DeniedExact(FirstMentions(writes), permitted, k);
    }
    assert denied != [] ==> denied[0] in denied;
  }

  /** There is one answer only. */
  lemma {:induction false} JudgedOnce(r: Rules, slot: Option<Integrity.Cached>, docs: State, writes: seq<Write>,
      baseline: map<Key, Option<nat>>, c: Circumstances, a: Option<Failure>, b: Option<Failure>)
    requires Judged(r, slot, docs, writes, baseline, c, a) && Judged(r, slot, docs, writes, baseline, c, b)
    ensures a == b
  {
    if a.Some? && a.value.Violations? && b.Some? && b.value.Violations? {
      assert a.value.findings == b.value.findings;
    }
  }

  /** A document's links are decided by its own content. */
  ghost predicate ParsesAlone(r: Rules) {
    forall s: State, t: State, k: Key :: ParsedAlike(GraphOf(r, s), s, GraphOf(r, t), t, k)
  }

  ghost predicate ParsedAlike(g: LinkGraph.Graph, s: State, h: LinkGraph.Graph, t: State, k: Key) {
    && (k in g <==> k in s) && (k in h <==> k in t)
    && (k in s && k in t && s[k] == t[k] ==> k in g && k in h && g[k] == h[k])
  }

  /** So the writes of a commit change the documents they name, in the graph as in the files. */
  lemma {:induction false} WritesAreLocal(r: Rules, before: State, writes: seq<Write>)
    requires ParsesAlone(r)
    ensures Soundness.SameDocuments(GraphOf(r, before), GraphOf(r, ApplyAll(before, writes)), Touched(writes))
  {
    var after := ApplyAll(before, writes);
    forall k | k !in Touched(writes)
      ensures ParsedAlike(GraphOf(r, before), before, GraphOf(r, after), after, k) && At(after, k) == At(before, k)
    {
      Untouched(before, writes, k);
    }
  }

  /** Affected-set scope, a store and rules it is sound for, and a finding it is sound about. */
  ghost predicate SoundFor(r: Rules, g: LinkGraph.Graph, writes: seq<Write>, f: AffectedSet.Finding) {
    && r.scope == AffectedSet.AffectedOnly && Soundness.StoreWalkable(r.schemas, g, Touched(writes))
    && Soundness.LocalConditions(r.schemas) && Soundness.Indexed(f.message)
  }

  /** A commit accepted in affected-set scope adds no broken link count, no link to no document and no lost chain,
      anywhere in the store; one accepted in full scope adds nothing a whole-store validation reports. */
  lemma {:induction false} AcceptedAddsNothing(r: Rules, slot: Option<Integrity.Cached>, docs: State,
      writes: seq<Write>,
      baseline: map<Key, Option<nat>>, c: Circumstances, f: AffectedSet.Finding)
    requires Judged(r, slot, docs, writes, baseline, c, None) && ParsesAlone(r)
    ensures var before := Sanitized(docs, r.clean);
            var g, h := GraphOf(r, before), GraphOf(r, ApplyAll(before, writes));
            && (SoundFor(r, g, writes, f) && AffectedSet.Stands(r.schemas, h, f) ==>
                  AffectedSet.Stands(r.schemas, g, f))
            && (r.scope == AffectedSet.Full && AffectedSet.StandsInStore(r.schemas, h, f) ==>
                  AffectedSet.StandsInStore(r.schemas, g, f))
  {
    var before := Sanitized(docs, r.clean);
    var g, h := GraphOf(r, before), GraphOf(r, ApplyAll(before, writes));
    WritesAreLocal(r, before, writes);
    assert !Breaches(r, docs, writes, f);
    if SoundFor(r, g, writes, f) {
      Soundness.IncrementalAgrees(r.schemas, g, h, Touched(writes), f);
    }
  }

  /** And it adds no debt to a `no-new` property and leaves none to a `strict` one, whether or not its cache was used;
      the cache stays right. */
  lemma {:induction false} AcceptedKeepsIntegrity(r: Rules, slot: Option<Integrity.Cached>, docs: State,
      writes: seq<Write>, baseline: map<Key, Option<nat>>, c: Circumstances)
    requires Judged(r, slot, docs, writes, baseline, c, None)
    requires Integrity.Separates(r.env) && Integrity.SlotOk(r.env, slot)
    ensures var before := Sanitized(docs, r.clean);
            var was := Integrity.DebtAt(r.env, before, r.context);
            var now := Integrity.DebtAt(r.env, ApplyAll(before, writes), r.context);
            var o := r.context.options;
            && (o.links.NoNew? ==> now.broken <= was.broken) && (o.links.Strict? ==> now.broken == {})
            && (o.orphans.NoNew? ==> now.orphans <= was.orphans) && (o.orphans.Strict? ==> now.orphans == {})
    ensures Integrity.SlotOk(r.env, SlotAfter(r, slot, docs, writes, None))
  {
    var before := Sanitized(docs, r.clean);
    var after := ApplyAll(before, writes);
    Integrity.CheckTransparent(r.env, r.context, slot, before, after);
    Integrity.AcceptedMeans(r.context.options, Integrity.DebtAt(r.env, before, r.context),
      Integrity.DebtAt(r.env, after, r.context));
  }

  /** Whatever becomes of a commit, its cache stays right. */
  lemma {:induction false} SlotStaysRight(r: Rules, slot: Option<Integrity.Cached>, docs: State, writes: seq<Write>,
      failure: Option<Failure>)
    requires Integrity.Separates(r.env) && Integrity.SlotOk(r.env, slot)
    ensures Integrity.SlotOk(r.env, SlotAfter(r, slot, docs, writes, failure))
  {
    var before := Sanitized(docs, r.clean);
    Integrity.CheckTransparent(r.env, r.context, slot, before, ApplyAll(before, writes));
  }

  /** Putting back what every written key held undoes the writes, whatever they were. */
  lemma {:induction false} RestoreUndoes(docs: State, writes: seq<Write>, restored: State)
    requires var prior := Prior(docs, writes);
             forall k :: At(restored, k) == if k in prior then prior[k] else At(ApplyAll(docs, writes), k)
    ensures restored == docs
  {
    forall k ensures At(restored, k) == At(docs, k) {
      if k !in Touched(writes) {
        Untouched(docs, writes, k);
      }
    }
    SameEverywhere(restored, docs);
  }

  // ----- The files and the transaction -----

  class Files {
    var docs: State

    constructor (docs: State)
      ensures this.docs == docs
    {
      this.docs := docs;
    }
  }

  /** Writing a document's content, or removing it, as a change of several documents asks for. */
  datatype Operation = Writing | Deleting

  datatype Changes = Changes(removes: seq<Key>, puts: seq<(Key, Content)>)

  function Removals(keys: seq<Key>): seq<Write> {
    if keys == [] then [] else Removals(keys[..|keys| - 1]) + [Remove(keys[|keys| - 1])]
  }

  function Puts(puts: seq<(Key, Content)>): seq<Write> {
    if puts == [] then [] else Puts(puts[..|puts| - 1]) + [Put(puts[|puts| - 1].0, puts[|puts| - 1].1)]
  }

  /** The permission check of one write against what the store holds: removals of absent documents are not checked. */
  predicate Allowed(check: (Key, Content, Option<Content>, Operation) -> bool, docs: State, write: Write) {
    match write
    case Put(key, content) => check(key, content, At(docs, key), Writing)
    case Remove(key) => key in docs ==> check(key, Content(""), At(docs, key), Deleting)
  }

  class ValidatingTransaction {
    const rules: Rules
    const files: Files
    /** The gate's cache, which every transaction of the process shares. */
    const cache: Integrity.DebtCache
    var pending: seq<Write>
    var baseline: map<Key, Option<nat>>
    var failed: bool
    /** What each staged key held at its first write. */
    ghost var seen: map<Key, Option<Content>>

    /** Exactly the staged keys have a baseline, and it digests what they held at their first write. */
    ghost predicate Valid()
      reads this
    {
      && Touched(pending) == seen.Keys
      && Digests(baseline, seen, rules.digest)
    }

    ghost predicate Idle()
      reads this
    {
      pending == [] && baseline == map[] && seen == map[] && !failed
    }

    constructor (rules: Rules, files: Files, cache: Integrity.DebtCache)
      ensures Valid() && Idle() && this.rules == rules && this.files == files && this.cache == cache
    {
      this.rules := rules;
      this.files := files;
      this.cache := cache;
      pending, baseline, seen, failed := [], map[], map[], false;
    }

    method Begin()
      modifies this
      ensures Valid() && Idle()
    {
      pending, baseline, seen, failed := [], map[], map[], false;
    }

    method Abort()
      modifies this
      ensures Valid() && Idle()
    {
      pending, baseline, seen, failed := [], map[], map[], false;
    }

    /** Stages a write; the baseline of its key is what the files hold at the first write to it, and later ones do not
        move it. */
    method StageWrite(write: Write)
      requires Valid()
      modifies this
      ensures Valid() && pending == old(pending) + [write] && failed == old(failed)
      ensures seen == if write.key in old(seen) then old(seen) else old(seen)[write.key := At(files.docs, write.key)]
    {
      var key := write.key;
      if key !in baseline {
        baseline := baseline[key := DigestAt(files.docs, key, rules.digest)];
        seen := seen[key := At(files.docs, key)];
      }
      pending := pending + [write];
      TouchedSnoc(pending);
      assert pending[..|pending| - 1] == old(pending);
    }

    /** A state with every pending write applied. */
    method ApplyTo(state: State) returns (after: State)
      ensures after == ApplyAll(state, pending)
    {
      after := state;
      for i := 0 to |pending|
        invariant after == ApplyAll(state, pending[..i])
      {
        ApplyStep(state, pending, i);
        match pending[i] {
          case Put(key, content) => after := after[key := content];
          case Remove(key) => after := after - {key};
        }
      }
      assert pending[..|pending|] == pending;
    }

    method TouchedKeys() returns (keys: seq<Key>)
      ensures keys == FirstMentions(pending)
    {
      keys := [];
      for i := 0 to |pending|
        invariant keys == FirstMentions(pending[..i])
      {
        assert pending[..i + 1][..i] == pending[..i];
        if pending[i].key !in keys {
          keys := keys + [pending[i].key];
        }
      }
      assert pending[..|pending|] == pending;
    }

    method ApplyPending()
      modifies files
      ensures files.docs == ApplyAll(old(files.docs), pending)
    {
      ghost var before := files.docs;
      for i := 0 to |pending|
        invariant files.docs == ApplyAll(before, pending[..i])
      {
        ApplyStep(before, pending, i);
        match pending[i] {
          case Put(key, content) => files.docs := files.docs[key := content];
          case Remove(key) => files.docs := files.docs - {key};
        }
      }
      assert pending[..|pending|] == pending;
    }

    /** Puts every key of `prior` back, in any order. */
    method Restore(prior: map<Key, Option<Content>>)
      modifies files
      ensures forall k :: At(files.docs, k) == if k in prior then prior[k] else At(old(files.docs), k)
    {
      var todo := prior.Keys;
      while todo != {}
        invariant todo <= prior.Keys
        invariant forall k :: At(files.docs, k) == if k in prior && k !in todo then prior[k] else At(old(files.docs), k)
        decreases |todo|
      {
        var key :| key in todo;
        files.docs := SetAt(files.docs, key, prior[key]);
        todo := todo - {key};
      }
    }

    /** The schema validation and the integrity gate, on the states as read. */
    method JudgeStates(touched: seq<Key>) returns (failure: Option<Failure>, landed: Option<Integrity.Cached>)
      requires LinkGraph.SetOf(touched) == Touched(pending)
      modifies cache
      ensures if exists f :: Breaches(rules, files.docs, pending, f) then
                && failure.Some? && failure.value.Violations? && cache.slot == old(cache.slot)
                && forall f :: f in failure.value.findings <==> Breaches(rules, files.docs, pending, f)
              else
                var checked := Gate(rules, old(cache.slot), files.docs, pending);
                && cache.slot == checked.slot && landed == checked.landed
                && failure == match checked.verdict {
                     case Accepted(_) => None
                     case Refused(broken, orphans) => Some(BreaksIntegrity(broken, orphans))
                   }
    {
      var before := Sanitized(files.docs, rules.clean);
      var after := ApplyTo(before);
      landed := None;
      var introduced :=
        AffectedSet.ValidateFinalState(rules.schemas, rules.scope, GraphOf(rules, before), GraphOf(rules, after),
          touched);
      assert forall f :: f in introduced <==> Breaches(rules, files.docs, pending, f);
      if introduced != {} {
        return Some(Violations(introduced)), None;
      }
      var verdict;
      verdict, landed := Integrity.CheckIntegrity(rules.env, rules.context, before, after, cache);
      match verdict {
        case Accepted(_) => failure := None;
        case Refused(broken, orphans) => failure := Some(BreaksIntegrity(broken, orphans));
      }
    }

    /** The commit under the lock. Nothing is left on disk of a commit that is not accepted. */
    method CommitLocked(c: Circumstances) returns (failure: Option<Failure>)
      requires Valid() && c.locking != TimedOut
      modifies files, cache
      ensures Judged(rules, old(cache.slot), old(files.docs), pending, baseline, c, failure)
      ensures cache.slot == SlotAfter(rules, old(cache.slot), old(files.docs), pending, failure)
      ensures files.docs == if failure == None then ApplyAll(old(files.docs), pending) else old(files.docs)
    {
      var conflicts := Conflicts(baseline, files.docs, rules.digest);
      if conflicts != {} {
        return Some(Conflict(conflicts));
      }
      var touched := TouchedKeys();
      FirstMentionsExact(pending);
      assert LinkGraph.SetOf(touched) == Touched(pending);
      var denied := Denied(touched, rules.permitted);
      if denied != [] {
        return Some(WriteScopeDenied(denied));
      }
      var landed;
      failure, landed := JudgeStates(touched);
      if failure.Some? {
        return;
      }
      if c.locking == Locked && !c.current {
        return Some(LockStale);
      }
      failure := ApplyChecked(touched, c.checkersAccept);
      if failure == None && landed.Some? {
        cache.Put(landed.value.digest, landed.value.debt);
      }
    }

    /** Applies, runs the checkers on the result, and puts everything back when they reject it. */
    method ApplyChecked(touched: seq<Key>, accepted: bool) returns (failure: Option<Failure>)
      requires LinkGraph.SetOf(touched) == Touched(pending)
      modifies files
      ensures failure == if accepted then None else Some(CheckerFailed)
      ensures files.docs == if accepted then ApplyAll(old(files.docs), pending) else old(files.docs)
    {
      assert forall k :: k in touched <==> k in LinkGraph.SetOf(touched);
      var prior := map k | k in touched :: At(files.docs, k);
      assert prior == Prior(files.docs, pending);
      ApplyPending();
      if accepted {
        return None;
      }
      Restore(prior);
      RestoreUndoes(old(files.docs), pending, files.docs);
      failure := Some(CheckerFailed);
    }

    /** All or nothing, for any pending list: an accepted commit leaves the files as the writes make them and the
        transaction empty; a refused one leaves both as they were. */
    method Commit(c: Circumstances) returns (outcome: Outcome)
      requires Valid()
      modifies this, files, cache
      ensures Valid() && failed == old(failed)
      ensures outcome == FailedState <==> failed
      ensures !failed && old(pending) == [] ==> outcome == Committed && files.docs == old(files.docs)
      ensures !failed && old(pending) != [] ==>
                Judged(rules, old(cache.slot), old(files.docs), old(pending), old(baseline), c,
                  if outcome.Refused? then Some(outcome.failure) else None)
      ensures outcome == Committed ==> Idle() && files.docs == ApplyAll(old(files.docs), old(pending))
      ensures outcome != Committed ==> pending == old(pending) && baseline == old(baseline) && seen == old(seen)
      ensures outcome != Committed ==> files.docs == old(files.docs)
      ensures !failed && old(pending) != [] && (c.locking == TimedOut || !c.checkersAccept) ==>
                outcome.Refused? && files.docs == old(files.docs)
      ensures cache.slot == if failed || old(pending) == [] then old(cache.slot)
                            else SlotAfter(rules, old(cache.slot), old(files.docs), old(pending),
                                   if outcome.Refused? then Some(outcome.failure) else None)
    {
      if failed {
        return FailedState;
      }
      if pending == [] {
        baseline, seen := map[], map[];
        return Committed;
      }
      if c.locking == TimedOut {
        return Refused(LockTimeout);
      }
      var failure := CommitLocked(c);
      if failure == None {
        pending, baseline, seen := [], map[], map[];
        outcome := Committed;
      } else {
        outcome := Refused(failure.value);
      }
    }

    /** Commits, and aborts when the commit is refused, so that the transaction can be used again. */
    method CommitOrAbort(c: Circumstances) returns (ok: bool)
      requires Valid()
      modifies this, files, cache
      ensures Valid() && Idle()
      ensures old(failed) ==> !ok
      ensures !old(failed) && old(pending) == [] ==> ok
      ensures !old(failed) && old(pending) != [] ==>
                (ok <==> Judged(rules, old(cache.slot), old(files.docs), old(pending), old(baseline), c, None))
      ensures old(pending) != [] && (c.locking == TimedOut || !c.checkersAccept) ==> !ok
      ensures files.docs == if ok then ApplyAll(old(files.docs), old(pending)) else old(files.docs)
    {
      var outcome := Commit(c);
      ok := outcome == Committed;
      if !ok {
        Abort();
      }
    }

    /** Stages one write and checks its permission; a denied write aborts the transaction. */
    method StageChecked(write: Write, check: (Key, Content, Option<Content>, Operation) -> bool) returns (ok: bool)
      requires Valid() && !failed
      modifies this
      ensures Valid() && !failed && ok == Allowed(check, files.docs, write)
      ensures if ok then
                pending == old(pending) + [write]
                && seen ==
                   if write.key in old(seen) then old(seen) else old(seen)[write.key := At(files.docs, write.key)]
              else Idle()
    {
      StageWrite(write);
      ok := Allowed(check, files.docs, write);
      if !ok {
        Abort();
      }
    }

    /** Stages the removals of a change, stopping at the first that is denied. */
    method StageRemovals(keys: seq<Key>, check: (Key, Content, Option<Content>, Operation) -> bool) returns (ok: bool)
      requires Valid() && Idle()
      modifies this
      ensures Valid() && !failed && AsNow(seen, files.docs)
      ensures ok <==> forall n :: 0 <= n < |keys| ==> Allowed(check, files.docs, Remove(keys[n]))
      ensures if ok then pending == Removals(keys) else Idle()
    {
      for i := 0 to |keys|
        invariant Valid() && !failed && AsNow(seen, files.docs)
        invariant pending == Removals(keys[..i])
        invariant forall n :: 0 <= n < i ==> Allowed(check, files.docs, Remove(keys[n]))
      {
        ok := StageChecked(Remove(keys[i]), check);
        if !ok {
          return;
        }
        assert keys[..i + 1][..i] == keys[..i];
      }
      assert keys[..|keys|] == keys;
      ok := true;
    }

    /** Stages the documents a change creates or updates, stopping at the first that is denied. */
    method StagePuts(puts: seq<(Key, Content)>, check: (Key, Content, Option<Content>, Operation) -> bool)
        returns (ok: bool)
      requires Valid() && !failed && AsNow(seen, files.docs)
      modifies this
      ensures Valid() && !failed && AsNow(seen, files.docs)
      ensures ok <==> forall n :: 0 <= n < |puts| ==> Allowed(check, files.docs, Put(puts[n].0, puts[n].1))
      ensures if ok then pending == old(pending) + Puts(puts) else Idle()
    {
      for i := 0 to |puts|
        invariant Valid() && !failed && AsNow(seen, files.docs)
        invariant pending == old(pending) + Puts(puts[..i])
        invariant forall n :: 0 <= n < i ==> Allowed(check, files.docs, Put(puts[n].0, puts[n].1))
      {
        ok := StageChecked(Put(puts[i].0, puts[i].1), check);
        if !ok {
          return;
        }
        assert puts[..i + 1][..i] == puts[..i];
      }
      assert puts[..|puts|] == puts;
      ok := true;
    }

    /** One transaction over a whole change: either every write is permitted and the commit accepts them as one final
        state, or nothing of the change is on disk. */
    method ApplyChanges(changes: Changes, check: (Key, Content, Option<Content>, Operation) -> bool, c: Circumstances)
        returns (ok: bool)
      modifies this, files, cache
      ensures Valid() && Idle()
      ensures ok <==>
                && AllAllowed(check, old(files.docs), WritesOf(changes))
                && Accepted(rules, old(cache.slot), old(files.docs), WritesOf(changes), c)
      ensures files.docs == if ok then ApplyAll(old(files.docs), WritesOf(changes)) else old(files.docs)
      ensures WritesOf(changes) != [] && (c.locking == TimedOut || !c.checkersAccept) ==> !ok
    {
      ghost var writes := WritesOf(changes);
      AllAllowedParts(check, files.docs, changes);
      Begin();
      ok := StageRemovals(changes.removes, check);
      if !ok {
        return;
      }
      ok := StagePuts(changes.puts, check);
      if !ok {
        return;
      }
      assert baseline == BaselineNow(files.docs, writes, rules.digest);
      ok := CommitOrAbort(c);
    }
  }

  function WritesOf(changes: Changes): seq<Write> {
    Removals(changes.removes) + Puts(changes.puts)
  }

  predicate AllAllowed(check: (Key, Content, Option<Content>, Operation) -> bool, docs: State, writes: seq<Write>) {
    forall n :: 0 <= n < |writes| ==> Allowed(check, docs, writes[n])
  }

  /** The baseline of writes staged against one unchanging store. */
  function BaselineNow(docs: State, writes: seq<Write>, digest: Content -> nat): map<Key, Option<nat>> {
    map k | k in Touched(writes) :: DigestAt(docs, k, digest)
  }

  /** Nothing stands against these writes, staged and committed while nobody else changes the store. */
  ghost predicate Accepted(r: Rules, slot: Option<Integrity.Cached>, docs: State, writes: seq<Write>,
      c: Circumstances) {
    writes == [] || Judged(r, slot, docs, writes, BaselineNow(docs, writes, r.digest), c, None)
  }

  lemma {:induction false} AllAllowedParts(check: (Key, Content, Option<Content>, Operation) -> bool, docs: State,
      changes: Changes)
    ensures AllAllowed(check, docs, WritesOf(changes)) <==>
              (forall n :: 0 <= n < |changes.removes| ==> Allowed(check, docs, Remove(changes.removes[n])))
              && (forall n :: 0 <= n < |changes.puts| ==>
                    Allowed(check, docs, Put(changes.puts[n].0, changes.puts[n].1)))
  {
    var r, p, writes := |changes.removes|, |changes.puts|, WritesOf(changes);
    WritesAt(changes);
    forall n | 0 <= n < r ensures writes[n] == Remove(changes.removes[n]) {
    }
    forall n | 0 <= n < p ensures writes[r + n] == Put(changes.puts[n].0, changes.puts[n].1) {
    }
    forall n | r <= n < r + p ensures writes[n] == Put(changes.puts[n - r].0, changes.puts[n - r].1) {
      assert writes[r + (n - r)] == writes[n];
    }
  }

  /** The writes of a change: first the removals, then what it creates and updates. */
  lemma {:induction false} WritesAt(changes: Changes)
    ensures var r, p, writes := |changes.removes|, |changes.puts|, WritesOf(changes);
            && |writes| == r + p
            && (forall n :: 0 <= n < r ==> writes[n] == Remove(changes.removes[n]))
            && (forall n :: 0 <= n < p ==> writes[r + n] == Put(changes.puts[n].0, changes.puts[n].1))
  {
    var r, p, writes := |changes.removes|, |changes.puts|, WritesOf(changes);
    RemovalsLength(changes.removes);
    PutsLength(changes.puts);
    forall n | 0 <= n < r ensures writes[n] == Remove(changes.removes[n]) {
      RemovalsAt(changes.removes, n);
    }
    forall n | 0 <= n < p ensures writes[r + n] == Put(changes.puts[n].0, changes.puts[n].1) {
      PutsAt(changes.puts, n);
    }
  }

  /** The permission check is asked about every document created or updated, and about every removal of a document that
      is there, each against what the store holds. */
  lemma {:induction false} AllowedMeans(check: (Key, Content, Option<Content>, Operation) -> bool, docs: State,
      changes: Changes)
    ensures AllAllowed(check, docs, WritesOf(changes)) <==>
              && (forall k :: k in changes.removes && k in docs ==> check(k, Content(""), Some(docs[k]), Deleting))
              && (forall x :: x in changes.puts ==> check(x.0, x.1, At(docs, x.0), Writing))
  {
    AllAllowedParts(check, docs, changes);
    forall n | 0 <= n < |changes.removes|
      ensures Allowed(check, docs, Remove(changes.removes[n])) <==>
              (changes.removes[n] in docs ==>
                 check(changes.removes[n], Content(""), Some(docs[changes.removes[n]]), Deleting))
    {
    }
    forall x | x in changes.puts ensures exists n :: 0 <= n < |changes.puts| && changes.puts[n] == (x.0, x.1) {
    }
  }

  /** What a change leaves: the last content it puts under a key, */
  lemma {:induction false} PutLands(docs: State, changes: Changes, n: nat)
    requires n < |changes.puts|
    requires forall m :: n < m < |changes.puts| ==> changes.puts[m].0 != changes.puts[n].0
    ensures At(ApplyAll(docs, WritesOf(changes)), changes.puts[n].0) == Some(changes.puts[n].1)
  {
    var r, writes := |changes.removes|, WritesOf(changes);
    WritesAt(changes);
    forall m | r + n < m < |writes| ensures writes[m].key != changes.puts[n].0 {
      assert writes[r + (m - r)].key == changes.puts[m - r].0;
    }
    LastWriteCounts(docs, writes, r + n);
  }

  /** nothing under a key it only removes, and everything else as it was. */
  lemma {:induction false} UnputLands(docs: State, changes: Changes, key: Key)
    requires forall n :: 0 <= n < |changes.puts| ==> changes.puts[n].0 != key
    ensures At(ApplyAll(docs, WritesOf(changes)), key) == if key in changes.removes then None else At(docs, key)
  {
    var r, writes := |changes.removes|, WritesOf(changes);
    WritesAt(changes);
    forall m | r <= m < |writes| ensures writes[m].key != key {
      assert writes[r + (m - r)].key == changes.puts[m - r].0;
    }
    if key in changes.removes {
      var n := LastRemoval(changes.removes, key);
      LastWriteCounts(docs, writes, n);
    } else {
      Untouched(docs, writes, key);
    }
  }

  lemma {:induction false} LastRemoval(keys: seq<Key>, key: Key) returns (n: nat)
    requires key in keys
    ensures n < |keys| && keys[n] == key && forall m :: n < m < |keys| ==> keys[m] != key
  {
    n := |keys| - 1;
    if keys[n] != key {
      n := LastRemoval(keys[..n], key);
    }
  }

  ghost predicate AsNow(seen: map<Key, Option<Content>>, docs: State) {
    forall k :: k in seen ==> seen[k] == At(docs, k)
  }

  lemma {:induction false} RemovalsLength(keys: seq<Key>)
    ensures |Removals(keys)| == |keys|
  {
    if keys != [] {
      RemovalsLength(keys[..|keys| - 1]);
    }
  }

  lemma {:induction false} RemovalsAt(keys: seq<Key>, n: nat)
    requires n < |keys|
    ensures n < |Removals(keys)| && Removals(keys)[n] == Remove(keys[n])
  {
    RemovalsLength(keys);
    RemovalsLength(keys[..|keys| - 1]);
    if n < |keys| - 1 {
      RemovalsAt(keys[..|keys| - 1], n);
    }
  }

  lemma {:induction false} PutsLength(puts: seq<(Key, Content)>)
    ensures |Puts(puts)| == |puts|
  {
    if puts != [] {
      PutsLength(puts[..|puts| - 1]);
    }
  }

  lemma {:induction false} PutsAt(puts: seq<(Key, Content)>, n: nat)
    requires n < |puts|
    ensures n < |Puts(puts)| && Puts(puts)[n] == Put(puts[n].0, puts[n].1)
  {
    PutsLength(puts);
    PutsLength(puts[..|puts| - 1]);
    if n < |puts| - 1 {
      PutsAt(puts[..|puts| - 1], n);
    }
  }
}
