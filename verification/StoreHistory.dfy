/**
 What judging single commits comes to over the history of a store that any number of writers commit to at once: the
 interleavings of the commit protocol, with the judgement of the validating transaction.
 */
module StoreHistory {
  import opened Keys
  import opened Store
  import AffectedSet
  import CommitProtocol
  import Integrity
  import LinkGraph
  import Soundness
  import Transaction

  /** A transaction over these files accepts the writes, with whatever its cache rightly holds. */
  ghost predicate Accepted(r: Transaction.Rules, docs: State, writes: seq<Write>) {
    exists slot, baseline, circumstances :: Integrity.SlotOk(r.env, slot)
      && Transaction.Judged(r, slot, docs, writes, baseline, circumstances, None)
  }

  /** So do files that are read as this state. */
  ghost predicate AcceptedAsRead(r: Transaction.Rules, read: State, writes: seq<Write>) {
    exists docs :: Sanitized(docs, r.clean) == read && Accepted(r, docs, writes)
  }

  /** Writers that read and judge as the transaction does. */
  ghost function Judging(r: Transaction.Rules, staleAfter: nat): CommitProtocol.Config {
    CommitProtocol.Config(staleAfter, r.clean,
                          (before: State, after: State, writes: seq<Write>) => AcceptedAsRead(r, before, writes))
  }

  /** The history of the store after a run of such writers. */
  ghost function History(r: Transaction.Rules, staleAfter: nat, start: CommitProtocol.World,
      steps: seq<CommitProtocol.Step>): seq<CommitProtocol.Entry> {
    CommitProtocol.After(Judging(r, staleAfter), start, steps, true).log
  }

  /** What a commit in the history replaced is what it read, and it was accepted over that. */
  lemma {:induction false} CommittedAsJudged(r: Transaction.Rules, staleAfter: nat, start: CommitProtocol.World,
      steps: seq<CommitProtocol.Step>, n: nat)
    requires CommitProtocol.Initial(start) && n < |History(r, staleAfter, start, steps)|
    requires History(r, staleAfter, start, steps)[n].Committed?
    ensures var e := History(r, staleAfter, start, steps)[n];
            && e.read == Sanitized(e.pre, r.clean) && e.post == ApplyAll(e.pre, e.writes)
            && AcceptedAsRead(r, e.read, e.writes)
  {
    CommitProtocol.CommitIsAtomic(Judging(r, staleAfter), start, steps, n);
  }

  // ----- One commit -----

  /** An accepted commit leaves no finding of the kinds its scope is sound for that did not stand before. */
  lemma {:induction false} JudgedAddsNothing(r: Transaction.Rules, read: State, writes: seq<Write>,
      f: AffectedSet.Finding)
    requires AcceptedAsRead(r, read, writes) && Transaction.ParsesAlone(r)
    ensures var g, h := Transaction.GraphOf(r, read), Transaction.GraphOf(r, ApplyAll(read, writes));
            && (Transaction.SoundFor(r, g, writes, f) && AffectedSet.Stands(r.schemas, h, f) ==>
                  AffectedSet.Stands(r.schemas, g, f))
            && (r.scope == AffectedSet.Full && AffectedSet.StandsInStore(r.schemas, h, f) ==>
                  AffectedSet.StandsInStore(r.schemas, g, f))
  {
    var docs :| Sanitized(docs, r.clean) == read && Accepted(r, docs, writes);
    var slot, baseline, circumstances :| Integrity.SlotOk(r.env, slot)
      && Transaction.Judged(r, slot, docs, writes, baseline, circumstances, None);
    Transaction.AcceptedAddsNothing(r, slot, docs, writes, baseline, circumstances, f);
  }

  /** Where a property is `no-new`, nothing is broken now that was not before. */
  ghost predicate NoMoreDebt(o: Integrity.Options, was: Integrity.Debt, now: Integrity.Debt) {
    && (o.links.NoNew? ==> now.broken <= was.broken)
    && (o.orphans.NoNew? ==> now.orphans <= was.orphans)
  }

  /** Where a property is `strict`, nothing is broken. */
  ghost predicate NoStrictDebt(o: Integrity.Options, now: Integrity.Debt) {
    && (o.links.Strict? ==> now.broken == {})
    && (o.orphans.Strict? ==> now.orphans == {})
  }

  /** It adds no `no-new` debt and leaves no `strict` debt. */
  lemma {:induction false} JudgedKeepsIntegrity(r: Transaction.Rules, read: State, writes: seq<Write>)
    requires AcceptedAsRead(r, read, writes) && Integrity.Separates(r.env)
    ensures var was := Integrity.DebtAt(r.env, read, r.context);
            var now := Integrity.DebtAt(r.env, ApplyAll(read, writes), r.context);
            NoMoreDebt(r.context.options, was, now) && NoStrictDebt(r.context.options, now)
  {
    var docs :| Sanitized(docs, r.clean) == read && Accepted(r, docs, writes);
    var slot, baseline, circumstances :| Integrity.SlotOk(r.env, slot)
      && Transaction.Judged(r, slot, docs, writes, baseline, circumstances, None);
    Transaction.AcceptedKeepsIntegrity(r, slot, docs, writes, baseline, circumstances);
  }

  /** And it writes permitted keys only. */
  lemma {:induction false} JudgedIsPermitted(r: Transaction.Rules, read: State, writes: seq<Write>, key: Key)
    requires AcceptedAsRead(r, read, writes) && key in Touched(writes)
    ensures r.permitted(key)
  {
    var docs :| Sanitized(docs, r.clean) == read && Accepted(r, docs, writes);
    var slot, baseline, circumstances :| Integrity.SlotOk(r.env, slot)
      && Transaction.Judged(r, slot, docs, writes, baseline, circumstances, None);
    Transaction.FirstMentionsExact(writes);
    Transaction.DeniedExact(Transaction.FirstMentions(writes), r.permitted, key);
  }

  // ----- The store as it is read along the history -----

  /** Contents that cleaning leaves alone: no byte-order mark, unified line endings. */
  ghost predicate CleanWrites(clean: Content -> Content, writes: seq<Write>) {
    forall i :: 0 <= i < |writes| && writes[i].Put? ==> clean(writes[i].content) == writes[i].content
  }

  /** Clean writes land as they were judged: what is read afterwards is the state that was validated. */
  lemma {:induction false} LandsAsJudged(state: State, writes: seq<Write>, clean: Content -> Content)
    requires CleanWrites(clean, writes)
    ensures Sanitized(ApplyAll(state, writes), clean) == ApplyAll(Sanitized(state, clean), writes)
  {
    if writes != [] {
      var front, last := writes[..|writes| - 1], writes[|writes| - 1];
      LandsAsJudged(state, front, clean);
      SanitizedWrite(ApplyAll(state, front), last, clean);
    }
  }

  /** The store after the first `n` entries of the history, as a commit reads it. */
  ghost function ReadAfter(r: Transaction.Rules, start: State, log: seq<CommitProtocol.Entry>, n: nat): State
    requires n <= |log|
  {
    Sanitized(CommitProtocol.Latest(start, log[..n]), r.clean)
  }

  ghost function GraphAfter(r: Transaction.Rules, start: State, log: seq<CommitProtocol.Entry>, n: nat): LinkGraph.Graph
    requires n <= |log|
  {
    Transaction.GraphOf(r, ReadAfter(r, start, log, n))
  }

  /** From entry `m` up to entry `n` nobody crashed while writing files, and what was written is clean. */
  ghost predicate Uninterrupted(r: Transaction.Rules, log: seq<CommitProtocol.Entry>, m: nat, n: nat)
    requires n <= |log|
  {
    forall k :: m <= k < n ==> log[k].Committed? && CleanWrites(r.clean, log[k].writes)
  }

  /** Each commit takes the store as read before it to the state it judged. */
  lemma {:induction false} EachLands(r: Transaction.Rules, staleAfter: nat, start: CommitProtocol.World,
      steps: seq<CommitProtocol.Step>, n: nat)
    requires CommitProtocol.Initial(start) && n < |History(r, staleAfter, start, steps)|
    requires Uninterrupted(r, History(r, staleAfter, start, steps), n, n + 1)
    ensures var log := History(r, staleAfter, start, steps);
            var read := ReadAfter(r, start.docs, log, n);
            && ReadAfter(r, start.docs, log, n + 1) == ApplyAll(read, log[n].writes)
            && AcceptedAsRead(r, read, log[n].writes)
  {
    var log := History(r, staleAfter, start, steps);
    var e := log[n];
    CommittedAsJudged(r, staleAfter, start, steps, n);
    PreIsLatest(r, staleAfter, start, steps, n);
    assert log[..n + 1][n] == e;
    LandsAsJudged(e.pre, e.writes, r.clean);
  }

  /** It takes the store from where the history before it ends. */
  lemma {:induction false} PreIsLatest(r: Transaction.Rules, staleAfter: nat, start: CommitProtocol.World,
      steps: seq<CommitProtocol.Step>, n: nat)
    requires CommitProtocol.Initial(start) && n < |History(r, staleAfter, start, steps)|
    ensures var log := History(r, staleAfter, start, steps);
            log[n].pre == CommitProtocol.Latest(start.docs, log[..n])
  {
    CommitProtocol.RunKeeps(Judging(r, staleAfter), start, steps);
  }

  ghost function DebtAfter(r: Transaction.Rules, start: State, log: seq<CommitProtocol.Entry>, n: nat): Integrity.Debt
    requires n <= |log|
  {
    Integrity.DebtAt(r.env, ReadAfter(r, start, log, n), r.context)
  }

  // ----- Whole histories -----

  /** The next commit of the history adds nothing to what the store is reported for. */
  lemma {:induction false} NextAddsNothing(r: Transaction.Rules, staleAfter: nat, start: CommitProtocol.World,
      steps: seq<CommitProtocol.Step>, n: nat, f: AffectedSet.Finding)
    requires CommitProtocol.Initial(start) && n < |History(r, staleAfter, start, steps)|
    requires Uninterrupted(r, History(r, staleAfter, start, steps), n, n + 1) && Transaction.ParsesAlone(r)
    ensures var log := History(r, staleAfter, start, steps);
            var g, h := GraphAfter(r, start.docs, log, n), GraphAfter(r, start.docs, log, n + 1);
            && (Transaction.SoundFor(r, g, log[n].writes, f) && AffectedSet.Stands(r.schemas, h, f) ==>
                  AffectedSet.Stands(r.schemas, g, f))
            && (r.scope == AffectedSet.Full && AffectedSet.StandsInStore(r.schemas, h, f) ==>
                  AffectedSet.StandsInStore(r.schemas, g, f))
  {
    var log := History(r, staleAfter, start, steps);
    EachLands(r, staleAfter, start, steps, n);
    JudgedAddsNothing(r, ReadAfter(r, start.docs, log, n), log[n].writes, f);
  }

  lemma {:induction false} NextKeepsIntegrity(r: Transaction.Rules, staleAfter: nat, start: CommitProtocol.World,
      steps: seq<CommitProtocol.Step>, n: nat)
    requires CommitProtocol.Initial(start) && n < |History(r, staleAfter, start, steps)|
    requires Uninterrupted(r, History(r, staleAfter, start, steps), n, n + 1) && Integrity.Separates(r.env)
    ensures var log := History(r, staleAfter, start, steps);
            var was, now := DebtAfter(r, start.docs, log, n), DebtAfter(r, start.docs, log, n + 1);
            NoMoreDebt(r.context.options, was, now) && NoStrictDebt(r.context.options, now)
  {
    var log := History(r, staleAfter, start, steps);
    EachLands(r, staleAfter, start, steps, n);
    JudgedKeepsIntegrity(r, ReadAfter(r, start.docs, log, n), log[n].writes);
  }

  /** In full scope, whatever a whole-store validation reports after any number of interleaved commits stood before
      them. */
  lemma {:induction false} HistoryAddsNothing(r: Transaction.Rules, staleAfter: nat, start: CommitProtocol.World,
      steps: seq<CommitProtocol.Step>, m: nat, n: nat, f: AffectedSet.Finding)
    requires CommitProtocol.Initial(start) && m <= n <= |History(r, staleAfter, start, steps)|
    requires Uninterrupted(r, History(r, staleAfter, start, steps), m, n)
    requires Transaction.ParsesAlone(r) && r.scope == AffectedSet.Full
    requires AffectedSet.StandsInStore(r.schemas, GraphAfter(r, start.docs, History(r, staleAfter, start, steps), n), f)
    ensures AffectedSet.StandsInStore(r.schemas, GraphAfter(r, start.docs, History(r, staleAfter, start, steps), m), f)
    decreases n - m
  {
    if m < n {
      NextAddsNothing(r, staleAfter, start, steps, n - 1, f);
      HistoryAddsNothing(r, staleAfter, start, steps, m, n - 1, f);
    }
  }

  /** Every commit from entry `m` up to entry `n` met a store that affected-set scope is sound for. */
  ghost predicate SoundAlong(r: Transaction.Rules, start: State, log: seq<CommitProtocol.Entry>, m: nat, n: nat,
      f: AffectedSet.Finding)
    requires n <= |log| && Uninterrupted(r, log, m, n)
  {
    forall k :: m <= k < n ==> Transaction.SoundFor(r, GraphAfter(r, start, log, k), log[k].writes, f)
  }

  /** In affected-set scope the same holds of link counts, links to no document and chains, over walkable stores. */
  lemma {:induction false} AffectedHistoryAddsNothing(r: Transaction.Rules, staleAfter: nat,
      start: CommitProtocol.World, steps: seq<CommitProtocol.Step>, m: nat, n: nat, f: AffectedSet.Finding)
    requires CommitProtocol.Initial(start) && m <= n <= |History(r, staleAfter, start, steps)|
    requires Uninterrupted(r, History(r, staleAfter, start, steps), m, n) && Transaction.ParsesAlone(r)
    requires SoundAlong(r, start.docs, History(r, staleAfter, start, steps), m, n, f)
    requires AffectedSet.Stands(r.schemas, GraphAfter(r, start.docs, History(r, staleAfter, start, steps), n), f)
    ensures AffectedSet.Stands(r.schemas, GraphAfter(r, start.docs, History(r, staleAfter, start, steps), m), f)
    decreases n - m
  {
    if m < n {
      NextAddsNothing(r, staleAfter, start, steps, n - 1, f);
      AffectedHistoryAddsNothing(r, staleAfter, start, steps, m, n - 1, f);
    }
  }

  /** Over interleaved commits a `no-new` property's debt only shrinks, and after each of them a `strict` property has
      none. */
  lemma {:induction false} HistoryKeepsIntegrity(r: Transaction.Rules, staleAfter: nat, start: CommitProtocol.World,
      steps: seq<CommitProtocol.Step>, m: nat, n: nat)
    requires CommitProtocol.Initial(start) && m <= n <= |History(r, staleAfter, start, steps)|
    requires Uninterrupted(r, History(r, staleAfter, start, steps), m, n) && Integrity.Separates(r.env)
    ensures var log := History(r, staleAfter, start, steps);
            var was, now := DebtAfter(r, start.docs, log, m), DebtAfter(r, start.docs, log, n);
            && NoMoreDebt(r.context.options, was, now)
            && (m < n ==> NoStrictDebt(r.context.options, now))
    decreases n - m
  {
    if m < n {
      NextKeepsIntegrity(r, staleAfter, start, steps, n - 1);
      HistoryKeepsIntegrity(r, staleAfter, start, steps, m, n - 1);
    }
  }

  /** And every document that changed along the way was one the configuration permits to write. */
  lemma {:induction false} HistoryIsPermitted(r: Transaction.Rules, staleAfter: nat, start: CommitProtocol.World,
      steps: seq<CommitProtocol.Step>, m: nat, n: nat, key: Key)
    requires CommitProtocol.Initial(start) && m <= n <= |History(r, staleAfter, start, steps)|
    requires forall k :: m <= k < n ==> History(r, staleAfter, start, steps)[k].Committed?
    requires !r.permitted(key)
    ensures var log := History(r, staleAfter, start, steps);
            At(CommitProtocol.Latest(start.docs, log[..n]), key) == At(CommitProtocol.Latest(start.docs, log[..m]), key)
    decreases n - m
  {
    if m < n {
      var log := History(r, staleAfter, start, steps);
      var e := log[n - 1];
      CommittedAsJudged(r, staleAfter, start, steps, n - 1);
      PreIsLatest(r, staleAfter, start, steps, n - 1);
      if key in Touched(e.writes) {
        JudgedIsPermitted(r, e.read, e.writes, key);
      }
      Untouched(e.pre, e.writes, key);
      assert log[..n][n - 1] == e;
      HistoryIsPermitted(r, staleAfter, start, steps, m, n - 1, key);
    }
  }
}
