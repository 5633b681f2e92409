/**
 Structural link integrity: broken links and orphans, the gate that refuses a commit which adds or leaves them, and the
 one-slot cache that saves computing the debt of a state that was just landed.
 */
module Integrity {
  import opened Keys
  import opened Store
  import opened Paths
  import opened LinkGraph

  datatype Mode = Off | NoNew | Strict

  datatype Options = Options(links: Mode, orphans: Mode, root: Key)

  /** The broken links, by source and target, and the orphans of a state. */
  datatype Debt = Debt(broken: set<(Key, Key)>, orphans: set<Key>)

  /** What a state's debt depends on besides the documents. */
  datatype Context = Context(format: string, options: Options)

  /** Parsing, which keys are not external addresses, and the fingerprint of a state with its context. */
  datatype Env = Env(parse: (State, string) -> Graph, internal: Key -> bool, digest: (State, Context) -> nat)

  const NO_DEBT := Debt({}, {})

  predicate Enabled(o: Options) {
    !o.links.Off? || !o.orphans.Off?
  }

  // ----- What debt is -----

  function Inclusions(doc: Document): set<Key> {
    set i, k | 0 <= i < |doc.blocks| && doc.blocks[i].inclusion && k in doc.blocks[i].targets :: k
  }

  /** A link to no document; an inclusion always counts, a reference when it is not an external address. */
  predicate Broken(g: Graph, internal: Key -> bool, source: Key, target: Key) {
    && source in g && target !in g
    && (target in Inclusions(g[source]) || (target in References(g[source]) && internal(target)))
  }

  /** Links and inclusions between existing documents. */
  function LiveEdges(g: Graph): Edges {
    map k | k in g :: Links(g[k]) * g.Keys
  }

  ghost predicate Reachable(g: Graph, root: Key, k: Key) {
    root in g && (k == root || Leads(LiveEdges(g), root, k))
  }

  /** The debt is the broken links and the unreachable documents, each only if its property is looked at. */
  ghost predicate IsDebt(g: Graph, o: Options, internal: Key -> bool, d: Debt) {
    && (forall s, t :: (s, t) in d.broken <==> !o.links.Off? && Broken(g, internal, s, t))
    && (forall k :: k in d.orphans <==> !o.orphans.Off? && k in g && !Reachable(g, o.root, k))
  }

  lemma {:induction false} DebtUnique(g: Graph, o: Options, internal: Key -> bool, a: Debt, b: Debt)
    requires IsDebt(g, o, internal, a) && IsDebt(g, o, internal, b)
    ensures a == b
  {
    forall p ensures p in a.broken <==> p in b.broken {
      assert p == (p.0, p.1);
    }
    assert a.broken == b.broken && a.orphans == b.orphans;
  }

  ghost function DebtOf(g: Graph, o: Options, internal: Key -> bool): (d: Debt)
    ensures IsDebt(g, o, internal, d)
  {
    var broken := set s, t | s in g && t in Links(g[s]) && !o.links.Off? && Broken(g, internal, s, t) :: (s, t);
    Debt(broken, set k | k in g && !o.orphans.Off? && !Reachable(g, o.root, k))
  }

  ghost function DebtAt(env: Env, state: State, c: Context): Debt {
    DebtOf(env.parse(state, c.format), c.options, env.internal)
  }

  // ----- Computing it -----

  ghost predicate AllReached(g: Graph, root: Key, seen: set<Key>) {
    forall k :: k in seen ==> k == root || Leads(LiveEdges(g), root, k)
  }

  ghost predicate Explored(g: Graph, seen: set<Key>, queue: seq<Key>) {
    forall k :: k in seen && k !in queue ==> Next(LiveEdges(g), k) <= seen
  }

  lemma {:induction false} Explores(g: Graph, root: Key, seen: set<Key>, current: Key, rest: seq<Key>,
      seen': set<Key>, queue': seq<Key>)
    requires AllReached(g, root, seen) && Explored(g, seen, [current] + rest) && current in seen
    requires seen' == seen + Next(LiveEdges(g), current) && Queued(seen, rest, seen', queue')
    ensures AllReached(g, root, seen') && Explored(g, seen', queue')
  {
    var e := LiveEdges(g);
    forall k | k in seen' ensures k == root || Leads(e, root, k) {
      if k !in seen {
        Extends(e, root, current, k);
      }
    }
  }

  lemma {:induction false} AllExplored(g: Graph, root: Key, seen: set<Key>)
    requires root in seen && Explored(g, seen, [])
    ensures forall k :: Leads(LiveEdges(g), root, k) ==> k in seen
  {
    forall k | Leads(LiveEdges(g), root, k) ensures k in seen {
      var p :| Chain(LiveEdges(g), p, root, k);
      ClosedAhead(LiveEdges(g), seen, p, root, k);
    }
  }

  /** Precisely the documents on a path of existing documents from the root, which may run in circles. */
  method ReachableFrom(g: Graph, root: Key) returns (seen: set<Key>)
    ensures forall k :: k in seen <==> Reachable(g, root, k)
  {
    if root !in g {
      return {};
    }
    seen := {root};
    var queue := [root];
    while queue != []
      invariant root in seen && SetOf(queue) <= seen && seen <= g.Keys
      invariant AllReached(g, root, seen) && Explored(g, seen, queue)
      decreases |g.Keys - seen| + |queue|
    {
      var current := queue[0];
      ghost var before, rest := seen, queue[1..];
      assert queue == [current] + rest && current in SetOf(queue);
      var targets := Links(g[current]) * g.Keys;
      seen, queue := Discover(g.Keys, targets, seen, queue[1..]);
      Explores(g, root, before, current, rest, seen, queue);
    }
    AllExplored(g, root, seen);
  }

  function AllInclusions(g: Graph): set<Key> {
    set k, t | k in g && t in Inclusions(g[k]) :: t
  }

  function AllReferences(g: Graph): set<Key> {
    set k, t | k in g && t in References(g[k]) :: t
  }

  /** Target by target, as the link index lists them: first what is included, then what is referenced. */
  method BrokenLinks(g: Graph, internal: Key -> bool) returns (broken: set<(Key, Key)>)
    ensures forall s, t :: (s, t) in broken <==> Broken(g, internal, s, t)
  {
    broken := {};
    var todo := AllInclusions(g);
    while todo != {}
      invariant todo <= AllInclusions(g)
      invariant forall s, t :: (s, t) in broken <==> s in g && t !in g && t !in todo && t in Inclusions(g[s])
      decreases |todo|
    {
      var target :| target in todo;
      if target !in g {
        broken := broken + set s | s in g && target in Inclusions(g[s]) :: (s, target);
      }
      todo := todo - {target};
    }
    todo := AllReferences(g);
    while todo != {}
      invariant todo <= AllReferences(g)
      invariant forall s, t :: (s, t) in broken <==>
                  s in g && t !in g && (t in Inclusions(g[s]) || (t !in todo && t in References(g[s]) && internal(t)))
      decreases |todo|
    {
      var target :| target in todo;
      if target !in g && internal(target) {
        broken := broken + set s | s in g && target in References(g[s]) :: (s, target);
      }
      todo := todo - {target};
    }
  }

  method ComputeDebt(g: Graph, o: Options, internal: Key -> bool) returns (d: Debt)
    ensures d == DebtOf(g, o, internal)
  {
    var broken, orphans := {}, {};
    if !o.links.Off? {
      broken := BrokenLinks(g, internal);
    }
    if !o.orphans.Off? {
      var reachable := ReachableFrom(g, o.root);
      orphans := g.Keys - reachable;
    }
    d := Debt(broken, orphans);
    DebtUnique(g, o, internal, d, DebtOf(g, o, internal));
  }

  // ----- The gate -----

  datatype Verdict = Accepted(debt: Debt) | Refused(broken: set<(Key, Key)>, orphans: set<Key>)

  function Held<T>(mode: Mode, before: set<T>, after: set<T>): set<T> {
    match mode
    case Off => {}
    case Strict => after
    case NoNew => after - before
  }

  function Judge(o: Options, before: Debt, after: Debt): Verdict {
    var broken, orphans := Held(o.links, before.broken, after.broken), Held(o.orphans, before.orphans, after.orphans);
    if broken == {} && orphans == {} then Accepted(after) else Refused(broken, orphans)
  }

  /** Whether the debt before the commit has to be known at all. */
  predicate NeedsBefore(o: Options, after: Debt) {
    (o.links.NoNew? && after.broken != {}) || (o.orphans.NoNew? && after.orphans != {})
  }

  /** Computing the earlier debt only on demand never changes the verdict. */
  lemma {:induction false} LazyIsEager(o: Options, before: Debt, after: Debt)
    ensures Judge(o, if NeedsBefore(o, after) then before else NO_DEBT, after) == Judge(o, before, after)
  {
  }

  /** Accepted means: nothing new where `no-new` is asked for, nothing at all where `strict` is. */
  lemma {:induction false} AcceptedMeans(o: Options, before: Debt, after: Debt)
    ensures Judge(o, before, after).Accepted? <==>
              && (o.links.NoNew? ==> after.broken <= before.broken)
                  && (o.orphans.NoNew? ==> after.orphans <= before.orphans)
              && (o.links.Strict? ==> after.broken == {}) && (o.orphans.Strict? ==> after.orphans == {})
  {
    NothingNew(before.broken, after.broken);
    NothingNew(before.orphans, after.orphans);
  }

  /** A refusal names exactly what is held against the commit. */
  lemma {:induction false} RefusalNames(o: Options, before: Debt, after: Debt, link: (Key, Key), orphan: Key)
    requires Judge(o, before, after).Refused?
    ensures var v := Judge(o, before, after);
            && (link in v.broken <==>
                  link in after.broken && (o.links.Strict? || (o.links.NoNew? && link !in before.broken)))
            && (orphan in v.orphans <==>
                  orphan in after.orphans && (o.orphans.Strict? || (o.orphans.NoNew? && orphan !in before.orphans)))
  {
  }

  lemma {:induction false} NothingNew<T>(before: set<T>, after: set<T>)
    ensures after - before == {} <==> after <= before
  {
    if after - before == {} {
      forall x | x in after ensures x in before {
        assert x !in after - before;
      }
    }
  }

  // ----- Debt, read off the blocks -----

  /** Some block of the document links to the key, whether it includes it or refers to it. */
  ghost predicate LinksTo(doc: Document, t: Key) {
    exists i :: 0 <= i < |doc.blocks| && t in doc.blocks[i].targets
  }

  /** Some block links to the key in a way that counts: by including it, or by a reference that is no external
      address. */
  ghost predicate Needs(doc: Document, internal: Key -> bool, t: Key) {
    exists i :: 0 <= i < |doc.blocks| && t in doc.blocks[i].targets && (doc.blocks[i].inclusion || internal(t))
  }

  /** The set holds the root, if it exists, and every existing document that a block of one of its members links to. */
  ghost predicate ClosedFrom(g: Graph, root: Key, s: set<Key>) {
    && (root in g ==> root in s)
    && forall k, t :: k in s && k in g && t in g && LinksTo(g[k], t) ==> t in s
  }

  /** The reachable documents are closed in that way, */
  lemma {:induction false} ReachableClosed(g: Graph, root: Key, k: Key, i: nat, t: Key)
    requires k in g && Reachable(g, root, k) && t in g
    requires i < |g[k].blocks| && t in g[k].blocks[i].targets
    ensures Reachable(g, root, t)
  {
    assert t in Links(g[k]);
    assert t in Next(LiveEdges(g), k);
    Extends(LiveEdges(g), root, k, t);
  }

  /** and no smaller set is. */
  lemma {:induction false} ReachableLeast(g: Graph, root: Key, s: set<Key>, k: Key)
    requires ClosedFrom(g, root, s) && Reachable(g, root, k)
    ensures k in s
  {
    var e := LiveEdges(g);
    forall a | a in s ensures Next(e, a) <= s {
      forall t | t in Next(e, a) ensures t in s {
        assert LinksTo(g[a], t);
      }
    }
    if k != root {
      var p :| Chain(e, p, root, k);
      ClosedAhead(e, s, p, root, k);
    }
  }

  /** A document is an orphan exactly when some set closed in that way leaves it out. */
  lemma {:induction false} OrphanMeans(g: Graph, root: Key, k: Key)
    requires k in g
    ensures Reachable(g, root, k) <==> forall s :: ClosedFrom(g, root, s) ==> k in s
  {
    var reached := set j | j in g && Reachable(g, root, j);
    forall a, t | a in reached && a in g && t in g && LinksTo(g[a], t) ensures t in reached {
      var i :| 0 <= i < |g[a].blocks| && t in g[a].blocks[i].targets;
      ReachableClosed(g, root, a, i, t);
    }
    assert ClosedFrom(g, root, reached);
    forall s | ClosedFrom(g, root, s) && Reachable(g, root, k) ensures k in s {
      ReachableLeast(g, root, s, k);
    }
  }

  lemma {:induction false} BrokenMeans(g: Graph, internal: Key -> bool, s: Key, t: Key)
    ensures Broken(g, internal, s, t) <==> s in g && t !in g && Needs(g[s], internal, t)
  {
  }

  /** Removing a document breaks exactly the links the others have to it, and takes away its own broken ones. */
  lemma {:induction false} RemovalBreaks(g: Graph, internal: Key -> bool, gone: Key, s: Key, t: Key)
    requires gone in g
    ensures Broken(g - {gone}, internal, s, t) <==>
        s != gone && (Broken(g, internal, s, t) || (t == gone && s in g && Needs(g[s], internal, gone)))
  {
    BrokenMeans(g, internal, s, t);
    BrokenMeans(g - {gone}, internal, s, t);
  }

  /** Creating one mends exactly the links to it, and brings the broken ones among its own. */
  lemma {:induction false} CreationMends(g: Graph, internal: Key -> bool, key: Key, doc: Document, s: Key, t: Key)
    requires key !in g
    ensures Broken(g[key := doc], internal, s, t) <==>
        t != key && (Broken(g, internal, s, t) || (s == key && t !in g && Needs(doc, internal, t)))
  {
    BrokenMeans(g, internal, s, t);
    BrokenMeans(g[key := doc], internal, s, t);
  }

  /** What the gate says of a commit, from the states as parsed. */
  ghost function Decision(o: Options, internal: Key -> bool, before: Graph, after: Graph): Verdict {
    Judge(o, DebtOf(before, o, internal), DebtOf(after, o, internal))
  }

  /** A commit that only removes a document is accepted, as far as links go, exactly when no other document needs it. */
  lemma {:induction false} RemovalAccepted(o: Options, internal: Key -> bool, g: Graph, gone: Key)
    requires o.links.NoNew? && o.orphans.Off? && gone in g
    ensures Decision(o, internal, g, g - {gone}).Accepted? <==>
              forall s :: s in g && s != gone ==> !Needs(g[s], internal, gone)
  {
    var h := g - {gone};
    var was, now := DebtOf(g, o, internal), DebtOf(h, o, internal);
    AcceptedMeans(o, was, now);
    forall s, t ensures (s, t) in now.broken <==>
        s != gone && ((s, t) in was.broken || (t == gone && s in g && Needs(g[s], internal, gone))) {
      RemovalBreaks(g, internal, gone, s, t);
    }
    assert forall s :: (s, gone) !in was.broken;
    if forall s :: s in g && s != gone ==> !Needs(g[s], internal, gone) {
      forall p | p in now.broken ensures p in was.broken {
        assert (p.0, p.1) in now.broken;
      }
    }
    if now.broken <= was.broken {
      forall s | s in g && s != gone ensures !Needs(g[s], internal, gone) {
        assert (s, gone) in now.broken ==> (s, gone) in was.broken;
      }
    }
  }

  lemma {:induction false} StaysReachable(g: Graph, h: Graph, root: Key, k: Key)
    requires Reachable(g, root, k) && forall j :: j in g ==> j in h && Links(g[j]) <= Links(h[j])
    ensures Reachable(h, root, k)
  {
    if k != root {
      var p :| Chain(LiveEdges(g), p, root, k);
      assert forall j :: Next(LiveEdges(g), j) <= Next(LiveEdges(h), j);
      assert Chain(LiveEdges(h), p, root, k);
    }
  }

  /** A new document is reachable exactly when it is the root, or a block of a document reachable without it links to
      it. */
  lemma {:induction false} NewReachable(g: Graph, root: Key, key: Key, doc: Document)
    requires key !in g
    ensures Reachable(g[key := doc], root, key) <==>
              key == root || exists k :: k in g && Reachable(g, root, k) && LinksTo(g[k], key)
  {
    var h := g[key := doc];
    if k :| k in g && Reachable(g, root, k) && LinksTo(g[k], key) {
      StaysReachable(g, h, root, k);
      var i :| 0 <= i < |g[k].blocks| && key in g[k].blocks[i].targets;
      ReachableClosed(h, root, k, i, key);
    } else if key != root {
      var s := set k | k in g && Reachable(g, root, k);
      forall a, t | a in s && a in h && t in h && LinksTo(h[a], t) ensures t in s {
        var i :| 0 <= i < |g[a].blocks| && t in g[a].blocks[i].targets;
        ReachableClosed(g, root, a, i, t);
      }
      if Reachable(h, root, key) {
        ReachableLeast(h, root, s, key);
      }
    }
  }

  /** A commit that only creates a document is accepted, as far as orphans go, exactly when a reachable document already
      links to it or it is the root: a new page and the link to it are to be judged together. */
  lemma {:induction false} CreationAccepted(o: Options, internal: Key -> bool, g: Graph, key: Key, doc: Document)
    requires o.links.Off? && o.orphans.NoNew? && key !in g
    ensures Decision(o, internal, g, g[key := doc]).Accepted? <==>
              key == o.root || exists k :: k in g && Reachable(g, o.root, k) && LinksTo(g[k], key)
  {
    var h := g[key := doc];
    var was, now := DebtOf(g, o, internal), DebtOf(h, o, internal);
    AcceptedMeans(o, was, now);
    NewReachable(g, o.root, key, doc);
    forall k | k in now.orphans && k != key ensures k in was.orphans {
      if Reachable(g, o.root, k) {
        StaysReachable(g, h, o.root, k);
      }
    }
    assert key !in was.orphans;
  }

  /** With its link in the same commit it is accepted: a page may be created where a reachable one gets a link to it. */
  lemma {:induction false} LinkedCreationAccepted(o: Options, internal: Key -> bool, g: Graph, parent: Key,
      block: Block, key: Key, doc: Document)
    requires o.links.Off? && o.orphans.NoNew? && key !in g
    requires parent in g && Reachable(g, o.root, parent) && key in block.targets
    ensures Decision(o, internal, g, g[parent := WithBlock(g[parent], block)][key := doc]).Accepted?
  {
    var h := g[parent := WithBlock(g[parent], block)][key := doc];
    var last := |g[parent].blocks|;
    assert h[parent].blocks[last] == block && forall i :: 0 <= i < last ==> h[parent].blocks[i] == g[parent].blocks[i];
    forall j | j in g ensures Links(g[j]) <= Links(h[j]) {
    }
    StaysReachable(g, h, o.root, parent);
    ReachableClosed(h, o.root, parent, last, key);
    var was, now := DebtOf(g, o, internal), DebtOf(h, o, internal);
    AcceptedMeans(o, was, now);
    forall k | k in now.orphans ensures k in was.orphans {
      if Reachable(g, o.root, k) {
        StaysReachable(g, h, o.root, k);
      }
    }
  }

  // ----- The cache -----

  datatype Cached = Cached(digest: nat, debt: Debt)

  /** States that digest alike have the same debt. */
  ghost predicate Separates(env: Env) {
    forall s, c, t, d :: env.digest(s, c) == env.digest(t, d) ==> DebtAt(env, s, c) == DebtAt(env, t, d)
  }

  /** Whatever state the slot answers for, it answers with that state's debt. */
  ghost predicate SlotOk(env: Env, slot: Option<Cached>) {
    slot.Some? ==> forall s, c :: env.digest(s, c) == slot.value.digest ==> slot.value.debt == DebtAt(env, s, c)
  }

  /** The process-wide slot: the last state's fingerprint and debt. */
  class DebtCache {
    var slot: Option<Cached>

    constructor ()
      ensures slot == None
    {
      slot := None;
    }

    method Get(digest: nat) returns (debt: Option<Debt>)
      ensures debt == if slot.Some? && slot.value.digest == digest then Some(slot.value.debt) else None
    {
      match slot {
        case Some(cached) =>
          if cached.digest == digest {
            return Some(cached.debt);
          }
        case None =>
      }
      debt := None;
    }

    method Put(digest: nat, debt: Debt)
      modifies this
      ensures slot == Some(Cached(digest, debt))
    {
      slot := Some(Cached(digest, debt));
    }
  }

  /** The gate of one commit. `landed` is what to put into the cache once the commit is on disk. */
  method CheckIntegrity(env: Env, c: Context, before: State, after: State, cache: DebtCache)
      returns (verdict: Verdict, landed: Option<Cached>)
    modifies cache
    ensures var checked := Check(env, c, old(cache.slot), before, after);
            verdict == checked.verdict && cache.slot == checked.slot && landed == checked.landed
  {
    if !Enabled(c.options) {
      return Accepted(NO_DEBT), None;
    }
    var debt := ComputeDebt(env.parse(after, c.format), c.options, env.internal);
    var standing := NO_DEBT;
    if NeedsBefore(c.options, debt) {
      var digest := env.digest(before, c);
      var hit := cache.Get(digest);
      if hit.Some? {
        standing := hit.value;
      } else {
        standing := ComputeDebt(env.parse(before, c.format), c.options, env.internal);
        cache.Put(digest, standing);
      }
    }
    verdict := Judge(c.options, standing, debt);
    landed := if verdict.Accepted? && Caches(c.options) then Some(Cached(env.digest(after, c), debt)) else None;
  }

  predicate Caches(o: Options) {
    o.links.NoNew? || o.orphans.NoNew?
  }

  datatype Checked = Checked(verdict: Verdict, slot: Option<Cached>, landed: Option<Cached>)

  /** What the gate decides and remembers, from the slot it finds. */
  ghost function Check(env: Env, c: Context, slot: Option<Cached>, before: State, after: State): Checked {
    if !Enabled(c.options) then Checked(Accepted(NO_DEBT), slot, None)
    else
      var debt, digest := DebtAt(env, after, c), env.digest(before, c);
      var hit := slot.Some? && slot.value.digest == digest;
      var standing :=
        if !NeedsBefore(c.options, debt) then NO_DEBT else if hit then slot.value.debt else DebtAt(env, before, c);
      var verdict := Judge(c.options, standing, debt);
      Checked(verdict,
        if NeedsBefore(c.options, debt) && !hit then Some(Cached(digest, standing)) else slot,
        if verdict.Accepted? && Caches(c.options) then Some(Cached(env.digest(after, c), debt)) else None)
  }

  /** The gate that always recomputes both debts. */
  ghost function Fresh(env: Env, c: Context, before: State, after: State): Verdict {
    Judge(c.options, DebtAt(env, before, c), DebtAt(env, after, c))
  }

  lemma {:induction false} CheckTransparent(env: Env, c: Context, slot: Option<Cached>, before: State, after: State)
    requires Separates(env) && SlotOk(env, slot)
    ensures var checked := Check(env, c, slot, before, after);
            checked.verdict == Fresh(env, c, before, after) && SlotOk(env, checked.slot) && SlotOk(env, checked.landed)
  {
  }

  // ----- Over runs -----

  /** A commit attempt, which lands only if the gate accepts it and nothing later refuses it, or a change of the store
      by anything else: a revert, another program, an editor. */
  datatype Event = Attempt(after: State, context: Context, passesLater: bool) | Edit(state: State)

  datatype Daemon = Daemon(disk: State, slot: Option<Cached>, verdicts: seq<Verdict>)

  ghost function Handle(env: Env, w: Daemon, event: Event): Daemon {
    match event
    case Edit(state) => w.(disk := state)
    case Attempt(after, c, passesLater) =>
      var checked := Check(env, c, w.slot, w.disk, after);
      var lands := checked.verdict.Accepted? && passesLater;
      Daemon(
        if lands then after else w.disk,
        if lands && checked.landed.Some? then checked.landed else checked.slot,
        w.verdicts + [checked.verdict])
  }

  /** The same, recomputing every time. */
  ghost function HandleFresh(env: Env, w: Daemon, event: Event): Daemon {
    match event
    case Edit(state) => w.(disk := state)
    case Attempt(after, c, passesLater) =>
      var verdict := Fresh(env, c, w.disk, after);
      Daemon(if verdict.Accepted? && passesLater then after else w.disk, None, w.verdicts + [verdict])
  }

  ghost function After(env: Env, start: State, events: seq<Event>): Daemon {
    if events == [] then Daemon(start, None, [])
    else Handle(env, After(env, start, events[..|events| - 1]), events[|events| - 1])
  }

  ghost function AfterFresh(env: Env, start: State, events: seq<Event>): Daemon {
    if events == [] then Daemon(start, None, [])
    else HandleFresh(env, AfterFresh(env, start, events[..|events| - 1]), events[|events| - 1])
  }

  /** The cache is transparent: over every run of commits, refusals, reverts and out-of-band edits, the gate gives the
      verdicts of one that always recomputes, and the store ends up the same. */
  lemma {:induction false} CacheTransparent(env: Env, start: State, events: seq<Event>)
    requires Separates(env)
    ensures var cached, plain := After(env, start, events), AfterFresh(env, start, events);
            cached.verdicts == plain.verdicts && cached.disk == plain.disk && SlotOk(env, cached.slot)
  {
    if events != [] {
      var front, last := events[..|events| - 1], events[|events| - 1];
      CacheTransparent(env, start, front);
      if last.Attempt? {
        CheckTransparent(env, last.context, After(env, start, front).slot, After(env, start, front).disk, last.after);
      }
    }
  }

  /** The two debts tell the same of what a commit leaves behind. */
  predicate AgreeOn<T(==)>(mode: Mode, a: set<T>, b: set<T>, after: set<T>) {
    mode.NoNew? ==> a * after == b * after
  }

  lemma {:induction false} HeldAlike<T>(mode: Mode, a: set<T>, b: set<T>, after: set<T>)
    ensures Held(mode, a, after) == Held(mode, b, after) <==> AgreeOn(mode, a, b, after)
  {
    if mode.NoNew? {
      if after - a == after - b {
        forall x ensures x in a * after <==> x in b * after {
          assert x in after - a <==> x in after - b;
        }
      }
      if a * after == b * after {
        forall x ensures x in after - a <==> x in after - b {
          assert x in a * after <==> x in b * after;
        }
      }
    }
  }

  /** A verdict tells what it held against the commit. */
  lemma {:induction false} VerdictsDiffer(o: Options, a: Debt, b: Debt, after: Debt)
    ensures Judge(o, a, after) == Judge(o, b, after) <==>
              && AgreeOn(o.links, a.broken, b.broken, after.broken)
              && AgreeOn(o.orphans, a.orphans, b.orphans, after.orphans)
  {
    HeldAlike(o.links, a.broken, b.broken, after.broken);
    HeldAlike(o.orphans, a.orphans, b.orphans, after.orphans);
  }

  /** When two states digest alike and the first one's debt is cached, the gate judges a commit on the second as it
      should exactly when, for each property on `no-new`, the two have the same debt among what the commit leaves. Under
      `strict` and `off` a collision changes nothing. */
  lemma {:induction false} CollisionMisleads(env: Env, c: Context, s: State, t: State, after: State)
    requires env.digest(s, c) == env.digest(t, c)
    ensures var slot := Some(Cached(env.digest(s, c), DebtAt(env, s, c)));
            var cached, right, left := DebtAt(env, s, c), DebtAt(env, t, c), DebtAt(env, after, c);
            Check(env, c, slot, t, after).verdict == Fresh(env, c, t, after) <==>
              && AgreeOn(c.options.links, cached.broken, right.broken, left.broken)
              && AgreeOn(c.options.orphans, cached.orphans, right.orphans, left.orphans)
  {
    var cached, right, left := DebtAt(env, s, c), DebtAt(env, t, c), DebtAt(env, after, c);
    LazyIsEager(c.options, cached, left);
    VerdictsDiffer(c.options, cached, right, left);
  }

  /** So a commit that adds nothing is refused where the cached state lacks debt of the real one, and one that adds debt
      is accepted where the cached state already had it. */
  lemma {:induction false} CollisionVerdicts(env: Env, c: Context, s: State, t: State, after: State)
    requires env.digest(s, c) == env.digest(t, c) && c.options.links.NoNew? && c.options.orphans.Off?
    ensures var slot := Some(Cached(env.digest(s, c), DebtAt(env, s, c)));
            var cached, right, left := DebtAt(env, s, c).broken, DebtAt(env, t, c).broken, DebtAt(env, after, c).broken;
            && (Check(env, c, slot, t, after).verdict.Accepted? <==> left <= cached)
            && (Fresh(env, c, t, after).Accepted? <==> left <= right)
  {
    LazyIsEager(c.options, DebtAt(env, s, c), DebtAt(env, after, c));
    AcceptedMeans(c.options, DebtAt(env, s, c), DebtAt(env, after, c));
    AcceptedMeans(c.options, DebtAt(env, t, c), DebtAt(env, after, c));
  }

  /** One attempt through the cached gate: either the store keeps its state, or the state it gets was accepted. */
  lemma {:induction false} AttemptOutcome(env: Env, start: State, front: seq<Event>, last: Event)
    requires Separates(env) && last.Attempt?
    ensures var before, w := After(env, start, front), After(env, start, front + [last]);
            var verdict := Fresh(env, last.context, before.disk, last.after);
            && w.verdicts == before.verdicts + [verdict]
            && w.disk == if verdict.Accepted? && last.passesLater then last.after else before.disk
  {
    CacheTransparent(env, start, front);
    CheckTransparent(env, last.context, After(env, start, front).slot, After(env, start, front).disk, last.after);
    assert (front + [last])[..|front|] == front;
  }

  /** Commit attempts under one configuration, with nobody else changing the store. */
  ghost predicate OnlyAttempts(events: seq<Event>, c: Context) {
    forall n :: 0 <= n < |events| ==> events[n].Attempt? && events[n].context == c
  }

  /** Along any run of commits, accepted or refused, a `no-new` property's debt only shrinks. */
  lemma {:induction false} DebtNeverGrows(env: Env, c: Context, start: State, events: seq<Event>, n: nat)
    requires Separates(env) && OnlyAttempts(events, c) && n <= |events|
    ensures var early := DebtAt(env, After(env, start, events[..n]).disk, c);
            var late := DebtAt(env, After(env, start, events).disk, c);
            && (c.options.links.NoNew? ==> late.broken <= early.broken)
            && (c.options.orphans.NoNew? ==> late.orphans <= early.orphans)
  {
    if n == |events| {
      assert events[..n] == events;
    } else {
      var front, last := events[..|events| - 1], events[|events| - 1];
      assert front[..n] == events[..n] && front + [last] == events;
      DebtNeverGrows(env, c, start, front, n);
      AttemptOutcome(env, start, front, last);
      AcceptedMeans(c.options, DebtAt(env, After(env, start, front).disk, c), DebtAt(env, last.after, c));
    }
  }

  /** Whatever happened before, a commit that lands leaves no debt of a `strict` property, and adds none of a `no-new`
      one. */
  lemma {:induction false} LandedIsClean(env: Env, start: State, front: seq<Event>, last: Event)
    requires Separates(env) && last.Attempt? && last.passesLater
    requires var verdicts := After(env, start, front + [last]).verdicts;
             |verdicts| > 0 && verdicts[|verdicts| - 1].Accepted?
    ensures var o, w := last.context.options, After(env, start, front + [last]);
            var before := DebtAt(env, After(env, start, front).disk, last.context);
            var after := DebtAt(env, w.disk, last.context);
            && w.disk == last.after
            && (o.links.Strict? ==> after.broken == {}) && (o.orphans.Strict? ==> after.orphans == {})
            && (o.links.NoNew? ==> after.broken <= before.broken)
                && (o.orphans.NoNew? ==> after.orphans <= before.orphans)
  {
    AttemptOutcome(env, start, front, last);
    var before := DebtAt(env, After(env, start, front).disk, last.context);
    AcceptedMeans(last.context.options, before, DebtAt(env, last.after, last.context));
  }
}
