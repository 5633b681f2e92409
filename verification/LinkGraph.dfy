/**
 Documents as the blocks that hold their links, and the two searches link rules rest on: whether a chain of links inside
 a scope reaches a goal, and which documents a walk over reference edges finds to lead to an anchor.
 */
module LinkGraph {
  import opened Keys
  import opened Paths

  /** A block with its link targets. An inclusion is a block that is nothing but a link to another document; the links
      of every other block are references. */
  datatype Block = Block(inclusion: bool, targets: seq<Key>)

  /** A document: its front matter, which decides whether a rule applies to it, and its blocks in order. */
  datatype Document = Document(front: string, blocks: seq<Block>)

  type Graph = map<Key, Document>

  /** Which blocks of a document a predicate selects; decided by the document's own content. */
  type Scope = (Document, nat) -> bool

  // ----- Link targets -----

  function AddNew(out: seq<Key>, more: seq<Key>): seq<Key> {
    if more == [] then out
    else
      var front, last := AddNew(out, more[..|more| - 1]), more[|more| - 1];
      if last in front then front else front + [last]
  }

  function TargetsUpTo(doc: Document, scope: Scope, n: nat): seq<Key>
    requires n <= |doc.blocks|
  {
    if n == 0 then []
    else
      var front := TargetsUpTo(doc, scope, n - 1);
      if scope(doc, n - 1) then AddNew(front, doc.blocks[n - 1].targets) else front
  }

  /** The distinct link targets of the blocks a scope selects, in document order; inclusions and references alike. */
  function TargetsWithin(doc: Document, scope: Scope): seq<Key> {
    TargetsUpTo(doc, scope, |doc.blocks|)
  }

  function TargetsOf(g: Graph, k: Key, scope: Scope): seq<Key> {
    if k in g then TargetsWithin(g[k], scope) else []
  }

  ghost predicate Distinct(keys: seq<Key>) {
    forall i, j :: 0 <= i < j < |keys| ==> keys[i] != keys[j]
  }

  lemma {:induction false} AddNewExact(out: seq<Key>, more: seq<Key>)
    requires Distinct(out)
    ensures Distinct(AddNew(out, more))
    ensures forall k :: k in AddNew(out, more) <==> k in out || k in more
  {
    if more != [] {
      var front := more[..|more| - 1];
      AddNewExact(out, front);
      assert more == front + [more[|more| - 1]];
    }
  }

  lemma {:induction false} TargetsUpToExact(doc: Document, scope: Scope, n: nat)
    requires n <= |doc.blocks|
    ensures Distinct(TargetsUpTo(doc, scope, n))
    ensures forall k :: k in TargetsUpTo(doc, scope, n) <==>
        exists i :: 0 <= i < n && scope(doc, i) && k in doc.blocks[i].targets
  {
    if n > 0 {
      TargetsUpToExact(doc, scope, n - 1);
      AddNewExact(TargetsUpTo(doc, scope, n - 1), doc.blocks[n - 1].targets);
    }
  }

  /** A key is a scoped target, once, exactly when a selected block links to it. */
  lemma {:induction false} TargetsExact(doc: Document, scope: Scope, k: Key)
    ensures Distinct(TargetsWithin(doc, scope))
    ensures k in TargetsWithin(doc, scope) <==>
        exists i :: 0 <= i < |doc.blocks| && scope(doc, i) && k in doc.blocks[i].targets
  {
    TargetsUpToExact(doc, scope, |doc.blocks|);
  }

  /** Everything a document links to, and what it links to by a reference. */
  function Links(doc: Document): set<Key> {
    set i, k | 0 <= i < |doc.blocks| && k in doc.blocks[i].targets :: k
  }

  function References(doc: Document): set<Key> {
    set i, k | 0 <= i < |doc.blocks| && !doc.blocks[i].inclusion && k in doc.blocks[i].targets :: k
  }

  lemma {:induction false} ScopedAreLinks(doc: Document, scope: Scope, k: Key)
    requires k in TargetsWithin(doc, scope)
    ensures k in Links(doc)
  {
    TargetsExact(doc, scope, k);
  }

  // ----- The edges the searches follow -----

  /** The chain edges of a `reach` rule. */
  function ScopedEdges(g: Graph, scope: Scope): Edges {
    map k | k in g :: set t | t in TargetsWithin(g[k], scope)
  }

  /** The edges the inbound walk follows backwards: found through the index of references, kept when in scope. */
  function WalkedEdges(g: Graph, scope: Scope): Edges {
    map k | k in g :: set t | t in TargetsWithin(g[k], scope) && t in References(g[k])
  }

  function Mentioned(e: Edges): set<Key> {
    set k, t | k in e && t in e[k] :: t
  }

  /** Every remembered target list is the document's own. */
  ghost predicate MemoOk(g: Graph, scope: Scope, memo: map<Key, seq<Key>>) {
    forall k :: k in memo ==> memo[k] == TargetsOf(g, k, scope)
  }

  lemma {:induction false} OneFewer(all: set<Key>, seen: set<Key>, k: Key)
    requires k in all && k !in seen
    ensures |all - (seen + {k})| == |all - seen| - 1
  {
    assert all - (seen + {k}) == (all - seen) - {k};
  }

  /** Nothing more to look at: the goal is not led to. */
  lemma {:induction false} NotReached(e: Edges, visited: set<Key>, start: Key, goal: Key)
    requires start in visited
    requires forall k :: k in visited ==> goal !in Next(e, k) && Next(e, k) <= visited
    ensures !Leads(e, start, goal)
  {
    if Leads(e, start, goal) {
      var p :| Chain(e, p, start, goal);
      ChainFront(e, p, start, goal);
      if |p| > 2 {
        ClosedAhead(e, visited, p[..|p| - 1], start, p[|p| - 2]);
      }
    }
  }

  function SetOf(keys: seq<Key>): set<Key> {
    set k | k in keys
  }

  /** What is on the queue after adding what was not seen yet. */
  ghost predicate Queued(visited: set<Key>, queue: seq<Key>, visited': set<Key>, queue': seq<Key>) {
    forall k :: k in queue' <==> k in queue || (k in visited' && k !in visited)
  }

  // ----- Inclusions and references -----

  /** The scope is that of a rule without a section: every block of every document. */
  ghost predicate Everywhere(scope: Scope) {
    forall doc, i :: scope(doc, i)
  }

  /** Read off the blocks: a chain goes on to what a block inside the scope links to, and the inbound walk comes back
      from it when some block, inside the scope or not, also refers to it. */
  lemma {:induction false} EdgesMean(g: Graph, scope: Scope, k: Key, t: Key)
    requires k in g
    ensures t in Next(ScopedEdges(g, scope), k) <==>
              exists i :: 0 <= i < |g[k].blocks| && scope(g[k], i) && t in g[k].blocks[i].targets
    ensures t in Next(WalkedEdges(g, scope), k) <==> t in Next(ScopedEdges(g, scope), k) && Referenced(g[k], t)
  {
    TargetsExact(g[k], scope, t);
    assert t in References(g[k]) <==> Referenced(g[k], t);
  }

  function WithBlock(doc: Document, block: Block): Document {
    doc.(blocks := doc.blocks + [block])
  }

  /** Some block that is no inclusion links to the key. */
  ghost predicate Referenced(doc: Document, t: Key) {
    exists i :: 0 <= i < |doc.blocks| && !doc.blocks[i].inclusion && t in doc.blocks[i].targets
  }

  lemma {:induction false} BlockAdds(doc: Document, block: Block, scope: Scope, t: Key)
    requires Everywhere(scope)
    ensures var more := WithBlock(doc, block);
            && (t in TargetsWithin(more, scope) <==> t in TargetsWithin(doc, scope) || t in block.targets)
            && (Referenced(more, t) <==> Referenced(doc, t) || (!block.inclusion && t in block.targets))
  {
    var more := WithBlock(doc, block);
    var last := |doc.blocks|;
    assert forall i :: 0 <= i < last ==> more.blocks[i] == doc.blocks[i];
    assert more.blocks[last] == block && scope(more, last);
    TargetsExact(doc, scope, t);
    TargetsExact(more, scope, t);
    if i :| 0 <= i < last && t in doc.blocks[i].targets {
      assert scope(more, i) && scope(doc, i) && more.blocks[i] == doc.blocks[i];
    }
    if i :| 0 <= i < last && !doc.blocks[i].inclusion && t in doc.blocks[i].targets {
      assert more.blocks[i] == doc.blocks[i];
    }
  }

  /** A block added to a document is followed by chains, whatever it is; the walk backwards over references follows it
      only when it is no inclusion. */
  lemma {:induction false} BlockFollowed(g: Graph, scope: Scope, k: Key, block: Block)
    requires Everywhere(scope) && k in g
    ensures var h := g[k := WithBlock(g[k], block)];
            && Next(ScopedEdges(h, scope), k) == Next(ScopedEdges(g, scope), k) + SetOf(block.targets)
            && Next(WalkedEdges(h, scope), k) ==
               Next(WalkedEdges(g, scope), k) + (if block.inclusion then {} else SetOf(block.targets))
            && forall j :: j != k ==>
                 && Next(ScopedEdges(h, scope), j) == Next(ScopedEdges(g, scope), j)
                 && Next(WalkedEdges(h, scope), j) == Next(WalkedEdges(g, scope), j)
  {
    var more := WithBlock(g[k], block);
    forall t
      ensures t in TargetsWithin(more, scope) <==> t in TargetsWithin(g[k], scope) || t in block.targets
      ensures t in References(more) <==> t in References(g[k]) || (!block.inclusion && t in block.targets)
      ensures t in References(g[k]) ==> t in TargetsWithin(g[k], scope)
    {
      BlockAdds(g[k], block, scope, t);
      TargetsExact(g[k], scope, t);
      assert t in References(more) <==> Referenced(more, t);
      assert t in References(g[k]) <==> Referenced(g[k], t);
    }
  }

  /** So adding an inclusion changes nothing the inbound walk finds, from any anchor. */
  lemma {:induction false} InclusionUnwalked(g: Graph, scope: Scope, k: Key, targets: seq<Key>, a: Key, anchor: Key)
    requires Everywhere(scope) && k in g
    ensures var h := g[k := WithBlock(g[k], Block(true, targets))];
            Leads(WalkedEdges(h, scope), a, anchor) <==> Leads(WalkedEdges(g, scope), a, anchor)
  {
    var h := g[k := WithBlock(g[k], Block(true, targets))];
    BlockFollowed(g, scope, k, Block(true, targets));
    var e, f := WalkedEdges(g, scope), WalkedEdges(h, scope);
    assert e.Keys == f.Keys && forall j :: j in e ==> e[j] == Next(e, j) == Next(f, j) == f[j];
    assert e == f;
  }

  /** Puts the neighbours of one document on the queue, unless the goal is among them. */
  method Expand(ghost all: set<Key>, next: seq<Key>, goal: Key, visited: set<Key>, queue: seq<Key>)
    returns (found: bool, visited': set<Key>, queue': seq<Key>)
    requires SetOf(next) <= all
    ensures found <==> goal in next
    ensures !found ==> visited' == visited + SetOf(next) && Queued(visited, queue, visited', queue')
    ensures !found ==> |all - visited'| + |queue'| == |all - visited| + |queue|
  {
    visited', queue' := visited, queue;
    for i := 0 to |next|
      invariant goal !in next[..i]
      invariant visited' == visited + SetOf(next[..i])
      invariant Queued(visited, queue, visited', queue')
      invariant |all - visited'| + |queue'| == |all - visited| + |queue|
    {
      var neighbor := next[i];
      assert next[..i + 1] == next[..i] + [neighbor];
      assert SetOf(next[..i + 1]) == SetOf(next[..i]) + {neighbor};
      if neighbor == goal {
        return true, visited', queue';
      }
      if neighbor !in visited' {
        assert neighbor in SetOf(next);
        OneFewer(all, visited', neighbor);
        visited' := visited' + {neighbor};
        queue' := queue' + [neighbor];
      }
    }
    assert next[..|next|] == next;
    found := false;
  }

  /** The scoped targets of one document, through the memo. */
  method LookUp(g: Graph, scope: Scope, targets: map<Key, seq<Key>>, current: Key)
      returns (next: seq<Key>, memo: map<Key, seq<Key>>)
    requires MemoOk(g, scope, targets)
    ensures MemoOk(g, scope, memo) && targets.Keys <= memo.Keys
    ensures SetOf(next) == Next(ScopedEdges(g, scope), current) <= Mentioned(ScopedEdges(g, scope))
    ensures forall t :: t in next <==> t in Next(ScopedEdges(g, scope), current)
  {
    memo := targets;
    if current !in memo {
      memo := memo[current := TargetsOf(g, current, scope)];
    }
    next := memo[current];
    NextIs(g, scope, current);
  }

  /** Whether a chain of links inside the scope leads from `start` to `goal`: exact on every graph, cyclic ones
      included, and whatever earlier searches left in the memo. */
  method Reaches(g: Graph, start: Key, goal: Key, scope: Scope, targets: map<Key, seq<Key>>)
    returns (found: bool, memo: map<Key, seq<Key>>)
    requires MemoOk(g, scope, targets)
    ensures found <==> Leads(ScopedEdges(g, scope), start, goal)
    ensures MemoOk(g, scope, memo) && targets.Keys <= memo.Keys
  {
    ghost var e := ScopedEdges(g, scope);
    ghost var all := Mentioned(e);
    var visited, queue := {start}, [start];
    memo := targets;
    while queue != []
      invariant MemoOk(g, scope, memo) && targets.Keys <= memo.Keys
      invariant start in visited && SetOf(queue) <= visited
      invariant AllLead(e, start, visited)
      invariant ClosedBut(e, goal, visited, queue)
      decreases |all - visited| + |queue|
    {
      var current := queue[0];
      ghost var rest := queue[1..];
      assert queue == [current] + rest && current in SetOf(queue);
      var next;
      next, memo := LookUp(g, scope, memo, current);
      ghost var before := visited;
      found, visited, queue := Expand(all, next, goal, visited, queue[1..]);
      if found {
        Extends(e, start, current, goal);
        return;
      }
      StillLead(e, start, before, current);
      StillClosed(e, goal, before, current, rest, visited, queue);
    }
    NotReached(e, visited, start, goal);
    found := false;
  }

  lemma {:induction false} NextIs(g: Graph, scope: Scope, k: Key)
    ensures SetOf(TargetsOf(g, k, scope)) == Next(ScopedEdges(g, scope), k) <= Mentioned(ScopedEdges(g, scope))
    ensures forall t :: t in TargetsOf(g, k, scope) <==> t in Next(ScopedEdges(g, scope), k)
  {
  }

  ghost predicate AllLead(e: Edges, start: Key, visited: set<Key>) {
    forall k :: k in visited ==> k == start || Leads(e, start, k)
  }

  /** The visited documents that are off the queue have all their neighbours visited, and none of them is the goal. */
  ghost predicate ClosedBut(e: Edges, goal: Key, visited: set<Key>, queue: seq<Key>) {
    forall k :: k in visited && k !in queue ==> goal !in Next(e, k) && Next(e, k) <= visited
  }

  lemma {:induction false} StillLead(e: Edges, start: Key, visited: set<Key>, current: Key)
    requires AllLead(e, start, visited) && current in visited
    ensures AllLead(e, start, visited + Next(e, current))
  {
    forall k | k in Next(e, current) ensures Leads(e, start, k) {
      Extends(e, start, current, k);
    }
  }

  lemma {:induction false} StillClosed(e: Edges, goal: Key, visited: set<Key>, current: Key, rest: seq<Key>,
      visited': set<Key>, queue': seq<Key>)
    requires ClosedBut(e, goal, visited, [current] + rest) && goal !in Next(e, current)
    requires visited' == visited + Next(e, current) && Queued(visited, rest, visited', queue')
    ensures ClosedBut(e, goal, visited', queue')
  {
  }

  lemma {:induction false} Extends(e: Edges, start: Key, current: Key, next: Key)
    requires current == start || Leads(e, start, current)
    requires next in Next(e, current)
    ensures Leads(e, start, next)
  {
    if current == start {
      LeadsAtOnce(e, start, next);
    } else {
      LeadsLast(e, start, current, next);
    }
  }

  // ----- The inbound walk -----

  /** The documents with a reference to the key whose scoped targets hold it. */
  function Referrers(g: Graph, scope: Scope, k: Key): set<Key> {
    set r | r in g && k in References(g[r]) && k in TargetsWithin(g[r], scope)
  }

  lemma {:induction false} ReferrersWalk(g: Graph, scope: Scope, r: Key, k: Key)
    ensures r in Referrers(g, scope, k) <==> k in Next(WalkedEdges(g, scope), r)
  {
  }

  lemma {:induction false} Precedes(e: Edges, anchor: Key, current: Key, referrer: Key)
    requires current == anchor || Leads(e, current, anchor)
    requires current in Next(e, referrer)
    ensures Leads(e, referrer, anchor)
  {
    if current == anchor {
      LeadsAtOnce(e, referrer, anchor);
    } else {
      LeadsFirst(e, referrer, current, anchor);
    }
  }

  /** Queues the referrers not seen yet, in any order. */
  method Discover(ghost all: set<Key>, referrers: set<Key>, visited: set<Key>, queue: seq<Key>)
      returns (visited': set<Key>, queue': seq<Key>)
    requires referrers <= all
    ensures visited' == visited + referrers && Queued(visited, queue, visited', queue')
    ensures |all - visited'| + |queue'| == |all - visited| + |queue|
  {
    visited', queue' := visited, queue;
    var todo := referrers - visited;
    while todo != {}
      invariant todo <= referrers && todo !! visited'
      invariant visited <= visited' && visited' + todo == visited + referrers
      invariant Queued(visited, queue, visited', queue')
      invariant |all - visited'| + |queue'| == |all - visited| + |queue|
      decreases |todo|
    {
      var r :| r in todo;
      OneFewer(all, visited', r);
      visited', queue', todo := visited' + {r}, queue' + [r], todo - {r};
    }
  }

  ghost predicate AllLeadTo(e: Edges, anchor: Key, visited: set<Key>) {
    forall k :: k in visited ==> k == anchor || Leads(e, k, anchor)
  }

  /** The visited documents that are off the queue have all their referrers visited. */
  ghost predicate ClosedBehindBut(e: Edges, visited: set<Key>, queue: seq<Key>) {
    forall k, r :: k in visited && k !in queue && k in Next(e, r) ==> r in visited
  }

  lemma {:induction false} Discovered(g: Graph, scope: Scope, anchor: Key, visited: set<Key>, current: Key,
      rest: seq<Key>, visited': set<Key>, queue': seq<Key>)
    requires AllLeadTo(WalkedEdges(g, scope), anchor, visited)
    requires ClosedBehindBut(WalkedEdges(g, scope), visited, [current] + rest)
    requires current in visited
    requires visited' == visited + Referrers(g, scope, current) && Queued(visited, rest, visited', queue')
    ensures var e := WalkedEdges(g, scope); AllLeadTo(e, anchor, visited') && ClosedBehindBut(e, visited', queue')
  {
    var e := WalkedEdges(g, scope);
    forall k | k in visited' ensures k == anchor || Leads(e, k, anchor) {
      ReferrersWalk(g, scope, k, current);
      if k !in visited {
        Precedes(e, anchor, current, k);
      }
    }
    forall k, r | k in visited' && k !in queue' && k in Next(e, r) ensures r in visited' {
      if k == current {
        ReferrersWalk(g, scope, r, current);
      }
    }
  }

  lemma {:induction false} AllDiscovered(e: Edges, anchor: Key, visited: set<Key>)
    requires ClosedBehindBut(e, visited, []) && anchor in visited
    ensures forall k :: Leads(e, k, anchor) ==> k in visited
  {
    forall k | Leads(e, k, anchor) ensures k in visited {
      var p :| Chain(e, p, k, anchor);
      ClosedBehind(e, visited, p, k, anchor);
    }
  }

  /** The documents other than the anchor that lead to it by references inside the scope. */
  method Inbound(g: Graph, scope: Scope, anchor: Key) returns (reached: set<Key>)
    ensures forall k :: k in reached <==> k != anchor && Leads(WalkedEdges(g, scope), k, anchor)
  {
    ghost var e := WalkedEdges(g, scope);
    var visited, queue := {anchor}, [anchor];
    while queue != []
      invariant anchor in visited && SetOf(queue) <= visited
      invariant AllLeadTo(e, anchor, visited) && ClosedBehindBut(e, visited, queue)
      decreases |g.Keys - visited| + |queue|
    {
      var current := queue[0];
      ghost var before, rest := visited, queue[1..];
      assert queue == [current] + rest && current in SetOf(queue);
      visited, queue := Discover(g.Keys, Referrers(g, scope, current), visited, queue[1..]);
      Discovered(g, scope, anchor, before, current, rest, visited, queue);
    }
    AllDiscovered(e, anchor, visited);
    reached := visited - {anchor};
  }
}
