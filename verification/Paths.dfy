/** Chains of links over a finite directed graph, which may have cycles. */
module Paths {
  import opened Keys

  /** For every document, the keys it links to; a key without an entry links nowhere. */
  type Edges = map<Key, set<Key>>

  function Next(e: Edges, k: Key): set<Key> {
    if k in e then e[k] else {}
  }

  /** A chain of at least one link from `a` to `b`. */
  ghost predicate Chain(e: Edges, p: seq<Key>, a: Key, b: Key) {
    && |p| >= 2 && p[0] == a && p[|p| - 1] == b
    && forall i :: 0 <= i < |p| - 1 ==> p[i + 1] in Next(e, p[i])
  }

  ghost predicate Leads(e: Edges, a: Key, b: Key) {
    exists p :: Chain(e, p, a, b)
  }

  lemma {:induction false} LeadsAtOnce(e: Edges, a: Key, b: Key)
    requires b in Next(e, a)
    ensures Leads(e, a, b)
  {
    assert Chain(e, [a, b], a, b);
  }

  lemma {:induction false} LeadsFirst(e: Edges, a: Key, b: Key, c: Key)
    requires b in Next(e, a) && Leads(e, b, c)
    ensures Leads(e, a, c)
  {
    var p :| Chain(e, p, b, c);
    var q := [a] + p;
    forall i | 0 <= i < |q| - 1 ensures q[i + 1] in Next(e, q[i]) {
      if i > 0 {
        assert p[(i - 1) + 1] in Next(e, p[i - 1]);
      }
    }
    assert Chain(e, q, a, c);
  }

  lemma {:induction false} LeadsLast(e: Edges, a: Key, b: Key, c: Key)
    requires Leads(e, a, b) && c in Next(e, b)
    ensures Leads(e, a, c)
  {
    var p :| Chain(e, p, a, b);
    var q := p + [c];
    forall i | 0 <= i < |q| - 1 ensures q[i + 1] in Next(e, q[i]) {
      if i < |p| - 1 {
        assert p[i + 1] in Next(e, p[i]);
      }
    }
    assert Chain(e, q, a, c);
  }

  /** A chain of more than one link goes on from its second key. */
  lemma {:induction false} ChainTail(e: Edges, p: seq<Key>, a: Key, b: Key)
    requires Chain(e, p, a, b)
    ensures p[1] in Next(e, a) && (|p| == 2 ==> p[1] == b) && (|p| > 2 ==> Chain(e, p[1..], p[1], b))
  {
  }

  lemma {:induction false} ChainFront(e: Edges, p: seq<Key>, a: Key, b: Key)
    requires Chain(e, p, a, b)
    ensures var n := |p| - 2; b in Next(e, p[n]) && (n == 0 ==> p[n] == a) && (n > 0 ==> Chain(e, p[..n + 1], a, p[n]))
  {
  }

  /** What is closed under following links holds everything its members lead to. */
  lemma {:induction false} ClosedAhead(e: Edges, closed: set<Key>, p: seq<Key>, a: Key, b: Key)
    requires forall k :: k in closed ==> Next(e, k) <= closed
    requires a in closed && Chain(e, p, a, b)
    ensures b in closed
    decreases |p|
  {
    ChainTail(e, p, a, b);
    if |p| > 2 {
      ClosedAhead(e, closed, p[1..], p[1], b);
    }
  }

  /** What is closed under following links backwards holds everything that leads into it. */
  lemma {:induction false} ClosedBehind(e: Edges, closed: set<Key>, p: seq<Key>, a: Key, b: Key)
    requires forall k, n :: n in closed && n in Next(e, k) ==> k in closed
    requires b in closed && Chain(e, p, a, b)
    ensures a in closed
    decreases |p|
  {
    ChainFront(e, p, a, b);
    if |p| > 2 {
      ClosedBehind(e, closed, p[..|p| - 1], a, p[|p| - 2]);
    }
  }

  // ----- Changing the links of some documents -----

  ghost predicate SameOutside(e: Edges, f: Edges, touched: set<Key>) {
    forall k :: k !in touched ==> Next(e, k) == Next(f, k)
  }

  ghost predicate LeadsInto(e: Edges, a: Key, touched: set<Key>) {
    exists t :: t in touched && Leads(e, a, t)
  }

  /** Links of an untouched document that the narrower edges keep, all but those to itself. */
  ghost predicate Covers(narrow: Edges, wide: Edges, touched: set<Key>) {
    forall k, n :: k !in touched && n in Next(wide, k) && n != k ==> n in Next(narrow, k)
  }

  /** A chain from an untouched document either survives the change of the touched ones, or leads into a touched one
      before it matters: cut it at its first touched key. */
  lemma {:induction false} CutAtTouched(e: Edges, f: Edges, narrow: Edges, touched: set<Key>, p: seq<Key>, a: Key,
      b: Key)
    requires SameOutside(e, f, touched) && Covers(narrow, e, touched)
    requires a !in touched && Chain(e, p, a, b)
    ensures Leads(f, a, b) || LeadsInto(narrow, a, touched)
    decreases |p|
  {
    ChainTail(e, p, a, b);
    var next := p[1];
    assert next in Next(f, a);
    if |p| == 2 {
      LeadsAtOnce(f, a, b);
    } else if next in touched {
      LeadsAtOnce(narrow, a, next);
    } else {
      CutAtTouched(e, f, narrow, touched, p[1..], next, b);
      if Leads(f, next, b) {
        LeadsFirst(f, a, next, b);
      } else if next != a {
        var t :| t in touched && Leads(narrow, next, t);
        LeadsFirst(narrow, a, next, t);
      }
    }
  }

  /** Which documents lead into the touched ones does not depend on what the touched ones link to. */
  lemma {:induction false} LeadsIntoUnchanged(e: Edges, f: Edges, touched: set<Key>, a: Key)
    requires SameOutside(e, f, touched) && a !in touched
    ensures LeadsInto(e, a, touched) <==> LeadsInto(f, a, touched)
  {
    if LeadsInto(e, a, touched) {
      LeadsIntoKept(e, f, touched, a);
    }
    if LeadsInto(f, a, touched) {
      LeadsIntoKept(f, e, touched, a);
    }
  }

  lemma {:induction false} LeadsIntoKept(e: Edges, f: Edges, touched: set<Key>, a: Key)
    requires SameOutside(e, f, touched) && a !in touched && LeadsInto(e, a, touched)
    ensures LeadsInto(f, a, touched)
  {
    var t :| t in touched && Leads(e, a, t);
    var p :| Chain(e, p, a, t);
    CutAtTouched(e, f, f, touched, p, a, t);
  }
}
