/** Relevance-ordered lists: by score, highest first, ties broken by key. */
module Ranking {
  import opened Keys

  datatype Scored = Scored(key: Key, score: real)

  /** `a` is listed before `b`. */
  predicate Above(a: Scored, b: Scored) {
    a.score > b.score || (a.score == b.score && Less(a.key, b.key))
  }

  predicate Ranked(s: seq<Scored>) {
    forall i, j :: 0 <= i < j < |s| ==> Above(s[i], s[j])
  }

  predicate DistinctKeys(s: seq<Scored>) {
    forall i, j :: 0 <= i < j < |s| ==> s[i].key != s[j].key
  }

  lemma {:induction false} AboveTransitive(a: Scored, b: Scored, c: Scored)
    requires Above(a, b) && Above(b, c)
    ensures Above(a, c)
  {
    if a.score == b.score == c.score {
      LessTransitive(a.key, b.key, c.key);
    }
  }

  lemma {:induction false} AboveAsymmetric(a: Scored, b: Scored)
    requires Above(a, b)
    ensures !Above(b, a) && a != b
  {
    LessIrreflexive(a.key);
    if a.score == b.score && Less(b.key, a.key) {
      LessTransitive(a.key, b.key, a.key);
    }
  }

  /** The library sort both ranked searches call with the same comparison. */
  function Sort(s: seq<Scored>): (r: seq<Scored>)
    requires DistinctKeys(s)
    ensures Ranked(r)
    ensures forall x :: x in r <==> x in s
    ensures |r| == |s|
  {
    if s == [] then [] else
      var rest := Sort(s[1..]);
      assert forall x :: x in s <==> x == s[0] || x in s[1..];
      Insert(s[0], rest)
  }

  function Insert(x: Scored, s: seq<Scored>): (r: seq<Scored>)
    requires Ranked(s)
    requires forall y :: y in s ==> y.key != x.key
    ensures Ranked(r)
    ensures forall y :: y in r <==> y == x || y in s
    ensures |r| == |s| + 1
  {
    if s == [] then [x]
    else if Above(x, s[0]) then
      assert forall y :: y in s ==> Above(x, y) by {
        forall y | y in s ensures Above(x, y) {
          if y != s[0] { AboveTransitive(x, s[0], y); }
        }
      }
      [x] + s
    else
      LessTotal(x.key, s[0].key);
      assert Above(s[0], x);
      assert forall y :: y in s <==> y == s[0] || y in s[1..];
      var rest := Insert(x, s[1..]);
      assert forall y :: y in rest ==> Above(s[0], y);
      [s[0]] + rest
  }

  /** A ranking is determined by what it ranks. */
  lemma {:induction false} RankingUnique(a: seq<Scored>, b: seq<Scored>)
    requires Ranked(a) && Ranked(b)
    requires forall x :: x in a <==> x in b
    ensures a == b
  {
    assert a != [] ==> a[0] in b;
    assert b != [] ==> b[0] in a;
    if a != [] {
      if a[0] != b[0] {
        AboveAsymmetric(a[0], b[0]);
        assert false;
      }
      forall x | true ensures x in a[1..] <==> x in b[1..] {
        HeadNotRepeated(a);
        HeadNotRepeated(b);
        assert x in a <==> x == a[0] || x in a[1..];
        assert x in b <==> x == b[0] || x in b[1..];
      }
      RankingUnique(a[1..], b[1..]);
      assert a == [a[0]] + a[1..] && b == [b[0]] + b[1..];
    }
  }

  lemma {:induction false} HeadNotRepeated(s: seq<Scored>)
    requires Ranked(s) && s != []
    ensures s[0] !in s[1..]
  {
    if s[0] in s[1..] {
      var i :| 0 <= i < |s| - 1 && s[1..][i] == s[0];
      AboveAsymmetric(s[0], s[i + 1]);
    }
  }

  /** List a map's entries in whatever order the map gives them, then sort. */
  method SortMap(scores: map<Key, real>) returns (r: seq<Scored>)
    ensures Ranked(r) && |r| == |scores|
    ensures forall x :: x in r <==> x.key in scores && scores[x.key] == x.score
  {
    var listed: seq<Scored> := [];
    var rest := scores.Keys;
    while rest != {}
      invariant rest <= scores.Keys && |listed| + |rest| == |scores.Keys|
      invariant DistinctKeys(listed)
      invariant forall x :: x in listed <==> x.key in scores.Keys - rest && scores[x.key] == x.score
    {
      var k :| k in rest;
      rest := rest - {k};
      listed := listed + [Scored(k, scores[k])];
    }
    r := Sort(listed);
  }
}
