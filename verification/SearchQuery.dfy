/** Fusing ranked lists by reciprocal rank, and the two uses of the fusion: an ordered result, and a mere filter. */
module SearchQuery {
  import opened Keys
  import opened Ranking
  import opened Bm25
  import opened SearchIndex

  const RRF_K := 60.0

  function RrfWeight(rank: nat): real {
    1.0 / (RRF_K + rank as real + 1.0)
  }

  lemma {:induction false} WeightDecreases(a: nat, b: nat)
    requires a < b
    ensures RrfWeight(a) > RrfWeight(b) > 0.0
  {
    var x, y := RRF_K + a as real + 1.0, RRF_K + b as real + 1.0;
    assert 1.0 / x * x == 1.0 && 1.0 / y * y == 1.0;
    Reciprocal(1.0 / x, x, 1.0 / y, y);
  }

  lemma {:induction false} Reciprocal(p: real, x: real, q: real, y: real)
    requires 0.0 < x < y && p * x == 1.0 && q * y == 1.0
    ensures p > q > 0.0
  {
  }

  /** What one list contributes to a key: the weight of every position the key has in it. */
  function ListScore(list: seq<Key>, key: Key): real {
    if list == [] then 0.0
    else
      var last := |list| - 1;
      ListScore(list[..last], key) + if list[last] == key then RrfWeight(last) else 0.0
  }

  function FusedScore(lists: seq<seq<Key>>, key: Key): real {
    if lists == [] then 0.0
    else FusedScore(lists[..|lists| - 1], key) + ListScore(lists[|lists| - 1], key)
  }

  predicate Listed(lists: seq<seq<Key>>, key: Key) {
    exists i :: 0 <= i < |lists| && key in lists[i]
  }

  predicate Distinct(list: seq<Key>) {
    forall i, j :: 0 <= i < j < |list| ==> list[i] != list[j]
  }

  function Score0(scores: map<Key, real>, key: Key): real {
    if key in scores then scores[key] else 0.0
  }

  /** Add one list's reciprocal-rank weights to the scores. */
  method AddList(scores: map<Key, real>, list: seq<Key>) returns (updated: map<Key, real>)
    ensures updated.Keys == scores.Keys + set k | k in list
    ensures forall k :: Score0(updated, k) == Score0(scores, k) + ListScore(list, k)
  {
    updated := scores;
    for rank := 0 to |list|
      invariant updated.Keys == scores.Keys + set k | k in list[..rank]
      invariant forall k :: Score0(updated, k) == Score0(scores, k) + ListScore(list[..rank], k)
    {
      var key := list[rank];
      assert list[..rank + 1] == list[..rank] + [key];
      assert list[..rank + 1][..rank] == list[..rank];
      ghost var before := updated;
      updated := updated[key := Score0(updated, key) + RrfWeight(rank)];
      forall k ensures Score0(updated, k) == Score0(scores, k) + ListScore(list[..rank + 1], k) {
        assert Score0(updated, k) == Score0(before, k) + if k == key then RrfWeight(rank) else 0.0;
      }
    }
    assert list[..|list|] == list;
  }

  /** The fused score of every listed key. */
  method RrfScores(lists: seq<seq<Key>>) returns (scores: map<Key, real>)
    ensures forall k :: k in scores <==> Listed(lists, k)
    ensures forall k :: k in scores ==> scores[k] == FusedScore(lists, k)
  {
    scores := map[];
    for i := 0 to |lists|
      invariant forall k :: k in scores <==> Listed(lists[..i], k)
      invariant forall k :: Score0(scores, k) == FusedScore(lists[..i], k)
    {
      ListedStep(lists, i);
      assert lists[..i + 1][..i] == lists[..i];
      scores := AddList(scores, lists[i]);
    }
    assert lists[..|lists|] == lists;
    assert forall k :: k in scores ==> scores[k] == Score0(scores, k);
  }

  lemma {:induction false} ListedStep(lists: seq<seq<Key>>, i: nat)
    requires i < |lists|
    ensures forall k :: Listed(lists[..i + 1], k) <==> Listed(lists[..i], k) || k in lists[i]
  {
  }

  function KeysOf(s: seq<Scored>): (keys: seq<Key>)
    ensures |keys| == |s|
    ensures forall i :: 0 <= i < |s| ==> keys[i] == s[i].key
  {
    if s == [] then [] else KeysOf(s[..|s| - 1]) + [s[|s| - 1].key]
  }

  /** Exactly the listed keys, each with its fused score, best first. */
  ghost predicate Fused(lists: seq<seq<Key>>, scored: seq<Scored>) {
    && Ranked(scored)
    && forall x: Scored :: x in scored <==> Listed(lists, x.key) && x.score == FusedScore(lists, x.key)
  }

  /** The order the fusion of the lists puts the listed keys in. */
  ghost predicate IsFusion(lists: seq<seq<Key>>, order: seq<Key>) {
    exists scored :: Fused(lists, scored) && KeysOf(scored) == order
  }

  /** Exactly the scored keys, each before the ones it ranks above. */
  ghost predicate Orders(scores: map<Key, real>, order: seq<Key>) {
    && (forall k :: k in order <==> k in scores)
    && forall i, j :: 0 <= i < j < |order| ==>
        Above(Scored(order[i], scores[order[i]]), Scored(order[j], scores[order[j]]))
  }

  /** Sort the scored keys, best first, ties by key. */
  method OrderByScores(scores: map<Key, real>) returns (order: seq<Key>)
    ensures Orders(scores, order)
  {
    var sorted := SortMap(scores);
    order := KeysOf(sorted);
    assert forall i :: 0 <= i < |sorted| ==> sorted[i] in sorted && sorted[i] == Scored(order[i], scores[order[i]]);
    forall k ensures k in order <==> k in scores {
      if k in scores {
        var i :| 0 <= i < |sorted| && sorted[i] == Scored(k, scores[k]);
        assert order[i] == k;
      }
    }
  }

  /** An order by fused scores is the fusion of the lists. */
  lemma {:induction false} OrderIsFusion(lists: seq<seq<Key>>, scores: map<Key, real>, order: seq<Key>)
    requires forall k :: k in scores <==> Listed(lists, k)
    requires forall k :: k in scores ==> scores[k] == FusedScore(lists, k)
    requires Orders(scores, order)
    ensures IsFusion(lists, order)
  {
    var scored := WithScores(scores, order);
    forall x: Scored ensures x in scored <==> Listed(lists, x.key) && x.score == FusedScore(lists, x.key) {
      assert x in scored ==> x.key in order && x.score == scores[x.key] by {
        if i :| 0 <= i < |scored| && scored[i] == x {
          assert order[i] in order;
        }
      }
      if i :| 0 <= i < |order| && order[i] == x.key && x.score == scores[x.key] {
        assert scored[i] == x;
      }
    }
    assert KeysOf(scored) == order;
    assert Fused(lists, scored);
  }

  ghost function WithScores(scores: map<Key, real>, order: seq<Key>): (scored: seq<Scored>)
    requires forall k :: k in order ==> k in scores
    ensures |scored| == |order| && forall i :: 0 <= i < |order| ==> scored[i] == Scored(order[i], scores[order[i]])
  {
    seq(|order|, i requires 0 <= i < |order| => Scored(order[i], scores[order[i]]))
  }

  /** The matching documents, most relevant first. */
  method RankedKeys(lists: seq<seq<Key>>) returns (order: seq<Key>)
    ensures IsFusion(lists, order)
  {
    var scores := RrfScores(lists);
    order := OrderByScores(scores);
    OrderIsFusion(lists, scores, order);
  }

  /** The candidates that match, in the order they came in. */
  method MatchedKeys(lists: seq<seq<Key>>, candidates: seq<Key>) returns (kept: seq<Key>)
    ensures kept == Restrict(candidates, lists)
  {
    var scores := RrfScores(lists);
    kept := [];
    for i := 0 to |candidates|
      invariant kept == Restrict(candidates[..i], lists)
    {
      assert candidates[..i + 1][..i] == candidates[..i];
      if candidates[i] in scores {
        kept := kept + [candidates[i]];
      }
    }
    assert candidates[..|candidates|] == candidates;
  }

  function Restrict(candidates: seq<Key>, lists: seq<seq<Key>>): seq<Key> {
    if candidates == [] then []
    else
      var last := |candidates| - 1;
      Restrict(candidates[..last], lists) + if Listed(lists, candidates[last]) then [candidates[last]] else []
  }

  lemma {:induction false} RestrictMember(candidates: seq<Key>, lists: seq<seq<Key>>, k: Key)
    ensures k in Restrict(candidates, lists) <==> k in candidates && Listed(lists, k)
  {
    if candidates != [] {
      var last := |candidates| - 1;
      RestrictMember(candidates[..last], lists, k);
      assert candidates == candidates[..last] + [candidates[last]];
    }
  }

  /** Ordering and filtering select the same documents, when every list is drawn from the candidates. */
  lemma {:induction false} SameDocuments(lists: seq<seq<Key>>, candidates: seq<Key>, order: seq<Key>)
    requires IsFusion(lists, order)
    requires forall k :: Listed(lists, k) ==> k in candidates
    ensures forall k :: k in order <==> k in Restrict(candidates, lists)
  {
    var scored :| Fused(lists, scored) && KeysOf(scored) == order;
    forall k ensures k in order <==> k in Restrict(candidates, lists) {
      RestrictMember(candidates, lists, k);
      if k in order {
        var i :| 0 <= i < |order| && order[i] == k;
        assert scored[i] in scored;
      }
      if Listed(lists, k) {
        var x := Scored(k, FusedScore(lists, k));
        var i :| 0 <= i < |scored| && scored[i] == x;
        assert order[i] == k;
      }
    }
  }

  // ----- A single list is returned unchanged -----

  lemma {:induction false} ListScoreAt(list: seq<Key>, key: Key)
    requires Distinct(list)
    ensures key !in list ==> ListScore(list, key) == 0.0
    ensures forall i :: 0 <= i < |list| && list[i] == key ==> ListScore(list, key) == RrfWeight(i)
  {
    if list != [] {
      var last := |list| - 1;
      assert list == list[..last] + [list[last]];
      ListScoreAt(list[..last], key);
    }
  }

  /** The list as a ranking of its own: each key with the weight of its position. */
  ghost function Weighted(list: seq<Key>): (s: seq<Scored>)
    ensures |s| == |list| && KeysOf(s) == list
    ensures forall i :: 0 <= i < |list| ==> s[i] == Scored(list[i], RrfWeight(i))
  {
    if list == [] then [] else
      var last := |list| - 1;
      var s := Weighted(list[..last]) + [Scored(list[last], RrfWeight(last))];
      assert s[..last] == Weighted(list[..last]);
      s
  }

  lemma {:induction false} WeightedMember(list: seq<Key>, x: Scored)
    requires Distinct(list)
    ensures x in Weighted(list) <==> x.key in list && x.score == ListScore(list, x.key)
  {
    ListScoreAt(list, x.key);
    var own := Weighted(list);
    if x in own {
      var i :| 0 <= i < |own| && own[i] == x;
      assert list[i] == x.key;
    }
    if x.key in list && x.score == ListScore(list, x.key) {
      var i :| 0 <= i < |list| && list[i] == x.key;
      assert own[i] == Scored(x.key, RrfWeight(i)) == x;
    }
  }

  /** Fusing one list of distinct keys gives that list back. */
  lemma {:induction false} SingleListUnchanged(list: seq<Key>, order: seq<Key>)
    requires Distinct(list) && IsFusion([list], order)
    ensures order == list
  {
    var scored :| Fused([list], scored) && KeysOf(scored) == order;
    var own := Weighted(list);
    forall i, j | 0 <= i < j < |own| ensures Above(own[i], own[j]) {
      WeightDecreases(i, j);
    }
    forall x: Scored ensures x in own <==> x in scored {
      WeightedMember(list, x);
      SingleScore(list, x.key);
    }
    RankingUnique(own, scored);
  }

  lemma {:induction false} SingleScore(list: seq<Key>, key: Key)
    ensures FusedScore([list], key) == ListScore(list, key)
    ensures Listed([list], key) <==> key in list
  {
  }

  // ----- Fusion respects agreement -----

  /** `a` is placed before `b` in the list, or `b` is not in it at all. */
  predicate Prefers(list: seq<Key>, a: Key, b: Key) {
    b in list ==> exists i, j :: 0 <= i < j < |list| && list[i] == a && list[j] == b
  }

  /** When every list that has `b` places `a` before it, the fusion does too. */
  lemma {:induction false} AgreementKept(lists: seq<seq<Key>>, a: Key, b: Key)
    requires forall i :: 0 <= i < |lists| ==> Distinct(lists[i]) && Prefers(lists[i], a, b)
    ensures FusedScore(lists, a) >= FusedScore(lists, b)
    ensures Listed(lists, b) ==> FusedScore(lists, a) > FusedScore(lists, b)
  {
    if lists != [] {
      var last := |lists| - 1;
      var list := lists[last];
      AgreementKept(lists[..last], a, b);
      ListedStep(lists, last);
      assert lists[..last + 1] == lists;
      ListScoreAt(list, a);
      ListScoreAt(list, b);
      ListScorePositive(list, a);
      if b in list {
        var i, j :| 0 <= i < j < |list| && list[i] == a && list[j] == b;
        WeightDecreases(i, j);
      }
    }
  }

  lemma {:induction false} ListScorePositive(list: seq<Key>, key: Key)
    ensures ListScore(list, key) >= 0.0
  {
    if list != [] {
      ListScorePositive(list[..|list| - 1], key);
      WeightDecreases(|list| - 1, |list|);
    }
  }

  // ----- How much agreement counts -----

  lemma {:induction false} PairScore(list: seq<Key>, other: seq<Key>, key: Key)
    ensures FusedScore([list, other], key) == ListScore(list, key) + ListScore(other, key)
  {
    var both := [list, other];
    assert both[..1] == [list] && both[1] == other;
    SingleScore(list, key);
    assert FusedScore(both, key) == FusedScore(both[..1], key) + ListScore(both[1], key);
  }

  lemma {:induction false} Clears(a: real, x: real, y: real)
    requires a * x == 1.0
    ensures a * (x * y) == y
  {
    assert a * (x * y) == (a * x) * y;
  }

  lemma {:induction false} SumOfReciprocals(a: real, x: real, b: real, y: real, first: real)
    requires x > 0.0 && y > 0.0 && a * x == 1.0 && b * y == 1.0 && first * 61.0 == 1.0
    ensures a + b > first <==> 61.0 * (x + y) > x * y
  {
    var area := x * y;
    ProductPositive(x, y);
    Clears(a, x, y);
    Clears(b, y, x);
    SumClears(a, b, area, x, y);
    ScaleOrder(a + b, first, 61.0 * area);
    Clears(first, 61.0, area);
  }

  lemma {:induction false} SumClears(a: real, b: real, area: real, x: real, y: real)
    requires a * area == y && b * area == x
    ensures (a + b) * (61.0 * area) == 61.0 * (x + y)
  {
    assert (a + b) * area == x + y;
  }

  lemma {:induction false} WeightIs(rank: nat)
    ensures RrfWeight(rank) * (rank as real + 61.0) == 1.0
  {
  }

  lemma {:induction false} Areas(p: nat, q: nat)
    ensures 61.0 * ((p as real + 61.0) + (q as real + 61.0)) > (p as real + 61.0) * (q as real + 61.0) <==> p * q < 3721
  {
    var u, v := p as real, q as real;
    assert (u + 61.0) * (v + 61.0) == u * v + 61.0 * (u + v) + 3721.0;
    RealProduct(p, q);
  }

  lemma {:induction false} RealProduct(p: nat, q: nat)
    ensures p as real * q as real == (p * q) as real
  {
  }

  lemma {:induction false} TwoWeights(p: nat, q: nat)
    ensures RrfWeight(p) + RrfWeight(q) > RrfWeight(0) <==> p * q < 3721
  {
    WeightIs(p);
    WeightIs(q);
    WeightIs(0);
    SumOfReciprocals(RrfWeight(p), p as real + 61.0, RrfWeight(q), q as real + 61.0, RrfWeight(0));
    Areas(p, q);
  }

  /** A key that two lists agree on outranks one that is first in a single list exactly when the product of its two
      positions, counted from zero, is below 3721, the square of 61: agreement this deep in the lists beats a single
      first place. */
  lemma {:induction false} AgreementBeatsFirst(list: seq<Key>, other: seq<Key>, a: Key, b: Key, p: nat, q: nat)
    requires Distinct(list) && Distinct(other) && p < |list| && q < |other| && list[p] == a == other[q]
    requires list != [] && list[0] == b && b !in other
    ensures FusedScore([list, other], a) > FusedScore([list, other], b) <==> p * q < 3721
  {
    PairScore(list, other, a);
    PairScore(list, other, b);
    ListScoreAt(list, a);
    ListScoreAt(other, a);
    ListScoreAt(list, b);
    ListScoreAt(other, b);
    TwoWeights(p, q);
  }

  // ----- The order a filter keeps -----

  /** Some occurrence of `a` in the list comes before one of `b`. */
  ghost predicate Before(list: seq<Key>, a: Key, b: Key) {
    exists i, j :: 0 <= i < j < |list| && list[i] == a && list[j] == b
  }

  lemma {:induction false} BeforeAppend(list: seq<Key>, last: Key, a: Key, b: Key)
    ensures Before(list + [last], a, b) <==> Before(list, a, b) || (b == last && a in list)
  {
    var longer := list + [last];
    if Before(list, a, b) {
      var i, j :| 0 <= i < j < |list| && list[i] == a && list[j] == b;
      assert longer[i] == a && longer[j] == b;
    }
    if i :| 0 <= i < |list| && list[i] == a && b == last {
      assert longer[i] == a && longer[|list|] == b;
    }
    if Before(longer, a, b) {
      var i, j :| 0 <= i < j < |longer| && longer[i] == a && longer[j] == b;
      assert list[i] == a;
      assert j < |list| ==> list[j] == b;
    }
  }

  /** Filtering keeps the candidates in the order they came in: the ones kept stand to each other as they did. */
  lemma {:induction false} RestrictKeepsOrder(candidates: seq<Key>, lists: seq<seq<Key>>, a: Key, b: Key)
    ensures Before(Restrict(candidates, lists), a, b) <==>
              Before(candidates, a, b) && Listed(lists, a) && Listed(lists, b)
  {
    if candidates != [] {
      var last := |candidates| - 1;
      var front, key := candidates[..last], candidates[last];
      assert candidates == front + [key];
      RestrictKeepsOrder(front, lists, a, b);
      BeforeAppend(front, key, a, b);
      BeforeAppend(Restrict(front, lists), key, a, b);
      RestrictMember(front, lists, a);
      assert Listed(lists, key) || Restrict(candidates, lists) == Restrict(front, lists);
    }
  }

  // ----- Drawing the lists -----

  /** The entries of an answer that are candidates, in the answer's order. */
  function Kept(answer: seq<Scored>, candidates: set<Key>): seq<Scored> {
    if answer == [] then []
    else
      var last := answer[|answer| - 1];
      Kept(answer[..|answer| - 1], candidates) + if last.key in candidates then [last] else []
  }

  lemma {:induction false} KeptRanked(answer: seq<Scored>, candidates: set<Key>)
    requires Ranked(answer)
    ensures Ranked(Kept(answer, candidates))
    ensures forall x :: x in Kept(answer, candidates) <==> x in answer && x.key in candidates
  {
    if answer != [] {
      var last := |answer| - 1;
      KeptRanked(answer[..last], candidates);
      assert answer == answer[..last] + [answer[last]];
      var kept := Kept(answer[..last], candidates);
      forall a | 0 <= a < |kept| ensures Above(kept[a], answer[last]) {
        assert kept[a] in answer[..last];
      }
    }
  }

  /** The candidates the query scores above 0, each with that score, best first. */
  ghost predicate IsLexical(c: Corpus, query: seq<Token>, em: Embedder, candidates: set<Key>, list: seq<Key>) {
    exists kept :: KeysOf(kept) == list && LexicalRanking(c, query, em, candidates, kept)
  }

  ghost predicate LexicalRanking(c: Corpus, query: seq<Token>, em: Embedder, candidates: set<Key>, kept: seq<Scored>) {
    && Ranked(kept)
    && forall x: Scored :: x in kept <==>
         x.key in candidates && x.key in c && x.score == Score(c, query, c[x.key], em) && x.score > 0.0
  }

  /** Such a list repeats no key, and is the only one. */
  lemma {:induction false} LexicalUnique(c: Corpus, query: seq<Token>, em: Embedder, candidates: set<Key>,
      a: seq<Key>, b: seq<Key>)
    requires IsLexical(c, query, em, candidates, a) && IsLexical(c, query, em, candidates, b)
    ensures a == b && Distinct(a)
  {
    var x: seq<Scored> :| KeysOf(x) == a && LexicalRanking(c, query, em, candidates, x);
    var y: seq<Scored> :| KeysOf(y) == b && LexicalRanking(c, query, em, candidates, y);
    RankingUnique(x, y);
    forall i, j | 0 <= i < j < |x| ensures x[i].key != x[j].key {
      assert x[i] in x && x[j] in x;
      AboveAsymmetric(x[i], x[j]);
    }
  }

  /** The index's answer, restricted to the candidates, in the answer's order. */
  method LexicalRanked(index: Bm25Index, candidates: set<Key>, query: seq<Token>) returns (list: seq<Key>)
    requires index.Valid()
    ensures IsLexical(index.s.Corpus(), query, index.s.embedder, candidates, list)
  {
    var answer := index.Search(query);
    list := KeptKeys(answer, candidates);
    KeptIsLexical(index.s.Corpus(), query, index.s.embedder, candidates, answer);
  }

  lemma {:induction false} KeptIsLexical(c: Corpus, query: seq<Token>, em: Embedder, candidates: set<Key>,
      answer: seq<Scored>)
    requires IsAnswer(c, query, em, answer)
    ensures IsLexical(c, query, em, candidates, KeysOf(Kept(answer, candidates)))
  {
    KeptRanked(answer, candidates);
    assert LexicalRanking(c, query, em, candidates, Kept(answer, candidates));
  }

  method KeptKeys(answer: seq<Scored>, candidates: set<Key>) returns (list: seq<Key>)
    ensures list == KeysOf(Kept(answer, candidates))
  {
    list := [];
    for i := 0 to |answer|
      invariant list == KeysOf(Kept(answer[..i], candidates))
    {
      assert answer[..i + 1][..i] == answer[..i];
      ghost var kept := Kept(answer[..i], candidates);
      if answer[i].key in candidates {
        list := list + [answer[i].key];
        assert (kept + [answer[i]])[..|kept|] == kept;
      }
    }
    assert answer[..|answer|] == answer;
  }

  /** A search by the query alone: fusing its one list gives the candidates by their score, best first. */
  method LexicalSearch(index: Bm25Index, candidates: set<Key>, query: seq<Token>) returns (order: seq<Key>)
    requires index.Valid()
    ensures IsLexical(index.s.Corpus(), query, index.s.embedder, candidates, order)
  {
    var list := LexicalRanked(index, candidates, query);
    order := RankedKeys([list]);
    LexicalUnique(index.s.Corpus(), query, index.s.embedder, candidates, list, list);
    SingleListUnchanged(list, order);
  }
}
