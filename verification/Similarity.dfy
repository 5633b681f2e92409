/**
 Near-duplicate pages: the mutually similar pages of one page, and all mutually similar pairs of the store. The two
 are computed by different routes, posting-list scans in both directions against one scan and pairwise scores.
 */
module Similarity {
  import opened Keys
  import opened Ranking
  import opened Bm25
  import opened SearchIndex

  const SIMILAR_PAGES_CAP := 3
  const SIMILARITY_MIN_TOKENS := 50
  const SIMILARITY_MAX_LENGTH_RATIO := 2

  /** Page sizes, counted by a tokenizer of their own. A page without a count counts as empty. */
  type Sizes = map<Key, nat>

  function SizeOf(sizes: Sizes, key: Key): nat {
    if key in sizes then sizes[key] else 0
  }

  predicate ComparableLength(a: nat, b: nat) {
    var (lo, hi) := if a <= b then (a, b) else (b, a);
    lo > 0 && hi <= lo * SIMILARITY_MAX_LENGTH_RATIO
  }

  /** Both pages are large enough, and of comparable size. */
  ghost predicate Gated(sizes: Sizes, a: Key, b: Key) {
    && SizeOf(sizes, a) >= SIMILARITY_MIN_TOKENS && SizeOf(sizes, b) >= SIMILARITY_MIN_TOKENS
    && ComparableLength(SizeOf(sizes, a), SizeOf(sizes, b))
  }

  /** `b` is a match of `a` in one direction, with the ratio given. */
  ghost predicate Forward(c: Corpus, em: Embedder, sizes: Sizes, threshold: real, a: Key, b: Key, ratio: real) {
    Gated(sizes, a, b) && Matches(c, a, threshold, em, b, ratio)
  }

  /** `b` is similar to `a`: a forward match whose score in the other direction clears the threshold as well. */
  ghost predicate Similar(c: Corpus, em: Embedder, sizes: Sizes, threshold: real, a: Key, b: Key, score: real) {
    exists ratio :: Forward(c, em, sizes, threshold, a, b, ratio) && Against(c, b, b, em) > 0.0 &&
      var back := Ratio(Against(c, b, a, em), Against(c, b, b, em));
      back >= threshold && score == if ratio <= back then ratio else back
  }

  /** Each page is a forward match of the other. */
  ghost predicate Paired(c: Corpus, em: Embedder, sizes: Sizes, threshold: real, a: Key, b: Key) {
    && (exists ratio :: Forward(c, em, sizes, threshold, a, b, ratio))
    && (exists ratio :: Forward(c, em, sizes, threshold, b, a, ratio))
  }

  lemma {:induction false} ComparableSymmetric(a: nat, b: nat)
    ensures ComparableLength(a, b) == ComparableLength(b, a)
  {
  }

  lemma {:induction false} RatioPositive(score: real, own: real)
    requires own > 0.0
    ensures Ratio(score, own) > 0.0 <==> score > 0.0
  {
  }

  /** The two routes agree: for a positive threshold, two pages are a pair just when either is in the other's
      uncapped list of similar pages. */
  lemma {:induction false} PairsAreSimilar(c: Corpus, em: Embedder, sizes: Sizes, threshold: real, a: Key, b: Key)
    requires threshold > 0.0
    ensures Paired(c, em, sizes, threshold, a, b) <==> exists score :: Similar(c, em, sizes, threshold, a, b, score)
    ensures Paired(c, em, sizes, threshold, a, b) <==> exists score :: Similar(c, em, sizes, threshold, b, a, score)
  {
    PairedIffSimilar(c, em, sizes, threshold, a, b);
    PairedIffSimilar(c, em, sizes, threshold, b, a);
  }

  lemma {:induction false} PairedIffSimilar(c: Corpus, em: Embedder, sizes: Sizes, threshold: real, a: Key, b: Key)
    requires threshold > 0.0
    ensures Paired(c, em, sizes, threshold, a, b) <==> exists score :: Similar(c, em, sizes, threshold, a, b, score)
  {
    ComparableSymmetric(SizeOf(sizes, a), SizeOf(sizes, b));
    if a in c && b in c && Against(c, b, b, em) > 0.0 {
      var back := Ratio(Against(c, b, a, em), Against(c, b, b, em));
      RatioPositive(Against(c, b, a, em), Against(c, b, b, em));
      if Paired(c, em, sizes, threshold, a, b) {
        var ratio :| Forward(c, em, sizes, threshold, a, b, ratio);
        var reverse :| Forward(c, em, sizes, threshold, b, a, reverse);
        assert reverse == back;
        assert Similar(c, em, sizes, threshold, a, b, if ratio <= back then ratio else back);
      }
      if score :| Similar(c, em, sizes, threshold, a, b, score) {
        var ratio :| Forward(c, em, sizes, threshold, a, b, ratio);
        assert Forward(c, em, sizes, threshold, b, a, back);
      }
    }
  }

  /** The size gate: at least fifty tokens in each, and neither more than twice the size of the other. */
  lemma {:induction false} GatedMeans(sizes: Sizes, a: Key, b: Key)
    ensures Gated(sizes, a, b) <==>
              && a in sizes && b in sizes && sizes[a] >= 50 && sizes[b] >= 50
              && sizes[a] <= 2 * sizes[b] && sizes[b] <= 2 * sizes[a]
  {
  }

  /** Similar by a score means that each page reaches that share of the other's own score, one of them exactly, and that
      the score reaches the threshold. */
  lemma {:induction false} SimilarMeans(c: Corpus, em: Embedder, sizes: Sizes, threshold: real, a: Key, b: Key,
      score: real)
    requires Similar(c, em, sizes, threshold, a, b, score)
    ensures a in c && b in c && a != b && score >= threshold
    ensures var x, y := score * Score(c, c[a], c[a], em), score * Score(c, c[b], c[b], em);
            && Score(c, c[a], c[b], em) >= x && Score(c, c[b], c[a], em) >= y
            && (Score(c, c[a], c[b], em) == x || Score(c, c[b], c[a], em) == y)
  {
    var ratio :| Forward(c, em, sizes, threshold, a, b, ratio) && Against(c, b, b, em) > 0.0;
    var there, back := Against(c, a, b, em), Against(c, b, a, em);
    RatioScales(there, Against(c, a, a, em), score);
    RatioScales(back, Against(c, b, b, em), score);
  }

  /** A page and its copy are similar by 1, whatever their text, if it scores at all. */
  lemma {:induction false} CopiesAreSimilar(c: Corpus, em: Embedder, sizes: Sizes, threshold: real, a: Key, b: Key)
    requires a in c && b in c && a != b && c[a] == c[b] && Score(c, c[a], c[a], em) > 0.0
    requires Gated(sizes, a, b) && threshold <= 1.0
    ensures Similar(c, em, sizes, threshold, a, b, 1.0)
  {
    var own := Against(c, a, a, em);
    assert Against(c, a, b, em) == Against(c, b, a, em) == Against(c, b, b, em) == own;
    SameQuotient(own);
    assert Forward(c, em, sizes, threshold, a, b, 1.0);
  }

  lemma {:induction false} SameQuotient(own: real)
    requires own > 0.0
    ensures Ratio(own, own) == 1.0
  {
  }

  /** What a match map records. */
  ghost predicate Records(matches: map<Key, real>, b: Key, ratio: real) {
    b in matches && matches[b] == ratio
  }

  /** The found pages that pass the size gates. */
  method Gate(found: seq<Scored>, sizes: Sizes, key: Key) returns (matches: map<Key, real>)
    requires DistinctKeys(found) && SizeOf(sizes, key) >= SIMILARITY_MIN_TOKENS
    ensures forall b, ratio :: Records(matches, b, ratio) <==> Scored(b, ratio) in found && Gated(sizes, key, b)
  {
    matches := map[];
    var size := SizeOf(sizes, key);
    for i := 0 to |found|
      invariant forall b, ratio :: Records(matches, b, ratio) <==>
          Scored(b, ratio) in found[..i] && Gated(sizes, key, b)
    {
      var x := found[i];
      ghost var before := matches;
      if SizeOf(sizes, x.key) >= SIMILARITY_MIN_TOKENS && ComparableLength(size, SizeOf(sizes, x.key)) {
        matches := matches[x.key := x.score];
      }
      assert found[..i + 1] == found[..i] + [x];
      forall b, ratio ensures Records(matches, b, ratio) <==>
          Scored(b, ratio) in found[..i + 1] && Gated(sizes, key, b) {
        assert Records(before, b, ratio) <==> Scored(b, ratio) in found[..i] && Gated(sizes, key, b);
        assert Scored(x.key, ratio) !in found[..i];
      }
    }
    assert found[..|found|] == found;
  }

  /** The forward matches of one page with their ratios. */
  method ForwardMatches(s: Index, sizes: Sizes, key: Key, threshold: real) returns (matches: map<Key, real>)
    requires s.Ok()
    ensures forall b, ratio :: Records(matches, b, ratio) <==>
              Forward(s.Corpus(), s.embedder, sizes, threshold, key, b, ratio)
  {
    if SizeOf(sizes, key) < SIMILARITY_MIN_TOKENS {
      return map[];
    }
    var found := SimilarTo(s, key, threshold);
    matches := Gate(found, sizes, key);
    ghost var c, em := s.Corpus(), s.embedder;
    forall b, ratio ensures Records(matches, b, ratio) <==> Forward(c, em, sizes, threshold, key, b, ratio) {
      assert Scored(b, ratio) in found <==> Matches(c, key, threshold, em, b, ratio);
    }
  }

  /** The ratio in the other direction, when `b` has a positive self-score. */
  function Back(c: Corpus, em: Embedder, key: Key, b: Key): Option<real> {
    if key in c && b in c && Against(c, b, b, em) > 0.0
    then Some(Ratio(Against(c, b, key, em), Against(c, b, b, em))) else None
  }

  method ReverseRatio(s: Index, key: Key, other: Key) returns (back: Option<real>)
    requires s.Ok()
    ensures back == Back(s.Corpus(), s.embedder, key, other)
  {
    var own := SelfScore(s, other);
    var reverse := ScoreBetween(s, other, key);
    back := None;
    if own.Some? && own.value > 0.0 && reverse.Some? {
      back := Some(Ratio(reverse.value, own.value));
    }
  }

  method ReverseRatios(s: Index, key: Key, others: set<Key>) returns (backs: map<Key, Option<real>>)
    requires s.Ok()
    ensures backs.Keys == others
    ensures forall b :: b in backs ==> backs[b] == Back(s.Corpus(), s.embedder, key, b)
  {
    backs := map[];
    var rest := others;
    while rest != {}
      invariant rest <= others && backs.Keys == others - rest
      invariant forall b :: b in backs ==> backs[b] == Back(s.Corpus(), s.embedder, key, b)
    {
      var other :| other in rest;
      rest := rest - {other};
      var back := ReverseRatio(s, key, other);
      backs := backs[other := back];
    }
  }

  /** The forward matches whose reverse ratio clears the threshold, each with the smaller of the two ratios. */
  function Mutual(matches: map<Key, real>, backs: map<Key, Option<real>>, threshold: real): map<Key, real>
    requires matches.Keys == backs.Keys
  {
    map b | b in matches && backs[b].Some? && backs[b].value >= threshold ::
      if matches[b] <= backs[b].value then matches[b] else backs[b].value
  }

  lemma {:induction false} MutualIsSimilar(c: Corpus, em: Embedder, sizes: Sizes, threshold: real, key: Key,
                                           matches: map<Key, real>, backs: map<Key, Option<real>>, b: Key, score: real)
    requires b in backs ==> backs[b] == Back(c, em, key, b)
    requires matches.Keys == backs.Keys
    requires forall ratio :: Records(matches, b, ratio) <==> Forward(c, em, sizes, threshold, key, b, ratio)
    ensures Records(Mutual(matches, backs, threshold), b, score) <==> Similar(c, em, sizes, threshold, key, b, score)
  {
    if b in matches {
      assert Records(matches, b, matches[b]);
      assert Forward(c, em, sizes, threshold, key, b, matches[b]);
    }
    if Similar(c, em, sizes, threshold, key, b, score) {
      var ratio :| Forward(c, em, sizes, threshold, key, b, ratio);
      assert Records(matches, b, ratio);
    }
  }

  /** The similar pages of one page, most similar first, before the cap. */
  method MutualSimilar(s: Index, sizes: Sizes, key: Key, threshold: real) returns (ranked: seq<Scored>)
    requires s.Ok()
    ensures Ranked(ranked)
    ensures forall x: Scored :: x in ranked <==>
              Similar(s.Corpus(), s.embedder, sizes, threshold, key, x.key, x.score)
  {
    var matches := ForwardMatches(s, sizes, key, threshold);
    var backs := ReverseRatios(s, key, matches.Keys);
    ranked := SortMap(Mutual(matches, backs, threshold));
    forall x: Scored
      ensures x in ranked <==> Similar(s.Corpus(), s.embedder, sizes, threshold, key, x.key, x.score) {
      MutualIsSimilar(s.Corpus(), s.embedder, sizes, threshold, key, matches, backs, x.key, x.score);
      assert x in ranked <==> Records(Mutual(matches, backs, threshold), x.key, x.score);
    }
  }

  /** All similar pages of a page, most similar first. */
  ghost predicate SimilarRanking(c: Corpus, em: Embedder, sizes: Sizes, threshold: real, key: Key,
      ranked: seq<Scored>) {
    Ranked(ranked) && forall x: Scored :: x in ranked <==> Similar(c, em, sizes, threshold, key, x.key, x.score)
  }

  function Capped(ranked: seq<Scored>): seq<Scored> {
    ranked[..if |ranked| <= SIMILAR_PAGES_CAP then |ranked| else SIMILAR_PAGES_CAP]
  }

  /** The cap keeps the best three, or all of fewer: every page left out is listed below every page kept. */
  lemma {:induction false} CapKeepsBest(ranked: seq<Scored>, kept: Scored, left: Scored)
    requires Ranked(ranked) && kept in Capped(ranked) && left in ranked && left !in Capped(ranked)
    ensures |Capped(ranked)| == 3 && kept in ranked && Above(kept, left)
  {
    var i :| 0 <= i < |Capped(ranked)| && Capped(ranked)[i] == kept;
    var j :| 0 <= j < |ranked| && ranked[j] == left;
    assert forall n :: 0 <= n < |Capped(ranked)| ==> ranked[n] == Capped(ranked)[n] != left;
  }

  lemma {:induction false} FewAreKept(ranked: seq<Scored>)
    ensures |ranked| <= 3 ==> Capped(ranked) == ranked
    ensures |ranked| > 3 ==> |Capped(ranked)| == 3
  {
  }

  /** At most three similar pages, the most similar ones. */
  method SimilarPages(s: Index, sizes: Sizes, key: Key, threshold: real) returns (pages: seq<Scored>)
    requires s.Ok()
    ensures exists ranked ::
              SimilarRanking(s.Corpus(), s.embedder, sizes, threshold, key, ranked) && pages == Capped(ranked)
  {
    var ranked := MutualSimilar(s, sizes, key, threshold);
    assert SimilarRanking(s.Corpus(), s.embedder, sizes, threshold, key, ranked);
    pages := Capped(ranked);
  }

  type MatchTable = map<Key, map<Key, real>>

  ghost predicate TableOk(forward: MatchTable, c: Corpus, em: Embedder, sizes: Sizes, threshold: real, a: Key) {
    forall b, ratio :: (a in forward && Records(forward[a], b, ratio)) <==>
        Forward(c, em, sizes, threshold, a, b, ratio)
  }

  /** The forward matches of every page that has any. */
  method AllForward(s: Index, sizes: Sizes, threshold: real) returns (forward: MatchTable)
    requires s.Ok()
    ensures forall a :: TableOk(forward, s.Corpus(), s.embedder, sizes, threshold, a)
  {
    ghost var c, em := s.Corpus(), s.embedder;
    forward := map[];
    var rest := sizes.Keys;
    while rest != {}
      invariant rest <= sizes.Keys && forward.Keys <= sizes.Keys - rest
      invariant forall a :: a in sizes.Keys - rest ==> TableOk(forward, c, em, sizes, threshold, a)
    {
      var key :| key in rest;
      rest := rest - {key};
      var matches := ForwardMatches(s, sizes, key, threshold);
      ghost var before := forward;
      if matches != map[] {
        forward := forward[key := matches];
      }
      forall a | a in sizes.Keys - rest ensures TableOk(forward, c, em, sizes, threshold, a) {
        if a != key {
          assert TableOk(before, c, em, sizes, threshold, a);
        }
      }
    }
    forall a | a !in sizes ensures TableOk(forward, c, em, sizes, threshold, a) {
    }
  }

  /** Every mutually similar pair, each once with its smaller key first. */
  method Pairs(s: Index, sizes: Sizes, threshold: real) returns (pairs: set<(Key, Key)>)
    requires s.Ok()
    ensures forall a, b :: (a, b) in pairs <==>
              Less(a, b) && Paired(s.Corpus(), s.embedder, sizes, threshold, a, b)
  {
    var forward := AllForward(s, sizes, threshold);
    pairs := {};
    var rest := forward.Keys;
    while rest != {}
      invariant rest <= forward.Keys
      invariant forall a, b :: (a, b) in pairs <==>
                  a in forward.Keys - rest && b in forward[a] && Less(a, b) && b in forward && a in forward[b]
    {
      var a :| a in rest;
      rest := rest - {a};
      pairs := pairs + set b | b in forward[a] && Less(a, b) && b in forward && a in forward[b] :: (a, b);
    }
    ghost var c, em := s.Corpus(), s.embedder;
    forall a, b ensures (a, b) in pairs <==> Less(a, b) && Paired(c, em, sizes, threshold, a, b) {
      TableMember(forward, c, em, sizes, threshold, a, b);
      TableMember(forward, c, em, sizes, threshold, b, a);
    }
  }

  lemma {:induction false} TableMember(forward: MatchTable, c: Corpus, em: Embedder, sizes: Sizes, threshold: real,
      a: Key, b: Key)
    requires TableOk(forward, c, em, sizes, threshold, a)
    ensures (a in forward && b in forward[a]) <==> exists ratio :: Forward(c, em, sizes, threshold, a, b, ratio)
  {
    if a in forward && b in forward[a] {
      assert Records(forward[a], b, forward[a][b]);
    }
    if ratio :| Forward(c, em, sizes, threshold, a, b, ratio) {
      assert Records(forward[a], b, ratio);
    }
  }
}
