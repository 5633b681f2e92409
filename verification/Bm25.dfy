/**
 The plain definition of BM25 scoring: what a score means for a corpus of documents, with no index in sight.
 A document's text is the list of tokens the tokenizer produces for it; numbers are reals, and the natural
 logarithm is a parameter.
 */
module Bm25 {
  import opened Keys
  import opened Ranking

  type Token = nat
  type Corpus = map<Key, seq<Token>>

  /** One token of an embedded document together with its weight. */
  datatype TokenWeight = TokenWeight(index: Token, value: real)
  type Embedding = seq<TokenWeight>

  const DEFAULT_AVGDL := 256.0
  const K1 := 1.2
  const B := 0.75
  const REFIT_DRIFT := 0.25

  /** What scoring is made of: how rare a token is, from the number of documents and how many hold it; how much it
      weighs in a document, from its count, the document's length and the fitted average length; and the average length
      that documents without any text are fitted to. What is proved about the index holds of any formulas; Bm25Formulas
      are the ones in use. */
  datatype Formulas = Formulas(idf: (nat, nat) -> real, weight: (nat, nat, real) -> real, noTextFit: real)

  /** What the program takes from elsewhere: the logarithm, and what the embedding library does where the program's own
      formula says nothing, namely how it weighs a token at a fitted average length that is not positive, and what it
      fits documents without any text to. */
  datatype Library = Library(log: real -> real, weightUnfitted: (nat, nat, real) -> real, noTextFit: real)

  function Idf(n: nat, df: nat, log: real -> real): real {
    log(1.0 + (n as real - df as real + 0.5) / (df as real + 0.5))
  }

  /** The term weight at a fitted average length. */
  function Weight(frequency: nat, length: nat, avgdl: real): real
    requires avgdl > 0.0
  {
    var ratio := length as real / avgdl;
    assert ratio >= 0.0;
    var saturation := K1 * (1.0 - B + B * ratio);
    frequency as real * (K1 + 1.0) / (frequency as real + saturation)
  }

  function Bm25Formulas(lib: Library): Formulas {
    Formulas((n: nat, df: nat) => Idf(n, df, lib.log),
             (frequency: nat, length: nat, avgdl: real) =>
               if avgdl > 0.0 then Weight(frequency, length, avgdl) else lib.weightUnfitted(frequency, length, avgdl),
             lib.noTextFit)
  }

  /** What turns text into weighted tokens: the formulas, fitted to an average document length. */
  datatype Embedder = Embedder(avgdl: real, formulas: Formulas)

  /** The weight of `t` in a document, 0 when the document does not hold it. */
  function WeightOf(doc: seq<Token>, t: Token, em: Embedder): real {
    if t in doc then em.formulas.weight(multiset(doc)[t], |doc|, em.avgdl) else 0.0
  }

  /** The tokens of an embedding, in order. */
  function Tokens(e: Embedding): (doc: seq<Token>)
    ensures |doc| == |e|
    ensures forall j :: 0 <= j < |e| ==> doc[j] == e[j].index
  {
    if e == [] then [] else Tokens(e[..|e| - 1]) + [e[|e| - 1].index]
  }

  /** Every weight in the embedding is the one the embedder gives. */
  ghost predicate Fitted(e: Embedding, em: Embedder) {
    forall j :: 0 <= j < |e| ==> e[j].value == WeightOf(Tokens(e), e[j].index, em)
  }

  /** What the embedder makes of a text. */
  function Embed(doc: seq<Token>, em: Embedder): (e: Embedding)
    ensures Tokens(e) == doc && Fitted(e, em)
  {
    var e := seq(|doc|, j requires 0 <= j < |doc| => TokenWeight(doc[j], WeightOf(doc, doc[j], em)));
    assert Tokens(e) == doc;
    e
  }

  /** The keys of the documents that hold `t`. */
  function Holders(c: Corpus, t: Token): set<Key> {
    set k | k in c && t in c[k]
  }

  function Rarity(c: Corpus, t: Token, em: Embedder): real {
    em.formulas.idf(|c|, |Holders(c, t)|)
  }

  function Scaled(idf: real, weight: real): real {
    idf * weight
  }

  /** The score of `doc` for `query`: over the query's tokens, rarity in the corpus times weight in the document. */
  function Score(c: Corpus, query: seq<Token>, doc: seq<Token>, em: Embedder): real {
    if query == [] then 0.0
    else
      var last := query[|query| - 1];
      Score(c, query[..|query| - 1], doc, em) + Scaled(Rarity(c, last, em), WeightOf(doc, last, em))
  }

  /** One more query token adds its rarity times its weight. */
  lemma {:induction false} ScoreExtend(c: Corpus, q: seq<Token>, t: Token, doc: seq<Token>, em: Embedder, idf: real,
      weight: real)
    requires idf == Rarity(c, t, em) && weight == WeightOf(doc, t, em)
    ensures Score(c, q + [t], doc, em) == Score(c, q, doc, em) + Scaled(idf, weight)
  {
  }

  /** The lengths of all documents together. */
  ghost function TotalLength(c: Corpus): nat {
    if c == map[] then 0
    else
      var k :| k in c;
      |c[k]| + TotalLength(c - {k})
  }

  ghost function AverageLength(c: Corpus): real {
    if c == map[] then DEFAULT_AVGDL else TotalLength(c) as real / |c| as real
  }

  /** The total does not depend on the order documents are counted in. */
  lemma {:induction false} TotalLengthRemove(c: Corpus, k: Key)
    requires k in c
    ensures TotalLength(c) == |c[k]| + TotalLength(c - {k})
    decreases |c|
  {
    var j :| j in c && TotalLength(c) == |c[j]| + TotalLength(c - {j});
    if j != k {
      TotalLengthRemove(c - {j}, k);
      TotalLengthRemove(c - {k}, j);
      assert c - {j} - {k} == c - {k} - {j};
    }
  }

  lemma {:induction false} TotalLengthAdd(c: Corpus, k: Key, doc: seq<Token>)
    requires k !in c
    ensures TotalLength(c[k := doc]) == TotalLength(c) + |doc|
  {
    TotalLengthRemove(c[k := doc], k);
    assert c[k := doc] - {k} == c;
  }

  /** As many documents of one length. */
  function Times(length: nat, count: nat): nat {
    if count == 0 then 0 else Times(length, count - 1) + length
  }

  lemma {:induction false} TimesProduct(length: nat, count: nat)
    ensures Times(length, count) as real == length as real * count as real
  {
    if count > 0 {
      TimesProduct(length, count - 1);
      assert count as real == (count - 1) as real + 1.0;
    }
  }

  lemma {:induction false} TotalWithin(c: Corpus, shortest: nat, longest: nat)
    requires forall k :: k in c ==> shortest <= |c[k]| <= longest
    ensures Times(shortest, |c|) <= TotalLength(c) <= Times(longest, |c|)
    decreases |c|
  {
    if c != map[] {
      var k :| k in c;
      TotalLengthRemove(c, k);
      assert |c - {k}| == |c| - 1;
      TotalWithin(c - {k}, shortest, longest);
    }
  }

  /** The average lies between the shortest and the longest document. */
  lemma {:induction false} AverageWithin(c: Corpus, shortest: nat, longest: nat)
    requires c != map[] && forall k :: k in c ==> shortest <= |c[k]| <= longest
    ensures shortest as real <= AverageLength(c) <= longest as real
  {
    assert |c| > 0;
    TotalWithin(c, shortest, longest);
    QuotientWithin(shortest, TotalLength(c), longest, |c|);
  }

  lemma {:induction false} QuotientWithin(low: nat, total: nat, high: nat, count: nat)
    requires count > 0 && Times(low, count) <= total <= Times(high, count)
    ensures low as real <= total as real / count as real <= high as real
  {
    TimesProduct(low, count);
    TimesProduct(high, count);
    Between(low as real, total as real, high as real, count as real);
  }

  lemma {:induction false} Between(low: real, total: real, high: real, count: real)
    requires count > 0.0 && low * count <= total <= high * count
    ensures low <= total / count <= high
  {
    var average := total / count;
    assert average * count == total;
    ScaleOrder(low, average, count);
    ScaleOrder(average, high, count);
  }

  /** A token the document lacks adds nothing, so a document without any query token scores 0. */
  lemma {:induction false} ScoreDisjoint(c: Corpus, query: seq<Token>, doc: seq<Token>, em: Embedder)
    requires forall t :: t in query ==> t !in doc
    ensures Score(c, query, doc, em) == 0.0
  {
    if query != [] {
      ScoreDisjoint(c, query[..|query| - 1], doc, em);
    }
  }

  function Drift(current: real, fitted: real): real
    requires fitted > 0.0
  {
    var ratio := (current - fitted) / fitted;
    if ratio < 0.0 then -ratio else ratio
  }

  /** How far the average length of the documents held is from the fitted one; not at all while there is none, or while
      the fitted one is not positive. */
  ghost function MeasuredDrift(em: Embedder, c: Corpus): real {
    if em.avgdl <= 0.0 || c == map[] then 0.0 else Drift(AverageLength(c), em.avgdl)
  }

  /** The fit is renewed exactly when the drift passes the threshold. */
  ghost function Refitted(em: Embedder, c: Corpus): Embedder {
    if MeasuredDrift(em, c) > REFIT_DRIFT then em.(avgdl := AverageLength(c)) else em
  }

  lemma {:induction false} DriftScales(current: real, fitted: real)
    requires fitted > 0.0
    ensures Drift(current, fitted) <= REFIT_DRIFT <==>
        fitted * 0.75 <= current <= fitted * 1.25
  {
    var ratio, change := (current - fitted) / fitted, REFIT_DRIFT * fitted;
    assert ratio * fitted == current - fitted;
    ScaleOrder(ratio, REFIT_DRIFT, fitted);
    ScaleOrder(-REFIT_DRIFT, ratio, fitted);
    assert -REFIT_DRIFT * fitted == -change;
    assert -REFIT_DRIFT <= ratio <= REFIT_DRIFT <==> -change <= current - fitted <= change;
    assert Drift(current, fitted) <= REFIT_DRIFT <==> -REFIT_DRIFT <= ratio <= REFIT_DRIFT;
    assert fitted * (1.0 - REFIT_DRIFT) == fitted - change && fitted * (1.0 + REFIT_DRIFT) == fitted + change;
  }

  lemma {:induction false} ScaleOrder(a: real, b: real, factor: real)
    requires factor > 0.0
    ensures a <= b <==> a * factor <= b * factor
  {
  }

  lemma {:induction false} ProductPositive(x: real, y: real)
    requires x > 0.0 && y > 0.0
    ensures x * y > 0.0 && y * x == x * y
  {
  }

  // ----- When a score is positive -----

  /** No token is so common that it counts for nothing. */
  ghost predicate PositiveIdf(f: Formulas) {
    forall n: nat, df: nat :: df <= n ==> f.idf(n, df) > 0.0
  }

  /** No token counts against a document, fitted to this average. */
  ghost predicate NonNegativeAt(f: Formulas, avgdl: real) {
    forall frequency: nat, length: nat :: f.weight(frequency, length, avgdl) >= 0.0
  }

  /** No token weighs anything while the fitted average is not positive. */
  ghost predicate VanishesAtZero(f: Formulas) {
    forall frequency: nat, length: nat, avgdl: real :: avgdl <= 0.0 ==> f.weight(frequency, length, avgdl) == 0.0
  }

  lemma {:induction false} ScaledSign(idf: real, weight: real)
    requires idf > 0.0 && weight >= 0.0
    ensures Scaled(idf, weight) >= 0.0 && (Scaled(idf, weight) > 0.0 <==> weight > 0.0)
  {
  }

  lemma {:induction false} HoldersBound(c: Corpus, t: Token)
    ensures |Holders(c, t)| <= |c|
  {
    CountBound(Holders(c, t), c.Keys);
  }

  lemma {:induction false} CountBound(a: set<Key>, b: set<Key>)
    requires a <= b
    ensures |a| <= |b|
  {
    if a != {} {
      var k :| k in a;
      CountBound(a - {k}, b - {k});
    }
  }

  /** Whatever the formulas, a document scores above 0 exactly when some token of the query weighs something in it. */
  lemma {:induction false} ScorePositive(c: Corpus, query: seq<Token>, doc: seq<Token>, em: Embedder)
    requires PositiveIdf(em.formulas) && NonNegativeAt(em.formulas, em.avgdl)
    ensures Score(c, query, doc, em) >= 0.0
    ensures Score(c, query, doc, em) > 0.0 <==> exists t :: t in query && WeightOf(doc, t, em) > 0.0
  {
    if query != [] {
      var front, last := query[..|query| - 1], query[|query| - 1];
      ScorePositive(c, front, doc, em);
      HoldersBound(c, last);
      assert WeightOf(doc, last, em) >= 0.0;
      ScaledSign(Rarity(c, last, em), WeightOf(doc, last, em));
      assert query == front + [last];
    }
  }

  /** Fitted to no length at all, with weights that vanish there, nothing scores anything. */
  lemma {:induction false} ZeroFitScores(c: Corpus, query: seq<Token>, doc: seq<Token>, em: Embedder)
    requires VanishesAtZero(em.formulas) && em.avgdl <= 0.0
    ensures Score(c, query, doc, em) == 0.0
  {
    if query != [] {
      ZeroFitScores(c, query[..|query| - 1], doc, em);
      assert WeightOf(doc, query[|query| - 1], em) == 0.0;
    }
  }

  // ----- The formulas in use -----

  /** All that is asked of the logarithm. */
  ghost predicate PositiveLog(log: real -> real) {
    forall x: real :: x > 1.0 ==> log(x) > 0.0
  }

  function FittedTo(avgdl: real, lib: Library): Embedder {
    Embedder(avgdl, Bm25Formulas(lib))
  }

  lemma {:induction false} QuotientPositive(a: real, b: real)
    requires a > 0.0 && b > 0.0
    ensures a / b > 0.0
  {
  }

  /** Fitted to a positive average, a token that occurs weighs something. */
  lemma {:induction false} WeightPositive(frequency: nat, length: nat, avgdl: real)
    requires avgdl > 0.0
    ensures Weight(frequency, length, avgdl) >= 0.0
    ensures Weight(frequency, length, avgdl) > 0.0 <==> frequency > 0
  {
    var ratio := length as real / avgdl;
    assert ratio >= 0.0;
    var saturation := K1 * (1.0 - B + B * ratio);
    assert saturation > 0.0;
    if frequency > 0 {
      QuotientPositive(frequency as real * (K1 + 1.0), frequency as real + saturation);
    }
  }

  lemma {:induction false} IdfPositive(n: nat, df: nat, log: real -> real)
    requires df <= n && PositiveLog(log)
    ensures Idf(n, df, log) > 0.0
  {
    QuotientPositive(n as real - df as real + 0.5, df as real + 0.5);
  }

  /** With the formulas in use and a positive fit, what is asked of formulas holds, and exactly the tokens of a document
      weigh something in it. */
  lemma {:induction false} InUse(avgdl: real, lib: Library)
    requires PositiveLog(lib.log)
    ensures PositiveIdf(Bm25Formulas(lib))
    ensures avgdl > 0.0 ==> NonNegativeAt(Bm25Formulas(lib), avgdl)
    ensures avgdl > 0.0 ==> forall doc, t :: WeightOf(doc, t, FittedTo(avgdl, lib)) > 0.0 <==> t in doc
  {
    var f := Bm25Formulas(lib);
    forall n: nat, df: nat | df <= n ensures f.idf(n, df) > 0.0 {
      IdfPositive(n, df, lib.log);
    }
    if avgdl > 0.0 {
      forall frequency: nat, length: nat
        ensures f.weight(frequency, length, avgdl) >= 0.0
        ensures f.weight(frequency, length, avgdl) > 0.0 <==> frequency > 0
      {
        WeightPositive(frequency, length, avgdl);
      }
      forall doc: seq<Token>, t: Token ensures WeightOf(doc, t, FittedTo(avgdl, lib)) > 0.0 <==> t in doc {
        assert t in doc <==> multiset(doc)[t] > 0;
      }
    }
  }

  // ----- What a search answers -----

  /** The answer to a query: every document that scores above 0, best first. */
  ghost predicate IsAnswer(c: Corpus, query: seq<Token>, em: Embedder, answer: seq<Scored>) {
    && Ranked(answer)
    && forall x :: x in answer <==> x.key in c && x.score == Score(c, query, c[x.key], em) && x.score > 0.0
  }

  /** Corpus, query and fitted average length determine the answer. */
  lemma {:induction false} AnswerUnique(c: Corpus, query: seq<Token>, em: Embedder, a: seq<Scored>, b: seq<Scored>)
    requires IsAnswer(c, query, em, a) && IsAnswer(c, query, em, b)
    ensures a == b
  {
    forall x ensures x in a <==> x in b {
    }
    RankingUnique(a, b);
  }

  /** The answer lists the document. */
  predicate Finds(answer: seq<Scored>, key: Key) {
    exists i :: 0 <= i < |answer| && answer[i].key == key
  }

  lemma {:induction false} FindsScored(c: Corpus, query: seq<Token>, em: Embedder, answer: seq<Scored>, key: Key)
    requires IsAnswer(c, query, em, answer)
    ensures Finds(answer, key) <==> key in c && Score(c, query, c[key], em) > 0.0
  {
    if Finds(answer, key) {
      var i :| 0 <= i < |answer| && answer[i].key == key;
      assert answer[i] in answer;
    }
    if key in c && Score(c, query, c[key], em) > 0.0 {
      assert Scored(key, Score(c, query, c[key], em)) in answer;
    }
  }

  /** Whatever the formulas, a document is found exactly when some token of the query weighs something in it, at the
      average the embedder is fitted to. */
  lemma {:induction false} FoundByWeight(c: Corpus, query: seq<Token>, em: Embedder, answer: seq<Scored>, key: Key)
    requires PositiveIdf(em.formulas) && NonNegativeAt(em.formulas, em.avgdl) && IsAnswer(c, query, em, answer)
    ensures Finds(answer, key) <==> key in c && exists t :: t in query && WeightOf(c[key], t, em) > 0.0
  {
    FindsScored(c, query, em, answer, key);
    if key in c {
      ScorePositive(c, query, c[key], em);
    }
  }

  /** With the formulas in use and a positive fit, exactly the documents that share a token with the query are found. */
  lemma {:induction false} FoundExactly(c: Corpus, query: seq<Token>, avgdl: real, lib: Library, answer: seq<Scored>,
      key: Key)
    requires PositiveLog(lib.log) && avgdl > 0.0 && IsAnswer(c, query, FittedTo(avgdl, lib), answer)
    ensures Finds(answer, key) <==> key in c && exists t :: t in query && t in c[key]
  {
    InUse(avgdl, lib);
    FoundByWeight(c, query, FittedTo(avgdl, lib), answer, key);
  }

  /** Fitted to zero, with weights that vanish there, nothing is found. */
  lemma {:induction false} ZeroFitFindsNothing(c: Corpus, query: seq<Token>, em: Embedder, answer: seq<Scored>)
    requires VanishesAtZero(em.formulas) && em.avgdl <= 0.0 && IsAnswer(c, query, em, answer)
    ensures answer == []
  {
    assert answer != [] ==> answer[0] in answer;
    if answer != [] {
      ZeroFitScores(c, query, c[answer[0].key], em);
      assert false;
    }
  }

  /** Without any text nothing is found, whatever the fit. */
  lemma {:induction false} NoTextFindsNothing(c: Corpus, query: seq<Token>, em: Embedder, answer: seq<Scored>)
    requires TotalLength(c) == 0 && IsAnswer(c, query, em, answer)
    ensures answer == []
  {
    assert answer != [] ==> answer[0] in answer;
    if answer != [] {
      NoText(c, answer[0].key);
      ScoreDisjoint(c, query, c[answer[0].key], em);
      assert false;
    }
  }

  lemma {:induction false} NoText(c: Corpus, key: Key)
    requires TotalLength(c) == 0 && key in c
    ensures c[key] == []
  {
    TotalLengthRemove(c, key);
  }

  function Ratio(score: real, own: real): real
    requires own > 0.0
  {
    score / own
  }

  /** The score of `other` against `key`'s own text. */
  function Against(c: Corpus, key: Key, other: Key, em: Embedder): real
    requires key in c && other in c
  {
    Score(c, c[key], c[other], em)
  }

  /** `other` matches `key` in one direction with the ratio given: its score against `key`'s text, relative to
      `key`'s own, is positive and reaches the floor. */
  ghost predicate Matches(c: Corpus, key: Key, floor: real, em: Embedder, other: Key, ratio: real) {
    && key in c && other in c && other != key
    && Against(c, key, key, em) > 0.0 && Against(c, key, other, em) > 0.0
    && ratio == Ratio(Against(c, key, other, em), Against(c, key, key, em)) >= floor
  }

  lemma {:induction false} RatioScales(score: real, own: real, floor: real)
    requires own > 0.0
    ensures Ratio(score, own) * own == score
    ensures Ratio(score, own) >= floor <==> score >= floor * own
  {
    ScaleOrder(floor, Ratio(score, own), own);
  }

  /** The matches of a document are what searching for its own text finds, other than itself, as far as they reach the
      floor; a match's ratio is its share of what the document itself scores. */
  lemma {:induction false} MatchesAreFound(c: Corpus, key: Key, floor: real, em: Embedder, answer: seq<Scored>,
      other: Key, ratio: real)
    requires key in c && Score(c, c[key], c[key], em) > 0.0 && IsAnswer(c, c[key], em, answer)
    ensures Matches(c, key, floor, em, other, ratio) <==>
              other != key && ratio >= floor && Scored(other, ratio * Score(c, c[key], c[key], em)) in answer
  {
    var own := Score(c, c[key], c[key], em);
    if other in c {
      var score := Score(c, c[key], c[other], em);
      RatioScales(score, own, floor);
      if ratio * own == score {
        ScaleOrder(ratio, Ratio(score, own), own);
        ScaleOrder(Ratio(score, own), ratio, own);
      }
    }
  }

  // ----- Building from a list -----

  datatype Source = Source(key: Key, tokens: seq<Token>)

  /** The corpus a list of documents amounts to; a later document replaces an earlier one under its key. */
  ghost function ListCorpus(docs: seq<Source>): Corpus {
    if docs == [] then map[]
    else
      var last := docs[|docs| - 1];
      ListCorpus(docs[..|docs| - 1])[last.key := last.tokens]
  }

  lemma {:induction false} ListCorpusStep(docs: seq<Source>, i: nat)
    requires i < |docs|
    ensures ListCorpus(docs[..i + 1]) == ListCorpus(docs[..i])[docs[i].key := docs[i].tokens]
  {
    assert docs[..i + 1][..i] == docs[..i];
  }

  function ListLength(docs: seq<Source>): nat {
    if docs == [] then 0 else ListLength(docs[..|docs| - 1]) + |docs[|docs| - 1].tokens|
  }

  /** The average length the embedder is fitted to when it is built from a corpus. */
  function FitAverage(docs: seq<Source>, f: Formulas): real {
    if ListLength(docs) == 0 then f.noTextFit else ListLength(docs) as real / |docs| as real
  }

  /** Over distinct keys, fitting to the list is fitting to the corpus, if it has any text. */
  lemma {:induction false} FitIsAverage(docs: seq<Source>, f: Formulas)
    requires forall i, j :: 0 <= i < j < |docs| ==> docs[i].key != docs[j].key
    requires ListLength(docs) > 0
    ensures FitAverage(docs, f) == AverageLength(ListCorpus(docs))
  {
    ListTotals(docs);
  }

  lemma {:induction false} ListTotals(docs: seq<Source>)
    requires forall i, j :: 0 <= i < j < |docs| ==> docs[i].key != docs[j].key
    ensures ListLength(docs) == TotalLength(ListCorpus(docs)) && |docs| == |ListCorpus(docs)|
  {
    if docs != [] {
      var last := |docs| - 1;
      ListTotals(docs[..last]);
      ListKeys(docs[..last]);
      TotalLengthAdd(ListCorpus(docs[..last]), docs[last].key, docs[last].tokens);
    }
  }

  lemma {:induction false} ListKeys(docs: seq<Source>)
    ensures ListCorpus(docs).Keys == set i | 0 <= i < |docs| :: docs[i].key
  {
    if docs != [] {
      var last := |docs| - 1;
      ListKeys(docs[..last]);
      assert docs == docs[..last] + [docs[last]];
      var before, after := set i | 0 <= i < last :: docs[..last][i].key, set i | 0 <= i < |docs| :: docs[i].key;
      assert after == before + {docs[last].key} by {
        assert forall i :: 0 <= i < last ==> docs[..last][i] == docs[i];
        forall k | k in after ensures k in before + {docs[last].key} {
          var i :| 0 <= i < |docs| && docs[i].key == k;
          assert i < last ==> docs[..last][i].key == k;
        }
      }
    }
  }
}
