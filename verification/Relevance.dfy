/**
 What the formulas in use reward: rare tokens, repeated tokens and short documents, and in which order an answer lists
 what it finds.
 */
module Relevance {
  import opened Keys
  import opened Ranking
  import opened Bm25

  // ----- The formulas -----

  ghost predicate IncreasingLog(log: real -> real) {
    forall x, y :: 0.0 < x < y ==> log(x) < log(y)
  }

  lemma {:induction false} QuotientOrder(p: real, q: real, r: real, s: real)
    requires q > 0.0 && s > 0.0
    ensures p / q < r / s <==> p * s < r * q
  {
    var x, y := p / q, r / s;
    assert p == x * q && r == y * s;
    assert p * s == x * (q * s) && r * q == y * (q * s);
    ScaleOrder(y, x, q * s);
  }

  /** The more documents hold a token, the less it counts for. */
  lemma {:induction false} IdfFalls(n: nat, few: nat, many: nat, log: real -> real)
    requires few < many <= n && IncreasingLog(log)
    ensures Idf(n, few, log) > Idf(n, many, log)
  {
    var a, b, m := few as real, many as real, n as real;
    var p, q, r, s := m - b + 0.5, b + 0.5, m - a + 0.5, a + 0.5;
    assert p * s == m * a + 0.5 * m - b * a - 0.5 * b + 0.5 * a + 0.25;
    assert r * q == m * b + 0.5 * m - a * b - 0.5 * a + 0.5 * b + 0.25;
    ScaleOrder(b, a, m + 1.0);
    assert b * (m + 1.0) == m * b + b && a * (m + 1.0) == m * a + a;
    QuotientOrder(p, q, r, s);
    QuotientPositive(p, q);
  }

  /** A token that half the documents hold counts for the logarithm of two. */
  lemma {:induction false} IdfAtHalf(df: nat, log: real -> real)
    ensures Idf(2 * df, df, log) == log(2.0)
  {
    var half := df as real + 0.5;
    assert (2 * df) as real - df as real + 0.5 == half && half / half == 1.0;
  }

  /** What a token's count is weighed against: 0.3 without any length, 1.2 at the average, more in a longer document. */
  function Saturation(length: nat, avgdl: real): real
    requires avgdl > 0.0
  {
    K1 * (1.0 - B + B * (length as real / avgdl))
  }

  lemma {:induction false} SaturationAt(length: nat, avgdl: real)
    requires avgdl > 0.0
    ensures Saturation(0, avgdl) == 0.3
    ensures length > 0 ==> Saturation(length, length as real) == 1.2
  {
    assert length > 0 ==> length as real / length as real == 1.0;
  }

  lemma {:induction false} SaturationGrows(short: nat, long: nat, avgdl: real)
    requires short < long && avgdl > 0.0
    ensures 0.3 <= Saturation(short, avgdl) < Saturation(long, avgdl)
  {
    QuotientOrder(short as real, avgdl, long as real, avgdl);
    ScaleOrder(long as real, short as real, avgdl);
    QuotientNonNegative(short as real, avgdl);
  }

  lemma {:induction false} QuotientNonNegative(a: real, b: real)
    requires a >= 0.0 && b > 0.0
    ensures a / b >= 0.0
  {
  }

  lemma {:induction false} WeightIs(frequency: nat, length: nat, avgdl: real)
    requires avgdl > 0.0
    ensures Saturation(length, avgdl) > 0.0
    ensures Weight(frequency, length, avgdl) ==
            Quotient(frequency as real * (K1 + 1.0), frequency as real + Saturation(length, avgdl))
  {
    QuotientNonNegative(length as real, avgdl);
  }

  function Quotient(a: real, b: real): real {
    if b == 0.0 then 0.0 else a / b
  }

  /** The more often a token occurs, the more it weighs, but never as much as 2.2. */
  lemma {:induction false} WeightGrows(few: nat, many: nat, length: nat, avgdl: real)
    requires few < many && avgdl > 0.0
    ensures Weight(few, length, avgdl) < Weight(many, length, avgdl) < 2.2
  {
    var a, b, s, top := few as real, many as real, Saturation(length, avgdl), K1 + 1.0;
    WeightIs(few, length, avgdl);
    WeightIs(many, length, avgdl);
    ScaleOrder(b, a, s);
    assert a * top * (b + s) == top * (a * b) + top * (a * s);
    assert b * top * (a + s) == top * (a * b) + top * (b * s);
    ScaleOrder(b * s, a * s, top);
    assert top * (a * s) == a * s * top && top * (b * s) == b * s * top;
    QuotientOrder(a * top, a + s, b * top, b + s);
    QuotientOrder(b * top, b + s, top, 1.0);
    assert top * (b + s) == b * top + s * top;
    ProductPositive(s, top);
  }

  /** The longer the document, the less a token weighs in it. */
  lemma {:induction false} WeightFalls(frequency: nat, short: nat, long: nat, avgdl: real)
    requires frequency > 0 && short < long && avgdl > 0.0
    ensures Weight(frequency, short, avgdl) > Weight(frequency, long, avgdl)
  {
    var f, s, l := frequency as real, Saturation(short, avgdl), Saturation(long, avgdl);
    var top := f * (K1 + 1.0);
    WeightIs(frequency, short, avgdl);
    WeightIs(frequency, long, avgdl);
    SaturationGrows(short, long, avgdl);
    ProductPositive(f, K1 + 1.0);
    ScaleOrder(f + l, f + s, top);
    assert top * (f + s) == (f + s) * top && top * (f + l) == (f + l) * top;
    QuotientOrder(top, f + l, top, f + s);
  }

  /** A token that occurs once in a document of average length weighs 1. */
  lemma {:induction false} WeightAtAverage(length: nat)
    requires length > 0
    ensures Weight(1, length, length as real) == 1.0
  {
    assert length as real / length as real == 1.0;
  }

  // ----- Scores -----

  /** The query has the token once, and no other token of it is in the document. */
  ghost predicate SharesOnly(query: seq<Token>, doc: seq<Token>, t: Token) {
    multiset(query)[t] == 1 && forall u :: u in query && u in doc ==> u == t
  }

  lemma {:induction false} WithoutToken(query: seq<Token>, doc: seq<Token>, t: Token, c: Corpus, em: Embedder)
    requires multiset(query)[t] == 0 && forall u :: u in query && u in doc ==> u == t
    ensures Score(c, query, doc, em) == 0.0
  {
    forall u | u in query ensures u !in doc {
      assert multiset(query)[u] > 0;
    }
    ScoreDisjoint(c, query, doc, em);
  }

  /** Such a document scores what that token is worth: its rarity times its weight. */
  lemma {:induction false} SharedScore(c: Corpus, query: seq<Token>, doc: seq<Token>, t: Token, em: Embedder)
    requires SharesOnly(query, doc, t)
    ensures Score(c, query, doc, em) == Scaled(Rarity(c, t, em), WeightOf(doc, t, em))
  {
    var front, last := query[..|query| - 1], query[|query| - 1];
    assert query == front + [last];
    if last == t {
      assert query[|query| - 1] == t && multiset(query) == multiset(query[..|query| - 1]) + multiset{t};
      WithoutToken(front, doc, t, c, em);
    } else {
      assert last !in doc;
      SharedScore(c, front, doc, t, em);
    }
  }

  lemma {:induction false} ScaledOrder(a: real, b: real, x: real, y: real)
    requires 0.0 < a <= b && 0.0 < x <= y && (a < b || x < y)
    ensures Scaled(a, x) < Scaled(b, y)
  {
    assert a * x <= b * x <= b * y;
    if a < b {
      ScaleOrder(b, a, x);
    } else {
      ScaleOrder(y, x, b);
      assert x * b == b * x && y * b == b * y;
    }
  }

  /** Each of two documents shares just one token with the query. */
  ghost predicate Rivals(c: Corpus, query: seq<Token>, a: Key, t: Token, b: Key, u: Token) {
    && a in c && b in c && t in c[a] && u in c[b]
    && SharesOnly(query, c[a], t) && SharesOnly(query, c[b], u)
  }

  lemma {:induction false} WeightInUse(doc: seq<Token>, t: Token, avgdl: real, lib: Library)
    requires avgdl > 0.0 && t in doc
    ensures WeightOf(doc, t, FittedTo(avgdl, lib)) == Weight(multiset(doc)[t], |doc|, avgdl) > 0.0
  {
    assert multiset(doc)[t] > 0;
    WeightPositive(multiset(doc)[t], |doc|, avgdl);
  }

  lemma {:induction false} RarityInUse(c: Corpus, t: Token, avgdl: real, lib: Library)
    requires PositiveLog(lib.log)
    ensures |Holders(c, t)| <= |c|
    ensures Rarity(c, t, FittedTo(avgdl, lib)) == Idf(|c|, |Holders(c, t)|, lib.log) > 0.0
  {
    HoldersBound(c, t);
    IdfPositive(|c|, |Holders(c, t)|, lib.log);
  }

  /** Of two equally long documents that share one token each with the query, equally often, the one whose token fewer
      documents hold scores higher. */
  lemma {:induction false} RarerScoresHigher(c: Corpus, query: seq<Token>, a: Key, t: Token, b: Key, u: Token,
      avgdl: real, lib: Library)
    requires PositiveLog(lib.log) && IncreasingLog(lib.log) && avgdl > 0.0
    requires Rivals(c, query, a, t, b, u) && |Holders(c, t)| < |Holders(c, u)|
    requires |c[a]| == |c[b]| && multiset(c[a])[t] == multiset(c[b])[u]
    ensures var em := FittedTo(avgdl, lib); Score(c, query, c[a], em) > Score(c, query, c[b], em) > 0.0
  {
    var em := FittedTo(avgdl, lib);
    SharedScore(c, query, c[a], t, em);
    SharedScore(c, query, c[b], u, em);
    WeightInUse(c[a], t, avgdl, lib);
    WeightInUse(c[b], u, avgdl, lib);
    RarityInUse(c, t, avgdl, lib);
    RarityInUse(c, u, avgdl, lib);
    IdfFalls(|c|, |Holders(c, t)|, |Holders(c, u)|, lib.log);
    ScaledOrder(Rarity(c, u, em), Rarity(c, t, em), WeightOf(c[b], u, em), WeightOf(c[a], t, em));
    ScaledSign(Rarity(c, u, em), WeightOf(c[b], u, em));
  }

  /** Of two documents that share the same one token with the query, the one that holds it more often in no more text,
      or as often in less, scores higher. */
  lemma {:induction false} DenserScoresHigher(c: Corpus, query: seq<Token>, a: Key, b: Key, t: Token, avgdl: real,
      lib: Library)
    requires PositiveLog(lib.log) && avgdl > 0.0 && Rivals(c, query, a, t, b, t)
    requires |c[a]| <= |c[b]| && multiset(c[a])[t] >= multiset(c[b])[t]
    requires |c[a]| < |c[b]| || multiset(c[a])[t] > multiset(c[b])[t]
    ensures var em := FittedTo(avgdl, lib); Score(c, query, c[a], em) > Score(c, query, c[b], em) > 0.0
  {
    var em := FittedTo(avgdl, lib);
    SharedScore(c, query, c[a], t, em);
    SharedScore(c, query, c[b], t, em);
    WeightInUse(c[a], t, avgdl, lib);
    WeightInUse(c[b], t, avgdl, lib);
    RarityInUse(c, t, avgdl, lib);
    DenserWeighsMore(multiset(c[a])[t], |c[a]|, multiset(c[b])[t], |c[b]|, avgdl);
    ScaledOrder(Rarity(c, t, em), Rarity(c, t, em), WeightOf(c[b], t, em), WeightOf(c[a], t, em));
    ScaledSign(Rarity(c, t, em), WeightOf(c[b], t, em));
  }

  lemma {:induction false} DenserWeighsMore(f: nat, short: nat, g: nat, long: nat, avgdl: real)
    requires avgdl > 0.0 && 0 < g <= f && short <= long && (g < f || short < long)
    ensures Weight(f, short, avgdl) > Weight(g, long, avgdl)
  {
    if g < f {
      WeightGrows(g, f, short, avgdl);
    }
    if short < long {
      WeightFalls(g, short, long, avgdl);
    }
  }

  // ----- The order of an answer -----

  /** The answer lists `a` before `b`. */
  ghost predicate ListsBefore(answer: seq<Scored>, a: Key, b: Key) {
    exists i, j :: 0 <= i < j < |answer| && answer[i].key == a && answer[j].key == b
  }

  /** One document is listed before another exactly when both are found and it scores higher, or they score alike and
      its key is the smaller one. */
  lemma {:induction false} ListedByScore(c: Corpus, query: seq<Token>, em: Embedder, answer: seq<Scored>, a: Key,
      b: Key)
    requires IsAnswer(c, query, em, answer) && a in c && b in c
    ensures var x, y := Score(c, query, c[a], em), Score(c, query, c[b], em);
            ListsBefore(answer, a, b) <==> x > 0.0 && y > 0.0 && (x > y || (x == y && Less(a, b)))
  {
    var x, y := Scored(a, Score(c, query, c[a], em)), Scored(b, Score(c, query, c[b], em));
    if ListsBefore(answer, a, b) {
      var i, j :| 0 <= i < j < |answer| && answer[i].key == a && answer[j].key == b;
      assert answer[i] in answer && answer[j] in answer;
    }
    if x.score > 0.0 && y.score > 0.0 && (x.score > y.score || (x.score == y.score && Less(a, b))) {
      assert x in answer && y in answer;
      var i :| 0 <= i < |answer| && answer[i] == x;
      var j :| 0 <= j < |answer| && answer[j] == y;
      AboveAsymmetric(x, y);
    }
  }

  /** So the document with the rarer token is listed first. */
  lemma {:induction false} RarerFirst(c: Corpus, query: seq<Token>, a: Key, t: Token, b: Key, u: Token, avgdl: real,
      lib: Library, answer: seq<Scored>)
    requires PositiveLog(lib.log) && IncreasingLog(lib.log) && avgdl > 0.0
    requires Rivals(c, query, a, t, b, u) && |Holders(c, t)| < |Holders(c, u)|
    requires |c[a]| == |c[b]| && multiset(c[a])[t] == multiset(c[b])[u]
    requires IsAnswer(c, query, FittedTo(avgdl, lib), answer)
    ensures ListsBefore(answer, a, b)
  {
    RarerScoresHigher(c, query, a, t, b, u, avgdl, lib);
    ListedByScore(c, query, FittedTo(avgdl, lib), answer, a, b);
  }

  /** And the denser one is. */
  lemma {:induction false} DenserFirst(c: Corpus, query: seq<Token>, a: Key, b: Key, t: Token, avgdl: real,
      lib: Library, answer: seq<Scored>)
    requires PositiveLog(lib.log) && avgdl > 0.0 && Rivals(c, query, a, t, b, t)
    requires |c[a]| <= |c[b]| && multiset(c[a])[t] >= multiset(c[b])[t]
    requires |c[a]| < |c[b]| || multiset(c[a])[t] > multiset(c[b])[t]
    requires IsAnswer(c, query, FittedTo(avgdl, lib), answer)
    ensures ListsBefore(answer, a, b)
  {
    DenserScoresHigher(c, query, a, b, t, avgdl, lib);
    ListedByScore(c, query, FittedTo(avgdl, lib), answer, a, b);
  }
}
