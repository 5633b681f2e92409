/**
 The inverted index: document slots that are reused, a free list, posting lists edited in place, and a refit when
 the average document length drifts. It is proved to agree with the plain definition in module Bm25.
 */
module SearchIndex {
  import opened Keys
  import opened Ranking
  import opened Bm25
  import opened Postings

  // ----- The state of an index as a value -----

  type Docs = seq<Option<Embedding>>

  /** The embedding in a slot; empty when the slot is vacant. */
  function At(docs: Docs, slot: nat): Embedding {
    if slot < |docs| && docs[slot].Some? then docs[slot].value else []
  }

  /** `ids` is a bijection onto the occupied slots, with `keys` as its inverse. */
  ghost predicate SlotsOk(keys: seq<Option<Key>>, ids: map<Key, nat>, docs: Docs) {
    && |keys| == |docs|
    && (forall k {:trigger ids[k]} {:trigger k in ids} :: k in ids ==> ids[k] < |keys| && keys[ids[k]] == Some(k))
    && (forall i, k {:trigger keys[i], ids[k]} {:trigger keys[i], k in ids} ::
          0 <= i < |keys| && keys[i] == Some(k) ==> k in ids && ids[k] == i)
    && (forall i :: 0 <= i < |keys| ==> keys[i].Some? == docs[i].Some?)
  }

  /** The free list holds exactly the vacant slots, each once. */
  ghost predicate FreeOk(free: seq<nat>, docs: Docs) {
    forall i: nat :: multiset(free)[i] == if i < |docs| && docs[i].None? then 1 else 0
  }

  /** Every stored weight is the one a single embedder gives. */
  ghost predicate WeightsOk(docs: Docs, em: Embedder) {
    forall i :: 0 <= i < |docs| && docs[i].Some? ==> Fitted(docs[i].value, em)
  }

  /** What the posting list of `t` has to record: each document holding `t`, with its weight. */
  ghost function Column(docs: Docs, t: Token): map<nat, real> {
    map i | 0 <= i < |docs| && t in TokenSet(At(docs, i)) :: ValueOf(At(docs, i), t)
  }

  ghost function TableOf(docs: Docs): Table {
    map t | t in (set i, j | 0 <= i < |docs| && 0 <= j < |At(docs, i)| :: At(docs, i)[j].index) :: Column(docs, t)
  }

  ghost function CorpusOf(ids: map<Key, nat>, docs: Docs): Corpus {
    map k | k in ids :: Tokens(At(docs, ids[k]))
  }

  /** The index's fields. */
  datatype Index = Index(embedder: Embedder, keys: seq<Option<Key>>, ids: map<Key, nat>, docs: Docs,
      postings: PostingMap,
                         free: seq<nat>, totalLength: int)
  {
    /** The documents held, by key. */
    ghost function Corpus(): Bm25.Corpus {
      CorpusOf(ids, docs)
    }

    function PostingsFor(t: Token): seq<Posting> {
      if t in postings then postings[t] else []
    }

    /** How rare a token is: its posting list's length against the number of documents held. */
    function IdfOf(t: Token): real {
      embedder.formulas.idf(|ids|, |PostingsFor(t)|)
    }

    /** The average length of the documents held now. */
    function CurrentAvgdl(): real {
      if ids == map[] then DEFAULT_AVGDL else totalLength as real / |ids| as real
    }

    /** How far the current average has moved from the fitted one, relative to it. */
    function AvgdlDrift(): real {
      if embedder.avgdl <= 0.0 || ids == map[] then 0.0 else Drift(CurrentAvgdl(), embedder.avgdl)
    }

    /** All that holds of the fields together. */
    ghost predicate Ok() {
      && SlotsOk(keys, ids, docs)
      && FreeOk(free, docs)
      && WeightsOk(docs, embedder)
      && WellFormed(postings) && View(postings) == TableOf(docs)
      && totalLength == TotalLength(Corpus())
    }
  }

  // ----- Counting -----

  /** A map that is injective on a set keeps its size. */
  lemma {:induction false} ImageCount(s: set<Key>, f: map<Key, nat>)
    requires s <= f.Keys
    requires forall a, b :: a in s && b in s && a != b ==> f[a] != f[b]
    ensures |set k | k in s :: f[k]| == |s|
  {
    if s != {} {
      var k :| k in s;
      var rest := s - {k};
      ImageCount(rest, f);
      assert (set j | j in s :: f[j]) == (set j | j in rest :: f[j]) + {f[k]};
      assert f[k] !in set j | j in rest :: f[j];
    }
  }

  ghost function Vacant(docs: Docs): set<nat> {
    set i | 0 <= i < |docs| && docs[i].None?
  }

  ghost function Elements(free: seq<nat>): set<nat> {
    set i: nat | i in free
  }

  ghost function Occupied(docs: Docs): set<nat> {
    set i | 0 <= i < |docs| && docs[i].Some?
  }

  lemma {:induction false} SlotCount(docs: Docs)
    ensures |Vacant(docs)| + |Occupied(docs)| == |docs|
  {
    if docs != [] {
      var last := |docs| - 1;
      SlotCount(docs[..last]);
      ExtendSlots(docs[..last], docs[last]);
      assert docs == docs[..last] + [docs[last]];
    }
  }

  lemma {:induction false} ExtendSlots(docs: Docs, d: Option<Embedding>)
    ensures Vacant(docs + [d]) == if d.None? then Vacant(docs) + {|docs|} else Vacant(docs)
    ensures Occupied(docs + [d]) == if d.None? then Occupied(docs) else Occupied(docs) + {|docs|}
  {
  }

  lemma {:induction false} DistinctCount(free: seq<nat>)
    requires forall i: nat :: multiset(free)[i] <= 1
    ensures |free| == |Elements(free)|
  {
    if free != [] {
      var last := |free| - 1;
      var rest: seq<nat> := free[..last];
      assert free == rest + [free[last]];
      forall i: nat ensures multiset(rest)[i] <= 1 {
        assert multiset(free)[i] >= multiset(rest)[i];
      }
      DistinctCount(rest);
      assert multiset(free)[free[last]] == multiset(rest)[free[last]] + 1;
      assert free[last] !in rest;
      assert Elements(free) == Elements(rest) + {free[last]};
    }
  }

  /** Live documents and free slots together make up all slots. */
  lemma {:induction false} Occupancy(s: Index)
    requires s.Ok()
    ensures |s.ids| + |s.free| == |s.keys|
  {
    SlotsCount(s.keys, s.ids, s.docs, s.free);
  }

  lemma {:induction false} SlotsCount(keys: seq<Option<Key>>, ids: map<Key, nat>, docs: Docs, free: seq<nat>)
    requires SlotsOk(keys, ids, docs) && FreeOk(free, docs)
    ensures |ids| + |free| == |keys|
  {
    SlotCount(docs);
    DistinctCount(free);
    assert Elements(free) == Vacant(docs) by {
      forall i: nat ensures i in free <==> i in Vacant(docs) {
        assert i in free <==> multiset(free)[i] > 0;
      }
    }
    ImageCount(ids.Keys, ids);
    OccupiedIds(keys, ids, docs);
  }

  lemma {:induction false} OccupiedIds(keys: seq<Option<Key>>, ids: map<Key, nat>, docs: Docs)
    requires SlotsOk(keys, ids, docs)
    ensures Occupied(docs) == set k | k in ids.Keys :: ids[k]
  {
    forall i | i in Occupied(docs) ensures exists k :: k in ids.Keys && ids[k] == i {
      var k := keys[i].value;
      assert keys[i] == Some(k) && k in ids && ids[k] == i;
    }
  }

  // ----- What one edit does to the table -----

  /** A token is in the table just when its column is not empty. */
  lemma {:induction false} TableRow(docs: Docs, t: Token)
    ensures t in TableOf(docs) <==> Column(docs, t) != map[]
    ensures Row(TableOf(docs), t) == Column(docs, t)
  {
    if t in TableOf(docs) {
      var i, j :| 0 <= i < |docs| && 0 <= j < |At(docs, i)| && At(docs, i)[j].index == t;
      assert i in Column(docs, t);
    }
    forall i: nat | i in Column(docs, t) ensures t in TableOf(docs) {
      var j :| 0 <= j < |At(docs, i)| && At(docs, i)[j].index == t;
    }
  }

  lemma {:induction false} ColumnFill(docs: Docs, slot: nat, e: Embedding, t: Token)
    requires slot < |docs| && docs[slot].None?
    ensures slot !in Column(docs, t)
    ensures Column(docs[slot := Some(e)], t) ==
            if t in TokenSet(e) then Column(docs, t)[slot := ValueOf(e, t)] else Column(docs, t)
  {
  }

  lemma {:induction false} TableFill(docs: Docs, slot: nat, e: Embedding)
    requires slot < |docs| && docs[slot].None?
    ensures TableOf(docs[slot := Some(e)]) == Entered(TableOf(docs), slot, e)
  {
    var filled, after := TableOf(docs[slot := Some(e)]), Entered(TableOf(docs), slot, e);
    forall t ensures t in filled <==> t in after
             ensures t in filled ==> filled[t] == after[t] {
      TableRow(docs, t);
      TableRow(docs[slot := Some(e)], t);
      ColumnFill(docs, slot, e, t);
    }
  }

  lemma {:induction false} TableVacate(docs: Docs, slot: nat, e: Embedding)
    requires slot < |docs| && docs[slot] == Some(e)
    ensures TableOf(docs[slot := None]) == Withdrawn(TableOf(docs), slot, e)
  {
    var vacated := docs[slot := None];
    assert vacated[slot := Some(e)] == docs;
    var before, after := TableOf(vacated), Withdrawn(TableOf(docs), slot, e);
    forall t ensures t in before <==> t in after
             ensures t in before ==> before[t] == after[t] {
      TableRow(docs, t);
      TableRow(vacated, t);
      ColumnFill(vacated, slot, e, t);
      RemoveFresh(Column(vacated, t), slot, ValueOf(e, t));
    }
  }

  lemma {:induction false} RemoveFresh(m: map<nat, real>, slot: nat, weight: real)
    requires slot !in m
    ensures m[slot := weight] - {slot} == m
  {
  }

  lemma {:induction false} TableGrow(docs: Docs)
    ensures TableOf(docs + [None]) == TableOf(docs)
  {
    var grown := docs + [None];
    assert forall i :: 0 <= i < |docs| ==> At(grown, i) == At(docs, i);
    assert At(grown, |docs|) == [];
    forall t ensures Column(grown, t) == Column(docs, t) {
    }
    forall t ensures t in TableOf(grown) <==> t in TableOf(docs)
             ensures t in TableOf(docs) ==> TableOf(grown)[t] == TableOf(docs)[t] {
      TableRow(docs, t);
      TableRow(grown, t);
    }
  }

  // ----- What one edit does to the slots -----

  lemma {:induction false} VacateSlot(keys: seq<Option<Key>>, ids: map<Key, nat>, docs: Docs, free: seq<nat>, key: Key)
    requires SlotsOk(keys, ids, docs) && FreeOk(free, docs) && key in ids
    ensures var slot := ids[key];
            && SlotsOk(keys[slot := None], ids - {key}, docs[slot := None])
            && FreeOk(free + [slot], docs[slot := None])
            && CorpusOf(ids - {key}, docs[slot := None]) == CorpusOf(ids, docs) - {key}
  {
  }

  lemma {:induction false} OccupySlot(keys: seq<Option<Key>>, ids: map<Key, nat>, docs: Docs, key: Key, slot: nat,
      e: Embedding)
    requires SlotsOk(keys, ids, docs) && key !in ids && slot < |docs| && docs[slot].None?
    ensures SlotsOk(keys[slot := Some(key)], ids[key := slot], docs[slot := Some(e)])
  {
  }

  lemma {:induction false} OccupyCorpus(keys: seq<Option<Key>>, ids: map<Key, nat>, docs: Docs, key: Key, slot: nat,
      e: Embedding)
    requires SlotsOk(keys, ids, docs) && key !in ids && slot < |docs| && docs[slot].None?
    ensures CorpusOf(ids[key := slot], docs[slot := Some(e)]) == CorpusOf(ids, docs)[key := Tokens(e)]
  {
  }

  lemma {:induction false} TakeFreeSlot(free: seq<nat>, docs: Docs, e: Embedding)
    requires FreeOk(free, docs) && free != []
    ensures var slot := free[|free| - 1];
            slot < |docs| && docs[slot].None? && FreeOk(free[..|free| - 1], docs[slot := Some(e)])
  {
    var last := |free| - 1;
    assert free == free[..last] + [free[last]];
    assert multiset(free)[free[last]] > 0;
  }

  // ----- The steps of an edit, on the fields as a value -----

  function Evicted(s: Index, key: Key, dropped: PostingMap): Index
    requires key in s.ids && s.ids[key] < |s.docs| == |s.keys| && s.docs[s.ids[key]].Some?
  {
    var slot := s.ids[key];
    s.(ids := s.ids - {key}, totalLength := s.totalLength - |s.docs[slot].value|, postings := dropped,
       keys := s.keys[slot := None], docs := s.docs[slot := None], free := s.free + [slot])
  }

  lemma {:induction false} EvictOk(s: Index, key: Key, dropped: PostingMap)
    requires s.Ok() && key in s.ids && WellFormed(dropped)
    requires View(dropped) == Withdrawn(View(s.postings), s.ids[key], s.docs[s.ids[key]].value)
    ensures Evicted(s, key, dropped).Ok() && |Evicted(s, key, dropped).keys| == |s.keys|
    ensures Evicted(s, key, dropped).Corpus() == s.Corpus() - {key}
  {
    VacateSlot(s.keys, s.ids, s.docs, s.free, key);
    TotalLengthRemove(s.Corpus(), key);
    TableVacate(s.docs, s.ids[key], s.docs[s.ids[key]].value);
  }

  lemma {:induction false} EvictNothing(s: Index, key: Key)
    requires key !in s.ids
    ensures s.Corpus() - {key} == s.Corpus()
  {
  }

  function Filled(s: Index, key: Key, e: Embedding, added: PostingMap): Index
    requires s.free != [] && s.free[|s.free| - 1] < |s.docs| == |s.keys|
  {
    var slot := s.free[|s.free| - 1];
    s.(free := s.free[..|s.free| - 1], postings := added, totalLength := s.totalLength + |e|,
       ids := s.ids[key := slot], keys := s.keys[slot := Some(key)], docs := s.docs[slot := Some(e)])
  }

  lemma {:induction false} FillOk(s: Index, key: Key, e: Embedding, added: PostingMap)
    requires s.Ok() && key !in s.ids && s.free != [] && WellFormed(added) && Fitted(e, s.embedder)
    requires View(added) == Entered(View(s.postings), s.free[|s.free| - 1], e)
    ensures s.free[|s.free| - 1] < |s.docs| == |s.keys|
    ensures Filled(s, key, e, added).Ok()
    ensures Filled(s, key, e, added).Corpus() == s.Corpus()[key := Tokens(e)]
  {
    var slot := s.free[|s.free| - 1];
    TakeFreeSlot(s.free, s.docs, e);
    OccupySlot(s.keys, s.ids, s.docs, key, slot, e);
    OccupyCorpus(s.keys, s.ids, s.docs, key, slot, e);
    TotalLengthAdd(s.Corpus(), key, Tokens(e));
    TableFill(s.docs, slot, e);
  }

  function Grown(s: Index): Index {
    s.(keys := s.keys + [None], docs := s.docs + [None], free := [|s.keys|])
  }

  /** With no free slot, a new one is grown at the end; it is then the one free slot. */
  lemma {:induction false} GrowOk(s: Index)
    requires s.Ok() && s.free == []
    ensures Grown(s).Ok() && Grown(s).Corpus() == s.Corpus()
  {
    TableGrow(s.docs);
    GrowSlots(s.keys, s.ids, s.docs);
    var grown := s.docs + [None];
    forall i: nat ensures multiset([|s.keys|])[i] == if i < |grown| && grown[i].None? then 1 else 0 {
      assert multiset(s.free)[i] == 0;
    }
  }

  lemma {:induction false} GrowSlots(keys: seq<Option<Key>>, ids: map<Key, nat>, docs: Docs)
    requires SlotsOk(keys, ids, docs)
    ensures SlotsOk(keys + [None], ids, docs + [None])
    ensures CorpusOf(ids, docs + [None]) == CorpusOf(ids, docs)
  {
  }

  lemma {:induction false} Replace(c: Corpus, key: Key, doc: seq<Token>)
    ensures (c - {key})[key := doc] == c[key := doc]
  {
  }

  // ----- The index agrees with the plain definition -----

  /** Posting lists hold exactly the weights of the plain definition. */
  lemma {:induction false} RowWeight(s: Index, t: Token, slot: nat)
    requires s.Ok()
    ensures var row, doc := Row(View(s.postings), t), Tokens(At(s.docs, slot));
            if slot in row then slot < |s.docs| && row[slot] == WeightOf(doc, t, s.embedder)
            else WeightOf(doc, t, s.embedder) == 0.0
  {
    var e := At(s.docs, slot);
    TableRow(s.docs, t);
    TokensAndSet(e, t);
    if slot in Column(s.docs, t) {
      ValueOfFitted(e, Tokens(e), t, s.embedder);
    }
  }

  lemma {:induction false} HolderSlots(s: Index, t: Token)
    requires SlotsOk(s.keys, s.ids, s.docs)
    ensures Column(s.docs, t).Keys == set k | k in Holders(s.Corpus(), t) :: s.ids[k]
  {
    var c := s.Corpus();
    forall i | i in Column(s.docs, t) ensures exists k :: k in Holders(c, t) && s.ids[k] == i {
      var k := s.keys[i].value;
      assert s.keys[i] == Some(k) && k in s.ids && s.ids[k] == i;
      TokensAndSet(At(s.docs, i), t);
      assert k in Holders(c, t);
    }
    forall k | k in Holders(c, t) ensures s.ids[k] in Column(s.docs, t) {
      TokensAndSet(At(s.docs, s.ids[k]), t);
    }
  }

  /** The length of a posting list is the number of documents that hold the token. */
  lemma {:induction false} DocumentFrequency(s: Index, t: Token)
    requires s.Ok()
    ensures |s.PostingsFor(t)| == |Holders(s.Corpus(), t)|
    ensures |s.ids| == |s.Corpus()|
  {
    ViewRow(s.postings, t);
    EntriesCount(s.PostingsFor(t));
    TableRow(s.docs, t);
    HolderSlots(s, t);
    ImageCount(Holders(s.Corpus(), t), s.ids);
    assert |Entries(s.PostingsFor(t))| == |Column(s.docs, t).Keys|;
    assert s.ids.Keys == s.Corpus().Keys;
  }

  lemma {:induction false} IdfAgrees(s: Index, t: Token)
    requires s.Ok()
    ensures s.IdfOf(t) == Rarity(s.Corpus(), t, s.embedder)
  {
    DocumentFrequency(s, t);
  }

  ghost predicate IdfOk(s: Index) {
    forall t :: s.IdfOf(t) == Rarity(s.Corpus(), t, s.embedder)
  }

  /** What a posting list holds for a slot, 0 when the slot is not in it. */
  ghost function EntryAt(list: seq<Posting>, slot: nat): real {
    if slot in Entries(list) then Entries(list)[slot] else 0.0
  }

  /** One more query token adds to a slot's score what the token's posting list holds for that slot. */
  lemma {:induction false} ScoreStep(s: Index, q: seq<Token>, t: Token, slot: nat)
    requires s.Ok()
    ensures var doc := Tokens(At(s.docs, slot));
            Score(s.Corpus(), q + [t], doc, s.embedder) ==
            Score(s.Corpus(), q, doc, s.embedder) + Scaled(s.IdfOf(t), EntryAt(s.PostingsFor(t), slot))
  {
    ViewRow(s.postings, t);
    RowWeight(s, t, slot);
    IdfAgrees(s, t);
    ScoreExtend(s.Corpus(), q, t, Tokens(At(s.docs, slot)), s.embedder, s.IdfOf(t), EntryAt(s.PostingsFor(t), slot));
  }

  lemma {:induction false} RowInRange(s: Index, t: Token)
    requires s.Ok()
    ensures Sorted(s.PostingsFor(t)) && forall i :: i in Entries(s.PostingsFor(t)) ==> i < |s.keys|
  {
    ViewRow(s.postings, t);
    TableRow(s.docs, t);
  }

  lemma {:induction false} EntriesPrefix(list: seq<Posting>, a: nat)
    requires Sorted(list) && a < |list|
    ensures list[a].slot in Entries(list) && list[a].slot !in Entries(list[..a])
    ensures Entries(list[..a + 1]) == Entries(list[..a])[list[a].slot := list[a].weight]
  {
    EntriesAt(list, a);
    EntriesSlots(list[..a]);
    assert list[..a + 1][..a] == list[..a];
  }

  /** Evict a key: its slot is vacated, its postings dropped. */
  method WithoutKey(s: Index, key: Key) returns (r: Index)
    requires s.Ok()
    ensures r.Ok() && r.embedder == s.embedder && |r.keys| == |s.keys| && key !in r.ids
    ensures r.Corpus() == s.Corpus() - {key}
  {
    if key !in s.ids {
      EvictNothing(s, key);
      return s;
    }
    var slot := s.ids[key];
    var dropped := DropPostings(s.postings, slot, s.docs[slot].value);
    EvictOk(s, key, dropped);
    r := Evicted(s, key, dropped);
  }

  /** Put an embedded document into the slot freed last. */
  method Fill(s: Index, key: Key, e: Embedding) returns (r: Index)
    requires s.Ok() && s.free != [] && key !in s.ids && Fitted(e, s.embedder)
    ensures r.Ok() && |r.keys| == |s.keys| && |r.free| == |s.free| - 1
    ensures r.Corpus() == s.Corpus()[key := Tokens(e)] && r.embedder == s.embedder
  {
    var slot := s.free[|s.free| - 1];
    var added := AddPostings(s.postings, slot, e);
    FillOk(s, key, e, added);
    r := Filled(s, key, e, added);
  }

  /** Place a new document; slots are added only when the documents outnumber them. */
  method WithDocument(s: Index, key: Key, e: Embedding) returns (r: Index)
    requires s.Ok() && key !in s.ids && Fitted(e, s.embedder)
    ensures r.Ok() && r.embedder == s.embedder
    ensures r.Corpus() == s.Corpus()[key := Tokens(e)]
    ensures |r.keys| == if |r.ids| <= |s.keys| then |s.keys| else |r.ids|
  {
    var reserved := s;
    if s.free == [] {
      GrowOk(s);
      reserved := Grown(s);
    }
    r := Fill(reserved, key, e);
    Occupancy(r);
  }

  method Replaced(s: Index, key: Key, e: Embedding) returns (r: Index)
    requires s.Ok() && Fitted(e, s.embedder)
    ensures r.Ok() && r.embedder == s.embedder
    ensures r.Corpus() == s.Corpus()[key := Tokens(e)]
    ensures |r.keys| == if |r.ids| <= |s.keys| then |s.keys| else |r.ids|
  {
    Replace(s.Corpus(), key, Tokens(e));
    r := WithoutKey(s, key);
    r := WithDocument(r, key, e);
  }

  // ----- Refitting -----

  lemma {:induction false} AverageAgrees(s: Index)
    requires s.Ok()
    ensures s.CurrentAvgdl() == AverageLength(s.Corpus())
  {
    assert s.ids.Keys == s.Corpus().Keys;
    assert |s.ids| == |s.Corpus()|;
  }

  /** The weights are never recomputed at an average of zero: while the average is not positive, no document has a
      token. */
  lemma {:induction false} NothingToReweight(s: Index, slot: nat)
    requires s.Ok() && s.CurrentAvgdl() <= 0.0
    ensures At(s.docs, slot) == []
  {
    AverageAgrees(s);
    if slot < |s.docs| && s.docs[slot].Some? {
      var key := s.keys[slot].value;
      assert s.keys[slot] == Some(key) && key in s.ids && s.ids[key] == slot;
      AverageSign(s.Corpus());
      NoText(s.Corpus(), key);
      assert |Tokens(At(s.docs, slot))| == 0;
    }
  }

  lemma {:induction false} AverageSign(c: Corpus)
    ensures AverageLength(c) <= 0.0 ==> TotalLength(c) == 0
  {
  }

  lemma {:induction false} DriftAgrees(s: Index)
    requires s.Ok()
    ensures s.AvgdlDrift() == MeasuredDrift(s.embedder, s.Corpus())
  {
    AverageAgrees(s);
    assert s.ids.Keys == s.Corpus().Keys;
  }

  /** Right after a refit nothing has drifted. */
  lemma {:induction false} RefittedHolds(em: Embedder, c: Corpus)
    ensures MeasuredDrift(Refitted(em, c), c) <= REFIT_DRIFT
  {
  }

  /** The drift test bounds how stale the fitted average is only while that average is positive. Once it is 0 the
      measured drift is 0 whatever the documents, so the fit is kept: it is within bounds just when no text is held. */
  lemma {:induction false} DriftBound(s: Index)
    requires s.Ok() && s.ids != map[] && s.embedder.avgdl >= 0.0 && s.AvgdlDrift() <= REFIT_DRIFT
    ensures var fitted, current := s.embedder.avgdl, AverageLength(s.Corpus());
            fitted * (1.0 - REFIT_DRIFT) <= current <= fitted * (1.0 + REFIT_DRIFT) <==> fitted > 0.0 || current == 0.0
  {
    AverageAgrees(s);
    if s.embedder.avgdl > 0.0 {
      DriftScales(s.CurrentAvgdl(), s.embedder.avgdl);
    }
  }

  /** The embedding with every weight recomputed; counts and length are recovered from the embedding itself. */
  method Reweight(e: Embedding, em: Embedder) returns (reweighted: Embedding)
    ensures Tokens(reweighted) == Tokens(e) && Fitted(reweighted, em)
  {
    var counts := CountTokens(Tokens(e));
    ghost var doc := Tokens(e);
    reweighted := e;
    for i := 0 to |e|
      invariant |reweighted| == |e|
      invariant forall j :: 0 <= j < |e| ==> reweighted[j].index == doc[j]
      invariant forall j :: 0 <= j < i ==> reweighted[j].value == WeightOf(doc, doc[j], em)
    {
      assert doc[i] in doc;
      var value := em.formulas.weight(counts[e[i].index], |e|, em.avgdl);
      reweighted := reweighted[i := TokenWeight(e[i].index, value)];
    }
    assert Tokens(reweighted) == doc;
  }

  method CountTokens(doc: seq<Token>) returns (counts: map<Token, nat>)
    ensures forall t :: t in doc ==> t in counts && counts[t] == multiset(doc)[t]
  {
    counts := map[];
    for i := 0 to |doc|
      invariant forall t :: t in counts <==> t in doc[..i]
      invariant forall t :: t in counts ==> counts[t] == multiset(doc[..i])[t]
    {
      assert doc[..i + 1] == doc[..i] + [doc[i]];
      counts := counts[doc[i] := (if doc[i] in counts then counts[doc[i]] else 0) + 1];
    }
    assert doc[..|doc|] == doc;
  }

  /** The same documents in the same slots. */
  ghost predicate SameTokens(a: Docs, b: Docs) {
    && |a| == |b|
    && forall i :: 0 <= i < |a| ==> a[i].Some? == b[i].Some? && Tokens(At(a, i)) == Tokens(At(b, i))
  }

  lemma {:induction false} SameTokensMore(docs: Docs, before: Docs, now: Option<Embedding>, was: Option<Embedding>)
    requires SameTokens(docs, before)
    requires now.Some? == was.Some? && (now.Some? ==> Tokens(now.value) == Tokens(was.value))
    ensures SameTokens(docs + [now], before + [was])
  {
    assert forall j :: 0 <= j < |docs| ==>
             At(docs + [now], j) == At(docs, j) && At(before + [was], j) == At(before, j);
  }

  /** These are the documents of `before`, weighted anew, and these their postings. */
  ghost predicate Reindexed(docs: Docs, postings: PostingMap, before: Docs, em: Embedder) {
    && SameTokens(docs, before) && WeightsOk(docs, em)
    && WellFormed(postings) && View(postings) == TableOf(docs)
  }

  /** One document's weights recomputed, and its postings entered. */
  method ReindexOne(docs: Docs, postings: PostingMap, original: Embedding, em: Embedder)
      returns (e: Embedding, updated: PostingMap)
    requires WellFormed(postings) && View(postings) == TableOf(docs)
    ensures Tokens(e) == Tokens(original) && Fitted(e, em)
    ensures WellFormed(updated) && View(updated) == TableOf(docs + [Some(e)])
  {
    e := Reweight(original, em);
    TableGrow(docs);
    TableFill(docs + [None], |docs|, e);
    assert docs + [Some(e)] == (docs + [None])[|docs| := Some(e)];
    updated := AddPostings(postings, |docs|, e);
  }

  /** The next slot, vacant or not. */
  method ReindexSlot(docs: Docs, postings: PostingMap, slot: Option<Embedding>, em: Embedder, ghost before: Docs)
      returns (more: Docs, updated: PostingMap)
    requires Reindexed(docs, postings, before, em)
    ensures Reindexed(more, updated, before + [slot], em)
  {
    if slot.None? {
      TableGrow(docs);
      SameTokensMore(docs, before, None, None);
      return docs + [None], postings;
    }
    var e;
    e, updated := ReindexOne(docs, postings, slot.value, em);
    SameTokensMore(docs, before, Some(e), slot);
    more := docs + [Some(e)];
  }

  /** Recompute every document's weights and rebuild the postings from nothing. */
  method ReindexAll(original: Docs, em: Embedder) returns (docs: Docs, postings: PostingMap)
    ensures Reindexed(docs, postings, original, em)
  {
    docs, postings := [], map[];
    for i := 0 to |original|
      invariant Reindexed(docs, postings, original[..i], em)
    {
      docs, postings := ReindexSlot(docs, postings, original[i], em, original[..i]);
      assert original[..i + 1] == original[..i] + [original[i]];
    }
    assert original[..|original|] == original;
  }

  lemma {:induction false} SameSlots(keys: seq<Option<Key>>, ids: map<Key, nat>, free: seq<nat>, docs: Docs,
      original: Docs)
    requires SlotsOk(keys, ids, original) && FreeOk(free, original) && SameTokens(docs, original)
    ensures SlotsOk(keys, ids, docs) && FreeOk(free, docs)
  {
  }

  lemma {:induction false} SameCorpus(keys: seq<Option<Key>>, ids: map<Key, nat>, docs: Docs, original: Docs)
    requires SlotsOk(keys, ids, original) && SameTokens(docs, original)
    ensures CorpusOf(ids, docs) == CorpusOf(ids, original)
  {
  }

  lemma {:induction false} RefitOk(s: Index, em: Embedder, docs: Docs, postings: PostingMap)
    requires s.Ok() && SameTokens(docs, s.docs) && WeightsOk(docs, em)
    requires WellFormed(postings) && View(postings) == TableOf(docs)
    ensures var refitted := s.(embedder := em, docs := docs, postings := postings);
            refitted.Ok() && refitted.Corpus() == s.Corpus()
  {
    SameSlots(s.keys, s.ids, s.free, docs, s.docs);
    SameCorpus(s.keys, s.ids, docs, s.docs);
  }

  // ----- Gathering results -----

  /** The keys of the slots that have a value, with that value, in slot order. */
  ghost function Gather(keys: seq<Option<Key>>, values: seq<Option<real>>): seq<Scored>
    requires |keys| == |values|
  {
    if keys == [] then []
    else
      var last := |keys| - 1;
      var rest := Gather(keys[..last], values[..last]);
      if keys[last].Some? && values[last].Some? then rest + [Scored(keys[last].value, values[last].value)] else rest
  }

  lemma {:induction false} GatherStep(keys: seq<Option<Key>>, values: seq<Option<real>>, n: nat)
    requires n < |keys| == |values|
    ensures Gather(keys[..n + 1], values[..n + 1]) ==
            Gather(keys[..n], values[..n]) +
            if keys[n].Some? && values[n].Some? then [Scored(keys[n].value, values[n].value)] else []
  {
    assert keys[..n + 1][..n] == keys[..n] && values[..n + 1][..n] == values[..n];
  }

  lemma {:induction false} GatherMembers(keys: seq<Option<Key>>, values: seq<Option<real>>, x: Scored)
    requires |keys| == |values|
    ensures x in Gather(keys, values) <==>
            exists i :: 0 <= i < |keys| && keys[i] == Some(x.key) && values[i] == Some(x.score)
  {
    if keys != [] {
      var last := |keys| - 1;
      GatherMembers(keys[..last], values[..last], x);
      assert forall i :: 0 <= i < last ==> keys[..last][i] == keys[i] && values[..last][i] == values[i];
      if i :| 0 <= i < |keys| && keys[i] == Some(x.key) && values[i] == Some(x.score) {
        assert i < last ==> keys[..last][i] == Some(x.key) && values[..last][i] == Some(x.score);
      }
    }
  }

  lemma {:induction false} GatherDistinct(keys: seq<Option<Key>>, values: seq<Option<real>>)
    requires |keys| == |values|
    requires forall i, j :: 0 <= i < j < |keys| && keys[i].Some? ==> keys[i] != keys[j]
    ensures DistinctKeys(Gather(keys, values))
  {
    if keys != [] {
      var last := |keys| - 1;
      GatherDistinct(keys[..last], values[..last]);
      var rest := Gather(keys[..last], values[..last]);
      forall a | 0 <= a < |rest| && keys[last].Some? ensures rest[a].key != keys[last].value {
        GatherMembers(keys[..last], values[..last], rest[a]);
        var i :| 0 <= i < last && keys[..last][i] == Some(rest[a].key) && values[..last][i] == Some(rest[a].score);
        assert keys[i] == Some(rest[a].key);
      }
    }
  }

  /** Gathered over an index's slots, each live document appears once, just when its slot has a value. */
  lemma {:induction false} GatherIndex(s: Index, values: seq<Option<real>>)
    requires s.Ok() && |values| == |s.keys|
    ensures DistinctKeys(Gather(s.keys, values))
    ensures forall x :: x in Gather(s.keys, values) <==> x.key in s.ids && values[s.ids[x.key]] == Some(x.score)
  {
    forall i, j | 0 <= i < j < |s.keys| && s.keys[i].Some? ensures s.keys[i] != s.keys[j] {
      var k := s.keys[i].value;
      assert s.keys[i] == Some(k) && k in s.ids && s.ids[k] == i;
      if s.keys[j] == Some(k) {
        assert false;
      }
    }
    GatherDistinct(s.keys, values);
    forall x ensures x in Gather(s.keys, values) <==> x.key in s.ids && values[s.ids[x.key]] == Some(x.score) {
      GatherMembers(s.keys, values, x);
      assert x.key in s.ids ==> s.keys[s.ids[x.key]] == Some(x.key);
    }
  }

  ghost function Positive(scores: seq<real>): seq<Option<real>> {
    seq(|scores|, i requires 0 <= i < |scores| => if scores[i] > 0.0 then Some(scores[i]) else None)
  }

  /** Every slot's score is the plain definition's. */
  ghost predicate ScoresOk(s: Index, query: seq<Token>, scores: seq<real>) {
    && |scores| == |s.keys| == |s.docs|
    && forall i :: 0 <= i < |scores| ==> scores[i] == Score(s.Corpus(), query, Tokens(At(s.docs, i)), s.embedder)
  }

  lemma {:induction false} AnswerGathered(s: Index, query: seq<Token>, scores: seq<real>, results: seq<Scored>)
    requires s.Ok() && ScoresOk(s, query, scores)
    requires Ranked(results)
    requires forall x :: x in results <==> x in Gather(s.keys, Positive(scores))
    ensures IsAnswer(s.Corpus(), query, s.embedder, results)
  {
    GatherIndex(s, Positive(scores));
    var c := s.Corpus();
    forall x ensures x in results <==> x.key in c && x.score == Score(c, query, c[x.key], s.embedder) && x.score > 0.0 {
      assert x in results <==> x.key in s.ids && Positive(scores)[s.ids[x.key]] == Some(x.score);
    }
  }

  /** A refitted index answers every query as a fresh build over the same documents does. */
  lemma {:induction false} RefitMatchesBuild(c: Corpus, formulas: Formulas, docs: seq<Source>, query: seq<Token>,
                                             refitted: seq<Scored>, built: seq<Scored>)
    requires forall i, j :: 0 <= i < j < |docs| ==> docs[i].key != docs[j].key
    requires ListCorpus(docs) == c
    requires IsAnswer(c, query, Embedder(AverageLength(c), formulas), refitted)
    requires IsAnswer(c, query, Embedder(FitAverage(docs, formulas), formulas), built)
    ensures refitted == built
  {
    ListTotals(docs);
    if ListLength(docs) == 0 {
      NoTextFindsNothing(c, query, Embedder(AverageLength(c), formulas), refitted);
      NoTextFindsNothing(c, query, Embedder(FitAverage(docs, formulas), formulas), built);
    } else {
      FitIsAverage(docs, formulas);
      AnswerUnique(c, query, Embedder(AverageLength(c), formulas), refitted, built);
    }
  }

  lemma {:induction false} UpdateGrows(c: Corpus, key: Key, doc: seq<Token>)
    ensures |c| <= |c[key := doc]|
  {
    CountBound(c.Keys, c[key := doc].Keys);
  }

  // ----- The index -----

  class Bm25Index {
    var s: Index
    /** The largest number of documents the index has held at once. */
    ghost var peak: nat

    ghost predicate Valid()
      reads this
    {
      s.Ok() && |s.keys| == peak
    }

    constructor Empty(formulas: Formulas)
      ensures Valid() && s.Corpus() == map[] && s.embedder == Embedder(DEFAULT_AVGDL, formulas) && peak == 0
    {
      s := Index(Embedder(DEFAULT_AVGDL, formulas), [], map[], [], map[], [], 0);
      peak := 0;
    }

    /** Take a document out. */
    method Evict(key: Key)
      requires Valid()
      modifies this
      ensures Valid() && s.embedder == old(s.embedder) && peak == old(peak)
      ensures s.Corpus() == old(s.Corpus()) - {key}
    {
      s := WithoutKey(s, key);
    }

    /** Enter an embedded document under a key, in place of the one it had. */
    method Insert(key: Key, e: Embedding)
      requires Valid() && Fitted(e, s.embedder)
      modifies this
      ensures Valid() && s.embedder == old(s.embedder)
      ensures s.Corpus() == old(s.Corpus())[key := Tokens(e)]
      ensures peak == if |s.ids| <= old(peak) then old(peak) else |s.ids|
    {
      s := Replaced(s, key, e);
      peak := |s.keys|;
    }

    // ----- Refitting -----

    /** Fit the embedder to the documents held now and recompute every weight and every posting. */
    method Refit()
      requires Valid()
      modifies this
      ensures Valid() && peak == old(peak) && s.Corpus() == old(s.Corpus())
      ensures s.embedder == old(s.embedder).(avgdl := AverageLength(s.Corpus()))
    {
      AverageAgrees(s);
      var em := s.embedder.(avgdl := s.CurrentAvgdl());
      var docs, postings := ReindexAll(s.docs, em);
      RefitOk(s, em, docs, postings);
      s := s.(embedder := em, docs := docs, postings := postings);
    }

    method RefitIfDrifted()
      requires Valid()
      modifies this
      ensures Valid() && peak == old(peak) && s.Corpus() == old(s.Corpus())
      ensures s.embedder == Refitted(old(s.embedder), s.Corpus())
    {
      DriftAgrees(s);
      if s.AvgdlDrift() > REFIT_DRIFT {
        Refit();
      }
    }

    // ----- The public edits -----

    method Upsert(key: Key, text: seq<Token>)
      requires Valid()
      modifies this
      ensures Valid() && s.Corpus() == old(s.Corpus())[key := text]
      ensures peak == if |s.ids| <= old(peak) then old(peak) else |s.ids|
      ensures s.embedder == Refitted(old(s.embedder), s.Corpus())
      ensures MeasuredDrift(s.embedder, s.Corpus()) <= REFIT_DRIFT
    {
      Insert(key, Embed(text, s.embedder));
      DocumentFrequency(s, 0);
      RefitIfDrifted();
      DocumentFrequency(s, 0);
      RefittedHolds(old(s.embedder), s.Corpus());
    }

    method Remove(key: Key)
      requires Valid()
      modifies this
      ensures Valid() && s.Corpus() == old(s.Corpus()) - {key} && peak == old(peak)
      ensures s.embedder == Refitted(old(s.embedder), s.Corpus())
      ensures MeasuredDrift(s.embedder, s.Corpus()) <= REFIT_DRIFT
    {
      Evict(key);
      RefitIfDrifted();
      RefittedHolds(old(s.embedder), s.Corpus());
    }

    /** A fresh index over a list of documents, fitted to that list. */
    constructor Build(docs: seq<Source>, formulas: Formulas)
      ensures Valid() && s.Corpus() == ListCorpus(docs) && peak == |ListCorpus(docs)|
      ensures s.embedder == Embedder(FitAverage(docs, formulas), formulas)
    {
      var em := Embedder(FitAverage(docs, formulas), formulas);
      s := Index(em, [], map[], [], map[], [], 0);
      peak := 0;
      new;
      for i := 0 to |docs|
        invariant Valid() && s.embedder == em
        invariant s.Corpus() == ListCorpus(docs[..i]) && peak == |ListCorpus(docs[..i])|
      {
        ListCorpusStep(docs, i);
        UpdateGrows(ListCorpus(docs[..i]), docs[i].key, docs[i].tokens);
        Insert(docs[i].key, Embed(docs[i].tokens, em));
        DocumentFrequency(s, 0);
      }
      assert docs[..|docs|] == docs;
    }

    // ----- Scoring -----

    /** One score per slot: the posting lists of the query's tokens, scanned and summed. */
    method Accumulate(query: Embedding) returns (scores: seq<real>)
      requires Valid()
      ensures ScoresOk(s, Tokens(query), scores)
    {
      scores := Scan(s, query);
    }

    /** The documents that score above 0, best first, ties broken by key. */
    method Search(query: seq<Token>) returns (results: seq<Scored>)
      requires Valid()
      ensures IsAnswer(s.Corpus(), query, s.embedder, results)
    {
      var scores := Accumulate(Embed(query, s.embedder));
      ghost var values := Positive(scores);
      var found: seq<Scored> := [];
      for slot := 0 to |scores|
        invariant found == Gather(s.keys[..slot], values[..slot])
      {
        GatherStep(s.keys, values, slot);
        if scores[slot] > 0.0 && s.keys[slot].Some? {
          found := found + [Scored(s.keys[slot].value, scores[slot])];
        }
      }
      assert s.keys[..|scores|] == s.keys && values[..|scores|] == values;
      GatherIndex(s, values);
      results := Sort(found);
      AnswerGathered(s, query, scores, results);
    }
  }

  /** The score of a document against its own text, when the index holds it. */
  method SelfScore(s: Index, key: Key) returns (score: Option<real>)
    requires s.Ok()
    ensures score == if key in s.Corpus() then Some(Against(s.Corpus(), key, key, s.embedder)) else None
  {
    if key !in s.ids {
      return None;
    }
    forall t { IdfAgrees(s, t); }
    var sum := OwnScore(s, s.docs[s.ids[key]].value);
    score := Some(sum);
  }

  /** The score of one document against the text of another, from the two embeddings alone. */
  method ScoreBetween(s: Index, queryKey: Key, docKey: Key) returns (score: Option<real>)
    requires s.Ok()
    ensures score == if queryKey in s.Corpus() && docKey in s.Corpus()
                     then Some(Against(s.Corpus(), queryKey, docKey, s.embedder)) else None
  {
    if queryKey !in s.ids || docKey !in s.ids {
      return None;
    }
    var weights := WeightMap(s.docs[s.ids[docKey]].value, s.embedder);
    forall t { IdfAgrees(s, t); }
    var sum := PairScore(s, s.docs[s.ids[queryKey]].value, weights, Tokens(s.docs[s.ids[docKey]].value));
    score := Some(sum);
  }

  /** The other documents whose score against `key`'s own text reaches the floor, relative to its self-score. */
  method SimilarTo(s: Index, key: Key, floor: real) returns (found: seq<Scored>)
    requires s.Ok()
    ensures DistinctKeys(found)
    ensures forall x :: x in found <==> Matches(s.Corpus(), key, floor, s.embedder, x.key, x.score)
  {
    found := [];
    if key !in s.ids {
      return;
    }
    var own := s.ids[key];
    var scores := Scan(s, s.docs[own].value);
    if scores[own] <= 0.0 {
      return;
    }
    found := GatherRatios(s.keys, scores, own, floor);
    MatchesGathered(s, key, floor, scores);
  }

  lemma {:induction false} NothingScored(s: Index, scores: seq<real>)
    requires s.Ok() && |scores| == |s.keys| && forall i :: 0 <= i < |scores| ==> scores[i] == 0.0
    ensures ScoresOk(s, [], scores)
  {
  }

  /** Scan the posting lists of the query's tokens into one accumulator per slot. */
  method Scan(s: Index, query: Embedding) returns (scores: seq<real>)
    requires s.Ok()
    ensures ScoresOk(s, Tokens(query), scores)
  {
    var acc := new real[|s.keys|](_ => 0.0);
    NothingScored(s, acc[..]);
    ScanTokens(s, acc, query);
    scores := acc[..];
  }

  method ScanTokens(s: Index, acc: array<real>, query: Embedding)
    requires s.Ok() && ScoresOk(s, [], acc[..])
    modifies acc
    ensures ScoresOk(s, Tokens(query), acc[..])
  {
    ghost var q := Tokens(query);
    assert q[..0] == [];
    for j := 0 to |query|
      invariant ScoresOk(s, q[..j], acc[..])
    {
      ghost var front := q[..j];
      ScanToken(s, acc, front, query[j].index);
      assert q[..j + 1] == front + [query[j].index];
    }
    assert q[..|query|] == q;
  }

  method ScanToken(s: Index, acc: array<real>, ghost q: seq<Token>, t: Token)
    requires s.Ok() && ScoresOk(s, q, acc[..])
    modifies acc
    ensures ScoresOk(s, q + [t], acc[..])
  {
    RowInRange(s, t);
    AddList(acc, s.PostingsFor(t), s.IdfOf(t));
    forall i | 0 <= i < acc.Length ensures acc[i] == Score(s.Corpus(), q + [t], Tokens(At(s.docs, i)), s.embedder) {
      ScoreStep(s, q, t, i);
    }
  }

  method OwnScore(s: Index, e: Embedding) returns (sum: real)
    requires IdfOk(s) && Fitted(e, s.embedder)
    ensures sum == Score(s.Corpus(), Tokens(e), Tokens(e), s.embedder)
  {
    ghost var doc := Tokens(e);
    sum := 0.0;
    for j := 0 to |e|
      invariant sum == Score(s.Corpus(), doc[..j], doc, s.embedder)
    {
      assert doc[..j + 1] == doc[..j] + [e[j].index];
      ScoreExtend(s.Corpus(), doc[..j], e[j].index, doc, s.embedder, s.IdfOf(e[j].index), e[j].value);
      sum := sum + Scaled(s.IdfOf(e[j].index), e[j].value);
    }
    assert doc[..|e|] == doc;
  }

  method PairScore(s: Index, query: Embedding, weights: map<Token, real>, ghost doc: seq<Token>) returns (sum: real)
    requires IdfOk(s)
    requires forall t :: (if t in weights then weights[t] else 0.0) == WeightOf(doc, t, s.embedder)
    ensures sum == Score(s.Corpus(), Tokens(query), doc, s.embedder)
  {
    ghost var q := Tokens(query);
    sum := 0.0;
    for j := 0 to |query|
      invariant sum == Score(s.Corpus(), q[..j], doc, s.embedder)
    {
      var t := query[j].index;
      assert q[..j + 1] == q[..j] + [t];
      var weight := if t in weights then weights[t] else 0.0;
      ScoreExtend(s.Corpus(), q[..j], t, doc, s.embedder, s.IdfOf(t), weight);
      sum := sum + Scaled(s.IdfOf(t), weight);
    }
    assert q[..|query|] == q;
  }

  method GatherRatios(keys: seq<Option<Key>>, scores: seq<real>, own: nat, floor: real) returns (found: seq<Scored>)
    requires own < |scores| == |keys| && scores[own] > 0.0
    ensures found == Gather(keys, Ratios(scores, own, floor))
  {
    found := [];
    ghost var values := Ratios(scores, own, floor);
    for slot := 0 to |scores|
      invariant found == Gather(keys[..slot], values[..slot])
    {
      GatherStep(keys, values, slot);
      if slot != own && scores[slot] > 0.0 {
        var ratio := Ratio(scores[slot], scores[own]);
        if ratio >= floor && keys[slot].Some? {
          found := found + [Scored(keys[slot].value, ratio)];
        }
      }
    }
    assert keys[..|scores|] == keys && values[..|scores|] == values;
  }

  ghost function Ratios(scores: seq<real>, own: nat, floor: real): seq<Option<real>>
    requires own < |scores| && scores[own] > 0.0
  {
    seq(|scores|, i requires 0 <= i < |scores| =>
      if i != own && scores[i] > 0.0 && Ratio(scores[i], scores[own]) >= floor
      then Some(Ratio(scores[i], scores[own])) else None)
  }

  lemma {:induction false} MatchesGathered(s: Index, key: Key, floor: real, scores: seq<real>)
    requires s.Ok() && key in s.ids && ScoresOk(s, s.Corpus()[key], scores) && scores[s.ids[key]] > 0.0
    ensures var found := Gather(s.keys, Ratios(scores, s.ids[key], floor));
            && DistinctKeys(found)
            && forall x :: x in found <==> Matches(s.Corpus(), key, floor, s.embedder, x.key, x.score)
  {
    var own := s.ids[key];
    var values := Ratios(scores, own, floor);
    GatherIndex(s, values);
    forall x ensures x in Gather(s.keys, values) <==> Matches(s.Corpus(), key, floor, s.embedder, x.key, x.score) {
      MatchAt(s, key, floor, scores, x);
    }
  }

  lemma {:induction false} MatchAt(s: Index, key: Key, floor: real, scores: seq<real>, x: Scored)
    requires s.Ok() && key in s.ids && ScoresOk(s, s.Corpus()[key], scores) && scores[s.ids[key]] > 0.0
    ensures x.key in s.ids && Ratios(scores, s.ids[key], floor)[s.ids[x.key]] == Some(x.score) <==>
            Matches(s.Corpus(), key, floor, s.embedder, x.key, x.score)
  {
    if x.key in s.ids {
      assert s.keys[s.ids[x.key]] == Some(x.key) && s.keys[s.ids[key]] == Some(key);
      assert scores[s.ids[x.key]] == Against(s.Corpus(), key, x.key, s.embedder);
      assert scores[s.ids[key]] == Against(s.Corpus(), key, key, s.embedder);
    }
  }

  /** The weights of a document by token; repeated tokens carry the same weight. */
  method WeightMap(e: Embedding, em: Embedder) returns (weights: map<Token, real>)
    requires Fitted(e, em)
    ensures forall t :: (if t in weights then weights[t] else 0.0) == WeightOf(Tokens(e), t, em)
  {
    weights := map[];
    ghost var doc := Tokens(e);
    assert forall j :: 0 <= j < |e| ==> e[j].value == WeightOf(doc, e[j].index, em);
    for j := 0 to |e|
      invariant weights.Keys == TokenSet(e[..j])
      invariant forall t :: t in weights ==> weights[t] == WeightOf(doc, t, em)
    {
      assert e[..j + 1] == e[..j] + [e[j]];
      TokenSetExtend(e[..j], e[j]);
      weights := weights[e[j].index := e[j].value];
    }
    assert e[..|e|] == e;
    forall t { TokensAndSet(e, t); }
  }

  /** Add one posting list to the scores. */
  method AddList(acc: array<real>, list: seq<Posting>, factor: real)
    requires Sorted(list) && forall i :: i in Entries(list) ==> i < acc.Length
    modifies acc
    ensures forall i :: 0 <= i < acc.Length ==>
              acc[i] == old(acc[i]) + Scaled(factor, EntryAt(list, i))
  {
    for a := 0 to |list|
      invariant forall i :: 0 <= i < acc.Length ==>
                  acc[i] == old(acc[i]) + Scaled(factor, EntryAt(list[..a], i))
    {
      EntriesPrefix(list, a);
      acc[list[a].slot] := acc[list[a].slot] + Scaled(factor, list[a].weight);
    }
    assert list[..|list|] == list;
  }

  // ----- Over runs -----

  datatype Edit = Upserted(key: Key, text: seq<Token>) | Removed(key: Key)

  /** What a run starts from: an index without documents, or one built from a list of them. */
  datatype Start = Nothing | Built(docs: seq<Source>)

  ghost function StartCorpus(start: Start): Corpus {
    if start.Built? then ListCorpus(start.docs) else map[]
  }

  ghost function StartFit(start: Start, formulas: Formulas): Embedder {
    Embedder(if start.Built? then FitAverage(start.docs, formulas) else DEFAULT_AVGDL, formulas)
  }

  /** The documents held after a run of edits. */
  ghost function Held(start: Start, edits: seq<Edit>): Corpus {
    if edits == [] then StartCorpus(start)
    else
      var before, last := Held(start, edits[..|edits| - 1]), edits[|edits| - 1];
      if last.Upserted? then before[last.key := last.text] else before - {last.key}
  }

  /** A key holds what its last edit left, */
  lemma {:induction false} LastEditCounts(start: Start, edits: seq<Edit>, n: nat)
    requires n < |edits| && forall m :: n < m < |edits| ==> edits[m].key != edits[n].key
    ensures var c, key := Held(start, edits), edits[n].key;
            && (key in c <==> edits[n].Upserted?)
            && (key in c && edits[n].Upserted? ==> c[key] == edits[n].text)
  {
    var last := |edits| - 1;
    if n < last {
      LastEditCounts(start, edits[..last], n);
    }
  }

  /** or what the run started from. */
  lemma {:induction false} UneditedStays(start: Start, edits: seq<Edit>, key: Key)
    requires forall n :: 0 <= n < |edits| ==> edits[n].key != key
    ensures var c, first := Held(start, edits), StartCorpus(start);
            (key in c <==> key in first) && (key in c && key in first ==> c[key] == first[key])
  {
    if edits != [] {
      UneditedStays(start, edits[..|edits| - 1], key);
    }
  }

  /** The most documents held at once along a run. */
  ghost function HighWater(start: Start, edits: seq<Edit>): nat {
    if edits == [] then |StartCorpus(start)|
    else
      var before, now := HighWater(start, edits[..|edits| - 1]), |Held(start, edits)|;
      if now <= before then before else now
  }

  /** What the index is fitted to after a run. */
  ghost function FitAfter(start: Start, edits: seq<Edit>, formulas: Formulas): Embedder {
    if edits == [] then StartFit(start, formulas)
    else Refitted(FitAfter(start, edits[..|edits| - 1], formulas), Held(start, edits))
  }

  /** The index has followed the run so far. */
  ghost predicate Follows(s: Index, peak: nat, start: Start, edits: seq<Edit>, formulas: Formulas) {
    && s.Corpus() == Held(start, edits) && peak == HighWater(start, edits)
    && s.embedder == FitAfter(start, edits, formulas)
  }

  method ApplyEdit(index: Bm25Index, edit: Edit, ghost start: Start, ghost before: seq<Edit>, ghost formulas: Formulas)
    requires index.Valid() && Follows(index.s, index.peak, start, before, formulas)
    modifies index
    ensures index.Valid() && Follows(index.s, index.peak, start, before + [edit], formulas)
  {
    assert (before + [edit])[..|before|] == before;
    HeldShrinks(start, before, edit);
    match edit {
      case Upserted(key, text) => index.Upsert(key, text);
      case Removed(key) => index.Remove(key);
    }
    DocumentFrequency(index.s, 0);
  }

  method Begin(start: Start, formulas: Formulas) returns (index: Bm25Index)
    ensures fresh(index) && index.Valid() && Follows(index.s, index.peak, start, [], formulas)
  {
    if start.Built? {
      index := new Bm25Index.Build(start.docs, formulas);
    } else {
      index := new Bm25Index.Empty(formulas);
    }
  }

  /** Drives an index through a run: it ends up holding exactly what the run leaves, in as many slots as it ever needed,
      fitted to the average length at the last edit after which it had drifted too far. */
  method Replay(start: Start, edits: seq<Edit>, formulas: Formulas) returns (index: Bm25Index)
    ensures fresh(index) && index.Valid() && Follows(index.s, index.peak, start, edits, formulas)
    decreases |edits|
  {
    if edits == [] {
      index := Begin(start, formulas);
    } else {
      var front, last := edits[..|edits| - 1], edits[|edits| - 1];
      index := Replay(start, front, formulas);
      assert edits == front + [last];
      ApplyEdit(index, last, start, front, formulas);
    }
  }

  lemma {:induction false} HeldShrinks(start: Start, edits: seq<Edit>, last: Edit)
    ensures last.Removed? ==> |Held(start, edits) - {last.key}| <= |Held(start, edits)| <= HighWater(start, edits)
  {
    var c := Held(start, edits);
    if last.Removed? {
      CountBound((c - {last.key}).Keys, c.Keys);
    }
  }

  lemma {:induction false} FitKeepsFormulas(start: Start, edits: seq<Edit>, formulas: Formulas)
    ensures FitAfter(start, edits, formulas).formulas == formulas
  {
    if edits != [] {
      FitKeepsFormulas(start, edits[..|edits| - 1], formulas);
    }
  }

  /** After any run of upserts and removes, a refit answers every query as a fresh build over the same documents does,
      in whatever order they are listed. */
  method RefitAgreesWithBuild(start: Start, edits: seq<Edit>, formulas: Formulas, docs: seq<Source>, query: seq<Token>)
    returns (refitted: seq<Scored>, built: seq<Scored>)
    requires forall i, j :: 0 <= i < j < |docs| ==> docs[i].key != docs[j].key
    requires ListCorpus(docs) == Held(start, edits)
    ensures refitted == built
    ensures var c := Held(start, edits); IsAnswer(c, query, Embedder(AverageLength(c), formulas), refitted)
  {
    var index := Replay(start, edits, formulas);
    FitKeepsFormulas(start, edits, formulas);
    index.Refit();
    refitted := index.Search(query);
    var rebuilt := new Bm25Index.Build(docs, formulas);
    built := rebuilt.Search(query);
    RefitMatchesBuild(Held(start, edits), formulas, docs, query, refitted, built);
  }

  /** After any run, with the formulas in use: fitted to a positive average, a query finds exactly the documents that
      share a token with it; at any fit where no token counts against a document, those in which a token of it weighs
      something; and fitted to zero, nothing, if the library's weights vanish there. */
  method SearchAfter(start: Start, edits: seq<Edit>, lib: Library, query: seq<Token>) returns (results: seq<Scored>)
    requires PositiveLog(lib.log)
    ensures var c, em := Held(start, edits), FitAfter(start, edits, Bm25Formulas(lib));
            && (em.avgdl > 0.0 ==> forall k :: Finds(results, k) <==> k in c && exists t :: t in query && t in c[k])
            && (NonNegativeAt(em.formulas, em.avgdl) ==>
                  forall k :: Finds(results, k) <==> k in c && exists t :: t in query && WeightOf(c[k], t, em) > 0.0)
            && (em.avgdl <= 0.0 && VanishesAtZero(em.formulas) ==> results == [])
  {
    var index := Replay(start, edits, Bm25Formulas(lib));
    results := index.Search(query);
    ghost var c, em := Held(start, edits), FitAfter(start, edits, Bm25Formulas(lib));
    FitKeepsFormulas(start, edits, Bm25Formulas(lib));
    FoundAt(c, query, em, lib, results);
  }

  lemma {:induction false} FoundAt(c: Corpus, query: seq<Token>, em: Embedder, lib: Library, answer: seq<Scored>)
    requires PositiveLog(lib.log) && em.formulas == Bm25Formulas(lib) && IsAnswer(c, query, em, answer)
    ensures em.avgdl > 0.0 ==> forall k :: Finds(answer, k) <==> k in c && exists t :: t in query && t in c[k]
    ensures NonNegativeAt(em.formulas, em.avgdl) ==>
              forall k :: Finds(answer, k) <==> k in c && exists t :: t in query && WeightOf(c[k], t, em) > 0.0
    ensures em.avgdl <= 0.0 && VanishesAtZero(em.formulas) ==> answer == []
  {
    assert em == FittedTo(em.avgdl, lib);
    InUse(em.avgdl, lib);
    if em.avgdl > 0.0 {
      forall k {
        FoundExactly(c, query, em.avgdl, lib, answer, k);
      }
    }
    if NonNegativeAt(em.formulas, em.avgdl) {
      forall k {
        FoundByWeight(c, query, em, answer, k);
      }
    }
    if em.avgdl <= 0.0 && VanishesAtZero(em.formulas) {
      ZeroFitFindsNothing(c, query, em, answer);
    }
  }

  // ----- A fit at zero -----

  /** A fit at zero is kept for ever. */
  lemma {:induction false} ZeroFitKept(start: Start, edits: seq<Edit>, n: nat, formulas: Formulas)
    requires n <= |edits| && FitAfter(start, edits[..n], formulas).avgdl <= 0.0
    ensures FitAfter(start, edits, formulas) == FitAfter(start, edits[..n], formulas)
  {
    if n == |edits| {
      assert edits[..n] == edits;
    } else {
      var front := edits[..|edits| - 1];
      assert front[..n] == edits[..n];
      ZeroFitKept(start, front, n, formulas);
    }
  }

  /** A renewal of a positive fit fits to zero exactly when documents are held but no text in them. */
  lemma {:induction false} NoTextRefit(em: Embedder, c: Corpus)
    requires em.avgdl > 0.0
    ensures Refitted(em, c).avgdl >= 0.0
    ensures Refitted(em, c).avgdl == 0.0 <==> c != map[] && TotalLength(c) == 0
  {
    if c != map[] {
      assert |c| > 0;
      if TotalLength(c) == 0 {
        assert AverageLength(c) == 0.0;
        FullDrift(em.avgdl);
      } else {
        QuotientPositive(TotalLength(c) as real, |c| as real);
      }
    }
  }

  /** Documents are held after the first `n` edits, but no text in them. */
  ghost predicate TextGone(start: Start, edits: seq<Edit>, n: nat)
    requires n <= |edits|
  {
    Held(start, edits[..n]) != map[] && TotalLength(Held(start, edits[..n])) == 0
  }

  ghost predicate EverTextGone(start: Start, edits: seq<Edit>) {
    exists n :: 0 < n <= |edits| && TextGone(start, edits, n)
  }

  lemma {:induction false} EverTextGoneStep(start: Start, edits: seq<Edit>)
    requires edits != []
    ensures var c := Held(start, edits);
            EverTextGone(start, edits) <==>
            EverTextGone(start, edits[..|edits| - 1]) || (c != map[] && TotalLength(c) == 0)
  {
    var front := edits[..|edits| - 1];
    assert edits[..|edits|] == edits;
    forall n | 0 < n <= |front| ensures TextGone(start, front, n) <==> TextGone(start, edits, n) {
      assert front[..n] == edits[..n];
    }
    assert TextGone(start, edits, |edits|) <==> Held(start, edits) != map[] && TotalLength(Held(start, edits)) == 0;
  }

  /** From a positive fit, a run ends with a fit at zero exactly when at some point of it the text was gone. */
  lemma {:induction false} TextGoneFit(start: Start, edits: seq<Edit>, formulas: Formulas)
    requires StartFit(start, formulas).avgdl > 0.0
    ensures FitAfter(start, edits, formulas).avgdl >= 0.0
    ensures FitAfter(start, edits, formulas).avgdl == 0.0 <==> EverTextGone(start, edits)
  {
    if edits != [] {
      var front := edits[..|edits| - 1];
      TextGoneFit(start, front, formulas);
      EverTextGoneStep(start, edits);
      NextFit(FitAfter(start, front, formulas), Held(start, edits));
    }
  }

  lemma {:induction false} NextFit(em: Embedder, c: Corpus)
    requires em.avgdl >= 0.0
    ensures Refitted(em, c).avgdl >= 0.0
    ensures Refitted(em, c).avgdl == 0.0 <==> em.avgdl == 0.0 || (c != map[] && TotalLength(c) == 0)
  {
    if em.avgdl > 0.0 {
      NoTextRefit(em, c);
    }
  }

  lemma {:induction false} FullDrift(fitted: real)
    requires fitted > 0.0
    ensures Drift(0.0, fitted) == 1.0
  {
    assert (0.0 - fitted) / fitted == -1.0;
  }

  /** So an index without documents is fitted to zero by a first one that is empty; */
  lemma {:induction false} EmptyFirstFit(key: Key, formulas: Formulas)
    ensures FitAfter(Nothing, [Upserted(key, [])], formulas).avgdl == 0.0
  {
    var first := [Upserted(key, [])];
    assert first[..0] == [];
    var none: Corpus := map[];
    assert Held(Nothing, first) == none[key := []];
    TotalLengthAdd(none, key, []);
    assert first[..1] == first && TextGone(Nothing, first, 1);
    TextGoneFit(Nothing, first, formulas);
  }

  lemma {:induction false} TwoSources(x: Source, y: Source)
    ensures ListCorpus([x, y]) == map[x.key := x.tokens][y.key := y.tokens]
    ensures ListLength([x, y]) == |x.tokens| + |y.tokens|
  {
    assert [x, y][..1] == [x] && [x][..0] == [];
    var none: Corpus := map[];
    assert ListCorpus([x]) == none[x.key := x.tokens] == map[x.key := x.tokens];
    assert ListLength([x]) == |x.tokens|;
  }

  /** and one built from a document with text and an empty one, when the first is removed. */
  lemma {:induction false} LastTextRemoved(a: Key, b: Key, text: seq<Token>, formulas: Formulas)
    requires a != b && text != []
    ensures FitAfter(Built([Source(a, text), Source(b, [])]), [Removed(a)], formulas).avgdl == 0.0
  {
    var docs, edits := [Source(a, text), Source(b, [])], [Removed(a)];
    var start := Built(docs);
    TwoSources(docs[0], docs[1]);
    QuotientPositive(|text| as real, 2 as real);
    var none: Corpus := map[];
    assert edits[..0] == [] && edits[..1] == edits;
    assert Held(start, edits) == none[b := []];
    TotalLengthAdd(none, b, []);
    assert TextGone(start, edits, 1);
    TextGoneFit(start, edits, formulas);
  }
}
