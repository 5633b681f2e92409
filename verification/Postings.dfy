/** Posting lists: for one token, the slots of the documents holding it, in slot order, with the weight there. */
module Postings {
  import opened Keys
  import opened Bm25

  datatype Posting = Posting(slot: nat, weight: real)
  type PostingMap = map<Token, seq<Posting>>

  predicate Sorted(list: seq<Posting>) {
    forall a, b :: 0 <= a < b < |list| ==> list[a].slot < list[b].slot
  }

  /** What a list records: a weight for each slot in it. */
  ghost function Entries(list: seq<Posting>): map<nat, real> {
    if list == [] then map[]
    else
      var last := list[|list| - 1];
      Entries(list[..|list| - 1])[last.slot := last.weight]
  }

  /** What a whole posting map records: for each token, a weight for each slot. No token is kept without a slot. */
  type Table = map<Token, map<nat, real>>

  /** Every list is sorted, and none is kept empty. */
  ghost predicate WellFormed(postings: PostingMap) {
    forall t :: t in postings ==> postings[t] != [] && Sorted(postings[t])
  }

  ghost function View(postings: PostingMap): Table {
    map t | t in postings :: Entries(postings[t])
  }

  /** One row of a table; a token that is not listed has an empty row. */
  ghost function Row(table: Table, t: Token): map<nat, real> {
    if t in table then table[t] else map[]
  }

  /** The table with a document entered under each token it holds. */
  ghost function Entered(table: Table, slot: nat, e: Embedding): Table {
    map t | t in table.Keys + TokenSet(e) ::
      if t in TokenSet(e) then Row(table, t)[slot := ValueOf(e, t)] else Row(table, t)
  }

  /** The table with a document withdrawn from each token it holds, and rows that become empty left out. */
  ghost function Withdrawn(table: Table, slot: nat, e: Embedding): Table {
    map t | t in table && !(t in TokenSet(e) && table[t] - {slot} == map[]) ::
      if t in TokenSet(e) then table[t] - {slot} else table[t]
  }

  lemma {:induction false} EntriesSlots(list: seq<Posting>)
    ensures Entries(list).Keys == set a | 0 <= a < |list| :: list[a].slot
  {
    if list != [] {
      EntriesSlots(list[..|list| - 1]);
      var last := |list| - 1;
      assert list == list[..last] + [list[last]];
      forall i | i in Entries(list[..last]) ensures exists a :: 0 <= a < |list| && list[a].slot == i {
        var a :| 0 <= a < last && list[..last][a].slot == i;
        assert list[a].slot == i;
      }
      forall a | 0 <= a < |list| ensures list[a].slot in Entries(list) {
        assert a < last ==> list[..last][a].slot in Entries(list[..last]);
      }
    }
  }

  lemma {:induction false} EntriesCount(list: seq<Posting>)
    requires Sorted(list)
    ensures |Entries(list)| == |list|
  {
    if list != [] {
      EntriesCount(list[..|list| - 1]);
      EntriesSlots(list[..|list| - 1]);
    }
  }

  lemma {:induction false} EntriesAt(list: seq<Posting>, a: nat)
    requires Sorted(list) && a < |list|
    ensures list[a].slot in Entries(list) && Entries(list)[list[a].slot] == list[a].weight
  {
    if a < |list| - 1 {
      EntriesAt(list[..|list| - 1], a);
    }
  }

  /** Splicing an entry into a list records it, when the entries after it are for other slots. */
  lemma {:induction false} EntriesInsert(front: seq<Posting>, p: Posting, back: seq<Posting>)
    requires forall a :: 0 <= a < |back| ==> back[a].slot != p.slot
    ensures Entries(front + [p] + back) == Entries(front + back)[p.slot := p.weight]
  {
    if back == [] {
      assert front + [p] + back == front + [p] && (front + [p])[..|front|] == front && front + back == front;
    } else {
      var last := |back| - 1;
      EntriesInsert(front, p, back[..last]);
      assert (front + [p] + back)[..|front| + 1 + last] == front + [p] + back[..last];
      assert (front + back)[..|front| + last] == front + back[..last];
    }
  }

  /** The library's binary search by slot: where `slot` is, or where it belongs. */
  method BinarySearch(list: seq<Posting>, slot: nat) returns (found: bool, position: nat)
    requires Sorted(list)
    ensures position <= |list|
    ensures found ==> position < |list| && list[position].slot == slot
    ensures !found ==> forall a :: 0 <= a < |list| ==> if a < position then list[a].slot < slot else list[a].slot > slot
  {
    var lo, hi := 0, |list|;
    while lo < hi
      invariant 0 <= lo <= hi <= |list|
      invariant forall a :: 0 <= a < lo ==> list[a].slot < slot
      invariant forall a :: hi <= a < |list| ==> list[a].slot > slot
    {
      var mid := (lo + hi) / 2;
      if list[mid].slot == slot {
        return true, mid;
      } else if list[mid].slot < slot {
        lo := mid + 1;
      } else {
        hi := mid;
      }
    }
    return false, lo;
  }

  lemma {:induction false} SortedJoin(front: seq<Posting>, p: Posting, back: seq<Posting>)
    requires Sorted(front) && Sorted(back)
    requires forall a :: 0 <= a < |front| ==> front[a].slot < p.slot
    requires forall a :: 0 <= a < |back| ==> p.slot < back[a].slot
    ensures Sorted(front + [p] + back)
  {
  }

  lemma {:induction false} SortedSplit(front: seq<Posting>, p: Posting, back: seq<Posting>)
    requires Sorted(front + [p] + back)
    ensures Sorted(front) && Sorted(back)
    ensures forall a :: 0 <= a < |front| ==> front[a].slot < p.slot
    ensures forall a :: 0 <= a < |back| ==> p.slot < back[a].slot
  {
    var joined := front + [p] + back;
    forall a | 0 <= a < |front| ensures front[a] == joined[a] && front[a].slot < p.slot {
      assert joined[|front|] == p;
    }
    forall a | 0 <= a < |back| ensures back[a] == joined[|front| + 1 + a] && p.slot < back[a].slot {
      assert joined[|front|] == p;
    }
  }

  lemma {:induction false} InsertedEntry(front: seq<Posting>, p: Posting, back: seq<Posting>)
    requires Sorted(front + back)
    requires forall a :: 0 <= a < |front| ==> front[a].slot < p.slot
    requires forall a :: 0 <= a < |back| ==> p.slot < back[a].slot
    ensures Sorted(front + [p] + back)
    ensures Entries(front + [p] + back) == Entries(front + back)[p.slot := p.weight]
  {
    EntriesInsert(front, p, back);
    assert forall a :: 0 <= a < |front| ==> front[a] == (front + back)[a];
    assert forall a :: 0 <= a < |back| ==> back[a] == (front + back)[|front| + a];
    SortedJoin(front, p, back);
  }

  lemma {:induction false} ReplacedEntry(front: seq<Posting>, prior: Posting, p: Posting, back: seq<Posting>)
    requires Sorted(front + [prior] + back) && prior.slot == p.slot
    ensures Sorted(front + [p] + back)
    ensures Entries(front + [p] + back) == Entries(front + [prior] + back)[p.slot := p.weight]
  {
    SortedSplit(front, prior, back);
    SortedJoin(front, p, back);
    EntriesInsert(front, prior, back);
    EntriesInsert(front, p, back);
  }

  lemma {:induction false} RemovedEntry(front: seq<Posting>, p: Posting, back: seq<Posting>)
    requires Sorted(front + [p] + back)
    ensures Sorted(front + back)
    ensures Entries(front + back) == Entries(front + [p] + back) - {p.slot}
  {
    SortedSplit(front, p, back);
    var joined := front + back;
    forall a, b | 0 <= a < b < |joined| ensures joined[a].slot < joined[b].slot {
      assert a < |front| ==> joined[a].slot < p.slot;
      assert b >= |front| ==> p.slot < joined[b].slot;
    }
    EntriesInsert(front, p, back);
    EntriesSlots(front + back);
    assert p.slot !in Entries(front + back);
  }

  method SetWeight(list: seq<Posting>, slot: nat, weight: real) returns (updated: seq<Posting>)
    requires Sorted(list)
    ensures Sorted(updated) && updated != []
    ensures Entries(updated) == Entries(list)[slot := weight]
  {
    var found, position := BinarySearch(list, slot);
    if found {
      updated := list[position := Posting(slot, weight)];
      assert list == list[..position] + [list[position]] + list[position + 1..];
      assert updated == list[..position] + [Posting(slot, weight)] + list[position + 1..];
      ReplacedEntry(list[..position], list[position], Posting(slot, weight), list[position + 1..]);
    } else {
      updated := list[..position] + [Posting(slot, weight)] + list[position..];
      assert list == list[..position] + list[position..];
      InsertedEntry(list[..position], Posting(slot, weight), list[position..]);
    }
  }

  method RemoveSlot(list: seq<Posting>, slot: nat) returns (updated: seq<Posting>)
    requires Sorted(list)
    ensures Sorted(updated)
    ensures Entries(updated) == Entries(list) - {slot}
  {
    var found, position := BinarySearch(list, slot);
    updated := list;
    if found {
      updated := list[..position] + list[position + 1..];
      assert list == list[..position] + [list[position]] + list[position + 1..];
      RemovedEntry(list[..position], list[position], list[position + 1..]);
    } else {
      EntriesSlots(list);
      assert slot !in Entries(list);
    }
  }

  ghost function TokenSet(e: Embedding): set<Token> {
    set j | 0 <= j < |e| :: e[j].index
  }

  /** The weight an embedding records for a token: that of the token's first occurrence, 0 without one. */
  function ValueOf(e: Embedding, t: Token): real {
    if e == [] then 0.0 else if e[0].index == t then e[0].value else ValueOf(e[1..], t)
  }

  /** Appending a token leaves the recorded weights of the tokens already there alone. */
  lemma {:induction false} ValueOfExtend(e: Embedding, w: TokenWeight, t: Token)
    ensures ValueOf(e + [w], t) == if t !in TokenSet(e) && t == w.index then w.value else ValueOf(e, t)
  {
    if e != [] {
      assert (e + [w])[1..] == e[1..] + [w];
      assert t in TokenSet(e) ==> t == e[0].index || t in TokenSet(e[1..]) by {
        if t in TokenSet(e) {
          var j :| 0 <= j < |e| && e[j].index == t;
          assert j > 0 ==> e[1..][j - 1] == e[j];
        }
      }
      assert forall j :: 0 <= j < |e[1..]| ==> e[1..][j] == e[j + 1];
      ValueOfExtend(e[1..], w, t);
    }
  }

  lemma {:induction false} TokenSetExtend(e: Embedding, w: TokenWeight)
    ensures TokenSet(e + [w]) == TokenSet(e) + {w.index}
  {
    assert forall j :: 0 <= j < |e| ==> (e + [w])[j] == e[j];
    assert (e + [w])[|e|] == w;
  }

  /** Entering one more token of the document changes at most that token's row. */
  lemma {:induction false} EnteredExtend(table: Table, slot: nat, e: Embedding, w: TokenWeight)
    ensures Entered(table, slot, e + [w]) ==
            if w.index in TokenSet(e) then Entered(table, slot, e)
            else Entered(table, slot, e)[w.index := Row(Entered(table, slot, e), w.index)[slot := w.value]]
  {
    TokenSetExtend(e, w);
    forall t { ValueOfExtend(e, w, t); }
  }

  lemma {:induction false} WithdrawnExtend(table: Table, slot: nat, e: Embedding, w: TokenWeight)
    ensures var row := Row(table, w.index) - {slot};
            Withdrawn(table, slot, e + [w]) ==
            if w.index in TokenSet(e) || w.index !in table then Withdrawn(table, slot, e)
            else if row == map[] then Withdrawn(table, slot, e) - {w.index}
            else Withdrawn(table, slot, e)[w.index := row]
  {
    TokenSetExtend(e, w);
  }

  lemma {:induction false} ViewSet(postings: PostingMap, t: Token, list: seq<Posting>)
    requires WellFormed(postings) && Sorted(list) && list != []
    ensures WellFormed(postings[t := list])
    ensures View(postings[t := list]) == View(postings)[t := Entries(list)]
  {
  }

  lemma {:induction false} ViewDelete(postings: PostingMap, t: Token)
    requires WellFormed(postings)
    ensures WellFormed(postings - {t})
    ensures View(postings - {t}) == View(postings) - {t}
  {
  }

  lemma {:induction false} ViewRow(postings: PostingMap, t: Token)
    ensures Row(View(postings), t) == Entries(if t in postings then postings[t] else [])
  {
  }

  lemma {:induction false} WithdrawnRow(table: Table, slot: nat, e: Embedding, t: Token)
    requires t !in TokenSet(e)
    ensures t in Withdrawn(table, slot, e) <==> t in table
    ensures Row(Withdrawn(table, slot, e), t) == Row(table, t)
  {
  }

  method AddToken(postings: PostingMap, slot: nat, token: TokenWeight) returns (updated: PostingMap)
    requires WellFormed(postings)
    ensures WellFormed(updated)
    ensures View(updated) == View(postings)[token.index := Row(View(postings), token.index)[slot := token.value]]
  {
    var list := if token.index in postings then postings[token.index] else [];
    ViewRow(postings, token.index);
    list := SetWeight(list, slot, token.value);
    ViewSet(postings, token.index, list);
    updated := postings[token.index := list];
  }

  method DropToken(postings: PostingMap, slot: nat, t: Token) returns (updated: PostingMap)
    requires WellFormed(postings)
    ensures WellFormed(updated)
    ensures var row := Row(View(postings), t) - {slot};
            View(updated) == if t !in View(postings) then View(postings)
                             else if row == map[] then View(postings) - {t} else View(postings)[t := row]
  {
    if t !in postings {
      return postings;
    }
    ViewRow(postings, t);
    var list := RemoveSlot(postings[t], slot);
    EntriesCount(list);
    if list == [] {
      ViewDelete(postings, t);
      updated := postings - {t};
    } else {
      ViewSet(postings, t, list);
      updated := postings[t := list];
    }
  }

  /** Enter a document under each distinct token it holds. */
  method AddPostings(postings: PostingMap, slot: nat, e: Embedding) returns (updated: PostingMap)
    requires WellFormed(postings)
    ensures WellFormed(updated)
    ensures View(updated) == Entered(View(postings), slot, e)
  {
    updated := postings;
    var seen: set<Token> := {};
    var i := 0;
    while i < |e|
      invariant 0 <= i <= |e|
      invariant seen == TokenSet(e[..i])
      invariant WellFormed(updated)
      invariant View(updated) == Entered(View(postings), slot, e[..i])
    {
      var token := e[i];
      assert e[..i + 1] == e[..i] + [token];
      TokenSetExtend(e[..i], token);
      EnteredExtend(View(postings), slot, e[..i], token);
      i := i + 1;
      if token.index in seen {
        continue;
      }
      seen := seen + {token.index};
      updated := AddToken(updated, slot, token);
    }
    assert e[..i] == e;
  }

  /** Withdraw a document from each distinct token it holds; a token nobody holds any more is forgotten. */
  method DropPostings(postings: PostingMap, slot: nat, e: Embedding) returns (updated: PostingMap)
    requires WellFormed(postings)
    ensures WellFormed(updated)
    ensures View(updated) == Withdrawn(View(postings), slot, e)
  {
    updated := postings;
    var seen: set<Token> := {};
    var i := 0;
    while i < |e|
      invariant 0 <= i <= |e|
      invariant seen == TokenSet(e[..i])
      invariant WellFormed(updated)
      invariant View(updated) == Withdrawn(View(postings), slot, e[..i])
    {
      var token := e[i];
      assert e[..i + 1] == e[..i] + [token];
      TokenSetExtend(e[..i], token);
      WithdrawnExtend(View(postings), slot, e[..i], token);
      if token.index !in seen {
        WithdrawnRow(View(postings), slot, e[..i], token.index);
      }
      i := i + 1;
      if token.index in seen {
        continue;
      }
      seen := seen + {token.index};
      updated := DropToken(updated, slot, token.index);
    }
    assert e[..i] == e;
  }

  lemma {:induction false} TokensAndSet(e: Embedding, t: Token)
    ensures t in Tokens(e) <==> t in TokenSet(e)
  {
  }

  /** A fitted embedding records for each of its tokens the formula's weight. */
  lemma {:induction false} ValueOfFitted(e: Embedding, doc: seq<Token>, t: Token, em: Embedder)
    requires forall j :: 0 <= j < |e| ==> e[j].value == WeightOf(doc, e[j].index, em)
    requires t in TokenSet(e)
    ensures ValueOf(e, t) == WeightOf(doc, t, em)
  {
    if e[0].index != t {
      var j :| 0 <= j < |e| && e[j].index == t;
      assert e[1..][j - 1] == e[j];
      ValueOfFitted(e[1..], doc, t, em);
    }
  }
}
