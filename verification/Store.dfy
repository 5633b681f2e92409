/** The document store as a map from keys to contents, and what writes do to it. */
module Store {
  import opened Keys

  datatype Content = Content(text: string)
  type State = map<Key, Content>

  datatype Write = Put(key: Key, content: Content) | Remove(key: Key)

  /** What the store holds at a key; nothing when there is no such document. */
  function At(state: State, key: Key): Option<Content> {
    if key in state then Some(state[key]) else None
  }

  function SetAt(state: State, key: Key, content: Option<Content>): State {
    if content.Some? then state[key := content.value] else state - {key}
  }

  function ApplyWrite(state: State, write: Write): State {
    match write
    case Put(key, content) => state[key := content]
    case Remove(key) => state - {key}
  }

  /** The writes in order: a later write to a key replaces an earlier one. */
  function ApplyAll(state: State, writes: seq<Write>): State {
    if writes == [] then state
    else ApplyWrite(ApplyAll(state, writes[..|writes| - 1]), writes[|writes| - 1])
  }

  function Touched(writes: seq<Write>): set<Key> {
    set i | 0 <= i < |writes| :: writes[i].key
  }

  /** What a state holds at every key the writes name: all that undoing them needs. */
  function Prior(docs: State, writes: seq<Write>): map<Key, Option<Content>> {
    map k | k in Touched(writes) :: At(docs, k)
  }

  lemma {:induction false} ApplyStep(state: State, writes: seq<Write>, n: nat)
    requires n < |writes|
    ensures ApplyAll(state, writes[..n + 1]) == ApplyWrite(ApplyAll(state, writes[..n]), writes[n])
  {
    assert writes[..n + 1][..n] == writes[..n];
  }

  /** A key no write names keeps what it holds. */
  lemma {:induction false} Untouched(state: State, writes: seq<Write>, key: Key)
    requires key !in Touched(writes)
    ensures At(ApplyAll(state, writes), key) == At(state, key)
  {
    if writes != [] {
      var last := |writes| - 1;
      assert forall i :: 0 <= i < last ==> writes[..last][i] == writes[i];
      assert key !in Touched(writes[..last]) && writes[last].key in Touched(writes);
      Untouched(state, writes[..last], key);
    }
  }

  /** A key holds what its last write left there, whatever came before. */
  lemma {:induction false} LastWriteCounts(state: State, writes: seq<Write>, n: nat)
    requires n < |writes| && forall m :: n < m < |writes| ==> writes[m].key != writes[n].key
    ensures At(ApplyAll(state, writes), writes[n].key) == if writes[n].Put? then Some(writes[n].content) else None
  {
    var last := |writes| - 1;
    if n < last {
      LastWriteCounts(state, writes[..last], n);
    }
  }

  /** What a key holds after the writes depends on what it held before, and on no other key. */
  lemma {:induction false} ApplyLocal(a: State, b: State, writes: seq<Write>, key: Key)
    requires At(a, key) == At(b, key) || key in Touched(writes)
    ensures At(ApplyAll(a, writes), key) == At(ApplyAll(b, writes), key)
  {
    if writes != [] {
      var last := |writes| - 1;
      if writes[last].key != key {
        assert key in Touched(writes) ==> key in Touched(writes[..last]) by {
          if key in Touched(writes) {
            var i :| 0 <= i < |writes| && writes[i].key == key;
            assert writes[..last][i] == writes[i];
          }
        }
        ApplyLocal(a, b, writes[..last], key);
      }
    }
  }

  /** Two stores that hold the same at every key are the same. */
  lemma {:induction false} SameEverywhere(a: State, b: State)
    requires forall k :: At(a, k) == At(b, k)
    ensures a == b
  {
    forall k ensures k in a <==> k in b {
      assert At(a, k) == At(b, k);
    }
    forall k | k in a ensures a[k] == b[k] {
      assert At(a, k) == At(b, k);
    }
  }

  // ----- Reading -----

  /** The store as a commit reads it: every document with its byte-order mark dropped and line endings unified. */
  function Sanitized(state: State, clean: Content -> Content): State {
    map k | k in state :: clean(state[k])
  }

  /** Two stores are read alike exactly when they hold the same keys and each pair of contents is cleaned to the same:
      what cleaning removes is all a commit does not see. */
  lemma {:induction false} ReadAlike(a: State, b: State, clean: Content -> Content)
    ensures Sanitized(a, clean) == Sanitized(b, clean) <==>
              forall k :: (k in a <==> k in b) && (k in a && k in b ==> clean(a[k]) == clean(b[k]))
  {
    if Sanitized(a, clean) == Sanitized(b, clean) {
      forall k ensures (k in a <==> k in b) && (k in a && k in b ==> clean(a[k]) == clean(b[k])) {
        assert k in Sanitized(a, clean) <==> k in Sanitized(b, clean);
        assert k in a && k in b ==> Sanitized(a, clean)[k] == Sanitized(b, clean)[k];
      }
    }
  }

  /** Sanitising and applying writes commute, up to sanitising what the writes put. */
  lemma {:induction false} SanitizedApply(state: State, writes: seq<Write>, clean: Content -> Content)
    requires forall c :: clean(clean(c)) == clean(c)
    ensures Sanitized(ApplyAll(state, writes), clean) == Sanitized(ApplyAll(Sanitized(state, clean), writes), clean)
  {
    if writes != [] {
      SanitizedApply(state, writes[..|writes| - 1], clean);
      var a, b := ApplyAll(state, writes[..|writes| - 1]), ApplyAll(Sanitized(state, clean), writes[..|writes| - 1]);
      var write := writes[|writes| - 1];
      SanitizedWrite(a, write, clean);
      SanitizedWrite(b, write, clean);
    } else {
      assert Sanitized(Sanitized(state, clean), clean) == Sanitized(state, clean);
    }
  }

  lemma {:induction false} SanitizedWrite(state: State, write: Write, clean: Content -> Content)
    ensures Sanitized(ApplyWrite(state, write), clean) ==
            SetAt(Sanitized(state, clean), write.key, if write.Put? then Some(clean(write.content)) else None)
  {
  }
}
