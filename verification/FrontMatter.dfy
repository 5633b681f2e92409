/** YAML trees, the scalars at a dotted path, and replacing one of them by another. */
module FrontMatter {
  import opened Keys

  /** An untagged YAML tree. A mapping's keys are distinct strings, and two mappings are equal whatever their order. */
  datatype Value =
    | Null | Bool(b: bool) | Number(digits: string) | Str(s: string)
    | Seq(items: seq<Value>)
    | Map(fields: map<string, Value>)

  type Mapping = map<string, Value>

  /** A document as it is written: its front matter, when it has any that parses, and the rest. */
  datatype Page = Page(front: Option<Mapping>, body: string)

  /** A dotted path, split into its segments. */
  type Path = seq<string>

  // ----- The scalars at a path -----

  /** A list passes a path on to its elements; at the end of the path it yields its own string elements. */
  function ValuesAt(v: Value, path: Path): seq<string>
    decreases v
  {
    match v
    case Str(s) => if path == [] then [s] else []
    case Seq(items) => ItemsAt(items, path)
    case Map(fields) => if path != [] && path[0] in fields then ValuesAt(fields[path[0]], path[1..]) else []
    case _ => []
  }

  function ItemsAt(items: seq<Value>, path: Path): seq<string>
    decreases items
  {
    if items == [] then []
    else (if path == [] && !items[0].Str? then [] else ValuesAt(items[0], path)) + ItemsAt(items[1..], path)
  }

  // ----- Replacing one of them -----

  function Swap(s: string, was: string, now: string): string {
    if s == was then now else s
  }

  function SwapAll(ss: seq<string>, was: string, now: string): (r: seq<string>)
    ensures |r| == |ss| && forall i :: 0 <= i < |ss| ==> r[i] == Swap(ss[i], was, now)
  {
    if ss == [] then [] else [Swap(ss[0], was, now)] + SwapAll(ss[1..], was, now)
  }

  /** The tree with every `was` at the path replaced. */
  function Rewritten(v: Value, path: Path, was: string, now: string): Value
    decreases v
  {
    match v
    case Str(s) => if path == [] then Str(Swap(s, was, now)) else v
    case Seq(items) => Seq(ItemsRewritten(items, path, was, now))
    case Map(fields) =>
      if path != [] && path[0] in fields
      then Map(fields[path[0] := Rewritten(fields[path[0]], path[1..], was, now)])
      else v
    case _ => v
  }

  function ItemsRewritten(items: seq<Value>, path: Path, was: string, now: string): (r: seq<Value>)
    ensures |r| == |items|
    decreases items
  {
    if items == [] then []
    else
      [if path == [] && !items[0].Str? then items[0] else Rewritten(items[0], path, was, now)]
      + ItemsRewritten(items[1..], path, was, now)
  }

  // ----- Where things are -----

  /** A tree with nothing but `v`, below the path. */
  function Nest(path: Path, v: Value): Value {
    if path == [] then v else Map(map[path[0] := Nest(path[1..], v)])
  }

  /** Each string on its own below the path: the elements of a list. */
  function Nests(path: Path, ss: seq<string>): (items: seq<Value>)
    ensures |items| == |ss|
  {
    if ss == [] then [] else [Nest(path, Str(ss[0]))] + Nests(path, ss[1..])
  }

  lemma {:induction false} NestConcat(p: Path, q: Path, v: Value)
    ensures Nest(p + q, v) == Nest(p, Nest(q, v))
  {
    if p == [] {
      assert p + q == q;
    } else {
      assert (p + q)[1..] == p[1..] + q;
      NestConcat(p[1..], q, v);
    }
  }

  /** Looking below a path, and replacing below it, is looking and replacing in what is there. */
  lemma {:induction false} BelowNest(p: Path, q: Path, v: Value, was: string, now: string)
    ensures ValuesAt(Nest(p, v), p + q) == ValuesAt(v, q)
    ensures Rewritten(Nest(p, v), p + q, was, now) == Nest(p, Rewritten(v, q, was, now))
  {
    if p == [] {
      assert p + q == q;
    } else {
      assert (p + q)[1..] == p[1..] + q;
      BelowNest(p[1..], q, v, was, now);
    }
  }

  /** One element of a list: at the end of the path only its strings count. */
  function ItemValues(item: Value, path: Path): seq<string> {
    if path == [] && !item.Str? then [] else ValuesAt(item, path)
  }

  function ItemRewritten(item: Value, path: Path, was: string, now: string): Value {
    if path == [] && !item.Str? then item else Rewritten(item, path, was, now)
  }

  lemma {:induction false} ItemsHead(items: seq<Value>, path: Path, was: string, now: string)
    requires items != []
    ensures ItemsAt(items, path) == ItemValues(items[0], path) + ItemsAt(items[1..], path)
    ensures ItemsRewritten(items, path, was, now) ==
            [ItemRewritten(items[0], path, was, now)] + ItemsRewritten(items[1..], path, was, now)
  {
  }

  lemma {:induction false} ItemsNested(q: Path, ss: seq<string>, was: string, now: string)
    ensures ItemsAt(Nests(q, ss), q) == ss
    ensures ItemsRewritten(Nests(q, ss), q, was, now) == Nests(q, SwapAll(ss, was, now))
  {
    if ss != [] {
      var items := Nests(q, ss);
      OneNested(q, ss[0], was, now);
      ItemsNested(q, ss[1..], was, now);
      ItemsHead(items, q, was, now);
      assert items[1..] == Nests(q, ss[1..]);
    }
  }

  lemma {:induction false} OneNested(q: Path, s: string, was: string, now: string)
    ensures ItemValues(Nest(q, Str(s)), q) == [s]
    ensures ItemRewritten(Nest(q, Str(s)), q, was, now) == Nest(q, Str(Swap(s, was, now)))
  {
    assert q + [] == q;
    BelowNest(q, [], Str(s), was, now);
    assert q == [] ==> Nest(q, Str(s)).Str?;
  }

  /** A list below one path, whose elements hold strings below another, has those strings at the joined path, in order;
      replacing there replaces each of them and nothing else. With an empty second path these are the elements
      themselves. */
  lemma {:induction false} ListRewritten(p: Path, q: Path, ss: seq<string>, was: string, now: string)
    ensures ValuesAt(Nest(p, Seq(Nests(q, ss))), p + q) == ss
    ensures Rewritten(Nest(p, Seq(Nests(q, ss))), p + q, was, now) ==
            Nest(p, Seq(Nests(q, SwapAll(ss, was, now))))
  {
    BelowNest(p, q, Seq(Nests(q, ss)), was, now);
    ItemsNested(q, ss, was, now);
  }

  /** At the end of the path, a list inside a list is not looked into. */
  lemma {:induction false} InnerListSkipped(p: Path, ss: seq<string>, inner: seq<Value>, was: string, now: string)
    ensures ValuesAt(Nest(p, Seq(Nests([], ss) + [Seq(inner)])), p) == ss
    ensures Rewritten(Nest(p, Seq(Nests([], ss) + [Seq(inner)])), p, was, now) ==
            Nest(p, Seq(Nests([], SwapAll(ss, was, now)) + [Seq(inner)]))
  {
    assert p + [] == p;
    BelowNest(p, [], Seq(Nests([], ss) + [Seq(inner)]), was, now);
    ItemsConcat(Nests([], ss), [Seq(inner)], [], was, now);
    ItemsNested([], ss, was, now);
    assert ItemsAt([Seq(inner)], []) == [] && ItemsRewritten([Seq(inner)], [], was, now) == [Seq(inner)];
  }

  lemma {:induction false} ItemsConcat(a: seq<Value>, b: seq<Value>, path: Path, was: string, now: string)
    ensures ItemsAt(a + b, path) == ItemsAt(a, path) + ItemsAt(b, path)
    ensures ItemsRewritten(a + b, path, was, now) ==
            ItemsRewritten(a, path, was, now) + ItemsRewritten(b, path, was, now)
  {
    if a == [] {
      assert a + b == b;
    } else {
      assert (a + b)[0] == a[0] && (a + b)[1..] == a[1..] + b;
      ItemsConcat(a[1..], b, path, was, now);
      ItemsHead(a + b, path, was, now);
      ItemsHead(a, path, was, now);
    }
  }

  // ----- What replacing does -----

  lemma {:induction false} SwapAllConcat(a: seq<string>, b: seq<string>, was: string, now: string)
    ensures SwapAll(a + b, was, now) == SwapAll(a, was, now) + SwapAll(b, was, now)
  {
  }

  /** At the path itself, exactly the occurrences of `was` are replaced, in place. */
  lemma {:induction false} RewrittenHere(v: Value, path: Path, was: string, now: string)
    ensures ValuesAt(Rewritten(v, path, was, now), path) == SwapAll(ValuesAt(v, path), was, now)
    decreases v
  {
    match v
    case Seq(items) => ItemsHere(items, path, was, now);
    case Map(fields) =>
      if path != [] && path[0] in fields {
        RewrittenHere(fields[path[0]], path[1..], was, now);
      }
    case _ =>
  }

  lemma {:induction false} ItemsHere(items: seq<Value>, path: Path, was: string, now: string)
    ensures ItemsAt(ItemsRewritten(items, path, was, now), path) == SwapAll(ItemsAt(items, path), was, now)
    decreases items
  {
    if items != [] {
      var r := ItemsRewritten(items, path, was, now);
      RewrittenHere(items[0], path, was, now);
      ItemsHere(items[1..], path, was, now);
      assert r[1..] == ItemsRewritten(items[1..], path, was, now);
      var first := if path == [] && !items[0].Str? then [] else ValuesAt(items[0], path);
      SwapAllConcat(first, ItemsAt(items[1..], path), was, now);
    }
  }

  lemma {:induction false} Tails(path: Path, other: Path)
    requires path != other && path != [] && other != [] && path[0] == other[0]
    ensures path[1..] != other[1..]
  {
  }

  /** At every other path, nothing changes. */
  lemma {:induction false} RewrittenElsewhere(v: Value, path: Path, other: Path, was: string, now: string)
    requires path != other
    ensures ValuesAt(Rewritten(v, path, was, now), other) == ValuesAt(v, other)
    decreases v
  {
    match v
    case Seq(items) => ItemsElsewhere(items, path, other, was, now);
    case Map(fields) =>
      if path != [] && other != [] && path[0] in fields && path[0] == other[0] {
        Tails(path, other);
        RewrittenElsewhere(fields[path[0]], path[1..], other[1..], was, now);
      }
    case _ =>
  }

  lemma {:induction false} ItemsElsewhere(items: seq<Value>, path: Path, other: Path, was: string, now: string)
    requires path != other
    ensures ItemsAt(ItemsRewritten(items, path, was, now), other) == ItemsAt(items, other)
    decreases items
  {
    if items != [] {
      RewrittenElsewhere(items[0], path, other, was, now);
      ItemsElsewhere(items[1..], path, other, was, now);
      assert ItemsRewritten(items, path, was, now)[1..] == ItemsRewritten(items[1..], path, was, now);
    }
  }

  /** Where `was` is not found, the tree stays as it is. */
  lemma {:induction false} NothingToRewrite(v: Value, path: Path, was: string, now: string)
    requires was !in ValuesAt(v, path)
    ensures Rewritten(v, path, was, now) == v
    decreases v
  {
    match v
    case Str(s) => assert path == [] ==> s in ValuesAt(v, path);
    case Seq(items) => NothingInItems(items, path, was, now);
    case Map(fields) =>
      if path != [] && path[0] in fields {
        NothingToRewrite(fields[path[0]], path[1..], was, now);
        assert fields[path[0] := fields[path[0]]] == fields;
      }
    case _ =>
  }

  lemma {:induction false} NothingInItems(items: seq<Value>, path: Path, was: string, now: string)
    requires was !in ItemsAt(items, path)
    ensures ItemsRewritten(items, path, was, now) == items
    decreases items
  {
    if items != [] {
      assert was !in ItemsAt(items[1..], path);
      NothingInItems(items[1..], path, was, now);
      if path != [] || items[0].Str? {
        assert was !in ValuesAt(items[0], path);
        NothingToRewrite(items[0], path, was, now);
      }
    }
  }

  /** Rewriting back undoes it, where the new value was not there before. */
  lemma {:induction false} RewrittenBack(v: Value, path: Path, was: string, now: string)
    requires now !in ValuesAt(v, path)
    ensures Rewritten(Rewritten(v, path, was, now), path, now, was) == v
    decreases v
  {
    match v
    case Str(s) => assert path == [] ==> s in ValuesAt(v, path);
    case Seq(items) => ItemsBack(items, path, was, now);
    case Map(fields) =>
      if path != [] && path[0] in fields {
        RewrittenBack(fields[path[0]], path[1..], was, now);
        assert fields[path[0] := fields[path[0]]] == fields;
      }
    case _ =>
  }

  lemma {:induction false} ItemsBack(items: seq<Value>, path: Path, was: string, now: string)
    requires now !in ItemsAt(items, path)
    ensures ItemsRewritten(ItemsRewritten(items, path, was, now), path, now, was) == items
    decreases items
  {
    if items != [] {
      assert now !in ItemsAt(items[1..], path);
      ItemsBack(items[1..], path, was, now);
      assert ItemsRewritten(items, path, was, now)[1..] == ItemsRewritten(items[1..], path, was, now);
      if path != [] || items[0].Str? {
        assert now !in ValuesAt(items[0], path);
        RewrittenBack(items[0], path, was, now);
      }
    }
  }

  /** Replacing a value by itself. */
  lemma {:induction false} RewrittenSame(v: Value, path: Path, s: string)
    ensures Rewritten(v, path, s, s) == v
    decreases v
  {
    match v
    case Seq(items) => ItemsSame(items, path, s);
    case Map(fields) =>
      if path != [] && path[0] in fields {
        RewrittenSame(fields[path[0]], path[1..], s);
        assert fields[path[0] := fields[path[0]]] == fields;
      }
    case _ =>
  }

  lemma {:induction false} ItemsSame(items: seq<Value>, path: Path, s: string)
    ensures ItemsRewritten(items, path, s, s) == items
    decreases items
  {
    if items != [] {
      RewrittenSame(items[0], path, s);
      ItemsSame(items[1..], path, s);
    }
  }

  /** Replacements at different paths do not interfere, in either order. */
  lemma {:induction false} RewritesCommute(v: Value, p: Path, q: Path, a: string, b: string, c: string, d: string)
    requires p != q
    ensures Rewritten(Rewritten(v, p, a, b), q, c, d) == Rewritten(Rewritten(v, q, c, d), p, a, b)
    decreases v
  {
    match v
    case Seq(items) => ItemsCommute(items, p, q, a, b, c, d);
    case Map(fields) =>
      if p != [] && q != [] && p[0] in fields && q[0] in fields {
        var x, y := fields[p[0]], fields[q[0]];
        if p[0] == q[0] {
          Tails(p, q);
          RewritesCommute(x, p[1..], q[1..], a, b, c, d);
          var xp, xq := Rewritten(x, p[1..], a, b), Rewritten(x, q[1..], c, d);
          assert fields[p[0] := xp][q[0] := Rewritten(xp, q[1..], c, d)] ==
                 fields[q[0] := xq][p[0] := Rewritten(xq, p[1..], a, b)];
        } else {
          assert fields[p[0] := Rewritten(x, p[1..], a, b)][q[0] := Rewritten(y, q[1..], c, d)] ==
                 fields[q[0] := Rewritten(y, q[1..], c, d)][p[0] := Rewritten(x, p[1..], a, b)];
        }
      }
    case _ =>
  }

  lemma {:induction false} ItemsCommute(items: seq<Value>, p: Path, q: Path, a: string, b: string, c: string, d: string)
    requires p != q
    ensures ItemsRewritten(ItemsRewritten(items, p, a, b), q, c, d) ==
            ItemsRewritten(ItemsRewritten(items, q, c, d), p, a, b)
    decreases items
  {
    if items != [] {
      RewritesCommute(items[0], p, q, a, b, c, d);
      ItemsCommute(items[1..], p, q, a, b, c, d);
      assert ItemsRewritten(items, p, a, b)[1..] == ItemsRewritten(items[1..], p, a, b);
      assert ItemsRewritten(items, q, c, d)[1..] == ItemsRewritten(items[1..], q, c, d);
    }
  }
}
