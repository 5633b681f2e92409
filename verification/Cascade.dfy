/**
 Carrying a rename into front matter: every field a schema declares as a document key and that names the old key is
 rewritten, on top of whatever the rename already does to the document.
 */
module Cascade {
  import opened Keys
  import opened FrontMatter

  // ----- Rewriting one tree -----

  /** Replaces at one path, and reports whether there was anything to replace. */
  method RewriteAt(v: Value, path: Path, was: string, now: string) returns (r: Value, hit: bool)
    ensures r == Rewritten(v, path, was, now)
    ensures hit <==> was in ValuesAt(v, path)
    decreases v
  {
    match v {
      case Str(s) =>
        if path == [] && s == was {
          return Str(now), true;
        }
        r, hit := v, false;
      case Seq(items) =>
        var rewritten;
        rewritten, hit := RewriteItems(items, path, was, now);
        r := Seq(rewritten);
      case Map(fields) =>
        if path == [] || path[0] !in fields {
          return v, false;
        }
        var field;
        field, hit := RewriteAt(fields[path[0]], path[1..], was, now);
        r := Map(fields[path[0] := field]);
      case _ => r, hit := v, false;
    }
  }

  predicate ItemHas(item: Value, path: Path, was: string) {
    was in ItemValues(item, path)
  }

  lemma {:induction false} ItemsPointwise(items: seq<Value>, path: Path, was: string, now: string)
    ensures forall i :: 0 <= i < |items| ==>
        ItemsRewritten(items, path, was, now)[i] == ItemRewritten(items[i], path, was, now)
  {
    if items != [] {
      ItemsPointwise(items[1..], path, was, now);
      ItemsHead(items, path, was, now);
    }
  }

  lemma {:induction false} ItemsHave(items: seq<Value>, path: Path, was: string)
    ensures was in ItemsAt(items, path) <==> exists i :: 0 <= i < |items| && ItemHas(items[i], path, was)
  {
    if items != [] {
      var rest := items[1..];
      ItemsHave(rest, path, was);
      ItemsHead(items, path, was, was);
      assert was in ItemsAt(items, path) <==> ItemHas(items[0], path, was) || was in ItemsAt(rest, path);
      assert forall i :: 0 < i < |items| ==> items[i] == rest[i - 1];
      if i :| 0 <= i < |rest| && ItemHas(rest[i], path, was) {
        assert ItemHas(items[i + 1], path, was);
      }
    }
  }

  method RewriteItems(items: seq<Value>, path: Path, was: string, now: string) returns (r: seq<Value>, hit: bool)
    ensures r == ItemsRewritten(items, path, was, now)
    ensures hit <==> was in ItemsAt(items, path)
    decreases items
  {
    r, hit := [], false;
    for n := 0 to |items|
      invariant |r| == n && forall i :: 0 <= i < n ==> r[i] == ItemRewritten(items[i], path, was, now)
      invariant hit <==> exists i :: 0 <= i < n && ItemHas(items[i], path, was)
    {
      var item, found := items[n], false;
      if path != [] || items[n].Str? {
        item, found := RewriteAt(items[n], path, was, now);
      }
      assert found == ItemHas(items[n], path, was);
      r := r + [item];
      hit := found || hit;
    }
    ItemsPointwise(items, path, was, now);
    ItemsHave(items, path, was);
  }

  // ----- Rewriting a document at a list of paths -----

  /** The tree after replacing at each path in turn. */
  function RewrittenAll(v: Value, paths: seq<Path>, was: string, now: string): Value {
    if paths == [] then v
    else Rewritten(RewrittenAll(v, paths[..|paths| - 1], was, now), paths[|paths| - 1], was, now)
  }

  lemma {:induction false} AllElsewhere(v: Value, paths: seq<Path>, other: Path, was: string, now: string)
    requires other !in paths
    ensures ValuesAt(RewrittenAll(v, paths, was, now), other) == ValuesAt(v, other)
  {
    if paths != [] {
      var front := paths[..|paths| - 1];
      assert paths[|paths| - 1] in paths;
      AllElsewhere(v, front, other, was, now);
      RewrittenElsewhere(RewrittenAll(v, front, was, now), paths[|paths| - 1], other, was, now);
    }
  }

  lemma {:induction false} SwapAllGone(ss: seq<string>, was: string, now: string)
    requires was != now
    ensures was !in SwapAll(ss, was, now)
    ensures was !in ss ==> SwapAll(ss, was, now) == ss
  {
  }

  /** Each listed path has exactly its own occurrences replaced, however often it is listed. */
  lemma {:induction false} AllHere(v: Value, paths: seq<Path>, path: Path, was: string, now: string)
    requires path in paths && was != now
    ensures ValuesAt(RewrittenAll(v, paths, was, now), path) == SwapAll(ValuesAt(v, path), was, now)
    ensures was !in ValuesAt(RewrittenAll(v, paths, was, now), path)
  {
    var front, last := paths[..|paths| - 1], paths[|paths| - 1];
    var w := RewrittenAll(v, front, was, now);
    SwapAllGone(ValuesAt(v, path), was, now);
    if path in front {
      AllHere(v, front, path, was, now);
      if last == path {
        NothingToRewrite(w, path, was, now);
      } else {
        RewrittenElsewhere(w, last, path, was, now);
      }
    } else {
      assert last == path;
      AllElsewhere(v, front, path, was, now);
      RewrittenHere(w, path, was, now);
    }
  }

  /** Rewriting in one place and then everywhere else is the same the other way round. */
  lemma {:induction false} AllCommute(v: Value, paths: seq<Path>, q: Path, a: string, b: string, c: string, d: string)
    requires q !in paths
    ensures RewrittenAll(Rewritten(v, q, c, d), paths, a, b) == Rewritten(RewrittenAll(v, paths, a, b), q, c, d)
  {
    if paths != [] {
      var front, last := paths[..|paths| - 1], paths[|paths| - 1];
      assert last in paths;
      AllCommute(v, front, q, a, b, c, d);
      RewritesCommute(RewrittenAll(v, front, a, b), q, last, c, d, a, b);
    }
  }

  lemma {:induction false} NothingInAny(v: Value, paths: seq<Path>, was: string, now: string)
    requires forall p :: p in paths ==> was !in ValuesAt(v, p)
    ensures RewrittenAll(v, paths, was, now) == v
  {
    if paths != [] {
      var front, last := paths[..|paths| - 1], paths[|paths| - 1];
      assert last in paths && forall p :: p in front ==> p in paths;
      NothingInAny(v, front, was, now);
      NothingToRewrite(v, last, was, now);
    }
  }

  lemma {:induction false} AllSame(v: Value, paths: seq<Path>, s: string)
    ensures RewrittenAll(v, paths, s, s) == v
  {
    if paths != [] {
      AllSame(v, paths[..|paths| - 1], s);
      RewrittenSame(v, paths[|paths| - 1], s);
    }
  }

  /** Rewriting back restores the tree when the new key was at none of the paths. */
  lemma {:induction false} AllBack(v: Value, paths: seq<Path>, was: string, now: string)
    requires was != now && forall p :: p in paths ==> now !in ValuesAt(v, p)
    ensures RewrittenAll(RewrittenAll(v, paths, was, now), paths, now, was) == v
  {
    if paths != [] {
      var front, last := paths[..|paths| - 1], paths[|paths| - 1];
      assert last in paths && forall p :: p in front ==> p in paths;
      var w := RewrittenAll(v, front, was, now);
      AllBack(v, front, was, now);
      if last in front {
        AllHere(v, front, last, was, now);
        NothingToRewrite(w, last, was, now);
        NothingToRewrite(v, last, now, was);
      } else {
        AllCommute(w, front, last, now, was, was, now);
        RewrittenBack(v, last, was, now);
      }
    }
  }

  /** And only then: a tree with the new key at one of the paths does not come back. */
  lemma {:induction false} RoundTripExact(v: Value, paths: seq<Path>, was: string, now: string)
    ensures RewrittenAll(RewrittenAll(v, paths, was, now), paths, now, was) == v <==>
              was == now || forall p :: p in paths ==> now !in ValuesAt(v, p)
  {
    if was == now {
      AllSame(v, paths, was);
    } else if forall p :: p in paths ==> now !in ValuesAt(v, p) {
      AllBack(v, paths, was, now);
    } else {
      var p :| p in paths && now in ValuesAt(v, p);
      AllHere(RewrittenAll(v, paths, was, now), paths, p, now, was);
    }
  }

  lemma {:induction false} StaysMap(v: Value, paths: seq<Path>, was: string, now: string)
    requires v.Map?
    ensures RewrittenAll(v, paths, was, now).Map?
  {
    if paths != [] {
      StaysMap(v, paths[..|paths| - 1], was, now);
    }
  }

  /** The page with its front matter rewritten at each path. */
  function RewrittenPage(page: Page, paths: seq<Path>, was: string, now: string): Page {
    if page.front.None? then page
    else
      StaysMap(Map(page.front.value), paths, was, now);
      Page(Some(RewrittenAll(Map(page.front.value), paths, was, now).fields), page.body)
  }

  /** The values a page has at a path. */
  function PageValues(page: Page, path: Path): seq<string> {
    if page.front.None? then [] else ValuesAt(Map(page.front.value), path)
  }

  ghost predicate Names(page: Page, paths: seq<Path>, key: string) {
    exists p :: p in paths && key in PageValues(page, p)
  }

  /** Rewrites a document's front matter at every path; nothing when there was nothing to rewrite. */
  method RewriteMarkdown(page: Page, paths: seq<Path>, was: string, now: string) returns (r: Option<Page>)
    ensures r.Some? <==> Names(page, paths, was)
    ensures r.Some? ==> r.value == RewrittenPage(page, paths, was, now)
    ensures r.None? ==> RewrittenPage(page, paths, was, now) == page
  {
    if page.front.None? {
      return None;
    }
    var value, changed := Map(page.front.value), false;
    for n := 0 to |paths|
      invariant value == RewrittenAll(Map(page.front.value), paths[..n], was, now)
      invariant changed <==> Names(page, paths[..n], was)
    {
      var hit;
      value, hit := RewriteAt(value, paths[n], was, now);
      assert paths[..n + 1][..n] == paths[..n];
      assert paths[..n + 1] == paths[..n] + [paths[n]];
      FirstHit(page, paths[..n], paths[n], was, now);
      changed := changed || hit;
    }
    assert paths[..|paths|] == paths;
    if !changed {
      assert forall p :: p in paths ==> was !in PageValues(page, p);
      NothingInAny(Map(page.front.value), paths, was, now);
      return None;
    }
    StaysMap(Map(page.front.value), paths, was, now);
    r := Some(Page(Some(value.fields), page.body));
  }

  /** A path is hit after others have been rewritten only if it would have been from the start. */
  lemma {:induction false} FirstHit(page: Page, paths: seq<Path>, path: Path, was: string, now: string)
    requires page.front.Some?
    ensures Names(page, paths + [path], was) <==>
              Names(page, paths, was) || was in ValuesAt(RewrittenAll(Map(page.front.value), paths, was, now), path)
  {
    var v := Map(page.front.value);
    assert forall p :: p in paths + [path] <==> p in paths || p == path;
    if path !in paths {
      AllElsewhere(v, paths, path, was, now);
    } else if !Names(page, paths, was) {
      assert forall p :: p in paths ==> was !in PageValues(page, p);
      NothingInAny(v, paths, was, now);
    }
    assert path in paths + [path];
  }

  // ----- The whole store -----

  /** What a rename already changes: documents it creates and documents it updates. */
  datatype Changes = Changes(creates: map<Key, Page>, updates: map<Key, Page>)

  datatype Reference = Reference(key: Key, path: Path)

  /** Every declared field of every document that names the key. */
  function Referrers(pages: map<Key, Page>, declared: Key -> seq<Path>, target: Key): set<Reference> {
    set k, p | k in pages && p in declared(k) && target.path in PageValues(pages[k], p) :: Reference(k, p)
  }

  function ReferringKeys(refs: set<Reference>): set<Key> {
    set r | r in refs :: r.key
  }

  /** Where a renamed store ends up at a key: the renamed document under its new key, anything else where it was. */
  function FinalPage(pages: map<Key, Page>, changes: Changes, was: Key, now: Key, k: Key): Page
    requires k in pages
  {
    if k == was then if now in changes.creates then changes.creates[now] else pages[k]
    else if k in changes.updates then changes.updates[k] else pages[k]
  }

  /** The rename moves the old document to the new key and leaves front matter alone. */
  ghost predicate RenameChanges(pages: map<Key, Page>, changes: Changes, was: Key, now: Key) {
    && (was in pages ==> now in changes.creates)
    && forall k :: k in pages ==> FinalPage(pages, changes, was, now, k).front == pages[k].front
  }

  function PathsAt(pages: map<Key, Page>, declared: Key -> seq<Path>, target: Key, k: Key): (paths: seq<Path>)
    requires k in pages
    ensures forall p :: p in paths <==> p in declared(k) && Reference(k, p) in Referrers(pages, declared, target)
  {
    NamedPathsExact(pages[k], declared(k), target.path);
    NamedPaths(pages[k], declared(k), target.path)
  }

  function NamedPaths(page: Page, paths: seq<Path>, target: string): seq<Path> {
    if paths == [] then []
    else (if target in PageValues(page, paths[0]) then [paths[0]] else []) + NamedPaths(page, paths[1..], target)
  }

  lemma {:induction false} NamedPathsExact(page: Page, paths: seq<Path>, target: string)
    ensures forall p :: p in NamedPaths(page, paths, target) <==> p in paths && target in PageValues(page, p)
  {
    if paths != [] {
      NamedPathsExact(page, paths[1..], target);
      assert paths == [paths[0]] + paths[1..];
    }
  }

  /** The change of one referring document, on top of what is already there. */
  method CascadeOne(pages: map<Key, Page>, paths: seq<Path>, k: Key, was: Key, now: Key, changes: Changes)
      returns (r: Changes)
    requires k in pages
    ensures r == CascadedOne(pages, paths, k, was, now, changes)
  {
    var slot := if k == was then now else k;
    var existing := if k == was then changes.creates else changes.updates;
    if slot in existing {
      var rewritten := RewriteMarkdown(existing[slot], paths, was.path, now.path);
      if rewritten.Some? {
        if k == was {
          return changes.(creates := changes.creates[slot := rewritten.value]);
        }
        return changes.(updates := changes.updates[slot := rewritten.value]);
      }
      assert existing[slot := existing[slot]] == existing;
    } else {
      var rewritten := RewriteMarkdown(pages[k], paths, was.path, now.path);
      if rewritten.Some? {
        return changes.(updates := changes.updates[k := rewritten.value]);
      }
    }
    r := changes;
  }

  ghost function CascadedOne(pages: map<Key, Page>, paths: seq<Path>, k: Key, was: Key, now: Key,
      changes: Changes): Changes
    requires k in pages
  {
    if k == was && now in changes.creates then
      changes.(creates := changes.creates[now := RewrittenPage(changes.creates[now], paths, was.path, now.path)])
    else if k != was && k in changes.updates then
      changes.(updates := changes.updates[k := RewrittenPage(changes.updates[k], paths, was.path, now.path)])
    else if Names(pages[k], paths, was.path) then
      changes.(updates := changes.updates[k := RewrittenPage(pages[k], paths, was.path, now.path)])
    else changes
  }

  /** Every declared field of the page has exactly its mentions of the old key replaced; its other fields and its body
      are as before. */
  ghost predicate Carried(before: Page, after: Page, paths: seq<Path>, was: Key, now: Key) {
    && after.body == before.body && (after.front.Some? <==> before.front.Some?)
    && (forall p :: p in paths ==> PageValues(after, p) == SwapAll(PageValues(before, p), was.path, now.path))
    && (forall p :: p !in paths ==> PageValues(after, p) == PageValues(before, p))
  }

  lemma {:induction false} RewrittenIsCarried(page: Page, paths: seq<Path>, named: seq<Path>, was: Key, now: Key)
    requires was != now
    requires forall p :: p in named <==> p in paths && was.path in PageValues(page, p)
    ensures Carried(page, RewrittenPage(page, named, was.path, now.path), paths, was, now)
  {
    var after := RewrittenPage(page, named, was.path, now.path);
    assert was.path != now.path;
    forall p
      ensures PageValues(after, p) ==
              if p in paths then SwapAll(PageValues(page, p), was.path, now.path) else PageValues(page, p)
    {
      SwapAllGone(PageValues(page, p), was.path, now.path);
      if page.front.Some? {
        StaysMap(Map(page.front.value), named, was.path, now.path);
        if p in named {
          AllHere(Map(page.front.value), named, p, was.path, now.path);
        } else {
          AllElsewhere(Map(page.front.value), named, p, was.path, now.path);
        }
      }
    }
  }

  lemma {:induction false} CascadeStep(pages: map<Key, Page>, paths: seq<Path>, k: Key, was: Key, now: Key,
      changes: Changes)
    requires k in pages && (was in pages ==> now in changes.creates)
    ensures var next := CascadedOne(pages, paths, k, was, now, changes);
            && (was in pages ==> now in next.creates)
            && FinalPage(pages, next, was, now, k) ==
               RewrittenPage(FinalPage(pages, changes, was, now, k), paths, was.path, now.path)
            && forall j :: j in pages && j != k ==>
                FinalPage(pages, next, was, now, j) == FinalPage(pages, changes, was, now, j)
  {
    if k != was && k !in changes.updates && !Names(pages[k], paths, was.path) && pages[k].front.Some? {
      assert forall p :: p in paths ==> was.path !in PageValues(pages[k], p);
      NothingInAny(Map(pages[k].front.value), paths, was.path, now.path);
    }
  }

  /** The page at `k` has been carried over. */
  ghost predicate Settled(pages: map<Key, Page>, declared: Key -> seq<Path>, was: Key, now: Key, changes: Changes,
      r: Changes, k: Key)
    requires k in pages
  {
    var named := PathsAt(pages, declared, was, k);
    FinalPage(pages, r, was, now, k) == RewrittenPage(FinalPage(pages, changes, was, now, k), named, was.path, now.path)
  }

  lemma {:induction false} UnnamedSettled(pages: map<Key, Page>, declared: Key -> seq<Path>, was: Key, now: Key,
      changes: Changes, k: Key)
    requires k in pages && k !in ReferringKeys(Referrers(pages, declared, was))
    ensures Settled(pages, declared, was, now, changes, changes, k)
  {
    var paths := PathsAt(pages, declared, was, k);
    assert paths != [] ==>
        paths[0] in paths && Reference(k, paths[0]).key in ReferringKeys(Referrers(pages, declared, was));
  }

  lemma {:induction false} SettledIsCarried(pages: map<Key, Page>, declared: Key -> seq<Path>, was: Key, now: Key,
      changes: Changes, r: Changes, k: Key)
    requires k in pages && was != now && RenameChanges(pages, changes, was, now)
        && Settled(pages, declared, was, now, changes, r, k)
    ensures Carried(FinalPage(pages, changes, was, now, k), FinalPage(pages, r, was, now, k), declared(k), was, now)
  {
    var page, named := FinalPage(pages, changes, was, now, k), PathsAt(pages, declared, was, k);
    assert page.front == pages[k].front;
    forall p ensures p in named <==> p in declared(k) && was.path in PageValues(page, p) {
      assert Reference(k, p).path == p;
    }
    RewrittenIsCarried(page, declared(k), named, was, now);
  }

  /** The changes are those of the rename, but for the documents listed: of these, the renamed one is changed where it
      is created, if it is, and every other one is among the updates. */
  ghost predicate ChangedOnly(changes: Changes, r: Changes, was: Key, now: Key, listed: set<Key>) {
    var moved := now in changes.creates;
    && r.creates.Keys == changes.creates.Keys
    && (forall k :: k in changes.creates && !(k == now && was in listed) ==> r.creates[k] == changes.creates[k])
    && (forall k :: k in r.updates <==> k in changes.updates || (k in listed && !(k == was && moved)))
    && (forall k :: k in changes.updates && (k !in listed || (k == was && moved)) ==>
          r.updates[k] == changes.updates[k])
  }

  lemma {:induction false} ChangedOnlyStep(pages: map<Key, Page>, paths: seq<Path>, k: Key, was: Key, now: Key,
      changes: Changes, r: Changes, listed: set<Key>)
    requires k in pages && k !in listed && Names(pages[k], paths, was.path)
    requires ChangedOnly(changes, r, was, now, listed)
    ensures ChangedOnly(changes, CascadedOne(pages, paths, k, was, now, r), was, now, listed + {k})
  {
  }

  lemma {:induction false} ReferrerNames(pages: map<Key, Page>, declared: Key -> seq<Path>, was: Key, k: Key)
    requires k in pages && k in ReferringKeys(Referrers(pages, declared, was))
    ensures Names(pages[k], PathsAt(pages, declared, was, k), was.path)
  {
    var ref :| ref in Referrers(pages, declared, was) && ref.key == k;
    assert ref == Reference(k, ref.path) && ref.path in PathsAt(pages, declared, was, k);
  }

  /** Where the loop stands with the documents in `todo` still to be looked at. */
  ghost predicate Progress(pages: map<Key, Page>, declared: Key -> seq<Path>, was: Key, now: Key, changes: Changes,
      r: Changes, todo: set<Key>) {
    var listed := ReferringKeys(Referrers(pages, declared, was));
    && todo <= pages.Keys && todo <= listed
    && ChangedOnly(changes, r, was, now, listed - todo)
    && ((was in pages ==> now in changes.creates) ==>
          && (was in pages ==> now in r.creates)
          && (forall k :: k in todo ==> FinalPage(pages, r, was, now, k) == FinalPage(pages, changes, was, now, k))
          && (forall k :: k in pages && k !in todo ==> Settled(pages, declared, was, now, changes, r, k)))
  }

  lemma {:induction false} ProgressStarts(pages: map<Key, Page>, declared: Key -> seq<Path>, was: Key, now: Key,
      changes: Changes)
    ensures Progress(pages, declared, was, now, changes, changes, ReferringKeys(Referrers(pages, declared, was)))
  {
    forall k | k in pages && k !in ReferringKeys(Referrers(pages, declared, was))
      ensures Settled(pages, declared, was, now, changes, changes, k)
    {
      UnnamedSettled(pages, declared, was, now, changes, k);
    }
  }

  lemma {:induction false} ProgressGoesOn(pages: map<Key, Page>, declared: Key -> seq<Path>, was: Key, now: Key,
      changes: Changes, r: Changes, todo: set<Key>, k: Key)
    requires Progress(pages, declared, was, now, changes, r, todo) && k in todo
    ensures var next := CascadedOne(pages, PathsAt(pages, declared, was, k), k, was, now, r);
            Progress(pages, declared, was, now, changes, next, todo - {k})
  {
    var listed, paths := ReferringKeys(Referrers(pages, declared, was)), PathsAt(pages, declared, was, k);
    ReferrerNames(pages, declared, was, k);
    ChangedOnlyStep(pages, paths, k, was, now, changes, r, listed - todo);
    assert listed - (todo - {k}) == listed - todo + {k};
    if was in pages ==> now in changes.creates {
      CascadeStep(pages, paths, k, was, now, r);
      SettledStep(pages, declared, was, now, changes, r, CascadedOne(pages, paths, k, was, now, r), todo, k);
    }
  }

  lemma {:induction false} SettledStep(pages: map<Key, Page>, declared: Key -> seq<Path>, was: Key, now: Key,
      changes: Changes, r: Changes, next: Changes, todo: set<Key>, k: Key)
    requires todo <= pages.Keys && k in todo
    requires forall j :: j in todo ==> FinalPage(pages, r, was, now, j) == FinalPage(pages, changes, was, now, j)
    requires forall j :: j in pages && j !in todo ==> Settled(pages, declared, was, now, changes, r, j)
    requires FinalPage(pages, next, was, now, k) ==
             RewrittenPage(FinalPage(pages, r, was, now, k), PathsAt(pages, declared, was, k), was.path, now.path)
    requires forall j :: j in pages && j != k ==>
               FinalPage(pages, next, was, now, j) == FinalPage(pages, r, was, now, j)
    ensures forall j :: j in todo - {k} ==>
              FinalPage(pages, next, was, now, j) == FinalPage(pages, changes, was, now, j)
    ensures forall j :: j in pages && j !in todo - {k} ==> Settled(pages, declared, was, now, changes, next, j)
  {
    forall j | j in pages && j !in todo - {k} ensures Settled(pages, declared, was, now, changes, next, j) {
      if j != k {
        assert Settled(pages, declared, was, now, changes, r, j);
      }
    }
  }

  /** Carries the rename of `was` to `now` into front matter. On top of the changes of a rename, in the store as they
      leave it every declared field has its mentions of the old key replaced by the new one, and every other field is
      what the rename made it; no other document is touched. */
  method CascadeRename(pages: map<Key, Page>, declared: Key -> seq<Path>, was: Key, now: Key, changes: Changes)
    returns (r: Changes, referrers: set<Reference>)
    ensures referrers == Referrers(pages, declared, was)
    ensures ChangedOnly(changes, r, was, now, ReferringKeys(referrers))
    ensures was != now && RenameChanges(pages, changes, was, now) ==>
              forall k :: k in pages ==>
                Carried(FinalPage(pages, changes, was, now, k), FinalPage(pages, r, was, now, k), declared(k), was, now)
  {
    referrers := Referrers(pages, declared, was);
    r := changes;
    var todo := ReferringKeys(referrers);
    ProgressStarts(pages, declared, was, now, changes);
    while todo != {}
      invariant Progress(pages, declared, was, now, changes, r, todo)
      decreases |todo|
    {
      var k :| k in todo;
      ProgressGoesOn(pages, declared, was, now, changes, r, todo, k);
      r := CascadeOne(pages, PathsAt(pages, declared, was, k), k, was, now, r);
      todo := todo - {k};
    }
    assert ReferringKeys(referrers) - {} == ReferringKeys(referrers);
    if was != now && RenameChanges(pages, changes, was, now) {
      forall k | k in pages
        ensures Carried(FinalPage(pages, changes, was, now, k), FinalPage(pages, r, was, now, k), declared(k), was, now)
      {
        SettledIsCarried(pages, declared, was, now, changes, r, k);
      }
    }
  }
}
