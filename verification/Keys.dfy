/** Document keys, their order, and the option type every other module uses. */
module Keys {

  datatype Option<+T> = None | Some(value: T)

  /** A document key: the document's path inside the store, without its extension. */
  datatype Key = Key(path: string)

  predicate PathLess(a: string, b: string) {
    |b| > 0 && (|a| == 0 || a[0] < b[0] || (a[0] == b[0] && PathLess(a[1..], b[1..])))
  }

  /** The order in which keys are sorted and ties between scores are broken. */
  predicate Less(a: Key, b: Key) {
    PathLess(a.path, b.path)
  }

  /** The order is that of a dictionary: what two paths differ in first decides, and a path comes before its
      extensions. */
  lemma {:induction false} PathLessMeans(a: string, b: string)
    ensures PathLess(a, b) <==> exists n: nat :: FirstDifference(a, b, n) && (n == |a| || a[n] < b[n])
  {
    if |a| > 0 && |b| > 0 && a[0] == b[0] {
      var x, y := a[1..], b[1..];
      PathLessMeans(x, y);
      if PathLess(a, b) {
        var n: nat :| FirstDifference(x, y, n) && (n == |x| || x[n] < y[n]);
        DifferenceShifts(a, b, n);
      }
      if n: nat :| FirstDifference(a, b, n) && (n == |a| || a[n] < b[n]) {
        assert n > 0;
        DifferenceShifts(a, b, n - 1);
      }
    } else if |b| > 0 {
      assert FirstDifference(a, b, 0);
    }
  }

  lemma {:induction false} DifferenceShifts(a: string, b: string, n: nat)
    requires |a| > 0 && |b| > 0 && a[0] == b[0]
    ensures FirstDifference(a, b, n + 1) <==> FirstDifference(a[1..], b[1..], n)
  {
    if n + 1 <= |a| && n + 1 <= |b| {
      assert a[..n + 1] == [a[0]] + a[1..][..n] && b[..n + 1] == [b[0]] + b[1..][..n];
      if a[..n + 1] == b[..n + 1] {
        assert a[1..][..n] == a[..n + 1][1..] && b[1..][..n] == b[..n + 1][1..];
      }
    }
  }

  /** The paths agree up to `n`, where `b` goes on and `a` ends or goes on with something else. */
  predicate FirstDifference(a: string, b: string, n: nat) {
    n <= |a| && n < |b| && a[..n] == b[..n] && (n < |a| ==> a[n] != b[n])
  }

  lemma {:induction false} PathIrreflexive(a: string)
    ensures !PathLess(a, a)
  {
    if |a| > 0 {
      PathIrreflexive(a[1..]);
    }
  }

  lemma {:induction false} PathTransitive(a: string, b: string, c: string)
    requires PathLess(a, b) && PathLess(b, c)
    ensures PathLess(a, c)
  {
    if |a| > 0 && a[0] == b[0] && b[0] == c[0] {
      PathTransitive(a[1..], b[1..], c[1..]);
    }
  }

  lemma {:induction false} PathTotal(a: string, b: string)
    ensures a == b || PathLess(a, b) || PathLess(b, a)
  {
    if |a| > 0 && |b| > 0 && a[0] == b[0] {
      PathTotal(a[1..], b[1..]);
      assert a == [a[0]] + a[1..] && b == [b[0]] + b[1..];
    }
  }

  lemma {:induction false} LessIrreflexive(a: Key)
    ensures !Less(a, a)
  {
    PathIrreflexive(a.path);
  }

  lemma {:induction false} LessTransitive(a: Key, b: Key, c: Key)
    requires Less(a, b) && Less(b, c)
    ensures Less(a, c)
  {
    PathTransitive(a.path, b.path, c.path);
  }

  lemma {:induction false} LessTotal(a: Key, b: Key)
    ensures a == b || Less(a, b) || Less(b, a)
  {
    PathTotal(a.path, b.path);
  }

  /** There is always a key outside a finite set: one longer than all of its members. */
  lemma {:induction false} FreshKey(avoid: set<Key>) returns (other: Key)
    ensures other !in avoid
    ensures forall k :: k in avoid ==> |k.path| < |other.path|
  {
    if avoid == {} {
      other := Key("");
    } else {
      var k :| k in avoid;
      other := FreshKey(avoid - {k});
      other := Key(other.path + k.path + "x");
    }
  }
}
