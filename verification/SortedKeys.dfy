/** Iteration order of an ordered map with string keys: ascending by code point. */
module SortedKeys {
  predicate Leq(a: string, b: string) {
    a == "" || (b != "" && (a[0] < b[0] || (a[0] == b[0] && Leq(a[1..], b[1..]))))
  }

  lemma LeqTotal(a: string, b: string)
    ensures Leq(a, b) || Leq(b, a)
  {
  }

  lemma {:induction false} LeqAntisymmetric(a: string, b: string)
    requires Leq(a, b) && Leq(b, a)
    ensures a == b
  {
    if a != "" {
      LeqAntisymmetric(a[1..], b[1..]);
      assert a == [a[0]] + a[1..];
    }
  }

  lemma {:induction false} LeqTransitive(a: string, b: string, c: string)
    requires Leq(a, b) && Leq(b, c)
    ensures Leq(a, c)
  {
    if a != "" && a[0] == b[0] == c[0] {
      LeqTransitive(a[1..], b[1..], c[1..]);
    }
  }

  /** a and b first differ at i, where a ends or has the smaller character. */
  predicate SmallerAt(a: string, b: string, i: nat) {
    i <= |a| && i < |b| && a[..i] == b[..i] && (i == |a| || a[i] < b[i])
  }

  lemma SmallerBehind(a: string, b: string, i: nat)
    requires a != "" && b != "" && a[0] == b[0]
    ensures SmallerAt(a[1..], b[1..], i) <==> SmallerAt(a, b, i + 1)
  {
    if i < |a| && i < |b| - 1 {
      assert a[..i + 1] == [a[0]] + a[1..][..i] && b[..i + 1] == [b[0]] + b[1..][..i];
    }
  }

  lemma SmallerAtStart(a: string, b: string, i: nat)
    requires a != "" && b != "" && a[0] != b[0]
    ensures SmallerAt(a, b, i) <==> i == 0 && a[0] < b[0]
  {
    if 0 < i <= |a| && i < |b| {
      assert a[..i][0] != b[..i][0];
    }
  }

  /** The order of dictionaries, by code point: at the first difference the smaller
      character comes first, and a proper prefix comes before what continues it. */
  lemma {:induction false} LeqMeaning(a: string, b: string)
    ensures Leq(a, b) <==> a == b || exists i: nat :: SmallerAt(a, b, i)
    decreases |a|
  {
    if a == "" || b == "" {
      assert b != "" ==> a == "" ==> SmallerAt(a, b, 0);
    } else if a[0] == b[0] {
      LeqMeaning(a[1..], b[1..]);
      assert a == [a[0]] + a[1..] && b == [b[0]] + b[1..];
      hide SmallerAt;
      forall i: nat ensures SmallerAt(a[1..], b[1..], i) <==> SmallerAt(a, b, i + 1) {
        SmallerBehind(a, b, i);
      }
      if i: nat :| SmallerAt(a, b, i) {
        NotAtStart(a, b, i);
        assert SmallerAt(a[1..], b[1..], i - 1);
      }
    } else {
      hide SmallerAt;
      forall i: nat ensures SmallerAt(a, b, i) <==> i == 0 && a[0] < b[0] {
        SmallerAtStart(a, b, i);
      }
      assert a[0] < b[0] ==> SmallerAt(a, b, 0);
    }
  }

  lemma NotAtStart(a: string, b: string, i: nat)
    requires a != "" && b != "" && a[0] == b[0] && SmallerAt(a, b, i)
    ensures i > 0
  {
  }

  predicate IsLeast(m: string, s: set<string>) {
    m in s && forall x :: x in s ==> Leq(m, x)
  }

  lemma {:induction false} LeastExists(s: set<string>)
    requires s != {}
    ensures exists m :: IsLeast(m, s)
    decreases s
  {
    var x :| x in s;
    LeqTotal(x, x);
    if s == {x} {
      assert IsLeast(x, s);
    } else {
      LeastExists(s - {x});
      var m :| IsLeast(m, s - {x});
      LeqTotal(x, m);
      if Leq(m, x) {
        assert IsLeast(m, s);
      } else {
        forall y | y in s ensures Leq(x, y) {
          if y != x {
            LeqTransitive(x, m, y);
          }
        }
        assert IsLeast(x, s);
      }
    }
  }

  lemma LeastUnique(s: set<string>)
    ensures forall m, n :: IsLeast(m, s) && IsLeast(n, s) ==> m == n
  {
    forall m, n | IsLeast(m, s) && IsLeast(n, s) ensures m == n {
      LeqAntisymmetric(m, n);
    }
  }

  function Least(s: set<string>): (m: string)
    requires s != {}
    ensures IsLeast(m, s)
  {
    LeastExists(s);
    LeastUnique(s);
    var m :| IsLeast(m, s);
    m
  }

  predicate Distinct<T(==)>(s: seq<T>) {
    forall i, j :: 0 <= i < j < |s| ==> s[i] != s[j]
  }

  predicate Ascending(s: seq<string>) {
    forall i, j :: 0 <= i < j < |s| ==> s[i] != s[j] && Leq(s[i], s[j])
  }

  /** The keys of an ordered map, in iteration order. */
  function Sorted(s: set<string>): (r: seq<string>)
    ensures |r| == |s|
    ensures forall x :: x in r <==> x in s
    ensures Ascending(r) && Distinct(r)
  {
    if s == {} then []
    else
      var m := Least(s);
      var tail := Sorted(s - {m});
      ConsSorted(m, tail, s);
      [m] + tail
  }

  lemma ConsSorted(m: string, tail: seq<string>, s: set<string>)
    requires IsLeast(m, s) && Ascending(tail) && forall x :: x in tail <==> x in s && x != m
    ensures forall x :: x in [m] + tail <==> x in s
    ensures Ascending([m] + tail) && Distinct([m] + tail)
  {
    hide Leq;
    assert forall x :: x in [m] + tail <==> x == m || x in tail;
    assert forall i :: 0 <= i < |tail| ==> tail[i] in tail;
  }

  lemma {:induction false} SubsetCardinality<T>(a: set<T>, b: set<T>)
    requires a <= b
    ensures |a| <= |b|
    decreases a
  {
    if a != {} {
      var x :| x in a;
      SubsetCardinality(a - {x}, b - {x});
    }
  }
}
