/** Orders used by the queue's queries: the `ORDER BY` of the store, the
    `(priority, id)` order of a dequeue and the key order of `ksort`.
    A query that sorts a set of rows is modelled by `SortAscending`, which
    repeatedly takes the least remaining element. */
module Ordering {

  /** `less` is a strict total order on the elements of `s`. */
  ghost predicate StrictTotalOrderOn<T>(s: set<T>, less: (T, T) -> bool)
  {
    (forall a :: a in s ==> !less(a, a)) &&
    (forall a, b, c :: a in s && b in s && c in s && less(a, b) && less(b, c) ==> less(a, c)) &&
    (forall a, b :: a in s && b in s && a != b ==> less(a, b) || less(b, a))
  }

  /** `m` is the element of `s` that comes before every other one. */
  predicate IsLeast<T>(m: T, s: set<T>, less: (T, T) -> bool)
  {
    m in s && forall x :: x in s && x != m ==> less(m, x)
  }

  /** Every non-empty finite set has a least element under a strict total order. */
  lemma {:induction false} LeastExists<T>(s: set<T>, less: (T, T) -> bool)
    requires s != {} && StrictTotalOrderOn(s, less)
    ensures exists m :: IsLeast(m, s, less)
  {
    var x :| x in s;
    if s == {x} {
      assert IsLeast(x, s, less);
    } else {
      var rest := s - {x};
      LeastExists(rest, less);
      var m :| IsLeast(m, rest, less);
      if less(x, m) {
        assert IsLeast(x, s, less);
      } else {
        assert IsLeast(m, s, less);
      }
    }
  }

  /** There is only one least element, so "the first row" of an ordered query is well defined. */
  lemma LeastUnique<T>(m1: T, m2: T, s: set<T>, less: (T, T) -> bool)
    requires StrictTotalOrderOn(s, less)
    requires IsLeast(m1, s, less) && IsLeast(m2, s, less)
    ensures m1 == m2
  {
  }

  /** Some element of `s`: the next row of a query whose order is unspecified. */
  method Pick<T>(s: set<T>) returns (x: T)
    requires s != {}
    ensures x in s
  {
    x :| x in s;
  }

  /** Some element of `s`, for proofs: `Pick` as a lemma, because a lemma
      such as `SubsetCardinality` cannot call a method. */
  lemma Element<T>(s: set<T>) returns (x: T)
    requires s != {}
    ensures x in s
  {
    x :| x in s;
  }

  /** The least element of `s`: the first row of an ordered query. */
  method PickLeast<T>(s: set<T>, less: (T, T) -> bool) returns (m: T)
    requires s != {} && StrictTotalOrderOn(s, less)
    ensures IsLeast(m, s, less)
  {
    LeastExists(s, less);
    m :| IsLeast(m, s, less);
  }

  /** The elements of `s` in ascending order: a query's `ORDER BY`, or `ksort`. */
  method SortAscending<T(==)>(s: set<T>, less: (T, T) -> bool) returns (r: seq<T>)
    requires StrictTotalOrderOn(s, less)
    ensures |r| == |s|
    ensures forall x :: x in r <==> x in s
    ensures forall i, j :: 0 <= i < j < |r| ==> less(r[i], r[j])
  {
    r := [];
    var rest := s;
    while rest != {}
      invariant rest <= s
      invariant |r| + |rest| == |s|
      invariant forall x :: x in s <==> x in r || x in rest
      invariant forall i, j :: 0 <= i < j < |r| ==> less(r[i], r[j])
      invariant forall i, x :: 0 <= i < |r| && x in rest ==> less(r[i], x)
      decreases rest
    {
      var m := PickLeast(rest, less);
      r := r + [m];
      rest := rest - {m};
    }
  }

  /** Lexicographic order on strings, character by character; a proper
      prefix comes first. This is the order `ksort` gives queue names. */
  predicate StringLess(a: string, b: string)
  {
    if |a| == 0 then |b| != 0
    else |b| != 0 && (a[0] < b[0] || (a[0] == b[0] && StringLess(a[1..], b[1..])))
  }

  lemma {:induction false} StringLessIrreflexive(a: string)
    ensures !StringLess(a, a)
  {
    if |a| != 0 {
      StringLessIrreflexive(a[1..]);
    }
  }

  lemma {:induction false} StringLessTransitive(a: string, b: string, c: string)
    requires StringLess(a, b) && StringLess(b, c)
    ensures StringLess(a, c)
  {
    if |a| != 0 && a[0] == b[0] && b[0] == c[0] {
      StringLessTransitive(a[1..], b[1..], c[1..]);
    }
  }

  lemma {:induction false} StringLessTotal(a: string, b: string)
    requires a != b
    ensures StringLess(a, b) || StringLess(b, a)
  {
    if |a| != 0 && |b| != 0 && a[0] == b[0] {
      assert a == [a[0]] + a[1..] && b == [b[0]] + b[1..];
      StringLessTotal(a[1..], b[1..]);
    }
  }

  /** `StringLess` orders any set of queue names. */
  lemma StringLessOrders(s: set<string>)
    ensures StrictTotalOrderOn(s, StringLess)
  {
    forall a | a in s
      ensures !StringLess(a, a)
    {
      StringLessIrreflexive(a);
    }
    forall a, b, c | a in s && b in s && c in s && StringLess(a, b) && StringLess(b, c)
      ensures StringLess(a, c)
    {
      StringLessTransitive(a, b, c);
    }
    forall a, b | a in s && b in s && a != b
      ensures StringLess(a, b) || StringLess(b, a)
    {
      StringLessTotal(a, b);
    }
  }
}
