/** JavaScript's stable `sort`, by a comparator that is a total order on the elements at hand. */
module Sorting {
  /** `le` is reflexive, transitive and total on the elements of `xs`. */
  ghost predicate TotalOn<T>(le: (T, T) -> bool, xs: seq<T>) {
    && (forall a, b :: a in xs && b in xs ==> le(a, b) || le(b, a))
    && (forall a, b, c :: a in xs && b in xs && c in xs && le(a, b) && le(b, c) ==> le(a, c))
  }

  /** Elements that compare equal are equal. */
  ghost predicate AntisymmetricOn<T>(le: (T, T) -> bool, xs: seq<T>) {
    forall a, b :: a in xs && b in xs && le(a, b) && le(b, a) ==> a == b
  }

  ghost predicate Sorted<T>(le: (T, T) -> bool, xs: seq<T>) {
    forall i, j :: 0 <= i < j < |xs| ==> le(xs[i], xs[j])
  }

  /** Inserts `x` after the elements that may stand before it. */
  function Insert<T>(le: (T, T) -> bool, xs: seq<T>, x: T): seq<T> {
    if xs == [] || le(xs[|xs| - 1], x) then xs + [x]
    else Insert(le, xs[..|xs| - 1], x) + [xs[|xs| - 1]]
  }

  function Sort<T>(le: (T, T) -> bool, xs: seq<T>): seq<T> {
    if xs == [] then [] else Insert(le, Sort(le, xs[..|xs| - 1]), xs[|xs| - 1])
  }

  lemma {:induction false} InsertPermutes<T>(le: (T, T) -> bool, xs: seq<T>, x: T)
    ensures multiset(Insert(le, xs, x)) == multiset(xs) + multiset{x}
  {
    if xs == [] || le(xs[|xs| - 1], x) {
    } else {
      InsertPermutes(le, xs[..|xs| - 1], x);
      assert xs == xs[..|xs| - 1] + [xs[|xs| - 1]];
    }
  }

  lemma {:induction false} InsertSorts<T>(le: (T, T) -> bool, xs: seq<T>, x: T)
    requires Sorted(le, xs) && TotalOn(le, xs + [x])
    ensures Sorted(le, Insert(le, xs, x))
  {
    if xs == [] {
    } else if le(xs[|xs| - 1], x) {
      forall i | 0 <= i < |xs| ensures le(xs[i], x) {
        assert xs[i] in xs + [x] && xs[|xs| - 1] in xs + [x] && x in xs + [x];
      }
    } else {
      var init, last := xs[..|xs| - 1], xs[|xs| - 1];
      assert forall y :: y in init + [x] ==> y in xs + [x];
      InsertSorts(le, init, x);
      InsertPermutes(le, init, x);
      forall y | y in Insert(le, init, x) ensures le(y, last) {
        assert y in multiset(Insert(le, init, x));
        assert y in init || y == x;
        assert last in xs + [x] && x in xs + [x];
      }
    }
  }

  lemma {:induction false} SortPermutes<T>(le: (T, T) -> bool, xs: seq<T>)
    ensures multiset(Sort(le, xs)) == multiset(xs)
  {
    if xs != [] {
      SortPermutes(le, xs[..|xs| - 1]);
      InsertPermutes(le, Sort(le, xs[..|xs| - 1]), xs[|xs| - 1]);
      assert xs == xs[..|xs| - 1] + [xs[|xs| - 1]];
    }
  }

  lemma {:induction false} SortSorts<T>(le: (T, T) -> bool, xs: seq<T>)
    requires TotalOn(le, xs)
    ensures Sorted(le, Sort(le, xs))
  {
    if xs != [] {
      var init, last := xs[..|xs| - 1], xs[|xs| - 1];
      SortSorts(le, init);
      SortPermutes(le, init);
      forall y | y in Sort(le, init) + [last] ensures y in xs {
        assert y == last || y in multiset(Sort(le, init));
      }
      InsertSorts(le, Sort(le, init), last);
    }
  }

  /** The elements that may stand on either side of `e`, in order. */
  function Tied<T>(le: (T, T) -> bool, xs: seq<T>, e: T): seq<T> {
    if xs == [] then []
    else
      var last := xs[|xs| - 1];
      Tied(le, xs[..|xs| - 1], e) + if le(last, e) && le(e, last) then [last] else []
  }

  lemma {:induction false} InsertStable<T>(le: (T, T) -> bool, xs: seq<T>, x: T, e: T)
    requires TotalOn(le, xs + [x, e])
    ensures Tied(le, Insert(le, xs, x), e) == Tied(le, xs + [x], e)
  {
    assert (xs + [x])[..|xs|] == xs;
    if xs != [] && !le(xs[|xs| - 1], x) {
      var init, last := xs[..|xs| - 1], xs[|xs| - 1];
      forall y | y in init + [x, e] ensures y in xs + [x, e] {
      }
      assert last in xs + [x, e] && x in xs + [x, e] && e in xs + [x, e];
      InsertStable(le, init, x, e);
      assert (init + [x])[..|init|] == init;
      assert (Insert(le, init, x) + [last])[..|Insert(le, init, x)|] == Insert(le, init, x);
    }
  }

  /** The sort is stable: elements that compare equal keep their order. */
  lemma {:induction false} SortStable<T>(le: (T, T) -> bool, xs: seq<T>, e: T)
    requires TotalOn(le, xs + [e])
    ensures Tied(le, Sort(le, xs), e) == Tied(le, xs, e)
  {
    if xs != [] {
      var init, last := xs[..|xs| - 1], xs[|xs| - 1];
      SortStable(le, init, e);
      SortPermutes(le, init);
      forall y | y in Sort(le, init) + [last, e] ensures y in xs + [e] {
        assert y == last || y == e || y in multiset(Sort(le, init));
      }
      InsertStable(le, Sort(le, init), last, e);
      assert (Sort(le, init) + [last])[..|Sort(le, init)|] == Sort(le, init);
    }
  }

  /** Both arrangements end with the greatest element. */
  lemma {:induction false} LastEqual<T>(le: (T, T) -> bool, a: seq<T>, b: seq<T>)
    requires multiset(a) == multiset(b) && Sorted(le, a) && Sorted(le, b)
    requires AntisymmetricOn(le, a) && a != []
    ensures b != [] && a[|a| - 1] == b[|b| - 1]
  {
    SameSize(a, b);
    var n := |a| - 1;
    assert a[n] in multiset(b) && b[n] in multiset(a);
    var i :| 0 <= i < |b| && b[i] == a[n];
    var j :| 0 <= j < |a| && a[j] == b[n];
    assert i < n ==> le(a[n], b[n]);
    assert j < n ==> le(b[n], a[n]);
  }

  lemma {:induction false} InitMultiset<T>(a: seq<T>)
    requires a != []
    ensures multiset(a[..|a| - 1]) == multiset(a) - multiset{a[|a| - 1]}
  {
    assert a == a[..|a| - 1] + [a[|a| - 1]];
  }

  lemma {:induction false} InitsAgree<T>(le: (T, T) -> bool, a: seq<T>, b: seq<T>)
    requires multiset(a) == multiset(b) && Sorted(le, a) && Sorted(le, b)
    requires AntisymmetricOn(le, a) && a != []
    ensures |a| == |b| && a[|a| - 1] == b[|a| - 1]
    ensures multiset(a[..|a| - 1]) == multiset(b[..|a| - 1])
  {
    SameSize(a, b);
    LastEqual(le, a, b);
    InitMultiset(a);
    InitMultiset(b);
  }

  /** The sorted arrangement of distinct keys is unique. */
  lemma {:induction false} SortedUnique<T>(le: (T, T) -> bool, a: seq<T>, b: seq<T>)
    requires multiset(a) == multiset(b) && Sorted(le, a) && Sorted(le, b)
    requires AntisymmetricOn(le, a)
    ensures a == b
  {
    if a == [] {
      SameSize(a, b);
    } else {
      InitsAgree(le, a, b);
      SortedUnique(le, a[..|a| - 1], b[..|a| - 1]);
    }
  }

  lemma {:induction false} SameSize<T>(a: seq<T>, b: seq<T>)
    requires multiset(a) == multiset(b)
    ensures |a| == |b|
  {
    assert |multiset(a)| == |a|;
    assert |multiset(b)| == |b|;
  }

  /** Sorting does not depend on the order of the input when no two elements compare equal. */
  lemma {:induction false} SortCanonical<T>(le: (T, T) -> bool, a: seq<T>, b: seq<T>)
    requires multiset(a) == multiset(b) && TotalOn(le, a) && AntisymmetricOn(le, a)
    ensures Sort(le, a) == Sort(le, b)
  {
    forall x | x in b ensures x in a {
      assert x in multiset(b);
    }
    SortPermutes(le, a);
    SortPermutes(le, b);
    SortSorts(le, a);
    SortSorts(le, b);
    forall x | x in Sort(le, a) ensures x in a {
      assert x in multiset(Sort(le, a));
    }
    SortedUnique(le, Sort(le, a), Sort(le, b));
  }
}
