/** Stable insertion sort by an order, and what it guarantees. */
module Sorting {

  function Insert<T>(less: (T, T) -> bool, x: T, sorted: seq<T>): seq<T> {
    if sorted == [] || !less(sorted[0], x) then [x] + sorted
    else [sorted[0]] + Insert(less, x, sorted[1..])
  }

  function Sort<T>(less: (T, T) -> bool, xs: seq<T>): seq<T> {
    if xs == [] then [] else Insert(less, xs[0], Sort(less, xs[1..]))
  }

  /** Asymmetric, and being not-later is transitive. */
  ghost predicate WeakOrder<T(!new)>(less: (T, T) -> bool) {
    && (forall a, b :: less(a, b) ==> !less(b, a))
    && (forall a, b, c :: !less(b, a) && !less(c, b) ==> !less(c, a))
  }

  ghost predicate SortedBy<T>(less: (T, T) -> bool, xs: seq<T>) {
    forall i, j :: 0 <= i < j < |xs| ==> !less(xs[j], xs[i])
  }

  lemma {:induction false} InsertContents<T>(less: (T, T) -> bool, x: T, sorted: seq<T>)
    ensures multiset(Insert(less, x, sorted)) == multiset(sorted) + multiset{x}
    decreases |sorted|
  {
    if sorted != [] && less(sorted[0], x) {
      InsertContents(less, x, sorted[1..]);
      assert sorted == [sorted[0]] + sorted[1..];
    }
  }

  lemma InsertMember<T>(less: (T, T) -> bool, x: T, sorted: seq<T>, y: T)
    requires y in Insert(less, x, sorted)
    ensures y == x || y in sorted
  {
    InsertContents(less, x, sorted);
    assert y in multiset(Insert(less, x, sorted));
  }

  lemma {:induction false} InsertSorts<T(!new)>(less: (T, T) -> bool, x: T, sorted: seq<T>)
    requires WeakOrder(less) && SortedBy(less, sorted)
    ensures SortedBy(less, Insert(less, x, sorted))
    decreases |sorted|
  {
    if sorted != [] && less(sorted[0], x) {
      InsertSorts(less, x, sorted[1..]);
      var rest := Insert(less, x, sorted[1..]);
      forall j | 0 <= j < |rest| ensures !less(rest[j], sorted[0]) {
        InsertMember(less, x, sorted[1..], rest[j]);
      }
    } else {
      forall j | 0 <= j < |sorted| ensures !less(sorted[j], x) {
        assert j > 0 ==> !less(sorted[0], x) && !less(sorted[j], sorted[0]);
      }
    }
  }

  lemma {:induction false} SortSorts<T(!new)>(less: (T, T) -> bool, xs: seq<T>)
    requires WeakOrder(less)
    ensures SortedBy(less, Sort(less, xs)) && multiset(Sort(less, xs)) == multiset(xs)
    ensures |Sort(less, xs)| == |xs|
    ensures forall x :: x in Sort(less, xs) <==> x in xs
    decreases |xs|
  {
    if xs == [] {
    } else {
      SortSorts(less, xs[1..]);
      InsertSorts(less, xs[0], Sort(less, xs[1..]));
      InsertContents(less, xs[0], Sort(less, xs[1..]));
      assert xs == [xs[0]] + xs[1..];
    }
    SameContents(Sort(less, xs), xs);
  }

  /** The elements the order does not separate from a given one, as they follow each other in a list. */
  function Peers<T>(less: (T, T) -> bool, x: T, xs: seq<T>): seq<T> {
    if xs == [] then []
    else (if less(xs[0], x) || less(x, xs[0]) then [] else [xs[0]]) + Peers(less, x, xs[1..])
  }

  /** Sorting is stable: elements the order does not separate stay in the order of the list. */
  lemma {:induction false} SortStable<T(!new)>(less: (T, T) -> bool, xs: seq<T>, x: T)
    requires WeakOrder(less)
    ensures Peers(less, x, Sort(less, xs)) == Peers(less, x, xs)
    decreases |xs|
  {
    if xs != [] {
      SortStable(less, xs[1..], x);
      InsertStable(less, xs[0], Sort(less, xs[1..]), x);
    }
  }

  lemma {:induction false} InsertStable<T(!new)>(less: (T, T) -> bool, y: T, sorted: seq<T>, x: T)
    requires WeakOrder(less)
    ensures Peers(less, x, Insert(less, y, sorted)) ==
            (if less(y, x) || less(x, y) then [] else [y]) + Peers(less, x, sorted)
    decreases |sorted|
  {
    if sorted != [] && less(sorted[0], y) {
      InsertStable(less, y, sorted[1..], x);
      var rest := Insert(less, y, sorted[1..]);
      assert ([sorted[0]] + rest)[1..] == rest;
    } else {
      assert ([y] + sorted)[1..] == sorted;
    }
  }

  lemma SameContents<T>(a: seq<T>, b: seq<T>)
    requires multiset(a) == multiset(b)
    ensures |a| == |b| && forall x :: x in a <==> x in b
  {
    assert |multiset(a)| == |a| && |multiset(b)| == |b|;
    forall x ensures x in a <==> x in b {
      assert x in a <==> x in multiset(a);
      assert x in b <==> x in multiset(b);
    }
  }

  lemma TailContents<T>(a: seq<T>)
    requires a != []
    ensures multiset(a) == multiset(a[1..]) + multiset{a[0]}
  {
    assert a == [a[0]] + a[1..];
  }

  ghost predicate Separates<T>(less: (T, T) -> bool, xs: seq<T>) {
    forall x, y :: x in xs && y in xs && x != y ==> less(x, y) || less(y, x)
  }

  /** Where the order separates the elements, the sorted list is determined by its contents. */
  lemma SameTails<T>(a: seq<T>, b: seq<T>)
    requires a != [] && b != [] && a[0] == b[0] && multiset(a) == multiset(b)
    ensures multiset(a[1..]) == multiset(b[1..])
  {
    TailContents(a);
    TailContents(b);
    assert multiset(a[1..]) == multiset(a) - multiset{a[0]} == multiset(b[1..]);
  }

  lemma {:induction false} SortedListUnique<T>(less: (T, T) -> bool, a: seq<T>, b: seq<T>)
    requires SortedBy(less, a) && SortedBy(less, b) && multiset(a) == multiset(b) && Separates(less, a)
    ensures a == b
    decreases |a|
  {
    hide SortedBy, Separates;
    SameContents(a, b);
    if a == [] {
    } else {
      SameFirst(less, a, b);
      SameTails(a, b);
      TailSorted(less, a);
      TailSorted(less, b);
      TailSeparates(less, a);
      SortedListUnique(less, a[1..], b[1..]);
      assert a == [a[0]] + a[1..] && b == [b[0]] + b[1..];
    }
  }

  lemma TailSorted<T>(less: (T, T) -> bool, a: seq<T>)
    requires a != [] && SortedBy(less, a)
    ensures SortedBy(less, a[1..])
  {
  }

  lemma TailSeparates<T>(less: (T, T) -> bool, a: seq<T>)
    requires a != [] && Separates(less, a)
    ensures Separates(less, a[1..])
  {
  }

  lemma SameFirst<T>(less: (T, T) -> bool, a: seq<T>, b: seq<T>)
    requires a != [] && b != [] && multiset(a) == multiset(b)
    requires SortedBy(less, a) && SortedBy(less, b) && Separates(less, a)
    ensures a[0] == b[0]
  {
    SameContents(a, b);
    assert a[0] in a && b[0] in b;
    assert a[0] in b && b[0] in a;
    var i :| 0 <= i < |b| && b[i] == a[0];
    var j :| 0 <= j < |a| && a[j] == b[0];
  }
}
