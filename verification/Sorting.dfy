/**
 Stable insertion sort standing for the library's `sort_by`, and the
 sort-and-truncate selection that several components build on it.
 */
module Sorting {
  ghost predicate TotalPreorder<T(!new)>(le: (T, T) -> bool) {
    && (forall x, y :: le(x, y) || le(y, x))
    && (forall x, y, z :: le(x, y) && le(y, z) ==> le(x, z))
  }

  ghost predicate SortedBy<T>(xs: seq<T>, le: (T, T) -> bool) {
    forall i, j :: 0 <= i < j < |xs| ==> le(xs[i], xs[j])
  }

  /** Puts x in front of the first element it may precede, so equal elements keep their order. */
  function Insert<T>(x: T, xs: seq<T>, le: (T, T) -> bool): seq<T> {
    if xs == [] || le(x, xs[0]) then [x] + xs else [xs[0]] + Insert(x, xs[1..], le)
  }

  function Sort<T>(xs: seq<T>, le: (T, T) -> bool): seq<T> {
    if xs == [] then [] else Insert(xs[0], Sort(xs[1..], le), le)
  }

  lemma {:induction false} InsertKeepsElements<T>(x: T, xs: seq<T>, le: (T, T) -> bool)
    ensures multiset(Insert(x, xs, le)) == multiset{x} + multiset(xs)
  {
    if xs != [] && !le(x, xs[0]) {
      InsertKeepsElements(x, xs[1..], le);
      assert xs == [xs[0]] + xs[1..];
    }
  }

  lemma {:induction false} InsertSorts<T(!new)>(x: T, xs: seq<T>, le: (T, T) -> bool)
    requires TotalPreorder(le) && SortedBy(xs, le)
    ensures SortedBy(Insert(x, xs, le), le)
  {
    if xs == [] {
    } else if le(x, xs[0]) {
      forall j | 0 <= j < |xs| ensures le(x, xs[j]) {}
    } else {
      var rest := Insert(x, xs[1..], le);
      InsertSorts(x, xs[1..], le);
      InsertKeepsElements(x, xs[1..], le);
      forall j | 0 <= j < |rest| ensures le(xs[0], rest[j]) {
        assert rest[j] in multiset(rest);
        assert rest[j] == x || rest[j] in xs[1..];
      }
    }
  }

  lemma {:induction false} SortKeepsElements<T>(xs: seq<T>, le: (T, T) -> bool)
    ensures multiset(Sort(xs, le)) == multiset(xs) && |Sort(xs, le)| == |xs|
  {
    if xs != [] {
      SortKeepsElements(xs[1..], le);
      InsertKeepsElements(xs[0], Sort(xs[1..], le), le);
      assert xs == [xs[0]] + xs[1..];
    }
    assert |multiset(Sort(xs, le))| == |multiset(xs)|;
  }

  lemma {:induction false} SortSorts<T(!new)>(xs: seq<T>, le: (T, T) -> bool)
    requires TotalPreorder(le)
    ensures SortedBy(Sort(xs, le), le)
  {
    if xs != [] {
      SortSorts(xs[1..], le);
      InsertSorts(xs[0], Sort(xs[1..], le), le);
    }
  }

  /** `sort_by` followed by `truncate(k)`. */
  function TopK<T>(xs: seq<T>, k: nat, le: (T, T) -> bool): seq<T> {
    var sorted := Sort(xs, le);
    if |sorted| <= k then sorted else sorted[..k]
  }

  /** What `truncate` threw away. */
  function Omitted<T>(xs: seq<T>, k: nat, le: (T, T) -> bool): seq<T> {
    var sorted := Sort(xs, le);
    if |sorted| <= k then [] else sorted[k..]
  }

  lemma TopKIsBest<T(!new)>(xs: seq<T>, k: nat, le: (T, T) -> bool)
    requires TotalPreorder(le)
    ensures SortedBy(TopK(xs, k, le), le)
    ensures |TopK(xs, k, le)| == if |xs| <= k then |xs| else k
    ensures multiset(TopK(xs, k, le)) + multiset(Omitted(xs, k, le)) == multiset(xs)
    ensures forall x, y :: x in TopK(xs, k, le) && y in Omitted(xs, k, le) ==> le(x, y)
  {
    SortSorts(xs, le);
    SortKeepsElements(xs, le);
    var sorted := Sort(xs, le);
    assert sorted == TopK(xs, k, le) + Omitted(xs, k, le);
  }

  lemma SortedMembership<T>(xs: seq<T>, le: (T, T) -> bool, x: T)
    ensures x in Sort(xs, le) <==> x in xs
  {
    SortKeepsElements(xs, le);
    assert x in Sort(xs, le) <==> x in multiset(Sort(xs, le));
    assert x in xs <==> x in multiset(xs);
  }

  ghost predicate Distinct<T>(xs: seq<T>) {
    forall i, j :: 0 <= i < j < |xs| ==> xs[i] != xs[j]
  }

  lemma {:induction false} InsertKeepsDistinct<T>(x: T, xs: seq<T>, le: (T, T) -> bool)
    requires Distinct(xs) && x !in xs
    ensures Distinct(Insert(x, xs, le))
  {
    if xs != [] && !le(x, xs[0]) {
      InsertKeepsDistinct(x, xs[1..], le);
      InsertKeepsElements(x, xs[1..], le);
      var rest := Insert(x, xs[1..], le);
      forall j | 0 <= j < |rest| ensures rest[j] != xs[0] {
        assert rest[j] in multiset(rest);
        assert rest[j] == x || rest[j] in xs[1..];
      }
    }
  }

  lemma {:induction false} SortKeepsDistinct<T>(xs: seq<T>, le: (T, T) -> bool)
    requires Distinct(xs)
    ensures Distinct(Sort(xs, le))
  {
    if xs != [] {
      SortKeepsDistinct(xs[1..], le);
      SortedMembership(xs[1..], le, xs[0]);
      InsertKeepsDistinct(xs[0], Sort(xs[1..], le), le);
    }
  }
}
