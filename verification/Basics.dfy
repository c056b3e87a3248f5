/** Small shared vocabulary: optional values and bounds. */
module Basics {
  datatype Option<+T> = None | Some(value: T) {
    function GetOr(default: T): T {
      if Some? then value else default
    }

    /** SQL's COALESCE(new, old) and Rust's `Option::or`. */
    function Or(other: Option<T>): Option<T> {
      if Some? then this else other
    }
  }

  function Min(a: int, b: int): int { if a <= b then a else b }

  function Max(a: int, b: int): int { if a >= b then a else b }

  /** `usize::saturating_sub`. */
  function SaturatingSub(a: nat, b: nat): nat { if a >= b then a - b else 0 }

  /** The positions lo..hi, as a set. */
  function Range(lo: nat, hi: nat): (r: set<nat>)
    ensures forall i :: i in r <==> lo <= i < hi
  {
    if lo >= hi then {} else Range(lo, hi - 1) + {hi - 1}
  }

  /** Appends a value the list does not hold yet. */
  function PushUnique<T(==)>(items: seq<T>, value: T): seq<T> {
    if value in items then items else items + [value]
  }

  // Stepping a state through a list

  function Fold<S, X>(step: (S, X) -> S, s: S, xs: seq<X>): S
    decreases xs
  {
    if xs == [] then s else Fold(step, step(s, xs[0]), xs[1..])
  }

  /** Every element is all right in the state the elements before it lead to. */
  predicate Along<S, X>(step: (S, X) -> S, ok: (S, X) -> bool, s: S, xs: seq<X>)
    decreases xs
  {
    xs == [] || (ok(s, xs[0]) && Along(step, ok, step(s, xs[0]), xs[1..]))
  }

  lemma AlongOne<S, X>(step: (S, X) -> S, ok: (S, X) -> bool, s: S, x: X)
    ensures Fold(step, s, [x]) == step(s, x)
    ensures Along(step, ok, s, [x]) <==> ok(s, x)
  {
    assert [x][1..] == [];
  }

  lemma {:induction false} FoldConcat<S, X>(step: (S, X) -> S, s: S, a: seq<X>, b: seq<X>)
    ensures Fold(step, s, a + b) == Fold(step, Fold(step, s, a), b)
    decreases a
  {
    if a == [] {
      assert a + b == b;
    } else {
      assert (a + b)[1..] == a[1..] + b;
      FoldConcat(step, step(s, a[0]), a[1..], b);
    }
  }

  lemma {:induction false} AlongConcat<S, X>(step: (S, X) -> S, ok: (S, X) -> bool, s: S, a: seq<X>, b: seq<X>)
    ensures Along(step, ok, s, a + b) <==> Along(step, ok, s, a) && Along(step, ok, Fold(step, s, a), b)
    decreases a
  {
    if a == [] {
      assert a + b == b;
    } else {
      assert (a + b)[1..] == a[1..] + b;
      AlongConcat(step, ok, step(s, a[0]), a[1..], b);
    }
  }

  lemma {:induction false} AlongMeans<S, X>(step: (S, X) -> S, ok: (S, X) -> bool, s: S, xs: seq<X>, k: nat)
    requires Along(step, ok, s, xs) && k < |xs|
    ensures ok(Fold(step, s, xs[..k]), xs[k])
    decreases xs
  {
    if k > 0 {
      AlongMeans(step, ok, step(s, xs[0]), xs[1..], k - 1);
      assert xs[..k][1..] == xs[1..][..k - 1];
    }
  }
}
