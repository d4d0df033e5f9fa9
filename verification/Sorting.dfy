/** The stable sort of the standard library, by a strict order whose ties are an equivalence. */
module Sorting {
  /** What a comparison of keys is. */
  ghost predicate Weak<T(!new)>(less: (T, T) -> bool) {
    && (forall a, b :: less(a, b) ==> !less(b, a))
    && (forall a, b, c :: less(a, c) ==> less(a, b) || less(b, c))
  }

  /** Puts an element before the first one that is not ordered strictly before it. */
  function Place<T>(less: (T, T) -> bool, x: T, sorted: seq<T>): seq<T> {
    if sorted != [] && less(sorted[0], x) then [sorted[0]] + Place(less, x, sorted[1..]) else [x] + sorted
  }

  function Sort<T>(less: (T, T) -> bool, xs: seq<T>): seq<T> {
    if xs == [] then [] else Place(less, xs[0], Sort(less, xs[1..]))
  }

  ghost predicate Ordered<T(!new)>(less: (T, T) -> bool, xs: seq<T>) {
    forall i, j :: 0 <= i < j < |xs| ==> !less(xs[j], xs[i])
  }

  lemma {:induction false} PlaceKeeps<T(!new)>(less: (T, T) -> bool, x: T, sorted: seq<T>)
    requires Weak(less) && Ordered(less, sorted)
    ensures multiset(Place(less, x, sorted)) == multiset{x} + multiset(sorted)
    ensures Ordered(less, Place(less, x, sorted))
  {
    if sorted != [] && less(sorted[0], x) {
      var first, others := sorted[0], sorted[1..];
      PlaceKeeps(less, x, others);
      assert sorted == [first] + others;
      PlacedBehind(less, first, x, others, Place(less, x, others));
    }
  }

  lemma PlacedBehind<T(!new)>(less: (T, T) -> bool, first: T, x: T, others: seq<T>, rest: seq<T>)
    requires Weak(less) && less(first, x) && Ordered(less, [first] + others) && Ordered(less, rest)
    requires multiset(rest) == multiset{x} + multiset(others)
    ensures Ordered(less, [first] + rest)
  {
    forall y | y in rest
      ensures !less(y, first)
    {
      assert y in multiset(rest);
      if y in others {
        var i :| 0 <= i < |others| && others[i] == y;
        assert ([first] + others)[i + 1] == y && ([first] + others)[0] == first;
      }
    }
  }

  /** Sorting orders, and neither loses nor invents an element. */
  lemma {:induction false} SortKeeps<T(!new)>(less: (T, T) -> bool, xs: seq<T>)
    requires Weak(less)
    ensures multiset(Sort(less, xs)) == multiset(xs)
    ensures Ordered(less, Sort(less, xs))
  {
    if xs != [] {
      SortKeeps(less, xs[1..]);
      PlaceKeeps(less, xs[0], Sort(less, xs[1..]));
      assert xs == [xs[0]] + xs[1..];
    }
  }

  lemma SortMembers<T(!new)>(less: (T, T) -> bool, xs: seq<T>)
    requires Weak(less)
    ensures forall x :: x in Sort(less, xs) <==> x in xs
  {
    SortKeeps(less, xs);
    assert forall x :: x in Sort(less, xs) <==> x in multiset(Sort(less, xs));
    assert forall x :: x in xs <==> x in multiset(xs);
  }

  /** Sorting leaves a sequence alone that is in order already. */
  lemma {:induction false} SortOrdered<T(!new)>(less: (T, T) -> bool, xs: seq<T>)
    requires Ordered(less, xs)
    ensures Sort(less, xs) == xs
  {
    if xs != [] {
      SortOrdered(less, xs[1..]);
      if |xs| > 1 {
        assert !less(xs[1], xs[0]);
      }
    }
  }

  /** The elements that tie with a given one, in their order. */
  function Ties<T>(less: (T, T) -> bool, x: T, xs: seq<T>): seq<T> {
    if xs == [] then []
    else (if less(xs[0], x) || less(x, xs[0]) then [] else [xs[0]]) + Ties(less, x, xs[1..])
  }

  lemma {:induction false} PlaceIsStable<T(!new)>(less: (T, T) -> bool, x: T, sorted: seq<T>, tie: T)
    requires Weak(less)
    ensures Ties(less, tie, Place(less, x, sorted)) == Ties(less, tie, [x] + sorted)
  {
    assert ([x] + sorted)[1..] == sorted;
    if sorted != [] && less(sorted[0], x) {
      var first, rest := sorted[0], Place(less, x, sorted[1..]);
      PlaceIsStable(less, x, sorted[1..], tie);
      assert ([first] + rest)[1..] == rest && ([x] + sorted[1..])[1..] == sorted[1..];
    }
  }

  /** Elements that tie keep their order. */
  lemma {:induction false} SortIsStable<T(!new)>(less: (T, T) -> bool, xs: seq<T>, tie: T)
    requires Weak(less)
    ensures Ties(less, tie, Sort(less, xs)) == Ties(less, tie, xs)
  {
    if xs != [] {
      var rest := Sort(less, xs[1..]);
      SortIsStable(less, xs[1..], tie);
      PlaceIsStable(less, xs[0], rest, tie);
      assert ([xs[0]] + rest)[1..] == rest;
    }
  }
}
