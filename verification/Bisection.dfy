/** The partition point of a sequence, found by halving. */
module Bisection {
  /** The elements that a search passes over come first. */
  ghost predicate Partitioned<T>(s: seq<T>, passed: T -> bool) {
    forall i, j :: 0 <= i < j < |s| && passed(s[j]) ==> passed(s[i])
  }

  /** The number of leading elements that are passed over. */
  function Prefix<T>(s: seq<T>, passed: T -> bool): (count: nat)
    ensures count <= |s|
    ensures forall i :: 0 <= i < count ==> passed(s[i])
    ensures count < |s| ==> !passed(s[count])
  {
    if s == [] || !passed(s[0]) then 0 else 1 + Prefix(s[1..], passed)
  }

  lemma {:induction false} PrefixIs<T>(s: seq<T>, passed: T -> bool, point: nat)
    requires point <= |s| && forall i :: 0 <= i < |s| ==> (passed(s[i]) <==> i < point)
    ensures Prefix(s, passed) == point
  {
    if point > 0 {
      PrefixIs(s[1..], passed, point - 1);
    }
  }

  /** Halving reaches the end of the prefix on every partitioned sequence. */
  method PartitionPoint<T>(s: seq<T>, passed: T -> bool) returns (point: nat)
    requires Partitioned(s, passed)
    ensures point == Prefix(s, passed)
    ensures forall i :: 0 <= i < |s| ==> (passed(s[i]) <==> i < point)
  {
    var low, high := 0, |s|;
    while low < high
      invariant 0 <= low <= high <= |s|
      invariant forall i :: 0 <= i < low ==> passed(s[i])
      invariant forall i :: high <= i < |s| ==> !passed(s[i])
    {
      var middle := low + (high - low) / 2;
      if passed(s[middle]) {
        low := middle + 1;
      } else {
        high := middle;
      }
    }
    point := low;
    PrefixIs(s, passed, point);
  }
}
