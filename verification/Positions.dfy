/** The elements of a sequence that a test keeps, and the positions at which they stand. */
module Positions {
  predicate Rising(places: seq<nat>) {
    forall i, j :: 0 <= i < j < |places| ==> places[i] < places[j]
  }

  function Shifted(places: seq<nat>): (shifted: seq<nat>)
    ensures |shifted| == |places| && forall i :: 0 <= i < |places| ==> shifted[i] == places[i] + 1
  {
    seq(|places|, i requires 0 <= i < |places| => places[i] + 1)
  }

  lemma {:induction false} ShiftedHas(places: seq<nat>, k: nat)
    ensures k in Shifted(places) <==> k > 0 && k - 1 in places
  {
    if k > 0 && k - 1 in places {
      var i :| 0 <= i < |places| && places[i] == k - 1;
      assert Shifted(places)[i] == k;
    }
    if k in Shifted(places) {
      var i :| 0 <= i < |places| && Shifted(places)[i] == k;
      assert places[i] == k - 1;
    }
  }

  lemma {:induction false} ShiftedRises(places: seq<nat>)
    requires Rising(places)
    ensures Rising(Shifted(places)) && Rising([0] + Shifted(places))
  {
  }

  function Kept<T>(xs: seq<T>, keep: T -> bool): seq<T> {
    if xs == [] then [] else (if keep(xs[0]) then [xs[0]] else []) + Kept(xs[1..], keep)
  }

  /** All that the test keeps, each in its place, and nothing else. */
  ghost predicate Stand<T>(xs: seq<T>, keep: T -> bool, found: seq<T>, places: seq<nat>) {
    && |places| == |found| && Rising(places)
    && (forall i :: 0 <= i < |places| ==> places[i] < |xs| && found[i] == xs[places[i]] && keep(found[i]))
    && forall k :: 0 <= k < |xs| && keep(xs[k]) ==> k in places
  }

  lemma {:induction false} StandsNot<T>(x: T, xs: seq<T>, keep: T -> bool, found: seq<T>, places: seq<nat>)
    requires Stand(xs, keep, found, places) && !keep(x)
    ensures Stand([x] + xs, keep, found, Shifted(places))
  {
    ShiftedRises(places);
    forall k | 0 <= k < |[x] + xs| && keep(([x] + xs)[k])
      ensures k in Shifted(places)
    {
      ShiftedHas(places, k);
    }
  }

  lemma {:induction false} StandsFirst<T>(x: T, xs: seq<T>, keep: T -> bool, found: seq<T>, places: seq<nat>)
    requires Stand(xs, keep, found, places) && keep(x)
    ensures Stand([x] + xs, keep, [x] + found, [0] + Shifted(places))
  {
    ShiftedRises(places);
    var all, shifted := [x] + xs, [0] + Shifted(places);
    forall k | 0 <= k < |all| && keep(all[k])
      ensures k in shifted
    {
      ShiftedHas(places, k);
    }
    forall i | 0 <= i < |shifted|
      ensures shifted[i] < |all| && ([x] + found)[i] == all[shifted[i]] && keep(([x] + found)[i])
    {
      if i > 0 {
        assert shifted[i] == places[i - 1] + 1 && all[shifted[i]] == xs[places[i - 1]];
      }
    }
  }

  lemma {:induction false} KeptCons<T>(x: T, xs: seq<T>, keep: T -> bool)
    ensures Kept([x] + xs, keep) == (if keep(x) then [x] else []) + Kept(xs, keep)
  {
    assert ([x] + xs)[1..] == xs;
  }

  lemma {:induction false} KeptNext<T>(x: T, xs: seq<T>, keep: T -> bool, before: seq<nat>) returns (places: seq<nat>)
    requires Stand(xs, keep, Kept(xs, keep), before)
    ensures Stand([x] + xs, keep, Kept([x] + xs, keep), places)
  {
    KeptCons(x, xs, keep);
    if keep(x) {
      StandsFirst(x, xs, keep, Kept(xs, keep), before);
      places := [0] + Shifted(before);
    } else {
      assert [] + Kept(xs, keep) == Kept(xs, keep);
      StandsNot(x, xs, keep, Kept(xs, keep), before);
      places := Shifted(before);
    }
  }

  lemma {:induction false} KeptLaw<T>(xs: seq<T>, keep: T -> bool) returns (places: seq<nat>)
    ensures Stand(xs, keep, Kept(xs, keep), places)
  {
    places := [];
    if xs != [] {
      assert xs == [xs[0]] + xs[1..];
      var before := KeptLaw(xs[1..], keep);
      places := KeptNext(xs[0], xs[1..], keep, before);
    }
  }

  lemma {:induction false} Associates<T>(a: seq<T>, b: seq<T>, c: seq<T>)
    ensures a + (b + c) == (a + b) + c
  {
  }

  lemma {:induction false} KeptSnoc<T>(xs: seq<T>, x: T, keep: T -> bool)
    ensures Kept(xs + [x], keep) == Kept(xs, keep) + if keep(x) then [x] else []
  {
    var all := xs + [x];
    if xs == [] {
      assert all == [x] && all[1..] == [];
    } else {
      assert all[0] == xs[0] && all[1..] == xs[1..] + [x];
      KeptSnoc(xs[1..], x, keep);
      Associates(if keep(xs[0]) then [xs[0]] else [], Kept(xs[1..], keep), if keep(x) then [x] else []);
    }
  }
}
