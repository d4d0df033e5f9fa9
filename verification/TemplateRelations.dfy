/** Inversion of string templates: all ways to bind the parameters of a fragment list so that it spells
    a given value up to ASCII case. */
module TemplateRelations {
  import opened Utf8

  datatype Fragment = Literal(text: Text) | Parameter(name: Text)

  type Witness = map<Text, Text>

  function NameOf(fragment: Fragment): Text
    requires fragment.Parameter?
  {
    Lower(fragment.name)
  }

  function Names(fragments: seq<Fragment>): (names: set<Text>)
    ensures forall i :: 0 <= i < |fragments| && fragments[i].Parameter? ==> NameOf(fragments[i]) in names
  {
    set i | 0 <= i < |fragments| && fragments[i].Parameter? :: NameOf(fragments[i])
  }

  function Piece(fragment: Fragment, w: Witness): Text
    requires fragment.Parameter? ==> NameOf(fragment) in w
  {
    if fragment.Literal? then fragment.text else w[NameOf(fragment)]
  }

  predicate Binds(w: Witness, fragments: seq<Fragment>) {
    Names(fragments) <= w.Keys
  }

  lemma NamesCons(fragment: Fragment, rest: seq<Fragment>)
    ensures Names([fragment] + rest) == (if fragment.Parameter? then {NameOf(fragment)} else {}) + Names(rest)
  {
    var fragments := [fragment] + rest;
    assert fragments[0] == fragment;
    forall n | n in Names(rest)
      ensures n in Names(fragments)
    {
      var i :| 0 <= i < |rest| && rest[i].Parameter? && NameOf(rest[i]) == n;
      assert fragments[i + 1] == rest[i];
    }
    forall n | n in Names(fragments)
      ensures n in Names(rest) || (fragment.Parameter? && n == NameOf(fragment))
    {
      var i :| 0 <= i < |fragments| && fragments[i].Parameter? && NameOf(fragments[i]) == n;
      assert i > 0 ==> fragments[i] == rest[i - 1];
    }
  }

  lemma NamesSnoc(fragments: seq<Fragment>, fragment: Fragment)
    ensures Names(fragments + [fragment]) == Names(fragments) + if fragment.Parameter? then {NameOf(fragment)} else {}
  {
    var all := fragments + [fragment];
    assert all[|fragments|] == fragment;
    forall n | n in Names(fragments)
      ensures n in Names(all)
    {
      var i :| 0 <= i < |fragments| && fragments[i].Parameter? && NameOf(fragments[i]) == n;
      assert all[i] == fragments[i];
    }
    forall n | n in Names(all)
      ensures n in Names(fragments) || (fragment.Parameter? && n == NameOf(fragment))
    {
      var i :| 0 <= i < |all| && all[i].Parameter? && NameOf(all[i]) == n;
      assert i < |fragments| ==> all[i] == fragments[i];
    }
  }

  /** The string that a witness spells. */
  function Fill(fragments: seq<Fragment>, w: Witness): Text
    requires Binds(w, fragments)
  {
    if fragments == [] then []
    else
      assert fragments == [fragments[0]] + fragments[1..];
      NamesCons(fragments[0], fragments[1..]);
      Piece(fragments[0], w) + Fill(fragments[1..], w)
  }

  lemma {:induction false} FillSnoc(fragments: seq<Fragment>, fragment: Fragment, w: Witness)
    requires Binds(w, fragments + [fragment])
    ensures Binds(w, fragments) && (fragment.Parameter? ==> NameOf(fragment) in w)
    ensures Fill(fragments + [fragment], w) == Fill(fragments, w) + Piece(fragment, w)
    decreases fragments
  {
    NamesSnoc(fragments, fragment);
    var all := fragments + [fragment];
    if fragments == [] {
      assert all[1..] == [];
    } else {
      assert all[0] == fragments[0] && all[1..] == fragments[1..] + [fragment];
      FillHead(all, w);
      FillHead(fragments, w);
      FillSnoc(fragments[1..], fragment, w);
      Associates(Piece(fragments[0], w), Fill(fragments[1..], w), Piece(fragment, w));
    }
  }

  lemma Associates(a: Text, b: Text, c: Text)
    ensures (a + b) + c == a + (b + c)
  {
  }

  predicate FirstUse(fragments: seq<Fragment>, i: nat) {
    i < |fragments| && fragments[i].Parameter? && NameOf(fragments[i]) !in Names(fragments[..i])
  }

  /** A witness whose strings are the slices of `value` at the first use of each name, and that spells
      the value up to ASCII case. */
  ghost predicate Exact(fragments: seq<Fragment>, value: Text, w: Witness) {
    && w.Keys == Names(fragments)
    && SameText(Fill(fragments, w), value)
    && Sliced(fragments, value, w, 0)
  }

  /** From index `from` on, every name is bound at its first use to the slice that stands there. */
  ghost predicate Sliced(fragments: seq<Fragment>, value: Text, w: Witness, from: nat) {
    forall i: nat :: from <= i < |fragments| && FirstUse(fragments, i) ==> SlicedAt(fragments, value, w, i)
  }

  ghost predicate SlicedAt(fragments: seq<Fragment>, value: Text, w: Witness, i: nat)
    requires i < |fragments| && fragments[i].Parameter?
  {
    && Binds(w, fragments[..i]) && NameOf(fragments[i]) in w
    && var start := |Fill(fragments[..i], w)|;
       var text := w[NameOf(fragments[i])];
       start + |text| <= |value| && value[start..start + |text|] == text
  }

  // ----- The search tree -----

  /** A branch of the search that still has `rest` to match against `tail` ends in `w`. */
  ghost predicate Reaches(rest: seq<Fragment>, tail: Text, bindings: Witness, w: Witness)
    decreases |rest|, 1
  {
    if rest == [] then tail == [] && w == bindings
    else if rest[0].Parameter? && NameOf(rest[0]) !in bindings then
      exists end: nat :: ReachesAt(rest, tail, bindings, end, w)
    else
      var expected := Piece(rest[0], bindings);
      && |expected| <= |tail| && Boundary(tail, |expected|) && SameText(tail[..|expected|], expected)
      && Reaches(rest[1..], tail[|expected|..], bindings, w)
  }

  /** Binding the head parameter to the first `end` bytes leads to `w`. */
  ghost predicate ReachesAt(rest: seq<Fragment>, tail: Text, bindings: Witness, end: nat, w: Witness)
    requires rest != [] && rest[0].Parameter?
    decreases |rest|, 0
  {
    && end <= |tail| && Boundary(tail, end)
    && Reaches(rest[1..], tail[end..], bindings[NameOf(rest[0]) := tail[..end]], w)
  }

  /** `w` keeps the bindings it started from and binds the names of `rest` besides. */
  predicate Extends(rest: seq<Fragment>, bindings: Witness, w: Witness) {
    && w.Keys == bindings.Keys + Names(rest)
    && forall n :: n in bindings ==> n in w && w[n] == bindings[n]
  }

  lemma FindEnd(rest: seq<Fragment>, tail: Text, bindings: Witness, w: Witness) returns (end: nat)
    requires rest != [] && rest[0].Parameter? && NameOf(rest[0]) !in bindings && Reaches(rest, tail, bindings, w)
    ensures ReachesAt(rest, tail, bindings, end, w)
  {
    end :| ReachesAt(rest, tail, bindings, end, w);
  }

  lemma ExtendsCons(rest: seq<Fragment>, bindings: Witness, bindings': Witness, w: Witness)
    requires rest != [] && Extends(rest[1..], bindings', w)
    requires bindings'.Keys == bindings.Keys + (if rest[0].Parameter? then {NameOf(rest[0])} else {})
    requires forall n :: n in bindings ==> n in bindings' && bindings'[n] == bindings[n]
    ensures Extends(rest, bindings, w)
  {
    assert rest == [rest[0]] + rest[1..];
    NamesCons(rest[0], rest[1..]);
  }

  lemma {:induction false} ReachesExtends(rest: seq<Fragment>, tail: Text, bindings: Witness, w: Witness)
    requires Reaches(rest, tail, bindings, w)
    ensures Extends(rest, bindings, w)
    decreases |rest|
  {
    if rest != [] {
      if rest[0].Parameter? && NameOf(rest[0]) !in bindings {
        var end := FindEnd(rest, tail, bindings, w);
        ReachesExtends(rest[1..], tail[end..], bindings[NameOf(rest[0]) := tail[..end]], w);
        ExtendsCons(rest, bindings, bindings[NameOf(rest[0]) := tail[..end]], w);
      } else {
        ReachesExtends(rest[1..], tail[|Piece(rest[0], bindings)|..], bindings, w);
        ExtendsCons(rest, bindings, bindings, w);
      }
    }
  }

  /** The later part of `Exact`, after `done` has been matched. */
  ghost predicate ExactFrom(done: seq<Fragment>, rest: seq<Fragment>, value: Text, start: nat, w: Witness) {
    && w.Keys == Names(done + rest) && Binds(w, rest)
    && start <= |value| && SameText(Fill(rest, w), value[start..])
    && Sliced(done + rest, value, w, |done|)
  }

  /** The state of a match between `done` and the rest, along the pieces of `w`. */
  ghost predicate MatchState(done: seq<Fragment>, value: Text, start: nat, bindings: Witness, w: Witness) {
    && bindings.Keys == Names(done) && Binds(w, done)
    && start == |Fill(done, w)| <= |value| && Boundary(value, start)
    && forall n :: n in bindings ==> w[n] == bindings[n]
  }

  lemma TailBoundary(value: Text, start: nat, step: nat)
    requires start <= |value| && Boundary(value, start) && start + step <= |value|
    ensures Boundary(value[start..], step) <==> Boundary(value, start + step)
    ensures value[start..][step..] == value[start + step..]
  {
  }

  /** Extending the match by one fragment whose piece is `w`'s. */
  lemma MatchNext(done: seq<Fragment>, fragment: Fragment, value: Text, start: nat, bindings: Witness, bindings': Witness,
                  w: Witness)
    requires MatchState(done, value, start, bindings, w)
    requires fragment.Parameter? ==> NameOf(fragment) in w
    requires bindings' == if fragment.Parameter? then bindings[NameOf(fragment) := w[NameOf(fragment)]] else bindings
    requires start + |Piece(fragment, w)| <= |value| && Boundary(value, start + |Piece(fragment, w)|)
    ensures MatchState(done + [fragment], value, start + |Piece(fragment, w)|, bindings', w)
  {
    BoundNames(done, fragment, bindings, bindings', w);
    FillSnoc(done, fragment, w);
  }

  lemma BoundNames(done: seq<Fragment>, fragment: Fragment, bindings: Witness, bindings': Witness, w: Witness)
    requires bindings.Keys == Names(done) && Binds(w, done) && (fragment.Parameter? ==> NameOf(fragment) in w)
    requires bindings' == if fragment.Parameter? then bindings[NameOf(fragment) := w[NameOf(fragment)]] else bindings
    ensures bindings'.Keys == Names(done + [fragment]) && Binds(w, done + [fragment])
  {
    NamesSnoc(done, fragment);
    if fragment.Parameter? {
      assert bindings'.Keys == bindings.Keys + {NameOf(fragment)};
    }
  }

  lemma FillHead(rest: seq<Fragment>, w: Witness)
    requires rest != [] && Binds(w, rest)
    ensures Binds(w, rest[1..]) && (rest[0].Parameter? ==> NameOf(rest[0]) in w)
    ensures Fill(rest, w) == Piece(rest[0], w) + Fill(rest[1..], w)
  {
    assert rest == [rest[0]] + rest[1..];
    NamesCons(rest[0], rest[1..]);
  }

  /** Matching one piece at the head of a tail, byte for byte up to case. */
  lemma HeadMatches(piece: Text, more: Text, tail: Text)
    ensures SameText(piece + more, tail) <==>
            |piece| <= |tail| && Boundary(tail, |piece|) && SameText(tail[..|piece|], piece) && SameText(more, tail[|piece|..])
  {
    if |piece| <= |tail| {
      assert tail == tail[..|piece|] + tail[|piece|..];
      SameTextConcat(piece, more, tail[..|piece|], tail[|piece|..]);
      SameTextIsEquivalence(piece, tail[..|piece|], piece);
      SameTextIsEquivalence(tail[..|piece|], piece, tail[..|piece|]);
      if SameText(more, tail[|piece|..]) && |piece| < |tail| {
        assert LowerByte(more[0]) == LowerByte(tail[|piece|..][0]);
      }
    }
  }

  /** At the head of the rest, being a first use means being unbound, and the slice starts here. */
  lemma SliceHead(done: seq<Fragment>, rest: seq<Fragment>, value: Text, start: nat, bindings: Witness, w: Witness)
    requires MatchState(done, value, start, bindings, w) && rest != [] && rest[0].Parameter? && NameOf(rest[0]) in w
    ensures FirstUse(done + rest, |done|) <==> NameOf(rest[0]) !in bindings
    ensures SlicedAt(done + rest, value, w, |done|) <==>
            var text := w[NameOf(rest[0])]; start + |text| <= |value| && value[start..][..|text|] == text
  {
    assert (done + rest)[..|done|] == done && (done + rest)[|done|] == rest[0];
    var text := w[NameOf(rest[0])];
    if start + |text| <= |value| {
      assert value[start..][..|text|] == value[start..start + |text|];
    }
  }

  /** How the bindings grow over one fragment. */
  function Bound(bindings: Witness, fragment: Fragment, w: Witness): Witness
    requires fragment.Parameter? ==> NameOf(fragment) in w
  {
    if fragment.Parameter? then bindings[NameOf(fragment) := w[NameOf(fragment)]] else bindings
  }

  /** The tail starts with the fragment's piece: exactly at a first use, up to case elsewhere. */
  predicate HeadFits(fragment: Fragment, piece: Text, tail: Text, bindings: Witness) {
    && |piece| <= |tail| && Boundary(tail, |piece|) && SameText(tail[..|piece|], piece)
    && (fragment.Parameter? && NameOf(fragment) !in bindings ==> tail[..|piece|] == piece)
  }

  /** The one branch of the search that can end in `w`, cutting the tail by `w`'s own strings. */
  ghost predicate Along(rest: seq<Fragment>, tail: Text, bindings: Witness, w: Witness)
    decreases |rest|
  {
    if rest == [] then tail == [] && w == bindings
    else
      && (rest[0].Parameter? ==> NameOf(rest[0]) in w)
      && HeadFits(rest[0], Piece(rest[0], w), tail, bindings)
      && Along(rest[1..], tail[|Piece(rest[0], w)|..], Bound(bindings, rest[0], w), w)
  }

  /** One unbound parameter: the branch that ends in `w` cuts the tail at `w`'s own length. */
  lemma ReachesUnbound(rest: seq<Fragment>, tail: Text, bindings: Witness, w: Witness)
    requires rest != [] && rest[0].Parameter? && NameOf(rest[0]) !in bindings && NameOf(rest[0]) in w
    ensures var piece := w[NameOf(rest[0])];
            Reaches(rest, tail, bindings, w) <==>
            && |piece| <= |tail| && Boundary(tail, |piece|) && tail[..|piece|] == piece
            && Reaches(rest[1..], tail[|piece|..], bindings[NameOf(rest[0]) := piece], w)
  {
    var n := NameOf(rest[0]);
    var piece := w[n];
    if Reaches(rest, tail, bindings, w) {
      var end := FindEnd(rest, tail, bindings, w);
      ReachesExtends(rest[1..], tail[end..], bindings[n := tail[..end]], w);
      assert piece == bindings[n := tail[..end]][n] == tail[..end];
    }
    if |piece| <= |tail| && Boundary(tail, |piece|) && tail[..|piece|] == piece
       && Reaches(rest[1..], tail[|piece|..], bindings[n := piece], w) {
      assert ReachesAt(rest, tail, bindings, |piece|, w);
    }
  }

  lemma {:induction false} ReachesAlong(rest: seq<Fragment>, tail: Text, bindings: Witness, w: Witness)
    requires forall n :: n in bindings ==> n in w && w[n] == bindings[n]
    ensures Reaches(rest, tail, bindings, w) <==> Along(rest, tail, bindings, w)
    decreases |rest|
  {
    if Reaches(rest, tail, bindings, w) {
      ReachesExtends(rest, tail, bindings, w);
    }
    if rest != [] && (rest[0].Parameter? ==> NameOf(rest[0]) in w) {
      var piece := Piece(rest[0], w);
      if HeadFits(rest[0], piece, tail, bindings) {
        ReachesAlong(rest[1..], tail[|piece|..], Bound(bindings, rest[0], w), w);
      }
      if rest[0].Parameter? && NameOf(rest[0]) !in bindings {
        ReachesUnbound(rest, tail, bindings, w);
      } else {
        assert Bound(bindings, rest[0], w) == bindings;
      }
    }
  }

  /** An exact rest fits its head and stays exact behind it. */
  lemma ExactForward(done: seq<Fragment>, rest: seq<Fragment>, value: Text, start: nat, bindings: Witness, w: Witness)
    requires MatchState(done, value, start, bindings, w) && rest != [] && ExactFrom(done, rest, value, start, w)
    ensures rest[0].Parameter? ==> NameOf(rest[0]) in w
    ensures HeadFits(rest[0], Piece(rest[0], w), value[start..], bindings)
    ensures ExactFrom(done + [rest[0]], rest[1..], value, start + |Piece(rest[0], w)|, w)
  {
    SpellStep(rest, value, start, w);
    SlicedStep(done, rest, value, start, bindings, w);
    var next := start + |Piece(rest[0], w)|;
    TailBoundary(value, start, |Piece(rest[0], w)|);
    Regroups(done, rest);
    ExactParts(done, rest, done + rest, value, start, w);
    ExactParts(done + [rest[0]], rest[1..], done + rest, value, next, w);
  }

  lemma ExactBack(done: seq<Fragment>, rest: seq<Fragment>, value: Text, start: nat, bindings: Witness, w: Witness, next: nat)
    requires MatchState(done, value, start, bindings, w) && rest != [] && Binds(w, rest)
    requires HeadFits(rest[0], Piece(rest[0], w), value[start..], bindings) && next == start + |Piece(rest[0], w)|
    requires ExactFrom(done + [rest[0]], rest[1..], value, next, w)
    ensures ExactFrom(done, rest, value, start, w)
  {
    SpellStep(rest, value, start, w);
    SlicedStep(done, rest, value, start, bindings, w);
    TailBoundary(value, start, |Piece(rest[0], w)|);
    Regroups(done, rest);
    ExactParts(done, rest, done + rest, value, start, w);
    ExactParts(done + [rest[0]], rest[1..], done + rest, value, next, w);
  }

  lemma Regroups(done: seq<Fragment>, rest: seq<Fragment>)
    requires rest != []
    ensures done + rest == done + [rest[0]] + rest[1..]
  {
  }

  /** The claims of an exact rest, over the whole list. */
  lemma ExactParts(done: seq<Fragment>, rest: seq<Fragment>, all: seq<Fragment>, value: Text, start: nat, w: Witness)
    requires all == done + rest && start <= |value| && Boundary(value, start) && Binds(w, rest)
    ensures ExactFrom(done, rest, value, start, w) <==>
            w.Keys == Names(all) && SameText(Fill(rest, w), value[start..]) && Sliced(all, value, w, |done|)
  {
  }

  /** The rest spells a tail exactly if its head spells the head of the tail and the others what is left. */
  lemma SpellStep(rest: seq<Fragment>, value: Text, start: nat, w: Witness)
    requires rest != [] && Binds(w, rest) && start <= |value| && Boundary(value, start)
    ensures Binds(w, rest[1..]) && (rest[0].Parameter? ==> NameOf(rest[0]) in w)
    ensures var piece, tail := Piece(rest[0], w), value[start..];
            SameText(Fill(rest, w), tail) <==>
            && |piece| <= |tail| && Boundary(tail, |piece|) && SameText(tail[..|piece|], piece)
            && SameText(Fill(rest[1..], w), value[start + |piece|..])
  {
    FillHead(rest, w);
    var piece, tail := Piece(rest[0], w), value[start..];
    HeadMatches(piece, Fill(rest[1..], w), tail);
    if |piece| <= |tail| && Boundary(tail, |piece|) {
      TailBoundary(value, start, |piece|);
    }
  }

  lemma SlicedStep(done: seq<Fragment>, rest: seq<Fragment>, value: Text, start: nat, bindings: Witness, w: Witness)
    requires MatchState(done, value, start, bindings, w) && rest != []
    requires rest[0].Parameter? ==> NameOf(rest[0]) in w
    ensures var piece, tail := Piece(rest[0], w), value[start..];
            |piece| <= |tail| ==>
              (Sliced(done + rest, value, w, |done|) <==>
                && (rest[0].Parameter? && NameOf(rest[0]) !in bindings ==> tail[..|piece|] == piece)
                && Sliced(done + rest, value, w, |done| + 1))
  {
    assert (done + rest)[|done|] == rest[0];
    if rest[0].Parameter? {
      SliceHead(done, rest, value, start, bindings, w);
    }
  }

  lemma MatchAdvances(done: seq<Fragment>, fragment: Fragment, value: Text, start: nat, bindings: Witness, w: Witness)
    requires MatchState(done, value, start, bindings, w) && (fragment.Parameter? ==> NameOf(fragment) in w)
    requires HeadFits(fragment, Piece(fragment, w), value[start..], bindings)
    ensures MatchState(done + [fragment], value, start + |Piece(fragment, w)|, Bound(bindings, fragment, w), w)
    ensures value[start..][|Piece(fragment, w)|..] == value[start + |Piece(fragment, w)|..]
  {
    TailBoundary(value, start, |Piece(fragment, w)|);
    MatchNext(done, fragment, value, start, bindings, Bound(bindings, fragment, w), w);
  }

  lemma ExactEnd(done: seq<Fragment>, value: Text, start: nat, bindings: Witness, w: Witness)
    requires MatchState(done, value, start, bindings, w)
    ensures ExactFrom(done, [], value, start, w) <==> start == |value| && w == bindings
  {
    assert done + [] == done;
    if w.Keys == bindings.Keys {
      assert w == bindings;
    }
  }

  lemma ExactCons(done: seq<Fragment>, rest: seq<Fragment>, value: Text, start: nat, bindings: Witness, w: Witness, next: nat)
    requires MatchState(done, value, start, bindings, w) && rest != [] && (rest[0].Parameter? ==> NameOf(rest[0]) in w)
    requires HeadFits(rest[0], Piece(rest[0], w), value[start..], bindings) && next == start + |Piece(rest[0], w)|
    requires ExactFrom(done + [rest[0]], rest[1..], value, next, w)
    ensures ExactFrom(done, rest, value, start, w)
  {
    assert rest == [rest[0]] + rest[1..];
    NamesCons(rest[0], rest[1..]);
    ExactBack(done, rest, value, start, bindings, w, next);
  }

  /** Where the match stands behind the head fragment. */
  ghost predicate HeadMatched(done: seq<Fragment>, rest: seq<Fragment>, value: Text, start: nat, bindings: Witness,
                              w: Witness, next: nat, bound: Witness)
    requires start <= |value| && Boundary(value, start)
  {
    && rest != [] && (rest[0].Parameter? ==> NameOf(rest[0]) in w)
    && HeadFits(rest[0], Piece(rest[0], w), value[start..], bindings)
    && next == start + |Piece(rest[0], w)| && bound == Bound(bindings, rest[0], w)
    && next <= |value| && Boundary(value, next)
    && MatchState(done + [rest[0]], value, next, bound, w) && value[start..][|Piece(rest[0], w)|..] == value[next..]
  }

  lemma AlongHead(done: seq<Fragment>, rest: seq<Fragment>, value: Text, start: nat, bindings: Witness, w: Witness)
    returns (next: nat, bound: Witness)
    requires MatchState(done, value, start, bindings, w) && Along(rest, value[start..], bindings, w) && rest != []
    ensures HeadMatched(done, rest, value, start, bindings, w, next, bound)
    ensures Along(rest[1..], value[next..], bound, w)
  {
    next, bound := start + |Piece(rest[0], w)|, Bound(bindings, rest[0], w);
    MatchAdvances(done, rest[0], value, start, bindings, w);
  }

  lemma {:induction false} AlongIsExact(done: seq<Fragment>, rest: seq<Fragment>, value: Text, start: nat,
                                        bindings: Witness, w: Witness)
    requires MatchState(done, value, start, bindings, w) && Along(rest, value[start..], bindings, w)
    ensures ExactFrom(done, rest, value, start, w)
    decreases |rest|
  {
    if rest == [] {
      ExactEnd(done, value, start, bindings, w);
    } else {
      var next, bound := AlongHead(done, rest, value, start, bindings, w);
      AlongIsExact(done + [rest[0]], rest[1..], value, next, bound, w);
      ExactCons(done, rest, value, start, bindings, w, next);
    }
  }

  lemma ExactHead(done: seq<Fragment>, rest: seq<Fragment>, value: Text, start: nat, bindings: Witness, w: Witness)
    returns (next: nat, bound: Witness)
    requires MatchState(done, value, start, bindings, w) && ExactFrom(done, rest, value, start, w) && rest != []
    ensures HeadMatched(done, rest, value, start, bindings, w, next, bound)
    ensures ExactFrom(done + [rest[0]], rest[1..], value, next, w)
  {
    ExactForward(done, rest, value, start, bindings, w);
    next, bound := start + |Piece(rest[0], w)|, Bound(bindings, rest[0], w);
    MatchAdvances(done, rest[0], value, start, bindings, w);
  }

  lemma {:induction false} ExactGoesAlong(done: seq<Fragment>, rest: seq<Fragment>, value: Text, start: nat,
                                          bindings: Witness, w: Witness)
    requires MatchState(done, value, start, bindings, w) && ExactFrom(done, rest, value, start, w)
    ensures Along(rest, value[start..], bindings, w)
    decreases |rest|
  {
    if rest == [] {
      ExactEnd(done, value, start, bindings, w);
    } else {
      var next, bound := ExactHead(done, rest, value, start, bindings, w);
      ExactGoesAlong(done + [rest[0]], rest[1..], value, next, bound, w);
      AlongCons(rest, value[start..], value[next..], bindings, bound, w);
    }
  }

  lemma AlongCons(rest: seq<Fragment>, tail: Text, after: Text, bindings: Witness, bound: Witness, w: Witness)
    requires rest != [] && (rest[0].Parameter? ==> NameOf(rest[0]) in w)
    requires HeadFits(rest[0], Piece(rest[0], w), tail, bindings) && tail[|Piece(rest[0], w)|..] == after
    requires bound == Bound(bindings, rest[0], w) && Along(rest[1..], after, bound, w)
    ensures Along(rest, tail, bindings, w)
  {
  }

  /** The search tree's leaves are exactly the exact witnesses. */
  lemma SearchIsExact(fragments: seq<Fragment>, value: Text, w: Witness)
    ensures Reaches(fragments, value, map[], w) <==> Exact(fragments, value, w)
  {
    assert Names([]) == {};
    assert MatchState([], value, 0, map[], w);
    assert [] + fragments == fragments && value[0..] == value;
    ReachesAlong(fragments, value, map[], w);
    if Along(fragments, value, map[], w) {
      AlongIsExact([], fragments, value, 0, map[], w);
    }
    if Exact(fragments, value, w) {
      ExactGoesAlong([], fragments, value, 0, map[], w);
    }
  }

  // ----- Budgeted search -----

  /** A query-wide allowance; `limited` records that some work was refused. */
  class SearchBudget {
    var remaining: nat
    var limited: bool

    constructor (steps: nat)
      ensures remaining == steps && !limited
    {
      remaining, limited := steps, false;
    }

    method Step() returns (granted: bool)
      modifies this
      ensures granted == (old(remaining) > 0)
      ensures granted ==> remaining == old(remaining) - 1 && limited == old(limited)
      ensures !granted ==> remaining == 0 && limited
    {
      if remaining == 0 {
        limited := true;
        return false;
      }
      remaining := remaining - 1;
      return true;
    }
  }

  datatype Branch = Branch(index: nat, offset: nat, bindings: Witness)

  ghost predicate ValidBranch(fragments: seq<Fragment>, value: Text, branch: Branch) {
    branch.index <= |fragments| && branch.offset <= |value| && Boundary(value, branch.offset)
  }

  ghost predicate Leads(fragments: seq<Fragment>, value: Text, branch: Branch, w: Witness)
    requires ValidBranch(fragments, value, branch)
  {
    Reaches(fragments[branch.index..], value[branch.offset..], branch.bindings, w)
  }

  /** Some pending branch still leads to `w`. */
  ghost predicate Pending(fragments: seq<Fragment>, value: Text, pending: seq<Branch>, w: Witness)
    requires forall k :: 0 <= k < |pending| ==> ValidBranch(fragments, value, pending[k])
  {
    exists k :: 0 <= k < |pending| && Leads(fragments, value, pending[k], w)
  }

  lemma PendingSnoc(fragments: seq<Fragment>, value: Text, pending: seq<Branch>, branch: Branch, w: Witness)
    requires forall k :: 0 <= k < |pending| ==> ValidBranch(fragments, value, pending[k])
    requires ValidBranch(fragments, value, branch)
    ensures Pending(fragments, value, pending + [branch], w) <==>
            Pending(fragments, value, pending, w) || Leads(fragments, value, branch, w)
  {
    var all := pending + [branch];
    assert all[|pending|] == branch;
    if Pending(fragments, value, pending, w) {
      var k :| 0 <= k < |pending| && Leads(fragments, value, pending[k], w);
      assert all[k] == pending[k];
    }
    if k :| 0 <= k < |all| && Leads(fragments, value, all[k], w) {
      assert k < |pending| ==> all[k] == pending[k];
    }
  }

  /** The branch that takes the head fragment with an already known text. */
  lemma LeadsKnown(fragments: seq<Fragment>, value: Text, branch: Branch, w: Witness)
    requires ValidBranch(fragments, value, branch) && branch.index < |fragments|
    requires var part := fragments[branch.index]; part.Parameter? ==> NameOf(part) in branch.bindings
    ensures var text := Piece(fragments[branch.index], branch.bindings);
            var next := Branch(branch.index + 1, branch.offset + |text|, branch.bindings);
            var fits := Fits(value, branch.offset, text);
            && (fits ==> ValidBranch(fragments, value, next))
            && (Leads(fragments, value, branch, w) <==> fits && Leads(fragments, value, next, w))
  {
    var rest, tail := fragments[branch.index..], value[branch.offset..];
    var text := Piece(fragments[branch.index], branch.bindings);
    assert rest[0] == fragments[branch.index] && rest[1..] == fragments[branch.index + 1..];
    if branch.offset + |text| <= |value| {
      TailBoundary(value, branch.offset, |text|);
      assert tail[..|text|] == value[branch.offset..branch.offset + |text|];
    }
  }

  /** The slice at `offset` exists on character boundaries and spells `text` up to case. */
  predicate Fits(value: Text, offset: nat, text: Text) {
    && offset + |text| <= |value| && Boundary(value, offset) && Boundary(value, offset + |text|)
    && SameText(value[offset..offset + |text|], text)
  }

  /** The branch that binds the head parameter to the next `end` bytes. */
  function Binding(fragments: seq<Fragment>, value: Text, branch: Branch, end: nat): Branch
    requires branch.index < |fragments| && fragments[branch.index].Parameter?
    requires branch.offset + end <= |value| && Boundary(value, branch.offset)
  {
    Branch(branch.index + 1, branch.offset + end,
           branch.bindings[NameOf(fragments[branch.index]) := value[branch.offset..branch.offset + end]])
  }

  /** The branch that binds the head parameter to the next `end` bytes leads to `w`. */
  ghost predicate LeadsAt(fragments: seq<Fragment>, value: Text, branch: Branch, end: nat, w: Witness)
    requires ValidBranch(fragments, value, branch) && branch.index < |fragments| && fragments[branch.index].Parameter?
  {
    && branch.offset + end <= |value| && Boundary(value[branch.offset..], end)
    && ValidBranch(fragments, value, Binding(fragments, value, branch, end))
    && Leads(fragments, value, Binding(fragments, value, branch, end), w)
  }

  lemma LeadsAtMeans(fragments: seq<Fragment>, value: Text, branch: Branch, end: nat, w: Witness)
    requires ValidBranch(fragments, value, branch) && branch.index < |fragments|
    requires fragments[branch.index].Parameter?
    requires branch.offset + end <= |value| && Boundary(value[branch.offset..], end)
    ensures ValidBranch(fragments, value, Binding(fragments, value, branch, end))
    ensures fragments[branch.index..][0] == fragments[branch.index]
    ensures LeadsAt(fragments, value, branch, end, w) ==
            ReachesAt(fragments[branch.index..], value[branch.offset..], branch.bindings, end, w)
  {
    BindingTails(fragments, value, branch, end);
    var rest, tail := fragments[branch.index..], value[branch.offset..];
    LeadsIs(fragments, value, Binding(fragments, value, branch, end), rest[1..], tail[end..], w);
  }

  lemma BindingTails(fragments: seq<Fragment>, value: Text, branch: Branch, end: nat)
    requires ValidBranch(fragments, value, branch) && branch.index < |fragments| && fragments[branch.index].Parameter?
    requires branch.offset + end <= |value| && Boundary(value[branch.offset..], end)
    ensures var rest, tail, next := fragments[branch.index..], value[branch.offset..], Binding(fragments, value, branch, end);
            && rest[0] == fragments[branch.index] && rest[1..] == fragments[next.index..]
            && tail[end..] == value[next.offset..] && ValidBranch(fragments, value, next)
            && next.bindings == branch.bindings[NameOf(rest[0]) := tail[..end]]
  {
    TailBoundary(value, branch.offset, end);
    var tail := value[branch.offset..];
    assert tail[..end] == value[branch.offset..branch.offset + end];
  }

  /** A branch leads where the search from its rest and tail leads. */
  lemma LeadsIs(fragments: seq<Fragment>, value: Text, branch: Branch, rest: seq<Fragment>, tail: Text, w: Witness)
    requires ValidBranch(fragments, value, branch)
    requires rest == fragments[branch.index..] && tail == value[branch.offset..]
    ensures Leads(fragments, value, branch, w) == Reaches(rest, tail, branch.bindings, w)
  {
  }

  lemma LeadsUnknown(fragments: seq<Fragment>, value: Text, branch: Branch, w: Witness)
    requires ValidBranch(fragments, value, branch) && branch.index < |fragments|
    requires var part := fragments[branch.index]; part.Parameter? && NameOf(part) !in branch.bindings
    ensures Leads(fragments, value, branch, w) <==> exists end: nat :: LeadsAt(fragments, value, branch, end, w)
  {
    var rest, tail := fragments[branch.index..], value[branch.offset..];
    assert rest[0] == fragments[branch.index];
    if Leads(fragments, value, branch, w) {
      var end := FindEnd(rest, tail, branch.bindings, w);
      LeadsAtMeans(fragments, value, branch, end, w);
    }
    if end: nat :| LeadsAt(fragments, value, branch, end, w) {
      LeadsAtMeans(fragments, value, branch, end, w);
      assert ReachesAt(rest, tail, branch.bindings, end, w);
    }
  }

  /** What the search knows: rows and pending branches together lead to exactly the goal, and to no more
      than the goal once work was refused. */
  ghost predicate Covered(fragments: seq<Fragment>, value: Text, rows: seq<Witness>, pending: seq<Branch>, limited: bool) {
    && (forall k :: 0 <= k < |pending| ==> ValidBranch(fragments, value, pending[k]))
    && (forall w :: w in rows || Pending(fragments, value, pending, w) ==> Reaches(fragments, value, map[], w))
    && (!limited ==> forall w :: Reaches(fragments, value, map[], w) ==> w in rows || Pending(fragments, value, pending, w))
  }

  /** The pending stack after the branches for all ends below `end` were pushed over `rest`. */
  ghost predicate Pushed(fragments: seq<Fragment>, value: Text, rest: seq<Branch>, branch: Branch, end: nat, pending: seq<Branch>)
    requires forall k :: 0 <= k < |rest| ==> ValidBranch(fragments, value, rest[k])
    requires ValidBranch(fragments, value, branch) && branch.index < |fragments| && fragments[branch.index].Parameter?
  {
    && (forall k :: 0 <= k < |pending| ==> ValidBranch(fragments, value, pending[k]))
    && forall w :: Pending(fragments, value, pending, w) <==>
         Pending(fragments, value, rest, w) || exists e: nat :: e < end && LeadsAt(fragments, value, branch, e, w)
  }

  lemma PushedEnd(fragments: seq<Fragment>, value: Text, rest: seq<Branch>, branch: Branch, end: nat, pending: seq<Branch>)
    requires forall k :: 0 <= k < |rest| ==> ValidBranch(fragments, value, rest[k])
    requires ValidBranch(fragments, value, branch) && branch.index < |fragments| && fragments[branch.index].Parameter?
    requires branch.offset + end <= |value| && Boundary(value[branch.offset..], end)
    requires Pushed(fragments, value, rest, branch, end, pending)
    ensures Pushed(fragments, value, rest, branch, end + 1, pending + [Binding(fragments, value, branch, end)])
  {
    var next := Binding(fragments, value, branch, end);
    TailBoundary(value, branch.offset, end);
    assert ValidBranch(fragments, value, next);
    forall w
      ensures Pending(fragments, value, pending + [next], w) <==>
              Pending(fragments, value, rest, w) || exists e: nat :: e < end + 1 && LeadsAt(fragments, value, branch, e, w)
    {
      PendingSnoc(fragments, value, pending, next, w);
      EndsSplit(fragments, value, branch, end, w);
    }
  }

  lemma PushedNone(fragments: seq<Fragment>, value: Text, rest: seq<Branch>, branch: Branch, end: nat, pending: seq<Branch>)
    requires forall k :: 0 <= k < |rest| ==> ValidBranch(fragments, value, rest[k])
    requires ValidBranch(fragments, value, branch) && branch.index < |fragments| && fragments[branch.index].Parameter?
    requires !Boundary(value[branch.offset..], end) && Pushed(fragments, value, rest, branch, end, pending)
    ensures Pushed(fragments, value, rest, branch, end + 1, pending)
  {
    forall w
      ensures Pending(fragments, value, pending, w) <==>
              Pending(fragments, value, rest, w) || exists e: nat :: e < end + 1 && LeadsAt(fragments, value, branch, e, w)
    {
      EndsSplit(fragments, value, branch, end, w);
    }
  }

  lemma EndsSplit(fragments: seq<Fragment>, value: Text, branch: Branch, end: nat, w: Witness)
    requires ValidBranch(fragments, value, branch) && branch.index < |fragments| && fragments[branch.index].Parameter?
    ensures (exists e: nat :: e < end + 1 && LeadsAt(fragments, value, branch, e, w)) <==>
            (exists e: nat :: e < end && LeadsAt(fragments, value, branch, e, w)) || LeadsAt(fragments, value, branch, end, w)
  {
  }

  /** Pushes one branch for every character boundary of the remaining value, while the budget lasts. */
  method PushBindings(fragments: seq<Fragment>, value: Text, branch: Branch, rest: seq<Branch>, budget: SearchBudget)
    returns (pending: seq<Branch>, ghost reached: nat)
    requires forall k :: 0 <= k < |rest| ==> ValidBranch(fragments, value, rest[k])
    requires ValidBranch(fragments, value, branch) && branch.index < |fragments| && fragments[branch.index].Parameter?
    modifies budget
    ensures budget.remaining <= old(budget.remaining) && (old(budget.limited) ==> budget.limited)
    ensures Pushed(fragments, value, rest, branch, reached, pending)
    ensures !budget.limited ==> reached == |value| - branch.offset + 1
  {
    var tail := value[branch.offset..];
    pending := rest;
    var end := 0;
    while end <= |tail|
      invariant 0 <= end <= |tail| + 1
      invariant budget.remaining <= old(budget.remaining) && (old(budget.limited) ==> budget.limited)
      invariant Pushed(fragments, value, rest, branch, end, pending)
    {
      if Boundary(tail, end) {
        var granted := budget.Step();
        if !granted {
          return pending, end;
        }
        PushedEnd(fragments, value, rest, branch, end, pending);
        pending := pending + [Binding(fragments, value, branch, end)];
      } else {
        PushedNone(fragments, value, rest, branch, end, pending);
      }
      end := end + 1;
    }
    reached := end;
  }

  lemma LeadsEnd(fragments: seq<Fragment>, value: Text, branch: Branch, w: Witness)
    requires ValidBranch(fragments, value, branch) && branch.index == |fragments|
    ensures Leads(fragments, value, branch, w) <==> branch.offset == |value| && w == branch.bindings
  {
    assert fragments[branch.index..] == [];
  }

  /** Replacing the popped branch by what it led to keeps the search covered. */
  lemma CoveredStep(fragments: seq<Fragment>, value: Text, rows: seq<Witness>, rest: seq<Branch>, branch: Branch,
                    rows': seq<Witness>, pending': seq<Branch>, limited: bool, limited': bool)
    requires Covered(fragments, value, rows, rest + [branch], limited) && (limited ==> limited')
    requires forall k :: 0 <= k < |pending'| ==> ValidBranch(fragments, value, pending'[k])
    requires forall k :: 0 <= k < |rest| ==> ValidBranch(fragments, value, rest[k])
    requires ValidBranch(fragments, value, branch)
    requires forall w :: w in rows' || Pending(fragments, value, pending', w) ==>
               w in rows || Pending(fragments, value, rest, w) || Leads(fragments, value, branch, w)
    requires !limited' ==> forall w :: w in rows || Pending(fragments, value, rest, w) || Leads(fragments, value, branch, w) ==>
               w in rows' || Pending(fragments, value, pending', w)
    ensures Covered(fragments, value, rows', pending', limited')
  {
    forall w
      ensures Pending(fragments, value, rest + [branch], w) <==>
              Pending(fragments, value, rest, w) || Leads(fragments, value, branch, w)
    {
      PendingSnoc(fragments, value, rest, branch, w);
    }
  }

  /** Follows one branch by one fragment. */
  method Follow(fragments: seq<Fragment>, value: Text, rows: seq<Witness>, rest: seq<Branch>, branch: Branch, budget: SearchBudget)
    returns (rows': seq<Witness>, pending: seq<Branch>)
    requires Covered(fragments, value, rows, rest + [branch], budget.limited)
    modifies budget
    ensures budget.remaining <= old(budget.remaining) && (old(budget.limited) ==> budget.limited)
    ensures Covered(fragments, value, rows', pending, budget.limited)
  {
    assert (rest + [branch])[|rest|] == branch;
    assert forall k :: 0 <= k < |rest| ==> (rest + [branch])[k] == rest[k];
    rows', pending := rows, rest;
    if branch.index == |fragments| {
      if branch.offset == |value| && branch.bindings !in rows {
        rows' := rows + [branch.bindings];
      }
      forall w ensures Leads(fragments, value, branch, w) <==> branch.offset == |value| && w == branch.bindings {
        LeadsEnd(fragments, value, branch, w);
      }
      CoveredStep(fragments, value, rows, rest, branch, rows', pending, budget.limited, budget.limited);
      return;
    }
    var part := fragments[branch.index];
    ghost var limited := budget.limited;
    if part.Parameter? && NameOf(part) !in branch.bindings {
      ghost var reached;
      pending, reached := PushBindings(fragments, value, branch, rest, budget);
      forall w
        ensures Pending(fragments, value, pending, w) ==>
                Pending(fragments, value, rest, w) || Leads(fragments, value, branch, w)
        ensures !budget.limited && Leads(fragments, value, branch, w) ==> Pending(fragments, value, pending, w)
      {
        LeadsUnknown(fragments, value, branch, w);
      }
    } else {
      var text := Piece(part, branch.bindings);
      var next := Branch(branch.index + 1, branch.offset + |text|, branch.bindings);
      if Fits(value, branch.offset, text) {
        LeadsKnown(fragments, value, branch, map[]);
        pending := rest + [next];
      }
      forall w
        ensures Pending(fragments, value, pending, w) <==>
                Pending(fragments, value, rest, w) || Leads(fragments, value, branch, w)
      {
        LeadsKnown(fragments, value, branch, w);
        if Fits(value, branch.offset, text) {
          PendingSnoc(fragments, value, rest, next, w);
        }
      }
    }
    CoveredStep(fragments, value, rows, rest, branch, rows', pending, limited, budget.limited);
  }

  /** The general search. */
  method Search(fragments: seq<Fragment>, value: Text, budget: SearchBudget) returns (rows: seq<Witness>)
    modifies budget
    ensures budget.remaining <= old(budget.remaining) && (old(budget.limited) ==> budget.limited)
    ensures forall w :: w in rows ==> Exact(fragments, value, w)
    ensures !budget.limited ==> forall w :: Exact(fragments, value, w) ==> w in rows
  {
    rows := [];
    var pending := [Branch(0, 0, map[])];
    assert fragments[0..] == fragments && value[0..] == value;
    assert forall w :: Leads(fragments, value, pending[0], w) <==> Reaches(fragments, value, map[], w);
    while pending != []
      invariant budget.remaining <= old(budget.remaining) && (old(budget.limited) ==> budget.limited)
      invariant Covered(fragments, value, rows, pending, budget.limited)
      decreases budget.remaining, |pending|
    {
      var branch := pending[|pending| - 1];
      assert pending == pending[..|pending| - 1] + [branch];
      var granted := budget.Step();
      if !granted {
        break;
      }
      rows, pending := Follow(fragments, value, rows, pending[..|pending| - 1], branch, budget);
    }
    forall w
      ensures Reaches(fragments, value, map[], w) <==> Exact(fragments, value, w)
    {
      SearchIsExact(fragments, value, w);
    }
  }

  // ----- One unknown -----

  function LiteralBytes(fragments: seq<Fragment>): nat {
    if fragments == [] then 0
    else (if fragments[0].Literal? then |fragments[0].text| else 0) + LiteralBytes(fragments[1..])
  }

  function ParameterCount(fragments: seq<Fragment>): nat {
    if fragments == [] then 0
    else (if fragments[0].Parameter? then 1 else 0) + ParameterCount(fragments[1..])
  }

  /** The length spelled when every parameter is `width` bytes wide. */
  function Length(fragments: seq<Fragment>, width: nat): nat {
    if fragments == [] then 0
    else (if fragments[0].Literal? then |fragments[0].text| else width) + Length(fragments[1..], width)
  }

  lemma {:induction false} LengthIs(fragments: seq<Fragment>, width: nat)
    ensures Length(fragments, width) == LiteralBytes(fragments) + ParameterCount(fragments) * width
  {
    if fragments != [] {
      LengthIs(fragments[1..], width);
      var count := ParameterCount(fragments[1..]);
      assert (1 + count) * width == width + count * width;
    }
  }

  lemma {:induction false} FillLength(fragments: seq<Fragment>, name: Text, w: Witness)
    requires Names(fragments) <= {name} && name in w
    ensures Binds(w, fragments) && |Fill(fragments, w)| == Length(fragments, |w[name]|)
    decreases fragments
  {
    if fragments != [] {
      assert fragments == [fragments[0]] + fragments[1..];
      NamesCons(fragments[0], fragments[1..]);
      FillLength(fragments[1..], name, w);
    }
  }

  lemma {:induction false} CountsNames(fragments: seq<Fragment>)
    ensures ParameterCount(fragments) == 0 <==> Names(fragments) == {}
    decreases fragments
  {
    if fragments != [] {
      assert fragments == [fragments[0]] + fragments[1..];
      NamesCons(fragments[0], fragments[1..]);
      CountsNames(fragments[1..]);
    }
  }

  lemma MultipleIsFar(count: nat, d: int)
    requires count > 0
    ensures (d >= 1 ==> count * d >= count) && (d <= -1 ==> count * d + count <= 0)
  {
  }

  lemma Divides(count: nat, width: nat)
    requires count > 0
    ensures (count * width) % count == 0 && (count * width) / count == width
  {
    var product := count * width;
    assert product >= 0;
    var d: int := width - product / count;
    assert count * d == product % count by {
      assert product == count * (product / count) + product % count;
      assert count * d == count * width - count * (product / count);
    }
    MultipleIsFar(count, d);
  }

  /** An exact witness of a single unknown divides the leftover bytes by the number of occurrences. */
  lemma ExactWidth(fragments: seq<Fragment>, value: Text, name: Text, w: Witness)
    requires Names(fragments) == {name} && Exact(fragments, value, w)
    ensures name in w && LiteralBytes(fragments) <= |value|
    ensures var bytes, count := |value| - LiteralBytes(fragments), ParameterCount(fragments);
            count > 0 && bytes % count == 0 && |w[name]| == bytes / count
  {
    assert name in w.Keys;
    FillLength(fragments, name, w);
    LengthIs(fragments, |w[name]|);
    CountsNames(fragments);
    Quotient(|value|, LiteralBytes(fragments), ParameterCount(fragments), |w[name]|);
  }

  lemma Quotient(total: nat, literals: nat, count: nat, width: nat)
    requires total == literals + count * width && count > 0
    ensures literals <= total && (total - literals) % count == 0 && (total - literals) / count == width
  {
    Divides(count, width);
    assert total - literals == count * width;
  }

  datatype Slot = Unbound | Chosen(text: Text)

  function SlotBindings(name: Text, slot: Slot): Witness {
    if slot.Unbound? then map[] else map[name := slot.text]
  }

  /** What is left to match for `w`, given the slice chosen so far. */
  ghost predicate SlotAlong(rest: seq<Fragment>, tail: Text, name: Text, slot: Slot, w: Witness) {
    && (slot.Chosen? ==> name in w && w[name] == slot.text)
    && Along(rest, tail, SlotBindings(name, slot), w)
  }

  /** What one fragment of the single-unknown match takes from the value. */
  function TakenLength(part: Fragment, width: nat): nat {
    if part.Literal? then |part.text| else width
  }

  predicate Sliceable(value: Text, offset: nat, len: nat) {
    offset + len <= |value| && Boundary(value, offset) && Boundary(value, offset + len)
  }

  /** The loop of the fast path, from `rest` on: it succeeds with the only slot that can be completed. */
  ghost predicate SlotGoal(rest: seq<Fragment>, value: Text, offset: nat, name: Text, slot: Slot, width: nat, fragments: seq<Fragment>) {
    && offset <= |value| && Boundary(value, offset)
    && forall w: Witness :: name in w && |w[name]| == width ==> GoalAt(rest, value, offset, name, slot, fragments, w)
  }

  /** What is left to match decides whether `w` matches at all. */
  ghost predicate GoalAt(rest: seq<Fragment>, value: Text, offset: nat, name: Text, slot: Slot, fragments: seq<Fragment>,
                         w: Witness)
    requires offset <= |value| && Boundary(value, offset)
  {
    Along(fragments, value, map[], w) <==> SlotAlong(rest, value[offset..], name, slot, w)
  }

  function NextSlot(part: Fragment, value: Text, offset: nat, slot: Slot, width: nat): Slot {
    if part.Parameter? && slot.Unbound? && Sliceable(value, offset, width) then Chosen(value[offset..offset + width]) else slot
  }

  function Expected(part: Fragment, slot: Slot): Text {
    if part.Literal? then part.text else if slot.Chosen? then slot.text else []
  }

  predicate Taken(part: Fragment, value: Text, offset: nat, slot: Slot, width: nat) {
    && Sliceable(value, offset, TakenLength(part, width))
    && Fits(value, offset, Expected(part, NextSlot(part, value, offset, slot, width)))
  }

  lemma NamesTail(rest: seq<Fragment>, name: Text)
    requires rest != [] && Names(rest) <= {name}
    ensures Names(rest[1..]) <= {name} && (rest[0].Parameter? ==> NameOf(rest[0]) == name)
  {
    assert rest == [rest[0]] + rest[1..];
    NamesCons(rest[0], rest[1..]);
  }

  lemma SliceTail(value: Text, offset: nat, len: nat)
    requires Sliceable(value, offset, len)
    ensures value[offset..][..len] == value[offset..offset + len] && value[offset..][len..] == value[offset + len..]
    ensures SameText(value[offset..offset + len], value[offset..offset + len])
    ensures Boundary(value[offset..], len)
  {
    TailBoundary(value, offset, len);
  }

  /** One fragment of the single-unknown match decides whether `w` can still be completed. */
  ghost predicate StepDecides(rest: seq<Fragment>, value: Text, offset: nat, name: Text, slot: Slot, width: nat, w: Witness)
    requires rest != [] && offset <= |value| && Boundary(value, offset)
  {
    SlotAlong(rest, value[offset..], name, slot, w) <==>
    && Taken(rest[0], value, offset, slot, width)
    && SlotAlong(rest[1..], value[offset + TakenLength(rest[0], width)..], name,
                 NextSlot(rest[0], value, offset, slot, width), w)
  }

  lemma LiteralStep(rest: seq<Fragment>, value: Text, offset: nat, name: Text, slot: Slot, width: nat, w: Witness)
    requires rest != [] && rest[0].Literal? && offset <= |value| && Boundary(value, offset)
    ensures StepDecides(rest, value, offset, name, slot, width, w)
  {
    var text, tail := rest[0].text, value[offset..];
    if offset + |text| <= |value| {
      TailBoundary(value, offset, |text|);
      assert tail[..|text|] == value[offset..offset + |text|];
    }
    assert HeadFits(rest[0], text, tail, SlotBindings(name, slot)) <==> Fits(value, offset, text);
  }

  lemma FirstSlotStep(rest: seq<Fragment>, value: Text, offset: nat, name: Text, width: nat, w: Witness)
    requires rest != [] && rest[0].Parameter? && NameOf(rest[0]) == name && name in w && |w[name]| == width
    requires offset <= |value| && Boundary(value, offset)
    ensures StepDecides(rest, value, offset, name, Unbound, width, w)
  {
    if Sliceable(value, offset, width) {
      SliceTail(value, offset, width);
      if value[offset..offset + width] == w[name] {
        assert Bound(map[], rest[0], w) == map[name := w[name]];
      }
    } else if offset + width <= |value| {
      TailBoundary(value, offset, width);
    }
  }

  lemma NextSlotStep(rest: seq<Fragment>, value: Text, offset: nat, name: Text, text: Text, w: Witness)
    requires rest != [] && rest[0].Parameter? && NameOf(rest[0]) == name
    requires offset <= |value| && Boundary(value, offset)
    ensures StepDecides(rest, value, offset, name, Chosen(text), |text|, w)
  {
    ChosenFits(rest[0], value, offset, name, text);
    if name in w && w[name] == text {
      assert Bound(map[name := text], rest[0], w) == map[name := text];
      if Taken(rest[0], value, offset, Chosen(text), |text|) {
        SliceTail(value, offset, |text|);
      }
    }
  }

  lemma ChosenFits(part: Fragment, value: Text, offset: nat, name: Text, text: Text)
    requires part.Parameter? && NameOf(part) == name && offset <= |value| && Boundary(value, offset)
    ensures HeadFits(part, text, value[offset..], map[name := text]) <==> Taken(part, value, offset, Chosen(text), |text|)
  {
    if Sliceable(value, offset, |text|) {
      SliceTail(value, offset, |text|);
    } else if offset + |text| <= |value| {
      TailBoundary(value, offset, |text|);
    }
  }

  lemma SlotStep(rest: seq<Fragment>, value: Text, offset: nat, name: Text, slot: Slot, width: nat, w: Witness)
    requires rest != [] && Names(rest) <= {name} && name in w && |w[name]| == width
    requires offset <= |value| && Boundary(value, offset) && (slot.Chosen? ==> |slot.text| == width)
    ensures StepDecides(rest, value, offset, name, slot, width, w)
  {
    NamesTail(rest, name);
    if rest[0].Literal? {
      LiteralStep(rest, value, offset, name, slot, width, w);
    } else if slot.Unbound? {
      FirstSlotStep(rest, value, offset, name, width, w);
    } else {
      NextSlotStep(rest, value, offset, name, slot.text, w);
    }
  }

  lemma GoalStep(rest: seq<Fragment>, value: Text, offset: nat, name: Text, slot: Slot, width: nat, fragments: seq<Fragment>)
    requires rest != [] && Names(rest) <= {name} && (slot.Chosen? ==> |slot.text| == width)
    requires SlotGoal(rest, value, offset, name, slot, width, fragments)
    ensures Taken(rest[0], value, offset, slot, width) ==>
              SlotGoal(rest[1..], value, offset + TakenLength(rest[0], width), name,
                       NextSlot(rest[0], value, offset, slot, width), width, fragments)
    ensures !Taken(rest[0], value, offset, slot, width) ==> NoMatch(fragments, value, name, width)
  {
    forall w: Witness | name in w && |w[name]| == width
      ensures GoalMoves(rest, value, offset, name, slot, width, fragments, w)
    {
      assert GoalAt(rest, value, offset, name, slot, fragments, w);
      SlotStep(rest, value, offset, name, slot, width, w);
    }
    if Taken(rest[0], value, offset, slot, width) {
      forall w: Witness | name in w && |w[name]| == width
        ensures GoalAt(rest[1..], value, offset + TakenLength(rest[0], width), name,
                       NextSlot(rest[0], value, offset, slot, width), fragments, w)
      {
        assert GoalMoves(rest, value, offset, name, slot, width, fragments, w);
      }
    } else {
      forall w: Witness | name in w && |w[name]| == width
        ensures !Along(fragments, value, map[], w)
      {
        assert GoalMoves(rest, value, offset, name, slot, width, fragments, w);
      }
    }
  }

  /** The head fragment moves the goal along, or ends it. */
  ghost predicate GoalMoves(rest: seq<Fragment>, value: Text, offset: nat, name: Text, slot: Slot, width: nat,
                            fragments: seq<Fragment>, w: Witness)
    requires rest != [] && offset <= |value| && Boundary(value, offset)
  {
    if Taken(rest[0], value, offset, slot, width) then
      GoalAt(rest[1..], value, offset + TakenLength(rest[0], width), name, NextSlot(rest[0], value, offset, slot, width),
             fragments, w)
    else !Along(fragments, value, map[], w)
  }

  /** Matches the fragments with the unknown `width` bytes wide. */
  method MatchWidth(fragments: seq<Fragment>, value: Text, name: Text, width: nat) returns (rows: seq<Witness>)
    requires Names(fragments) == {name} && Length(fragments, width) == |value|
    ensures |rows| <= 1 && forall w :: w in rows ==> name in w && |w[name]| == width
    ensures forall w: Witness :: name in w && |w[name]| == width ==> (Along(fragments, value, map[], w) <==> w in rows)
  {
    var offset: nat := 0;
    var slot := Unbound;
    var k: nat := 0;
    ghost var rest := fragments;
    WidthStarts(fragments, value, name, width);
    while k < |fragments|
      invariant k <= |fragments| && rest == fragments[k..] && WidthMatched(fragments, rest, value, offset, name, slot, width)
    {
      Peel(fragments, k, rest);
      var part := fragments[k];
      if !Taken(part, value, offset, slot, width) {
        WidthFails(fragments, rest, value, offset, name, slot, width);
        return [];
      }
      var next, after := NextSlot(part, value, offset, slot, width), offset + TakenLength(part, width);
      rest := WidthStep(fragments, rest, value, offset, name, slot, width, next, after);
      slot, offset, k := next, after, k + 1;
    }
    WidthEnds(fragments, value, offset, name, slot, width);
    rows := [map[name := slot.text]];
  }

  /** The first `k` fragments took `offset` bytes. */
  ghost predicate WidthTaken(rest: seq<Fragment>, value: Text, offset: nat, name: Text, slot: Slot, width: nat) {
    && Names(rest) <= {name} && offset + Length(rest, width) == |value|
    && (slot.Chosen? ==> |slot.text| == width) && (slot.Unbound? ==> ParameterCount(rest) > 0)
  }

  /** The first `k` fragments took `offset` bytes, and what is left decides the match. */
  ghost predicate WidthMatched(fragments: seq<Fragment>, rest: seq<Fragment>, value: Text, offset: nat, name: Text, slot: Slot,
                               width: nat) {
    WidthTaken(rest, value, offset, name, slot, width) && SlotGoal(rest, value, offset, name, slot, width, fragments)
  }

  lemma WidthStarts(fragments: seq<Fragment>, value: Text, name: Text, width: nat)
    requires Names(fragments) == {name} && Length(fragments, width) == |value|
    ensures WidthMatched(fragments, fragments, value, 0, name, Unbound, width)
  {
    assert value[0..] == value;
    CountsNames(fragments);
    forall w: Witness | name in w && |w[name]| == width
      ensures GoalAt(fragments, value, 0, name, Unbound, fragments, w)
    {
    }
  }

  lemma TakenMoves(rest: seq<Fragment>, value: Text, offset: nat, name: Text, slot: Slot, width: nat)
    requires rest != [] && WidthTaken(rest, value, offset, name, slot, width) && Taken(rest[0], value, offset, slot, width)
    ensures WidthTaken(rest[1..], value, offset + TakenLength(rest[0], width), name,
                       NextSlot(rest[0], value, offset, slot, width), width)
  {
    NamesTail(rest, name);
  }

  /** No witness of the given width matches. */
  ghost predicate NoMatch(fragments: seq<Fragment>, value: Text, name: Text, width: nat) {
    forall w: Witness :: name in w && |w[name]| == width ==> !Along(fragments, value, map[], w)
  }

  lemma WidthStep(fragments: seq<Fragment>, rest: seq<Fragment>, value: Text, offset: nat, name: Text, slot: Slot, width: nat,
                  next: Slot, after: nat)
    returns (more: seq<Fragment>)
    requires rest != [] && WidthMatched(fragments, rest, value, offset, name, slot, width)
    requires Taken(rest[0], value, offset, slot, width)
    requires next == NextSlot(rest[0], value, offset, slot, width) && after == offset + TakenLength(rest[0], width)
    ensures more == rest[1..]
    ensures WidthMatched(fragments, more, value, after, name, next, width)
  {
    more := rest[1..];
    TakenMoves(rest, value, offset, name, slot, width);
    GoalStep(rest, value, offset, name, slot, width, fragments);
  }

  lemma WidthFails(fragments: seq<Fragment>, rest: seq<Fragment>, value: Text, offset: nat, name: Text, slot: Slot, width: nat)
    requires rest != [] && WidthMatched(fragments, rest, value, offset, name, slot, width)
    requires !Taken(rest[0], value, offset, slot, width)
    ensures NoMatch(fragments, value, name, width)
  {
    GoalStep(rest, value, offset, name, slot, width, fragments);
  }

  lemma Peel(fragments: seq<Fragment>, k: nat, rest: seq<Fragment>)
    requires k < |fragments| && rest == fragments[k..]
    ensures rest != [] && rest[0] == fragments[k] && rest[1..] == fragments[k + 1..]
  {
  }

  /** One witness of the given width matches. */
  ghost predicate OnlyMatch(fragments: seq<Fragment>, value: Text, name: Text, width: nat, match': Witness) {
    forall w: Witness :: name in w && |w[name]| == width ==> (Along(fragments, value, map[], w) <==> w == match')
  }

  lemma WidthEnds(fragments: seq<Fragment>, value: Text, offset: nat, name: Text, slot: Slot, width: nat)
    requires WidthMatched(fragments, [], value, offset, name, slot, width)
    ensures slot.Chosen? && |slot.text| == width
    ensures OnlyMatch(fragments, value, name, width, map[name := slot.text])
  {
    assert value[offset..] == [];
    forall w: Witness | name in w && |w[name]| == width
      ensures Along(fragments, value, map[], w) <==> w == map[name := slot.text]
    {
      assert GoalAt([], value, offset, name, slot, fragments, w);
    }
  }

  /** The closed form for a single unknown: the leftover bytes divided by the number of occurrences. */
  method InverseOne(fragments: seq<Fragment>, value: Text, name: Text, budget: SearchBudget) returns (rows: seq<Witness>)
    requires Names(fragments) == {name}
    modifies budget
    ensures budget.remaining <= old(budget.remaining) && (old(budget.limited) ==> budget.limited)
    ensures forall w :: w in rows ==> Exact(fragments, value, w)
    ensures !budget.limited ==> forall w :: Exact(fragments, value, w) ==> w in rows
    ensures |rows| <= 1
  {
    var granted := budget.Step();
    if !granted {
      return [];
    }
    var literals, count := LiteralBytes(fragments), ParameterCount(fragments);
    CountsNames(fragments);
    if |value| < literals || (|value| - literals) % count != 0 {
      NoWidth(fragments, value, name);
      return [];
    }
    var width := (|value| - literals) / count;
    WidthFills(fragments, value, width);
    rows := MatchWidth(fragments, value, name, width);
    WidthDecides(fragments, value, name, width, rows);
  }

  lemma WidthFills(fragments: seq<Fragment>, value: Text, width: nat)
    requires ParameterCount(fragments) > 0 && LiteralBytes(fragments) <= |value|
    requires (|value| - LiteralBytes(fragments)) % ParameterCount(fragments) == 0
    requires width == (|value| - LiteralBytes(fragments)) / ParameterCount(fragments)
    ensures Length(fragments, width) == |value|
  {
    LengthIs(fragments, width);
    assert ParameterCount(fragments) * width == |value| - LiteralBytes(fragments);
  }

  lemma NoWidth(fragments: seq<Fragment>, value: Text, name: Text)
    requires Names(fragments) == {name} && ParameterCount(fragments) > 0
    requires |value| < LiteralBytes(fragments) || (|value| - LiteralBytes(fragments)) % ParameterCount(fragments) != 0
    ensures forall w :: !Exact(fragments, value, w)
  {
    forall w
      ensures !Exact(fragments, value, w)
    {
      if Exact(fragments, value, w) {
        ExactWidth(fragments, value, name, w);
      }
    }
  }

  lemma WidthDecides(fragments: seq<Fragment>, value: Text, name: Text, width: nat, rows: seq<Witness>)
    requires Names(fragments) == {name} && ParameterCount(fragments) > 0 && LiteralBytes(fragments) <= |value|
    requires width == (|value| - LiteralBytes(fragments)) / ParameterCount(fragments)
    requires forall w :: w in rows ==> name in w && |w[name]| == width
    requires forall w: Witness :: name in w && |w[name]| == width ==> (Along(fragments, value, map[], w) <==> w in rows)
    ensures forall w :: w in rows <==> Exact(fragments, value, w)
  {
    forall w
      ensures w in rows <==> Exact(fragments, value, w)
    {
      SearchIsExact(fragments, value, w);
      ReachesAlong(fragments, value, map[], w);
      if Exact(fragments, value, w) {
        ExactWidth(fragments, value, name, w);
      }
    }
  }

  /** Inversion: every row is an exact witness, and unless work was refused the rows are all of them. */
  method Inverse(fragments: seq<Fragment>, value: Text, budget: SearchBudget) returns (rows: seq<Witness>)
    modifies budget
    ensures budget.remaining <= old(budget.remaining) && (old(budget.limited) ==> budget.limited)
    ensures forall w :: w in rows ==> Exact(fragments, value, w)
    ensures !budget.limited ==> forall w :: Exact(fragments, value, w) ==> w in rows
    ensures |Names(fragments)| == 1 ==> |rows| <= 1
  {
    var names := Names(fragments);
    if |names| == 1 {
      var name :| name in names;
      assert names == {name} by {
        assert |names - {name}| == 0;
      }
      rows := InverseOne(fragments, value, name, budget);
    } else {
      rows := Search(fragments, value, budget);
    }
  }

  /** A single unknown has at most one exact witness, so the closed form and the search agree. */
  lemma OneUnknownIsUnique(fragments: seq<Fragment>, value: Text, name: Text, v: Witness, w: Witness)
    requires Names(fragments) == {name} && Exact(fragments, value, v) && Exact(fragments, value, w)
    ensures v == w
  {
    ExactWidth(fragments, value, name, v);
    ExactWidth(fragments, value, name, w);
    FirstSlice(fragments, value, name, v, w);
  }

  lemma FirstSlice(fragments: seq<Fragment>, value: Text, name: Text, v: Witness, w: Witness)
    requires Names(fragments) == {name} && Exact(fragments, value, v) && Exact(fragments, value, w)
    requires |v[name]| == |w[name]|
    ensures v[name] == w[name]
  {
    var i := FirstParameter(fragments, name);
    FillLiterals(fragments[..i], v, w);
    assert SlicedAt(fragments, value, v, i) && SlicedAt(fragments, value, w, i);
  }

  lemma FirstParameter(fragments: seq<Fragment>, name: Text) returns (i: nat)
    requires name in Names(fragments)
    ensures i < |fragments| && fragments[i].Parameter? && NameOf(fragments[i]) == name && name !in Names(fragments[..i])
    decreases |fragments|
  {
    var k: nat :| k < |fragments| && fragments[k].Parameter? && NameOf(fragments[k]) == name;
    if name in Names(fragments[..k]) {
      i := FirstParameter(fragments[..k], name);
      assert fragments[..k][..i] == fragments[..i];
    } else {
      i := k;
    }
  }

  lemma FillLiterals(fragments: seq<Fragment>, v: Witness, w: Witness)
    requires Binds(v, fragments) && Binds(w, fragments)
    requires forall n :: n in Names(fragments) ==> v[n] == w[n]
    ensures Fill(fragments, v) == Fill(fragments, w)
    decreases fragments
  {
    if fragments != [] {
      FillHead(fragments, v);
      FillHead(fragments, w);
      assert fragments == [fragments[0]] + fragments[1..];
      NamesCons(fragments[0], fragments[1..]);
      FillLiterals(fragments[1..], v, w);
    }
  }

  // ----- Joining usage sites -----

  /** Two witnesses spell every shared name the same up to case. */
  predicate Agree(a: Witness, b: Witness) {
    forall n :: n in a && n in b ==> SameText(a[n], b[n])
  }

  /** The natural join of two relations, pair by pair. */
  method Join(left: seq<Witness>, right: seq<Witness>, budget: SearchBudget) returns (joined: seq<Witness>)
    modifies budget
    ensures budget.remaining <= old(budget.remaining) && (old(budget.limited) ==> budget.limited)
    ensures forall row :: row in joined ==> exists a, b :: a in left && b in right && Agree(a, b) && row == a + b
    ensures !budget.limited ==> forall a, b :: a in left && b in right && Agree(a, b) ==> a + b in joined
  {
    joined := [];
    for i := 0 to |left|
      invariant budget.remaining <= old(budget.remaining) && (old(budget.limited) ==> budget.limited)
      invariant forall row :: row in joined ==> exists a, b :: a in left && b in right && Agree(a, b) && row == a + b
      invariant !budget.limited ==> forall a, b :: a in left[..i] && b in right && Agree(a, b) ==> a + b in joined
    {
      for j := 0 to |right|
        invariant budget.remaining <= old(budget.remaining) && (old(budget.limited) ==> budget.limited)
        invariant forall row :: row in joined ==> exists a, b :: a in left && b in right && Agree(a, b) && row == a + b
        invariant !budget.limited ==> forall a, b :: a in left[..i] && b in right && Agree(a, b) ==> a + b in joined
        invariant !budget.limited ==> forall b :: b in right[..j] && Agree(left[i], b) ==> left[i] + b in joined
      {
        var granted := budget.Step();
        if !granted {
          return;
        }
        var a, b := left[i], right[j];
        if Agree(a, b) && a + b !in joined {
          assert a in left && b in right;
          joined := joined + [a + b];
        }
        assert right[..j + 1] == right[..j] + [b];
      }
      assert right[..|right|] == right;
      assert left[..i + 1] == left[..i] + [left[i]];
    }
    assert left[..|left|] == left;
  }

  /** A use of a template: its fragments and the values that may stand there. */
  datatype Site = Site(fragments: seq<Fragment>, values: seq<Text>)

  /** Which witnesses a query looks at. */
  type Keep = Witness -> bool

  predicate Holds(text: Text, part: Text) {
    exists i: nat :: i <= |text| && HoldsAt(text, part, i)
  }

  predicate HoldsAt(text: Text, part: Text, i: nat) {
    i + |part| <= |text| && text[i..i + |part|] == part
  }

  /** The queried parameter is free, or contains the prefix up to case. */
  function Typed(parameter: Text, prefix: Text): Keep {
    (w: Witness) => Lower(parameter) in w ==> Holds(Lower(w[Lower(parameter)]), Lower(prefix))
  }

  /** A witness that the query looks at and that spells one of the values exactly. */
  ghost predicate Solves(keep: Keep, site: Site, w: Witness) {
    keep(w) && exists value :: value in site.values && Exact(site.fragments, value, w)
  }

  /** The row spells one of the values up to case. */
  ghost predicate Fills(site: Site, row: Witness) {
    Binds(row, site.fragments) && exists value :: value in site.values && SameText(Fill(site.fragments, row), value)
  }

  /** The members of a family of witnesses, one for each site, merged in site order. */
  function Merged(family: seq<Witness>): Witness {
    if family == [] then map[] else Merged(family[..|family| - 1]) + family[|family| - 1]
  }

  /** One exact witness for each site, pairwise agreeing on the names they share. */
  ghost predicate Family(keep: Keep, sites: seq<Site>, family: seq<Witness>) {
    && |family| == |sites|
    && (forall i :: 0 <= i < |sites| ==> Solves(keep, sites[i], family[i]))
    && forall i, j :: 0 <= i < j < |family| ==> Agree(family[i], family[j])
  }

  /** Some member of the family binds the name. */
  ghost predicate Named(family: seq<Witness>, n: Text) {
    exists i :: 0 <= i < |family| && n in family[i]
  }

  /** Some member of the family binds the name to the text. */
  ghost predicate Carries(family: seq<Witness>, n: Text, text: Text) {
    exists i :: 0 <= i < |family| && n in family[i] && text == family[i][n]
  }

  lemma CarriesMore(front: seq<Witness>, last: Witness, n: Text)
    ensures Named(front + [last], n) <==> Named(front, n) || n in last
    ensures forall text :: Carries(front, n, text) ==> Carries(front + [last], n, text)
    ensures n in last ==> Carries(front + [last], n, last[n])
  {
    var all := front + [last];
    assert all[|front|] == last && forall i :: 0 <= i < |front| ==> all[i] == front[i];
  }

  lemma {:induction false} MergedFrom(family: seq<Witness>, n: Text)
    ensures n in Merged(family) <==> Named(family, n)
    ensures n in Merged(family) ==> Carries(family, n, Merged(family)[n])
    decreases |family|
  {
    if family != [] {
      var front, last := family[..|family| - 1], family[|family| - 1];
      assert family == front + [last];
      MergedFrom(front, n);
      CarriesMore(front, last, n);
    }
  }

  lemma MergedAgrees(family: seq<Witness>, last: Witness)
    requires forall i :: 0 <= i < |family| ==> Agree(family[i], last)
    ensures Agree(Merged(family), last)
  {
    forall n | n in Merged(family) && n in last
      ensures SameText(Merged(family)[n], last[n])
    {
      MergedFrom(family, n);
    }
  }

  lemma {:induction false} FillSame(fragments: seq<Fragment>, v: Witness, w: Witness)
    requires Binds(v, fragments) && Binds(w, fragments) && Agree(v, w)
    ensures SameText(Fill(fragments, v), Fill(fragments, w))
    decreases fragments
  {
    if fragments != [] {
      FillHead(fragments, v);
      FillHead(fragments, w);
      FillSame(fragments[1..], v, w);
      SameTextIsEquivalence(Piece(fragments[0], v), Piece(fragments[0], v), []);
      SameTextConcat(Piece(fragments[0], v), Fill(fragments[1..], v), Piece(fragments[0], w), Fill(fragments[1..], w));
    }
  }

  /** A merged family spells a value of every site up to case. */
  lemma MergedFills(keep: Keep, sites: seq<Site>, family: seq<Witness>, i: nat)
    requires Family(keep, sites, family) && i < |sites|
    ensures Fills(sites[i], Merged(family))
  {
    var w := Merged(family);
    forall n | n in family[i]
      ensures n in w && SameText(w[n], family[i][n])
    {
      MergedFrom(family, n);
      var j :| 0 <= j < |family| && n in family[j] && w[n] == family[j][n];
      if j < i {
        assert Agree(family[j], family[i]);
      } else if i < j {
        assert Agree(family[i], family[j]);
      }
      SameTextIsEquivalence(family[i][n], family[j][n], family[i][n]);
    }
    assert Agree(w, family[i]) && Solves(keep, sites[i], family[i]);
    SolverFills(keep, sites[i], family[i], w);
  }

  lemma SolverFills(keep: Keep, site: Site, v: Witness, w: Witness)
    requires Solves(keep, site, v) && v.Keys <= w.Keys && Agree(w, v)
    ensures Fills(site, w)
  {
    var value :| value in site.values && Exact(site.fragments, value, v);
    FillSame(site.fragments, w, v);
    SameTextIsEquivalence(Fill(site.fragments, w), Fill(site.fragments, v), value);
  }

  /** The row is a merged family of the sites. */
  ghost predicate IsMerged(keep: Keep, sites: seq<Site>, row: Witness) {
    exists family :: Family(keep, sites, family) && row == Merged(family)
  }

  /** Every row is a merged family of the sites. */
  ghost predicate RowsMerge(keep: Keep, sites: seq<Site>, rows: seq<Witness>) {
    forall row :: row in rows ==> IsMerged(keep, sites, row)
  }

  /** Every family of the sites has its merged row. */
  ghost predicate RowsRepresent(keep: Keep, sites: seq<Site>, rows: seq<Witness>) {
    forall family :: Family(keep, sites, family) ==> Merged(family) in rows
  }

  lemma FamilyFront(keep: Keep, sites: seq<Site>, site: Site, front: seq<Witness>, b: Witness)
    requires |front| == |sites| && Family(keep, sites + [site], front + [b])
    ensures Family(keep, sites, front) && Solves(keep, site, b)
    ensures forall i :: 0 <= i < |front| ==> Agree(front[i], b)
  {
    var all, family := sites + [site], front + [b];
    assert all[|sites|] == site && family[|front|] == b;
    assert forall i :: 0 <= i < |front| ==> all[i] == sites[i] && family[i] == front[i];
  }

  lemma FamilySnoc(keep: Keep, sites: seq<Site>, site: Site, front: seq<Witness>, b: Witness)
    requires Family(keep, sites, front) && Solves(keep, site, b) && Agree(Merged(front), b)
    ensures Family(keep, sites + [site], front + [b])
  {
    forall i | 0 <= i < |front|
      ensures Agree(front[i], b)
    {
      forall n | n in front[i] && n in b
        ensures SameText(front[i][n], b[n])
      {
        MergedFrom(front, n);
        var j :| 0 <= j < |front| && n in front[j] && Merged(front)[n] == front[j][n];
        if i < j {
          assert Agree(front[i], front[j]);
        } else if j < i {
          assert Agree(front[j], front[i]);
        }
        SameTextIsEquivalence(front[i][n], front[j][n], b[n]);
        SameTextIsEquivalence(front[j][n], front[i][n], b[n]);
      }
    }
  }

  lemma JoinMerges(keep: Keep, sites: seq<Site>, site: Site, rows: seq<Witness>, relation: seq<Witness>, joined: seq<Witness>)
    requires RowsMerge(keep, sites, rows)
    requires forall b :: b in relation ==> Solves(keep, site, b)
    requires forall row :: row in joined ==> exists a, b :: a in rows && b in relation && Agree(a, b) && row == a + b
    ensures RowsMerge(keep, sites + [site], joined)
  {
    forall row | row in joined
      ensures IsMerged(keep, sites + [site], row)
    {
      var a, b :| a in rows && b in relation && Agree(a, b) && row == a + b;
      MergedSnoc(keep, sites, site, a, b);
    }
  }

  lemma MergedSnoc(keep: Keep, sites: seq<Site>, site: Site, a: Witness, b: Witness)
    requires IsMerged(keep, sites, a) && Solves(keep, site, b) && Agree(a, b)
    ensures IsMerged(keep, sites + [site], a + b)
  {
    var front :| Family(keep, sites, front) && a == Merged(front);
    FamilySnoc(keep, sites, site, front, b);
    MergedOne(front, b);
  }

  lemma MergedOne(front: seq<Witness>, b: Witness)
    ensures Merged(front + [b]) == Merged(front) + b
  {
    assert (front + [b])[..|front|] == front;
  }

  lemma JoinRepresents(keep: Keep, sites: seq<Site>, site: Site, rows: seq<Witness>, relation: seq<Witness>, joined: seq<Witness>)
    requires RowsRepresent(keep, sites, rows)
    requires forall b :: Solves(keep, site, b) ==> b in relation
    requires forall a, b :: a in rows && b in relation && Agree(a, b) ==> a + b in joined
    ensures RowsRepresent(keep, sites + [site], joined)
  {
    forall family | Family(keep, sites + [site], family)
      ensures Merged(family) in joined
    {
      var front, b := FamilySplits(keep, sites, site, family);
      assert Merged(front) in rows && b in relation && Agree(Merged(front), b);
    }
  }

  lemma FamilySplits(keep: Keep, sites: seq<Site>, site: Site, family: seq<Witness>) returns (front: seq<Witness>, b: Witness)
    requires Family(keep, sites + [site], family)
    ensures Family(keep, sites, front) && Solves(keep, site, b) && Agree(Merged(front), b)
    ensures Merged(family) == Merged(front) + b
  {
    front, b := family[..|sites|], family[|sites|];
    LastOf(family, |sites|);
    SplitFamily(keep, sites, site, front, b);
  }

  lemma LastOf(family: seq<Witness>, n: nat)
    requires |family| == n + 1
    ensures family == family[..n] + [family[n]]
  {
  }

  lemma SplitFamily(keep: Keep, sites: seq<Site>, site: Site, front: seq<Witness>, b: Witness)
    requires |front| == |sites| && Family(keep, sites + [site], front + [b])
    ensures Family(keep, sites, front) && Solves(keep, site, b) && Agree(Merged(front), b)
    ensures Merged(front + [b]) == Merged(front) + b
  {
    FamilyFront(keep, sites, site, front, b);
    MergedAgrees(front, b);
    MergedOne(front, b);
  }

  lemma NoMoreFamilies(keep: Keep, sites: seq<Site>, k: nat)
    requires k <= |sites| && RowsRepresent(keep, sites[..k], [])
    ensures RowsRepresent(keep, sites, []) && RowsMerge(keep, sites, [])
  {
    forall family
      ensures !Family(keep, sites, family)
    {
      if Family(keep, sites, family) {
        FamilyPrefix(keep, sites, family, k);
      }
    }
  }

  lemma FamilyPrefix(keep: Keep, sites: seq<Site>, family: seq<Witness>, k: nat)
    requires Family(keep, sites, family) && k <= |sites|
    ensures Family(keep, sites[..k], family[..k])
  {
  }

  lemma RowsFill(keep: Keep, sites: seq<Site>, rows: seq<Witness>)
    requires RowsMerge(keep, sites, rows)
    ensures forall row, i :: row in rows && 0 <= i < |sites| ==> Fills(sites[i], row)
  {
    forall row, i | row in rows && 0 <= i < |sites|
      ensures Fills(sites[i], row)
    {
      assert IsMerged(keep, sites, row);
      var family :| Family(keep, sites, family) && row == Merged(family);
      MergedFills(keep, sites, family, i);
    }
  }

  /** All witnesses that the query looks at, over all values of a site. */
  method SiteRelation(keep: Keep, site: Site, budget: SearchBudget) returns (relation: seq<Witness>)
    modifies budget
    ensures old(budget.limited) ==> budget.limited
    ensures forall b :: b in relation ==> Solves(keep, site, b)
    ensures !budget.limited ==> forall b :: Solves(keep, site, b) ==> b in relation
  {
    relation := [];
    for k := 0 to |site.values|
      invariant old(budget.limited) ==> budget.limited
      invariant forall b :: b in relation ==> Solves(keep, site, b)
      invariant !budget.limited ==>
                  forall b, j :: 0 <= j < k && keep(b) && Exact(site.fragments, site.values[j], b) ==> b in relation
    {
      var value := site.values[k];
      assert value in site.values;
      var rows := Inverse(site.fragments, value, budget);
      relation := Collected(keep, relation, rows);
    }
  }

  method Collected(keep: Keep, before: seq<Witness>, rows: seq<Witness>) returns (relation: seq<Witness>)
    ensures forall b :: b in relation <==> b in before || (b in rows && keep(b))
  {
    relation := before;
    for i := 0 to |rows|
      invariant forall b :: b in relation <==> b in before || (b in rows[..i] && keep(b))
    {
      if keep(rows[i]) && rows[i] !in relation {
        relation := relation + [rows[i]];
      }
      assert rows[..i + 1] == rows[..i] + [rows[i]];
    }
    assert rows[..|rows|] == rows;
  }

  method JoinSite(keep: Keep, ghost done: seq<Site>, site: Site, rows: seq<Witness>, budget: SearchBudget)
    returns (joined: seq<Witness>)
    requires RowsMerge(keep, done, rows) && (!budget.limited ==> RowsRepresent(keep, done, rows))
    modifies budget
    ensures old(budget.limited) ==> budget.limited
    ensures RowsMerge(keep, done + [site], joined) && (!budget.limited ==> RowsRepresent(keep, done + [site], joined))
  {
    var relation := SiteRelation(keep, site, budget);
    joined := Join(rows, relation, budget);
    JoinMerges(keep, done, site, rows, relation, joined);
    if !budget.limited {
      JoinRepresents(keep, done, site, rows, relation, joined);
    }
  }

  /** The sites that offer values; the others do not constrain the query. */
  function Constraining(sites: seq<Site>): seq<Site> {
    if sites == [] then []
    else
      var last := sites[|sites| - 1];
      Constraining(sites[..|sites| - 1]) + if last.values == [] then [] else [last]
  }

  lemma {:induction false} ConstrainingPrefix(sites: seq<Site>, k: nat)
    requires k <= |sites|
    ensures Constraining(sites[..k]) <= Constraining(sites)
    decreases |sites| - k
  {
    if k < |sites| {
      assert sites[..k + 1][..k] == sites[..k];
      ConstrainingPrefix(sites, k + 1);
    } else {
      assert sites[..k] == sites;
    }
  }

  /** Folds the join over the inversions of the constraining sites, and keeps what every site accepts. Every row
      merges one witness from each site processed. Unless work was refused, the rows are exactly the accepted
      merges of agreeing witnesses of all constraining sites; without any such site there is no row. */
  method InvertSites(sites: seq<Site>, parameter: Text, prefix: Text, accepts: (Site, Witness) -> bool, budget: SearchBudget)
    returns (rows: seq<Witness>, ghost done: seq<Site>)
    modifies budget
    ensures done <= Constraining(sites) && (done == [] ==> rows == [])
    ensures forall row :: row in rows ==> IsMerged(Typed(parameter, prefix), done, row)
    ensures forall row, i :: row in rows && 0 <= i < |done| ==> Fills(done[i], row)
    ensures forall row, site :: row in rows && site in sites ==> accepts(site, row)
    ensures !budget.limited && Constraining(sites) != [] ==> forall row :: row in rows <==>
              IsMerged(Typed(parameter, prefix), Constraining(sites), row) && forall site :: site in sites ==> accepts(site, row)
    ensures Constraining(sites) == [] ==> rows == []
  {
    var joined;
    joined, done := JoinSites(Typed(parameter, prefix), sites, budget);
    rows := Accepted(sites, accepts, joined);
  }

  /** What is joined after some sites. */
  ghost predicate JoinedTo(keep: Keep, sites: seq<Site>, done: seq<Site>, rows: seq<Witness>, limited: bool) {
    done == Constraining(sites) && RowsMerge(keep, done, rows) && (!limited ==> RowsRepresent(keep, done, rows))
  }

  lemma ConstrainingNext(sites: seq<Site>, k: nat)
    requires k < |sites|
    ensures Constraining(sites[..k + 1]) == Constraining(sites[..k]) + if sites[k].values == [] then [] else [sites[k]]
  {
    assert sites[..k + 1][..k] == sites[..k];
  }

  method JoinSites(keep: Keep, sites: seq<Site>, budget: SearchBudget) returns (rows: seq<Witness>, ghost done: seq<Site>)
    modifies budget
    ensures done <= Constraining(sites) && (done == [] ==> rows == [])
    ensures RowsMerge(keep, done, rows)
    ensures forall row, i :: row in rows && 0 <= i < |done| ==> Fills(done[i], row)
    ensures !budget.limited && Constraining(sites) != [] ==> forall row :: row in rows <==> IsMerged(keep, Constraining(sites), row)
  {
    rows, done := [map[]], [];
    assert Family(keep, [], []) && Merged([]) == map[];
    var k := 0;
    var constrained := false;
    while k < |sites| && (!constrained || (!budget.limited && rows != []))
      invariant 0 <= k <= |sites| && (constrained <==> done != [])
      invariant JoinedTo(keep, sites[..k], done, rows, budget.limited)
    {
      ConstrainingNext(sites, k);
      if sites[k].values != [] {
        rows := JoinSite(keep, done, sites[k], rows, budget);
        done, constrained := done + [sites[k]], true;
      }
      k := k + 1;
    }
    JoinEnds(keep, sites, done, rows, budget.limited, k);
    if !constrained {
      rows := [];
    }
  }

  lemma JoinEnds(keep: Keep, sites: seq<Site>, done: seq<Site>, rows: seq<Witness>, limited: bool, k: nat)
    requires k <= |sites| && JoinedTo(keep, sites[..k], done, rows, limited)
    requires k == |sites| || (done != [] && (limited || rows == []))
    ensures done <= Constraining(sites) && (done == [] ==> Constraining(sites) == [])
    ensures forall row, i :: row in rows && 0 <= i < |done| ==> Fills(done[i], row)
    ensures !limited ==> forall row :: row in rows <==> IsMerged(keep, Constraining(sites), row)
  {
    ConstrainingPrefix(sites, k);
    if k == |sites| {
      assert sites[..k] == sites;
    }
    RowsFill(keep, done, rows);
    if !limited {
      AllRepresented(keep, sites, done, rows, k);
    }
  }

  lemma AllRepresented(keep: Keep, sites: seq<Site>, done: seq<Site>, rows: seq<Witness>, k: nat)
    requires k <= |sites| && done == Constraining(sites[..k]) && done <= Constraining(sites) && (k == |sites| || rows == [])
    requires RowsMerge(keep, done, rows) && RowsRepresent(keep, done, rows)
    ensures forall row :: row in rows <==> IsMerged(keep, Constraining(sites), row)
  {
    var all := Constraining(sites);
    if k == |sites| {
      assert sites[..k] == sites;
    } else {
      assert all[..|done|] == done;
      NoMoreFamilies(keep, all, |done|);
    }
  }

  method Accepted(sites: seq<Site>, accepts: (Site, Witness) -> bool, rows: seq<Witness>) returns (kept: seq<Witness>)
    ensures |kept| <= |rows|
    ensures forall row :: row in kept <==> row in rows && forall site :: site in sites ==> accepts(site, row)
  {
    kept := [];
    for k := 0 to |rows|
      invariant |kept| <= k
      invariant forall row :: row in kept <==> row in rows[..k] && forall site :: site in sites ==> accepts(site, row)
    {
      if forall site :: site in sites ==> accepts(site, rows[k]) {
        kept := kept + [rows[k]];
      }
      assert rows[..k + 1] == rows[..k] + [rows[k]];
    }
    assert rows[..|rows|] == rows;
  }
}
