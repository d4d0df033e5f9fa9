/** What a witness of a template is, told on the bytes of the value: where each fragment stands in it. */
module RelationLaws {
  import opened Utf8
  import opened TemplateRelations

  // ----- Bytes -----

  predicate SameLetter(a: Byte, b: Byte) {
    a == b || (65 <= a <= 90 && a + 32 == b) || (65 <= b <= 90 && b + 32 == a)
  }

  /** The texts agree up to ASCII case. */
  predicate SameBytes(a: seq<Byte>, b: seq<Byte>) {
    |a| == |b| && forall i :: 0 <= i < |a| ==> SameLetter(a[i], b[i])
  }

  lemma {:induction false} SameTextLaw(a: seq<Byte>, b: seq<Byte>)
    ensures SameText(a, b) <==> SameBytes(a, b)
  {
  }

  /** Names are folded to lower-case ASCII letters. */
  lemma {:induction false} LowerLaw(s: Text)
    ensures |Lower(s)| == |s|
    ensures forall i :: 0 <= i < |s| ==> Lower(s)[i] == if 65 <= s[i] <= 90 then s[i] + 32 else s[i]
  {
  }

  /** A place is at a character unless the byte there continues one. */
  lemma {:induction false} BoundaryLaw(s: seq<Byte>, i: nat)
    ensures Boundary(s, i) <==> i == 0 || i == |s| || (i < |s| && !(0x80 <= s[i] <= 0xBF))
  {
  }

  // ----- Witnesses -----

  /** The i-th fragment is the first to use its name. */
  predicate UsesFirst(fragments: seq<Fragment>, i: nat) {
    && i < |fragments| && fragments[i].Parameter?
    && forall j :: 0 <= j < i && fragments[j].Parameter? ==> Lower(fragments[j].name) != Lower(fragments[i].name)
  }

  /** The fragment stands for the slice: a literal up to case, a parameter as it is bound, up to case; where a name
      is used first its binding is the slice itself. */
  ghost predicate StandsFor(fragments: seq<Fragment>, w: Witness, i: nat, slice: seq<Byte>)
    requires i < |fragments|
  {
    match fragments[i]
    case Literal(text) => SameBytes(text, slice)
    case Parameter(name) =>
      && Lower(name) in w && SameBytes(w[Lower(name)], slice) && (UsesFirst(fragments, i) ==> w[Lower(name)] == slice)
  }

  /** The i-th fragment stands for what lies between its place and the next. */
  ghost predicate CutAt(fragments: seq<Fragment>, value: Text, w: Witness, places: seq<nat>, i: nat)
    requires i < |fragments| && |places| == |fragments| + 1
  {
    places[i] <= places[i + 1] <= |value| && StandsFor(fragments, w, i, value[places[i]..places[i + 1]])
  }

  /** The places cut the value into one slice for each fragment. */
  ghost predicate Cuts(fragments: seq<Fragment>, value: Text, w: Witness, places: seq<nat>) {
    && |places| == |fragments| + 1 && places[0] == 0 && places[|fragments|] == |value|
    && forall i: nat :: i < |fragments| ==> CutAt(fragments, value, w, places, i)
  }

  lemma {:induction false} FirstUseLaw(fragments: seq<Fragment>, i: nat)
    ensures FirstUse(fragments, i) <==> UsesFirst(fragments, i)
  {
    if i < |fragments| && fragments[i].Parameter? {
      var front := fragments[..i];
      if NameOf(fragments[i]) in Names(front) {
        var j :| 0 <= j < |front| && front[j].Parameter? && NameOf(front[j]) == NameOf(fragments[i]);
        assert fragments[j] == front[j];
      }
      if j :| 0 <= j < i && fragments[j].Parameter? && Lower(fragments[j].name) == Lower(fragments[i].name) {
        assert front[j] == fragments[j];
      }
    }
  }

  /** Where the i-th fragment begins in what a witness spells. */
  function Begin(fragments: seq<Fragment>, w: Witness, i: nat): nat
    requires i <= |fragments| && Binds(w, fragments)
  {
    NamesOfFront(fragments, i);
    |Fill(fragments[..i], w)|
  }

  lemma {:induction false} NamesOfFront(fragments: seq<Fragment>, i: nat)
    requires i <= |fragments|
    ensures Names(fragments[..i]) <= Names(fragments)
  {
    forall n | n in Names(fragments[..i])
      ensures n in Names(fragments)
    {
      var j :| 0 <= j < i && fragments[..i][j].Parameter? && NameOf(fragments[..i][j]) == n;
      assert fragments[j] == fragments[..i][j];
    }
  }

  lemma {:induction false} BeginNext(fragments: seq<Fragment>, w: Witness, i: nat)
    requires i < |fragments| && Binds(w, fragments)
    ensures fragments[i].Parameter? ==> NameOf(fragments[i]) in w
    ensures Binds(w, fragments[..i]) && Binds(w, fragments[..i + 1])
    ensures Fill(fragments[..i + 1], w) == Fill(fragments[..i], w) + Piece(fragments[i], w)
  {
    NamesOfFront(fragments, i);
    NamesOfFront(fragments, i + 1);
    assert fragments[..i + 1] == fragments[..i] + [fragments[i]];
    FillSnoc(fragments[..i], fragments[i], w);
  }

  lemma {:induction false} FillPrefix(fragments: seq<Fragment>, w: Witness, i: nat)
    requires i <= |fragments| && Binds(w, fragments)
    ensures Binds(w, fragments[..i]) && Fill(fragments[..i], w) <= Fill(fragments, w)
    decreases |fragments| - i
  {
    NamesOfFront(fragments, i);
    if i < |fragments| {
      BeginNext(fragments, w, i);
      FillPrefix(fragments, w, i + 1);
    } else {
      assert fragments[..i] == fragments;
    }
  }

  /** The pieces of a witness begin where the places say, as long as the slices have their lengths. */
  lemma {:induction false} PlacesAreBegins(fragments: seq<Fragment>, value: Text, w: Witness, places: seq<nat>, i: nat)
    requires Binds(w, fragments) && i <= |fragments| && Cuts(fragments, value, w, places)
    ensures places[i] <= |value| && Binds(w, fragments[..i])
    ensures SameText(Fill(fragments[..i], w), value[..places[i]])
  {
    NamesOfFront(fragments, i);
    if i == 0 {
      assert fragments[..0] == [];
    } else {
      PlacesAreBegins(fragments, value, w, places, i - 1);
      assert CutAt(fragments, value, w, places, i - 1);
      NextBegin(fragments, value, w, i - 1, places[i - 1], places[i]);
    }
  }

  lemma {:induction false} NextBegin(fragments: seq<Fragment>, value: Text, w: Witness, i: nat, from: nat, to: nat)
    requires Binds(w, fragments) && i < |fragments| && from <= to <= |value|
    requires Binds(w, fragments[..i]) && SameText(Fill(fragments[..i], w), value[..from])
    requires StandsFor(fragments, w, i, value[from..to])
    ensures Binds(w, fragments[..i + 1]) && SameText(Fill(fragments[..i + 1], w), value[..to])
  {
    BeginNext(fragments, w, i);
    var slice := value[from..to];
    SameTextLaw(Piece(fragments[i], w), slice);
    assert value[..to] == value[..from] + slice;
    SameTextConcat(Fill(fragments[..i], w), Piece(fragments[i], w), value[..from], slice);
  }

  ghost predicate NamesAll(fragments: seq<Fragment>, w: Witness) {
    forall n :: n in w <==> exists i :: 0 <= i < |fragments| && fragments[i].Parameter? && Lower(fragments[i].name) == n
  }

  lemma {:induction false} NamesLaw(fragments: seq<Fragment>, w: Witness)
    ensures w.Keys == Names(fragments) <==> NamesAll(fragments, w)
  {
    assert forall n :: n in Names(fragments) <==>
             exists i :: 0 <= i < |fragments| && fragments[i].Parameter? && Lower(fragments[i].name) == n;
  }

  lemma {:induction false} CutsAreExact(fragments: seq<Fragment>, value: Text, w: Witness, places: seq<nat>)
    requires w.Keys == Names(fragments) && Cuts(fragments, value, w, places)
    ensures Exact(fragments, value, w)
  {
    PlacesAreBegins(fragments, value, w, places, |fragments|);
    assert fragments[..|fragments|] == fragments && value[..|value|] == value;
    forall i: nat | i < |fragments| && FirstUse(fragments, i)
      ensures SlicedAt(fragments, value, w, i)
    {
      PlacesAreBegins(fragments, value, w, places, i);
      assert CutAt(fragments, value, w, places, i);
      CutIsSliced(fragments, value, w, i, places[i], places[i + 1]);
    }
  }

  lemma {:induction false} CutIsSliced(fragments: seq<Fragment>, value: Text, w: Witness, i: nat, from: nat, to: nat)
    requires i < |fragments| && FirstUse(fragments, i) && from <= to <= |value|
    requires Binds(w, fragments[..i]) && SameText(Fill(fragments[..i], w), value[..from])
    requires StandsFor(fragments, w, i, value[from..to])
    ensures SlicedAt(fragments, value, w, i)
  {
    FirstUseLaw(fragments, i);
  }

  /** Where each fragment begins in the value. */
  function Begins(fragments: seq<Fragment>, w: Witness): (places: seq<nat>)
    requires Binds(w, fragments)
    ensures |places| == |fragments| + 1
    ensures forall i :: 0 <= i <= |fragments| ==> places[i] == Begin(fragments, w, i)
  {
    seq(|fragments| + 1, i requires 0 <= i <= |fragments| => Begin(fragments, w, i))
  }

  lemma {:induction false} ExactCuts(fragments: seq<Fragment>, value: Text, w: Witness)
    requires Exact(fragments, value, w)
    ensures Cuts(fragments, value, w, Begins(fragments, w))
  {
    var places := Begins(fragments, w);
    assert fragments[..|fragments|] == fragments && fragments[..0] == [];
    forall i: nat | i < |fragments|
      ensures CutAt(fragments, value, w, places, i)
    {
      ExactCut(fragments, value, w, i);
      assert places[i] == Begin(fragments, w, i) && places[i + 1] == Begin(fragments, w, i + 1);
    }
  }

  lemma {:induction false} ExactCut(fragments: seq<Fragment>, value: Text, w: Witness, i: nat)
    requires Exact(fragments, value, w) && i < |fragments|
    ensures var from, to := Begin(fragments, w, i), Begin(fragments, w, i + 1);
            from <= to <= |value| && StandsFor(fragments, w, i, value[from..to])
  {
    BeginNext(fragments, w, i);
    FillPrefix(fragments, w, i + 1);
    var front, piece := Fill(fragments[..i], w), Piece(fragments[i], w);
    PieceStands(fragments, value, w, i, front, piece);
    assert Begin(fragments, w, i) == |front|;
    assert Begin(fragments, w, i + 1) == |front + piece|;
  }

  lemma {:induction false} PieceStands(fragments: seq<Fragment>, value: Text, w: Witness, i: nat, front: Text, piece: Text)
    requires Exact(fragments, value, w) && i < |fragments|
    requires Binds(w, fragments[..i]) && front == Fill(fragments[..i], w)
    requires (fragments[i].Parameter? ==> NameOf(fragments[i]) in w) && piece == Piece(fragments[i], w)
    requires front + piece <= Fill(fragments, w)
    ensures |front| + |piece| <= |value|
    ensures StandsFor(fragments, w, i, value[|front|..|front| + |piece|])
  {
    PieceIsSlice(front, piece, Fill(fragments, w), value);
    if FirstUse(fragments, i) {
      FirstIsSlice(fragments, value, w, i);
    }
    PieceStandsFor(fragments, w, i, value[|front|..|front| + |piece|]);
  }

  lemma {:induction false} FirstIsSlice(fragments: seq<Fragment>, value: Text, w: Witness, i: nat)
    requires Exact(fragments, value, w) && FirstUse(fragments, i)
    ensures Binds(w, fragments[..i]) && NameOf(fragments[i]) in w
    ensures var from := |Fill(fragments[..i], w)|;
            from + |w[NameOf(fragments[i])]| <= |value|
            && w[NameOf(fragments[i])] == value[from..from + |w[NameOf(fragments[i])]|]
  {
    assert SlicedAt(fragments, value, w, i);
  }

  lemma {:induction false} PieceStandsFor(fragments: seq<Fragment>, w: Witness, i: nat, slice: Text)
    requires i < |fragments| && (fragments[i].Parameter? ==> NameOf(fragments[i]) in w)
    requires SameBytes(Piece(fragments[i], w), slice)
    requires FirstUse(fragments, i) ==> Piece(fragments[i], w) == slice
    ensures StandsFor(fragments, w, i, slice)
  {
    FirstUseLaw(fragments, i);
  }

  lemma {:induction false} PieceIsSlice(front: Text, piece: Text, whole: Text, value: Text)
    requires front + piece <= whole && SameText(whole, value)
    ensures |front| + |piece| <= |value| && SameBytes(piece, value[|front|..|front| + |piece|])
  {
    var slice := value[|front|..|front| + |piece|];
    forall k | 0 <= k < |piece|
      ensures SameLetter(piece[k], slice[k])
    {
      assert (front + piece)[|front| + k] == piece[k];
      assert whole[|front| + k] == piece[k] && slice[k] == value[|front| + k];
      assert LowerByte(whole[|front| + k]) == LowerByte(value[|front| + k]);
    }
  }

  /** A witness is exact if and only if it binds the names of the fragments and the value falls into one slice for
      each of them. */
  lemma {:induction false} ExactLaw(fragments: seq<Fragment>, value: Text, w: Witness)
    ensures Exact(fragments, value, w) <==>
            NamesAll(fragments, w) && exists places :: Cuts(fragments, value, w, places)
  {
    NamesLaw(fragments, w);
    if Exact(fragments, value, w) {
      ExactCuts(fragments, value, w);
    }
    if NamesAll(fragments, w) && exists places :: Cuts(fragments, value, w, places) {
      var places :| Cuts(fragments, value, w, places);
      CutsAreExact(fragments, value, w, places);
    }
  }

  /** The queried parameter is unbound, or the typed text stands somewhere in its binding, up to ASCII case. */
  lemma {:induction false} TypedLaw(parameter: Text, prefix: Text, w: Witness)
    ensures Typed(parameter, prefix)(w) <==>
            (Lower(parameter) in w ==> exists i: nat :: StandsAt(w[Lower(parameter)], prefix, i))
  {
    if Lower(parameter) in w {
      var text := w[Lower(parameter)];
      forall i: nat
        ensures HoldsAt(Lower(text), Lower(prefix), i) <==> StandsAt(text, prefix, i)
      {
        StandsLaw(text, prefix, i);
      }
      if i: nat :| StandsAt(text, prefix, i) {
        assert HoldsAt(Lower(text), Lower(prefix), i);
      }
      if Holds(Lower(text), Lower(prefix)) {
        var i: nat :| i <= |Lower(text)| && HoldsAt(Lower(text), Lower(prefix), i);
        assert StandsAt(text, prefix, i);
      }
    }
  }

  predicate StandsAt(text: Text, part: Text, i: nat) {
    i + |part| <= |text| && SameBytes(text[i..i + |part|], part)
  }

  lemma {:induction false} StandsLaw(text: Text, part: Text, i: nat)
    ensures HoldsAt(Lower(text), Lower(part), i) <==> StandsAt(text, part, i)
  {
    if i + |part| <= |text| {
      SameTextLaw(text[i..i + |part|], part);
      assert |Lower(text)[i..i + |part|]| == |Lower(part)|;
      forall k | 0 <= k < |part|
        ensures Lower(text)[i..i + |part|][k] == LowerByte(text[i..i + |part|][k]) && Lower(part)[k] == LowerByte(part[k])
      {
      }
    }
  }

  /** The constraining sites are those with a value, in the order in which they stand. */
  lemma {:induction false} ConstrainingLaw(sites: seq<Site>) returns (places: seq<nat>)
    ensures |places| == |Constraining(sites)|
    ensures forall i :: 0 <= i < |places| ==> places[i] < |sites| && Constraining(sites)[i] == sites[places[i]]
    ensures forall i, j :: 0 <= i < j < |places| ==> places[i] < places[j]
    ensures forall k :: 0 <= k < |sites| ==> (k in places <==> sites[k].values != [])
    decreases |sites|
  {
    places := [];
    if sites != [] {
      var front := sites[..|sites| - 1];
      places := ConstrainingLaw(front);
      if sites[|sites| - 1].values != [] {
        places := places + [|sites| - 1];
      }
    }
  }

  // ----- Joins -----

  /** Two rows agree if they bind what both bind alike, up to case. */
  lemma {:induction false} AgreeLaw(a: Witness, b: Witness)
    ensures Agree(a, b) <==> forall n :: n in a && n in b ==> SameBytes(b[n], a[n])
  {
    forall n | n in a && n in b
      ensures SameText(a[n], b[n]) <==> SameBytes(b[n], a[n])
    {
      SameTextLaw(a[n], b[n]);
    }
  }

  /** In a merged row each name is bound as by the last member that binds it. */
  lemma {:induction false} MergedLaw(family: seq<Witness>, n: Text)
    ensures n in Merged(family) <==> exists i :: 0 <= i < |family| && n in family[i]
    ensures n in Merged(family) ==>
              exists i :: 0 <= i < |family| && n in family[i] && Merged(family)[n] == family[i][n]
                          && forall j :: i < j < |family| ==> n !in family[j]
    decreases |family|
  {
    if family != [] {
      var front, last := family[..|family| - 1], family[|family| - 1];
      MergedLaw(front, n);
      assert family == front + [last];
    }
  }
}
