/** Where the bytes of arguments come from: the pieces of a frame take the maps of the bindings they insert, and
    the arguments of a call take theirs from the pieces they are written in. */
module TemplateArguments {
  import opened Options
  import opened Ranges
  import opened Utf8
  import opened TemplateExpansion

  // ----- The two steps -----

  /** A piece that inserts a binding verbatim takes the binding's map. */
  function Attached(text: Text, range: Range, name: Option<string>, bindings: map<string, Text>, sources: map<string, Mapping>)
    : Option<Mapping>
    requires range.end <= |text|
  {
    if name.Some? && name.value in bindings && name.value in sources && text[range.start..range.end] == bindings[name.value]
       && Length(range) + 1 <= |sources[name.value].offsets|
    then Some(sources[name.value].(offsets := sources[name.value].offsets[..Length(range) + 1]))
    else None
  }

  /** The root offset of a boundary: that of the first mapped piece around or next to it. */
  function Point(pieces: seq<Piece>, at: nat): Option<(string, nat)> {
    if pieces == [] then None
    else
      var piece := pieces[0];
      if piece.mapping.Some? && piece.range.start <= at <= piece.range.end && at - piece.range.start < |piece.mapping.value.offsets|
      then Some((piece.mapping.value.parameter, piece.mapping.value.offsets[at - piece.range.start]))
      else Point(pieces[1..], at)
  }

  /** The map of an argument's first boundaries: each must be mapped, and all into one root argument. */
  function Projected(pieces: seq<Piece>, from: nat, count: nat): Option<Mapping>
    requires count > 0
  {
    match Point(pieces, from + count - 1)
    case None => None
    case Some((parameter, offset)) =>
      if count == 1 then Some(Mapping(parameter, [offset]))
      else match Projected(pieces, from, count - 1)
        case None => None
        case Some(before) =>
          if before.parameter == parameter then Some(before.(offsets := before.offsets + [offset])) else None
  }

  /** The projection loop of an argument. */
  method ProjectArgument(pieces: seq<Piece>, range: Range) returns (source: Option<Mapping>)
    ensures source == Projected(pieces, range.start, Length(range) + 1)
  {
    var first := Point(pieces, range.start);
    if first.None? {
      Unmapped(pieces, range.start, Length(range) + 1, 1);
      return None;
    }
    var mapping := Mapping(first.value.0, [first.value.1]);
    var count: nat := 1;
    while count < Length(range) + 1
      invariant 1 <= count <= Length(range) + 1
      invariant Projected(pieces, range.start, count) == Some(mapping)
    {
      var point := Point(pieces, range.start + count);
      if point.None? || point.value.0 != mapping.parameter {
        Unmapped(pieces, range.start, Length(range) + 1, count + 1);
        return None;
      }
      mapping := mapping.(offsets := mapping.offsets + [point.value.1]);
      count := count + 1;
    }
    source := Some(mapping);
  }

  lemma {:induction false} Unmapped(pieces: seq<Piece>, from: nat, count: nat, some: nat)
    requires 0 < some <= count && Projected(pieces, from, some).None?
    ensures Projected(pieces, from, count).None?
    decreases count
  {
    if some < count {
      Unmapped(pieces, from, count - 1, some);
    }
  }

  // ----- Right maps -----

  /** The map covers the value's boundaries, and each of its bytes agrees with its root offset. */
  ghost predicate Faithful(agrees: Agreement, value: Text, source: Mapping) {
    |source.offsets| == |value| + 1 && forall j: nat :: j < |value| ==> agrees(source.parameter, value[j], source.offsets[j])
  }

  /** The bytes of the root arguments themselves. */
  function OfRoots(roots: map<string, Text>): Agreement {
    (parameter: string, byte: Byte, offset: nat) => parameter in roots && offset < |roots[parameter]| && roots[parameter][offset] == byte
  }

  function Identity(parameter: string, value: Text): Mapping {
    Mapping(parameter, seq(|value| + 1, k requires 0 <= k < |value| + 1 => k))
  }

  /** A root argument maps to itself. */
  lemma RootIsFaithful(roots: map<string, Text>, name: string)
    requires name in roots
    ensures Faithful(OfRoots(roots), roots[name], Identity(name, roots[name]))
  {
  }

  /** A binding with a faithful map gives every piece that inserts it a right one. */
  lemma AttachedIsRight(agrees: Agreement, text: Text, piece: Piece, name: Option<string>, bindings: map<string, Text>,
                        sources: map<string, Mapping>)
    requires piece.range.end <= |text| && piece.mapping == Attached(text, piece.range, name, bindings, sources)
    requires name.Some? && name.value in bindings && name.value in sources ==>
               Faithful(agrees, bindings[name.value], sources[name.value])
    ensures MapsRight(agrees, text, piece)
  {
    if piece.mapping.Some? {
      forall j: nat | j < Length(piece.range)
        ensures AgreesAt(agrees, text, piece, j)
      {
        var value, source := bindings[name.value], sources[name.value];
        assert Faithful(agrees, value, source);
        SliceAgrees(agrees, text, piece, value, source, j);
      }
    }
  }

  lemma SliceAgrees(agrees: Agreement, text: Text, piece: Piece, value: Text, source: Mapping, j: nat)
    requires piece.range.end <= |text| && text[piece.range.start..piece.range.end] == value && Faithful(agrees, value, source)
    requires piece.mapping == Some(source.(offsets := source.offsets[..Length(piece.range) + 1])) && j < Length(piece.range)
    ensures AgreesAt(agrees, text, piece, j)
  {
    assert value[j] == text[piece.range.start + j];
    assert piece.mapping.value.offsets[j] == source.offsets[j];
  }

  /** No mapped piece ends inside the argument: then each of its bytes is read in the piece that holds it. A
      parameter used twice in a row breaks this. */
  predicate Clean(pieces: seq<Piece>, range: Range) {
    forall i :: 0 <= i < |pieces| && pieces[i].mapping.Some? ==> !(range.start <= pieces[i].range.end < range.end)
  }

  lemma {:induction false} PointAgrees(agrees: Agreement, text: Text, pieces: seq<Piece>, range: Range, at: nat)
    requires forall i :: 0 <= i < |pieces| ==> MapsRight(agrees, text, pieces[i])
    requires Clean(pieces, range) && range.start <= at < range.end <= |text|
    ensures var point := Point(pieces, at); point.Some? ==> agrees(point.value.0, text[at], point.value.1)
    decreases pieces
  {
    if pieces != [] {
      var piece := pieces[0];
      if piece.mapping.Some? && piece.range.start <= at <= piece.range.end {
        assert at < piece.range.end;
        assert AgreesAt(agrees, text, piece, at - piece.range.start);
      } else {
        PointAgrees(agrees, text, pieces[1..], range, at);
      }
    }
  }

  lemma {:induction false} ProjectedAgrees(agrees: Agreement, text: Text, pieces: seq<Piece>, range: Range, count: nat)
    requires forall i :: 0 <= i < |pieces| ==> MapsRight(agrees, text, pieces[i])
    requires Clean(pieces, range) && range.end <= |text| && 0 < count <= Length(range) + 1
    ensures var source := Projected(pieces, range.start, count);
            source.Some? ==>
              && |source.value.offsets| == count
              && forall j: nat :: j < count && j < Length(range) ==>
                   agrees(source.value.parameter, text[range.start + j], source.value.offsets[j])
    decreases count
  {
    if count > 1 {
      ProjectedAgrees(agrees, text, pieces, range, count - 1);
    }
    if count <= Length(range) {
      PointAgrees(agrees, text, pieces, range, range.start + count - 1);
    }
  }

  /** An argument written cleanly has a faithful map, if it has one. */
  lemma ProjectedIsFaithful(agrees: Agreement, r: Rendered, range: Range, value: Text)
    requires AllMapRight(agrees, r) && Clean(r.pieces, range) && Cuts(r.text, range) && value == Cut(r.text, range)
    ensures var source := Projected(r.pieces, range.start, Length(range) + 1);
            source.Some? ==> Faithful(agrees, value, source.value)
  {
    ProjectedAgrees(agrees, r.text, r.pieces, range, Length(range) + 1);
  }

  // ----- A whole program -----

  /** The bindings of every call with their maps, and the binding that each piece of a frame inserts. */
  datatype Wiring = Wiring(bindings: Call -> map<string, Text>, sources: Call -> map<string, Mapping>,
                           names: Call -> seq<Option<string>>)

  /** The pieces of a frame carry the maps of the bindings they insert verbatim, and no others: text has none. */
  ghost predicate FrameWired(p: Program, w: Wiring, call: Call) {
    var r, names := p.frame(call).rendered, w.names(call);
    && |names| == |r.pieces|
    && forall i :: 0 <= i < |r.pieces| ==>
         r.pieces[i].range.end <= |r.text|
         && r.pieces[i].mapping == Attached(r.text, r.pieces[i].range, names[i], w.bindings(call), w.sources(call))
  }

  /** The argument is written at a clean range of the frame, and its map is projected from there. */
  ghost predicate WrittenAt(r: Rendered, range: Range, value: Text, source: Mapping) {
    Cuts(r.text, range) && Clean(r.pieces, range) && value == Cut(r.text, range)
    && Projected(r.pieces, range.start, Length(range) + 1) == Some(source)
  }

  ghost predicate CallWired(p: Program, w: Wiring, caller: Call, callee: Call) {
    forall name :: name in w.sources(callee) && name in w.bindings(callee) ==>
      exists range :: WrittenAt(p.frame(caller).rendered, range, w.bindings(callee)[name], w.sources(callee)[name])
  }

  ghost predicate Wired(p: Program, w: Wiring) {
    forall call ::
      FrameWired(p, w, call) && forall site :: site in Sites(p.frame(call)) ==> CallWired(p, w, call, site.call)
  }

  ghost predicate SourcesRight(agrees: Agreement, w: Wiring, call: Call) {
    forall name :: name in w.sources(call) && name in w.bindings(call) ==> Faithful(agrees, w.bindings(call)[name], w.sources(call)[name])
  }

  /** A call whose bindings have faithful maps has a frame that maps right. */
  lemma FrameIsRight(agrees: Agreement, p: Program, w: Wiring, call: Call)
    requires FrameWired(p, w, call) && SourcesRight(agrees, w, call)
    ensures AllMapRight(agrees, p.frame(call).rendered)
  {
    var r := p.frame(call).rendered;
    forall i | 0 <= i < |r.pieces|
      ensures MapsRight(agrees, r.text, r.pieces[i])
    {
      AttachedIsRight(agrees, r.text, r.pieces[i], w.names(call)[i], w.bindings(call), w.sources(call));
    }
  }

  /** And what it calls has bindings with faithful maps again. */
  lemma CalleeIsRight(agrees: Agreement, p: Program, w: Wiring, caller: Call, callee: Call)
    requires AllMapRight(agrees, p.frame(caller).rendered) && CallWired(p, w, caller, callee)
    ensures SourcesRight(agrees, w, callee)
  {
    var r := p.frame(caller).rendered;
    forall name | name in w.sources(callee) && name in w.bindings(callee)
      ensures Faithful(agrees, w.bindings(callee)[name], w.sources(callee)[name])
    {
      var range :| WrittenAt(r, range, w.bindings(callee)[name], w.sources(callee)[name]);
      ProjectedIsFaithful(agrees, r, range, w.bindings(callee)[name]);
    }
  }

  ghost function RightCalls(agrees: Agreement, w: Wiring): iset<Call> {
    iset call | SourcesRight(agrees, w, call)
  }

  lemma RightCallsAreClosed(agrees: Agreement, p: Program, w: Wiring)
    requires Wired(p, w)
    ensures Closed(agrees, p, RightCalls(agrees, w))
  {
    forall call | call in RightCalls(agrees, w)
      ensures AllMapRight(agrees, p.frame(call).rendered)
      ensures forall site :: site in Sites(p.frame(call)) ==> site.call in RightCalls(agrees, w)
    {
      FrameIsRight(agrees, p, w, call);
      forall site | site in Sites(p.frame(call))
        ensures site.call in RightCalls(agrees, w)
      {
        CalleeIsRight(agrees, p, w, call, site.call);
      }
    }
  }

  /** Every mapped byte of the output is the byte of a root argument at its offset: however deep arguments are
      forwarded, as long as bindings are inserted verbatim and arguments are written cleanly. */
  lemma OutputComesFromRoots(p: Program, w: Wiring, call: Call, roots: map<string, Text>)
    requires Wired(p, w) && w.bindings(call) == roots
    requires w.sources(call) == map name | name in roots :: Identity(name, roots[name])
    ensures AllMapRight(OfRoots(roots), Run(p, State([Enter(call)], Empty, {}, 0, 0, false)).output)
  {
    var agrees := OfRoots(roots);
    forall name | name in w.sources(call)
      ensures Faithful(agrees, w.bindings(call)[name], w.sources(call)[name])
    {
      RootIsFaithful(roots, name);
    }
    RightCallsAreClosed(agrees, p, w);
    ExpansionMapsRight(agrees, p, RightCalls(agrees, w), call);
  }

  /** A parameter used twice in a row: the byte behind the first use is read at the end of the first piece. */
  lemma RepeatedUseSlips(a: Byte, b: Byte)
    requires a != b && !Continuation(a) && !Continuation(b)
    ensures var roots := map["p" := [a, b]];
            var map' := Some(Identity("p", [a, b]));
            var r := Rendered([a, b, a, b], [Piece(Bounds(0, 2), {"p"}, map'), Piece(Bounds(2, 4), {"p"}, map')], [], [], {});
            && AllMapRight(OfRoots(roots), r) && !Clean(r.pieces, Bounds(0, 4))
            && var source := Projected(r.pieces, 0, 5);
               source.Some? && !Faithful(OfRoots(roots), [a, b, a, b], source.value)
  {
    var roots, whole: Text := map["p" := [a, b]], [a, b, a, b];
    var map' := Some(Identity("p", [a, b]));
    var first, second := Piece(Bounds(0, 2), {"p"}, map'), Piece(Bounds(2, 4), {"p"}, map');
    var r := Rendered(whole, [first, second], [], [], {});
    forall i, j: nat | 0 <= i < 2 && j < 2
      ensures AgreesAt(OfRoots(roots), whole, r.pieces[i], j)
    {
    }
    assert r.pieces[1..] == [second] && r.pieces[1..][0] == second;
    assert Point(r.pieces, 0) == Some(("p", 0)) && Point(r.pieces, 1) == Some(("p", 1)) && Point(r.pieces, 2) == Some(("p", 2));
    assert Point([second], 3) == Some(("p", 1)) && Point(r.pieces, 3) == Some(("p", 1));
    assert Point([second], 4) == Some(("p", 2)) && Point(r.pieces, 4) == Some(("p", 2));
    assert [0] + [1] == [0, 1] && [0, 1] + [2] == [0, 1, 2];
    assert [0, 1, 2] + [1] == [0, 1, 2, 1] && [0, 1, 2, 1] + [2] == [0, 1, 2, 1, 2];
    assert Projected(r.pieces, 0, 1) == Some(Mapping("p", [0]));
    assert Projected(r.pieces, 0, 2) == Some(Mapping("p", [0, 1]));
    assert Projected(r.pieces, 0, 3) == Some(Mapping("p", [0, 1, 2]));
    assert Projected(r.pieces, 0, 4) == Some(Mapping("p", [0, 1, 2, 1]));
    assert Projected(r.pieces, 0, 5) == Some(Mapping("p", [0, 1, 2, 1, 2]));
    assert !OfRoots(roots)("p", whole[2], 2);
    assert r.pieces[0].range.end == 2;
  }
}
