/** When a boundary, an argument and an inserted binding have a map, and which: both directions, piece by piece. */
module ArgumentLaws {
  import opened Options
  import opened Ranges
  import opened Utf8
  import opened TemplateExpansion
  import opened TemplateArguments

  /** The piece is mapped, holds the boundary or ends at it, and its map reaches that far. */
  predicate Maps(piece: Piece, at: nat, parameter: string, offset: nat) {
    && piece.mapping.Some? && piece.range.start <= at <= piece.range.end
    && at - piece.range.start < |piece.mapping.value.offsets|
    && parameter == piece.mapping.value.parameter && offset == piece.mapping.value.offsets[at - piece.range.start]
  }

  predicate Mapped(piece: Piece, at: nat) {
    && piece.mapping.Some? && piece.range.start <= at <= piece.range.end
    && at - piece.range.start < |piece.mapping.value.offsets|
  }

  /** A boundary is read in the first piece that maps it, and has no root exactly if none does. */
  lemma {:induction false} PointLaw(pieces: seq<Piece>, at: nat)
    ensures Point(pieces, at).None? <==> forall i :: 0 <= i < |pieces| ==> !Mapped(pieces[i], at)
    ensures forall i :: 0 <= i < |pieces| && Mapped(pieces[i], at) && (forall j :: 0 <= j < i ==> !Mapped(pieces[j], at)) ==>
              Point(pieces, at).Some? && Maps(pieces[i], at, Point(pieces, at).value.0, Point(pieces, at).value.1)
  {
    if pieces != [] {
      var rest := pieces[1..];
      PointLaw(rest, at);
      assert forall i :: 0 <= i < |rest| ==> rest[i] == pieces[i + 1];
      if !Mapped(pieces[0], at) {
        forall i | 0 <= i < |pieces| && Mapped(pieces[i], at) && forall j :: 0 <= j < i ==> !Mapped(pieces[j], at)
          ensures Point(pieces, at).Some? && Maps(pieces[i], at, Point(pieces, at).value.0, Point(pieces, at).value.1)
        {
          assert rest[i - 1] == pieces[i] && forall j :: 0 <= j < i - 1 ==> rest[j] == pieces[j + 1];
        }
      }
    }
  }

  /** The map lists the roots of the first boundaries of an argument, all in one parameter. */
  predicate Lists(pieces: seq<Piece>, from: nat, count: nat, source: Mapping) {
    && |source.offsets| == count
    && forall k: nat :: k < count ==> Point(pieces, from + k) == Some((source.parameter, source.offsets[k]))
  }

  /** An argument has a map exactly if each of its boundaries has a root and all of these lie in one parameter; the
      map lists them. */
  lemma {:induction false} ProjectedLaw(pieces: seq<Piece>, from: nat, count: nat, source: Mapping)
    requires count > 0
    ensures Projected(pieces, from, count) == Some(source) <==> Lists(pieces, from, count, source)
    decreases count
  {
    ListsNext(pieces, from, count - 1, source);
    if |source.offsets| == count {
      var before := source.(offsets := source.offsets[..count - 1]);
      assert source.offsets == before.offsets + [source.offsets[count - 1]];
      if count > 1 {
        ProjectedLaw(pieces, from, count - 1, before);
      }
    }
    if count > 1 && Projected(pieces, from, count) == Some(source) {
      var shorter := Projected(pieces, from, count - 1).value;
      ProjectedLaw(pieces, from, count - 1, shorter);
      assert shorter.offsets == source.offsets[..count - 1];
    }
  }

  lemma {:induction false} ListsNext(pieces: seq<Piece>, from: nat, count: nat, source: Mapping)
    ensures Lists(pieces, from, count + 1, source) <==>
            && |source.offsets| == count + 1
            && Lists(pieces, from, count, source.(offsets := source.offsets[..count]))
            && Point(pieces, from + count) == Some((source.parameter, source.offsets[count]))
  {
    if |source.offsets| == count + 1 && Lists(pieces, from, count, source.(offsets := source.offsets[..count])) {
      assert forall k: nat :: k < count ==> source.offsets[..count][k] == source.offsets[k];
    }
    if Lists(pieces, from, count + 1, source) {
      assert forall k: nat :: k < count ==> source.offsets[..count][k] == source.offsets[k];
    }
  }

  predicate SameCut(text: seq<Byte>, range: Range, value: seq<Byte>)
    requires range.end <= |text|
  {
    Length(range) == |value| && forall k :: 0 <= k < |value| ==> text[range.start + k] == value[k]
  }

  predicate FrontOf(mapping: Mapping, source: Mapping, count: nat) {
    mapping.parameter == source.parameter && |mapping.offsets| == count && mapping.offsets <= source.offsets
  }

  /** The piece inserts the binding byte for byte, and the map is the front of the binding's map that covers it. */
  predicate Inserts(text: Text, range: Range, n: string, bindings: map<string, Text>, sources: map<string, Mapping>, mapping: Mapping)
    requires range.end <= |text|
  {
    && n in bindings && n in sources
    && SameCut(text, range, bindings[n]) && FrontOf(mapping, sources[n], Length(range) + 1)
  }

  /** A piece is mapped exactly if it inserts a binding that has a map, and the map covers it. */
  lemma {:induction false} AttachedLaw(text: Text, range: Range, name: Option<string>, bindings: map<string, Text>,
                                       sources: map<string, Mapping>, mapping: Mapping)
    requires range.end <= |text|
    ensures Attached(text, range, name, bindings, sources) == Some(mapping) <==>
            name.Some? && Inserts(text, range, name.value, bindings, sources, mapping)
  {
    if name.Some? && name.value in bindings && name.value in sources {
      var value, source, count := bindings[name.value], sources[name.value], Length(range) + 1;
      AttachedIs(text, range, name.value, bindings, sources);
      CutIs(text, range, value);
      FrontIs(mapping, source, count);
    }
  }

  function Front(source: Mapping, count: nat): Option<Mapping> {
    if count <= |source.offsets| then Some(source.(offsets := source.offsets[..count])) else None
  }

  lemma {:induction false} AttachedIs(text: Text, range: Range, n: string, bindings: map<string, Text>, sources: map<string, Mapping>)
    requires range.end <= |text| && n in bindings && n in sources
    ensures Attached(text, range, Some(n), bindings, sources) ==
            if text[range.start..range.end] == bindings[n] then Front(sources[n], Length(range) + 1) else None
  {
  }

  lemma {:induction false} CutIs(text: seq<Byte>, range: Range, value: seq<Byte>)
    requires range.end <= |text|
    ensures text[range.start..range.end] == value <==> SameCut(text, range, value)
  {
    var cut := text[range.start..range.end];
    forall k | 0 <= k < |value| && |cut| == |value|
      ensures cut[k] == text[range.start + k]
    {
    }
    if SameCut(text, range, value) {
      forall k | 0 <= k < |cut|
        ensures cut[k] == value[k]
      {
      }
    }
  }

  lemma {:induction false} FrontIs(mapping: Mapping, source: Mapping, count: nat)
    ensures Front(source, count) == Some(mapping) <==> FrontOf(mapping, source, count)
  {
    if count <= |source.offsets| && FrontOf(mapping, source, count) {
      assert mapping.offsets == source.offsets[..count];
    }
  }
}
