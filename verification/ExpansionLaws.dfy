/** What call expansion does in terms of frames alone: which properties are call sites, what a slice carries over,
    and when an expansion finishes. */
module ExpansionLaws {
  import opened Options
  import opened Ranges
  import opened Utf8
  import opened Sorting
  import opened TemplateExpansion

  // ----- Call sites -----

  /** An earlier recognised property encloses the property. */
  ghost predicate Enclosed(properties: seq<Property>, i: nat)
    requires i < |properties|
  {
    exists j :: 0 <= j < i && !properties[j].use.Ignored? && Within(properties[i].range, properties[j].range)
  }

  ghost predicate Called(properties: seq<Property>, i: nat) {
    i < |properties| && properties[i].use.Invokes? && !Enclosed(properties, i)
  }

  ghost predicate Unavailable(properties: seq<Property>, i: nat) {
    i < |properties| && properties[i].use.Missing? && !Enclosed(properties, i)
  }

  ghost predicate Rising(places: seq<nat>) {
    forall a, b :: 0 <= a < b < |places| ==> places[a] < places[b]
  }

  /** The sites are the called properties, each once, in their order, with their own range and call. */
  ghost predicate SitesAt(properties: seq<Property>, sites: seq<Site>, places: seq<nat>) {
    && |places| == |sites| && Rising(places) && (forall i :: i in places <==> Called(properties, i))
    && forall k :: 0 <= k < |places| ==>
         Called(properties, places[k])
         && sites[k] == Site(properties[places[k]].range, properties[places[k]].use.call)
  }

  /** What has been selected covers exactly what a recognised property encloses. */
  ghost predicate CoversAll(properties: seq<Property>, covered: seq<Range>) {
    forall range: Range :: Covered(covered, range) <==>
      exists j :: 0 <= j < |properties| && !properties[j].use.Ignored? && Within(range, properties[j].range)
  }

  ghost predicate MissingAt(properties: seq<Property>, selection: Selection) {
    && (selection.missing <==> exists i: nat :: Unavailable(properties, i))
    && forall range :: range in selection.unresolved <==>
         exists i: nat :: Unavailable(properties, i) && properties[i].use.value == Some(range)
  }

  lemma {:induction false} EnclosedStays(front: seq<Property>, last: Property, i: nat)
    requires i < |front|
    ensures Enclosed(front + [last], i) <==> Enclosed(front, i)
  {
    var all := front + [last];
    if j :| 0 <= j < i && !all[j].use.Ignored? && Within(all[i].range, all[j].range) {
      assert front[j] == all[j];
    }
    if j :| 0 <= j < i && !front[j].use.Ignored? && Within(front[i].range, front[j].range) {
      assert front[j] == all[j];
    }
  }

  lemma {:induction false} LastEnclosed(front: seq<Property>, last: Property, covered: seq<Range>)
    requires CoversAll(front, covered)
    ensures Enclosed(front + [last], |front|) <==> Covered(covered, last.range)
  {
    var all := front + [last];
    assert all[|front|] == last && forall j :: 0 <= j < |front| ==> all[j] == front[j];
  }

  lemma {:induction false} CoversNext(front: seq<Property>, last: Property, before: Selection)
    requires CoversAll(front, before.covered)
    ensures CoversAll(front + [last], Select(before, last).covered)
  {
    var all, after := front + [last], Select(before, last).covered;
    assert all[|front|] == last && forall j :: 0 <= j < |front| ==> all[j] == front[j];
    forall range: Range
      ensures Covered(after, range) <==>
              exists j :: 0 <= j < |all| && !all[j].use.Ignored? && Within(range, all[j].range)
    {
      CoversOne(front, last, before, range);
    }
  }

  lemma {:induction false} CoversOne(front: seq<Property>, last: Property, before: Selection, range: Range)
    requires CoversAll(front, before.covered)
    ensures var all := front + [last];
            Covered(Select(before, last).covered, range) <==>
            exists j :: 0 <= j < |all| && !all[j].use.Ignored? && Within(range, all[j].range)
  {
    var all, after := front + [last], Select(before, last).covered;
    assert all[|front|] == last && forall j :: 0 <= j < |front| ==> all[j] == front[j];
    if Covered(after, range) {
      var i :| 0 <= i < |after| && Within(range, after[i]);
      if i < |before.covered| {
        assert Covered(before.covered, range);
        var j :| 0 <= j < |front| && !front[j].use.Ignored? && Within(range, front[j].range);
        assert Within(range, all[j].range);
      } else {
        assert Within(range, all[|front|].range);
      }
    }
    if j :| 0 <= j < |all| && !all[j].use.Ignored? && Within(range, all[j].range) {
      if j < |front| {
        assert Within(range, front[j].range);
        assert Covered(before.covered, range);
        var i :| 0 <= i < |before.covered| && Within(range, before.covered[i]);
        assert after[i] == before.covered[i];
      } else if Covered(before.covered, last.range) {
        var i :| 0 <= i < |before.covered| && Within(last.range, before.covered[i]);
        assert Within(range, after[i]);
      } else {
        assert after[|before.covered|] == last.range;
      }
    }
  }

  /** Whatever the list of properties: which of them are call sites, and which lack their callee. */
  lemma {:induction false} SelectionLaw(properties: seq<Property>) returns (places: seq<nat>)
    ensures var selection := Selected(properties);
            && SitesAt(properties, selection.sites, places)
            && CoversAll(properties, selection.covered) && MissingAt(properties, selection)
    decreases |properties|
  {
    places := [];
    if properties != [] {
      var front, last := properties[..|properties| - 1], properties[|properties| - 1];
      assert properties == front + [last];
      places := SelectionLaw(front);
      var before := Selected(front);
      LastEnclosed(front, last, before.covered);
      CoversNext(front, last, before);
      MissingNext(front, last, before);
      places := SitesNext(front, last, before, places);
    }
  }

  lemma {:induction false} MissingNext(front: seq<Property>, last: Property, before: Selection)
    requires MissingAt(front, before)
    requires Enclosed(front + [last], |front|) <==> Covered(before.covered, last.range)
    ensures MissingAt(front + [last], Select(before, last))
  {
    var all, after := front + [last], Select(before, last);
    assert all[|front|] == last;
    forall i: nat
      ensures Unavailable(all, i) <==> Unavailable(front, i) || (i == |front| && last.use.Missing? && !Covered(before.covered, last.range))
    {
      if i < |front| {
        EnclosedStays(front, last, i);
      }
    }
    if last.use.Missing? && !Covered(before.covered, last.range) {
      assert Unavailable(all, |front|);
    }
    forall range
      ensures range in after.unresolved <==> exists i: nat :: Unavailable(all, i) && all[i].use.value == Some(range)
    {
      if i: nat :| Unavailable(front, i) && front[i].use.value == Some(range) {
        assert Unavailable(all, i) && all[i] == front[i];
      }
    }
  }

  lemma {:induction false} SitesNext(front: seq<Property>, last: Property, before: Selection, places: seq<nat>) returns (next: seq<nat>)
    requires SitesAt(front, before.sites, places)
    requires Enclosed(front + [last], |front|) <==> Covered(before.covered, last.range)
    ensures SitesAt(front + [last], Select(before, last).sites, next)
  {
    var all := front + [last];
    assert all[|front|] == last;
    forall i: nat
      ensures Called(all, i) <==> Called(front, i) || (i == |front| && last.use.Invokes? && !Covered(before.covered, last.range))
    {
      if i < |front| {
        EnclosedStays(front, last, i);
      }
    }
    if last.use.Invokes? && !Covered(before.covered, last.range) {
      next := places + [|front|];
      SitesMore(front, last, before.sites, places);
    } else {
      next := places;
    }
  }

  lemma {:induction false} SitesMore(front: seq<Property>, last: Property, sites: seq<Site>, places: seq<nat>)
    requires SitesAt(front, sites, places) && last.use.Invokes?
    requires forall i: nat :: Called(front + [last], i) <==> Called(front, i) || i == |front|
    ensures SitesAt(front + [last], sites + [Site(last.range, last.use.call)], places + [|front|])
  {
  }

  /** In a parsed frame the sites are, in source order, exactly the recognised calls that no earlier recognised
      property encloses. */
  lemma {:induction false} SitesLaw(frame: Frame) returns (places: seq<nat>)
    requires Laminar(frame.properties)
    ensures SitesAt(frame.properties, Sites(frame), places)
  {
    CallsAreDisjoint(frame);
    places := SelectionLaw(frame.properties);
  }

  /** And the frame counts as incomplete exactly if one of its calls has no callee. */
  lemma {:induction false} MissingLaw(frame: Frame)
    ensures EntryLimits(frame) ==
            frame.noted + if exists i: nat :: Unavailable(frame.properties, i) then {UnavailableTemplate} else {}
    ensures Sliced(frame).limits ==
            frame.rendered.limits + if exists i: nat :: Unavailable(frame.properties, i) then {UnavailableTemplate} else {}
    ensures forall range :: range in Sliced(frame).unresolved <==>
              || range in frame.rendered.unresolved
              || exists i: nat :: Unavailable(frame.properties, i) && frame.properties[i].use.value == Some(range)
    ensures Sliced(frame).text == frame.rendered.text && Sliced(frame).pieces == frame.rendered.pieces
    ensures Sliced(frame).frontiers == frame.rendered.frontiers
  {
    var places := SelectionLaw(frame.properties);
  }

  // ----- Slices -----

  /** The root offset of a byte of the piece. */
  function RootAt(piece: Piece, k: nat): Option<(string, nat)>
    requires piece.range.start <= k
  {
    match piece.mapping
    case None => None
    case Some(mapping) =>
      if k - piece.range.start < |mapping.offsets| then Some((mapping.parameter, mapping.offsets[k - piece.range.start])) else None
  }

  predicate Marks(piece: Piece, k: nat, parameters: set<string>, root: Option<(string, nat)>) {
    piece.range.start <= k < piece.range.end && piece.parameters == parameters && RootAt(piece, k) == root
  }

  /** The byte was written under these parameters, and comes from this byte of a root argument. */
  ghost predicate MarkedAt(r: Rendered, k: nat, parameters: set<string>, root: Option<(string, nat)>) {
    exists piece :: piece in r.pieces && Marks(piece, k, parameters, root)
  }

  predicate Empties(piece: Piece, k: nat, parameters: set<string>) {
    piece.range == Bounds(k, k) && piece.parameters == parameters
  }

  /** Something empty was inserted there. */
  ghost predicate EmptyAt(r: Rendered, k: nat, parameters: set<string>) {
    exists piece :: piece in r.pieces && Empties(piece, k, parameters)
  }

  predicate Surrounds(piece: Piece, k: nat, parameters: set<string>) {
    piece.range.start < k < piece.range.end && piece.parameters == parameters
  }

  /** A piece stands around the place, to both sides. */
  ghost predicate AroundAt(r: Rendered, k: nat, parameters: set<string>) {
    exists piece :: piece in r.pieces && Surrounds(piece, k, parameters)
  }

  ghost predicate Among(ranges: seq<Range>, k: nat) {
    exists range :: range in ranges && range.start <= k < range.end
  }

  ghost predicate UnresolvedAt(r: Rendered, k: nat) {
    Among(r.unresolved, k)
  }

  /** Pieces lie in the text, and a map covers its piece. */
  ghost predicate Mapped(r: Rendered) {
    forall piece :: piece in r.pieces ==>
      piece.range.end <= |r.text| && (piece.mapping.Some? ==> |piece.mapping.value.offsets| == Length(piece.range) + 1)
  }

  lemma {:induction false} ClippedFrom(pieces: seq<Piece>, range: Range, at: nat, extra: set<string>, q: Piece) returns (from: Piece)
    requires q in ClippedPieces(pieces, range, at, extra)
    ensures from in pieces && Takes(range, from) && q == Clipped(from, range, at, extra)
    decreases |pieces|
  {
    var front, last := pieces[..|pieces| - 1], pieces[|pieces| - 1];
    if q in ClippedPieces(front, range, at, extra) {
      from := ClippedFrom(front, range, at, extra, q);
    } else {
      from := last;
    }
  }

  lemma {:induction false} ClippedInto(pieces: seq<Piece>, range: Range, at: nat, extra: set<string>, from: Piece)
    requires from in pieces && Takes(range, from)
    ensures Clipped(from, range, at, extra) in ClippedPieces(pieces, range, at, extra)
    decreases |pieces|
  {
    var front, last := pieces[..|pieces| - 1], pieces[|pieces| - 1];
    if from in front {
      ClippedInto(front, range, at, extra, from);
    }
  }

  lemma {:induction false} AmongBoth(a: seq<Range>, b: seq<Range>, k: nat)
    ensures Among(a + b, k) <==> Among(a, k) || Among(b, k)
  {
    assert forall range :: range in a + b <==> range in a || range in b;
  }

  lemma {:induction false} RangesMembers(ranges: seq<Range>, range: Range, at: nat, k: nat)
    ensures Among(ClippedRanges(ranges, range, at), k) <==>
            at <= k < at + Length(range) && Among(ranges, k - at + range.start)
    decreases |ranges|
  {
    if ranges != [] {
      var front, last := ranges[..|ranges| - 1], ranges[|ranges| - 1];
      var start, end := TemplateExpansion.Max(last.start, range.start), Min(last.end, range.end);
      var clipped: seq<Range> := if start < end then [Bounds(at + start - range.start, at + end - range.start)] else [];
      var before := ClippedRanges(front, range, at);
      RangesMembers(front, range, at, k);
      OneClipped(last, range, at, k, clipped);
      AmongBoth(before, clipped, k);
      assert ClippedRanges(ranges, range, at) == before + clipped && ranges == front + [last];
      if at <= k < at + Length(range) {
        AmongBoth(front, [last], k - at + range.start);
      }
    }
  }

  lemma {:induction false} OneClipped(last: Range, range: Range, at: nat, k: nat, clipped: seq<Range>)
    requires var start, end := TemplateExpansion.Max(last.start, range.start), Min(last.end, range.end);
             clipped == if start < end then [Bounds(at + start - range.start, at + end - range.start)] else []
    ensures Among(clipped, k) <==> at <= k < at + Length(range) && Among([last], k - at + range.start)
  {
    if clipped != [] {
      assert clipped[0] in clipped;
    }
    assert last in [last];
  }

  /** A frontier of the slice, its ends included, stands here after the move. */
  ghost predicate Moves(frontiers: seq<nat>, range: Range, at: nat, p: nat) {
    exists f :: f in frontiers && range.start <= f <= range.end && p == at + f - range.start
  }

  lemma {:induction false} FrontiersMembers(frontiers: seq<nat>, range: Range, at: nat, p: nat)
    ensures p in MovedFrontiers(frontiers, range, at) <==> Moves(frontiers, range, at, p)
    decreases |frontiers|
  {
    if frontiers != [] {
      var front, last := frontiers[..|frontiers| - 1], frontiers[|frontiers| - 1];
      assert frontiers == front + [last];
      FrontiersMembers(front, range, at, p);
      var moved: seq<nat> := if range.start <= last <= range.end then [at + last - range.start] else [];
      assert MovedFrontiers(frontiers, range, at) == MovedFrontiers(front, range, at) + moved;
      MovesBoth(front, last, range, at, p);
    }
  }

  lemma {:induction false} MovesBoth(front: seq<nat>, last: nat, range: Range, at: nat, p: nat)
    ensures Moves(front + [last], range, at, p) <==>
            Moves(front, range, at, p) || (range.start <= last <= range.end && p == at + last - range.start)
  {
    if Moves(front, range, at, p) {
      var f :| f in front && range.start <= f <= range.end && p == at + f - range.start;
      assert f in front + [last];
    }
    if Moves(front + [last], range, at, p) {
      var f :| f in front + [last] && range.start <= f <= range.end && p == at + f - range.start;
      assert f in front || f == last;
    }
    assert last in front + [last];
  }

  lemma {:induction false} ClippedMarks(piece: Piece, range: Range, at: nat, extra: set<string>, k: nat, parameters: set<string>,
                     root: Option<(string, nat)>)
    requires piece.mapping.Some? ==> |piece.mapping.value.offsets| == Length(piece.range) + 1
    requires k < Length(range)
    ensures (Takes(range, piece) && Marks(Clipped(piece, range, at, extra), at + k, parameters, root)) <==>
            Marks(piece, range.start + k, piece.parameters, root) && parameters == piece.parameters + extra
  {
    if Takes(range, piece) && piece.range.start <= range.start + k < piece.range.end {
      var shared, clipped := Shared(piece, range), Clipped(piece, range, at, extra);
      assert clipped.range.start <= at + k < clipped.range.end;
      if piece.mapping.Some? {
        ClippingKeepsOffsets(piece, range, at, extra, range.start + k);
        assert RootAt(clipped, at + k) == RootAt(piece, range.start + k);
      }
    }
  }

  /** A slice that fits is appended: its text, its frontiers and its limits. */
  lemma {:induction false} SliceLaw(target: Rendered, source: Rendered, range: Range, extra: set<string>, limit: nat)
    requires Cuts(source.text, range) && |target.text| + Length(range) <= limit
    ensures var (after, ok) := Appended(target, source, range, extra, limit);
            && ok && after.text == target.text + source.text[range.start..range.end]
            && after.limits == target.limits + source.limits
  {
  }

  lemma {:induction false} FrontierLaw(target: Rendered, source: Rendered, range: Range, extra: set<string>, limit: nat, p: nat)
    requires Cuts(source.text, range) && |target.text| + Length(range) <= limit
    ensures p in Appended(target, source, range, extra, limit).0.frontiers <==>
            p in target.frontiers || Moves(source.frontiers, range, |target.text|, p)
  {
    AppendedParts(target, source, range, extra, limit);
    FrontierParts(target, source, range, p, Appended(target, source, range, extra, limit).0);
  }

  lemma {:induction false} FrontierParts(target: Rendered, source: Rendered, range: Range, p: nat, after: Rendered)
    requires after.frontiers == target.frontiers + MovedFrontiers(source.frontiers, range, |target.text|)
    ensures p in after.frontiers <==> p in target.frontiers || Moves(source.frontiers, range, |target.text|, p)
  {
    FrontiersMembers(source.frontiers, range, |target.text|, p);
    InBoth(target.frontiers, MovedFrontiers(source.frontiers, range, |target.text|), p);
  }

  lemma {:induction false} InBoth<T>(a: seq<T>, b: seq<T>, x: T)
    ensures x in a + b <==> x in a || x in b
  {
  }

  lemma {:induction false} AppendedParts(target: Rendered, source: Rendered, range: Range, extra: set<string>, limit: nat)
    requires Cuts(source.text, range) && |target.text| + Length(range) <= limit
    ensures var after, at := Appended(target, source, range, extra, limit).0, |target.text|;
            && after.pieces == target.pieces + ClippedPieces(source.pieces, range, at, extra)
            && after.unresolved == target.unresolved + ClippedRanges(source.unresolved, range, at)
            && after.frontiers == target.frontiers + MovedFrontiers(source.frontiers, range, at)
  {
  }

  /** One that does not fit leaves a limit and a frontier; one that cuts no text leaves nothing. */
  lemma {:induction false} NoSliceLaw(target: Rendered, source: Rendered, range: Range, extra: set<string>, limit: nat)
    requires !Cuts(source.text, range) || |target.text| + Length(range) > limit
    ensures Appended(target, source, range, extra, limit) ==
            (if Cuts(source.text, range)
             then target.(limits := target.limits + {TextBytes}, frontiers := target.frontiers + [|target.text|])
             else target, false)
  {
  }

  /** What the bytes that were there were marked with stays, and the new bytes are marked as in the frame, with the
      caller's influence added. */
  lemma {:induction false} MarksLaw(target: Rendered, source: Rendered, range: Range, extra: set<string>, limit: nat, k: nat,
                 parameters: set<string>, root: Option<(string, nat)>)
    requires Mapped(target) && Mapped(source) && Cuts(source.text, range) && |target.text| + Length(range) <= limit
    ensures MarkedAt(Appended(target, source, range, extra, limit).0, k, parameters, root) <==>
            if k < |target.text| then MarkedAt(target, k, parameters, root)
            else k < |target.text| + Length(range) && MarkedUnder(source, k - |target.text| + range.start, extra, parameters, root)
  {
    var at, after := |target.text|, Appended(target, source, range, extra, limit).0;
    var clipped := ClippedPieces(source.pieces, range, at, extra);
    MarkedInBoth(target.pieces, clipped, after, k, parameters, root);
    NoMarksBehind(target, k, parameters, root);
    ClippedMarked(source, range, at, extra, k, parameters, root);
  }

  ghost predicate Marked(pieces: seq<Piece>, k: nat, parameters: set<string>, root: Option<(string, nat)>) {
    exists piece :: piece in pieces && Marks(piece, k, parameters, root)
  }

  ghost predicate MarkedUnder(r: Rendered, k: nat, extra: set<string>, parameters: set<string>, root: Option<(string, nat)>) {
    exists own :: parameters == own + extra && MarkedAt(r, k, own, root)
  }

  lemma {:induction false} MarkedInBoth(a: seq<Piece>, b: seq<Piece>, after: Rendered, k: nat, parameters: set<string>, root: Option<(string, nat)>)
    requires after.pieces == a + b
    ensures MarkedAt(after, k, parameters, root) <==> Marked(a, k, parameters, root) || Marked(b, k, parameters, root)
  {
    assert forall piece :: piece in a + b <==> piece in a || piece in b;
  }

  lemma {:induction false} NoMarksBehind(r: Rendered, k: nat, parameters: set<string>, root: Option<(string, nat)>)
    requires Mapped(r)
    ensures Marked(r.pieces, k, parameters, root) <==> MarkedAt(r, k, parameters, root)
    ensures k >= |r.text| ==> !MarkedAt(r, k, parameters, root)
  {
  }

  lemma {:induction false} ClippedMarked(source: Rendered, range: Range, at: nat, extra: set<string>, k: nat, parameters: set<string>,
                      root: Option<(string, nat)>)
    requires Mapped(source)
    ensures Marked(ClippedPieces(source.pieces, range, at, extra), k, parameters, root) <==>
            at <= k < at + Length(range) && MarkedUnder(source, k - at + range.start, extra, parameters, root)
  {
    var clipped := ClippedPieces(source.pieces, range, at, extra);
    if Marked(clipped, k, parameters, root) {
      var piece :| piece in clipped && Marks(piece, k, parameters, root);
      MarkKept(source, range, at, extra, k, parameters, root, piece);
    }
    if at <= k < at + Length(range) && MarkedUnder(source, k - at + range.start, extra, parameters, root) {
      var from := MarkSource(source, k - at + range.start, extra, parameters, root);
      ClippedMarks(from, range, at, extra, k - at, parameters, root);
      ClippedInto(source.pieces, range, at, extra, from);
    }
  }

  lemma {:induction false} MarkKept(source: Rendered, range: Range, at: nat, extra: set<string>, k: nat, parameters: set<string>,
                 root: Option<(string, nat)>, piece: Piece)
    requires Mapped(source) && piece in ClippedPieces(source.pieces, range, at, extra) && Marks(piece, k, parameters, root)
    ensures at <= k < at + Length(range) && MarkedUnder(source, k - at + range.start, extra, parameters, root)
  {
    var from := ClippedFrom(source.pieces, range, at, extra, piece);
    ClippedMarks(from, range, at, extra, k - at, parameters, root);
    assert MarkedAt(source, k - at + range.start, from.parameters, root);
  }

  lemma {:induction false} MarkSource(r: Rendered, k: nat, extra: set<string>, parameters: set<string>, root: Option<(string, nat)>)
    returns (from: Piece)
    requires MarkedUnder(r, k, extra, parameters, root)
    ensures from in r.pieces && Marks(from, k, from.parameters, root) && parameters == from.parameters + extra
  {
    var own :| parameters == own + extra && MarkedAt(r, k, own, root);
    from :| from in r.pieces && Marks(from, k, own, root);
  }

  ghost predicate Emptied(pieces: seq<Piece>, k: nat, parameters: set<string>) {
    exists piece :: piece in pieces && Empties(piece, k, parameters)
  }

  /** What is empty moves with the text around it; an empty slice of a piece is empty, too. */
  lemma {:induction false} EmptyLaw(target: Rendered, source: Rendered, range: Range, extra: set<string>, limit: nat, k: nat, parameters: set<string>)
    requires Cuts(source.text, range) && |target.text| + Length(range) <= limit
    ensures EmptyAt(Appended(target, source, range, extra, limit).0, k, parameters) <==>
            || EmptyAt(target, k, parameters)
            || (|target.text| <= k <= |target.text| + Length(range)
                && EmptyUnder(source, range, k - |target.text| + range.start, extra, parameters))
  {
    AppendedParts(target, source, range, extra, limit);
    EmptyParts(target, source, range, extra, k, parameters, Appended(target, source, range, extra, limit).0);
  }

  lemma {:induction false} EmptyParts(target: Rendered, source: Rendered, range: Range, extra: set<string>, k: nat,
                                      parameters: set<string>, after: Rendered)
    requires after.pieces == target.pieces + ClippedPieces(source.pieces, range, |target.text|, extra)
    ensures EmptyAt(after, k, parameters) <==>
            || EmptyAt(target, k, parameters)
            || (|target.text| <= k <= |target.text| + Length(range)
                && EmptyUnder(source, range, k - |target.text| + range.start, extra, parameters))
  {
    var clipped := ClippedPieces(source.pieces, range, |target.text|, extra);
    ClippedEmpty(source, range, |target.text|, extra, k, parameters, clipped);
    EmptiedInBoth(target.pieces, clipped, after, k, parameters);
    assert EmptyAt(target, k, parameters) <==> Emptied(target.pieces, k, parameters);
  }

  lemma {:induction false} EmptiedInBoth(a: seq<Piece>, b: seq<Piece>, after: Rendered, k: nat, parameters: set<string>)
    requires after.pieces == a + b
    ensures EmptyAt(after, k, parameters) <==> Emptied(a, k, parameters) || Emptied(b, k, parameters)
  {
    assert forall piece :: piece in a + b <==> piece in a || piece in b;
  }

  ghost predicate EmptyUnder(r: Rendered, range: Range, k: nat, extra: set<string>, parameters: set<string>) {
    exists own :: parameters == own + extra && (EmptyAt(r, k, own) || (Length(range) == 0 && AroundAt(r, k, own)))
  }

  lemma {:induction false} ClippedEmpty(source: Rendered, range: Range, at: nat, extra: set<string>, k: nat, parameters: set<string>,
                     clipped: seq<Piece>)
    requires clipped == ClippedPieces(source.pieces, range, at, extra)
    ensures Emptied(clipped, k, parameters) <==>
            at <= k <= at + Length(range)
            && EmptyUnder(source, range, k - at + range.start, extra, parameters)
  {
    if Emptied(clipped, k, parameters) {
      var piece :| piece in clipped && Empties(piece, k, parameters);
      var from := ClippedFrom(source.pieces, range, at, extra, piece);
      OneEmpty(from, range, at, extra, k);
      var place := k - at + range.start;
      assert EmptyAt(source, place, from.parameters) || (Length(range) == 0 && AroundAt(source, place, from.parameters));
    }
    if at <= k <= at + Length(range) && EmptyUnder(source, range, k - at + range.start, extra, parameters) {
      var from := EmptySource(source, range, k - at + range.start, extra, parameters);
      OneEmpty(from, range, at, extra, k);
      ClippedInto(source.pieces, range, at, extra, from);
      assert Empties(Clipped(from, range, at, extra), k, parameters);
    }
  }

  lemma {:induction false} EmptySource(r: Rendered, range: Range, k: nat, extra: set<string>, parameters: set<string>) returns (from: Piece)
    requires EmptyUnder(r, range, k, extra, parameters)
    ensures from in r.pieces && parameters == from.parameters + extra
    ensures from.range == Bounds(k, k) || (Length(range) == 0 && from.range.start < k < from.range.end)
  {
    var own :| parameters == own + extra && (EmptyAt(r, k, own) || (Length(range) == 0 && AroundAt(r, k, own)));
    if EmptyAt(r, k, own) {
      from :| from in r.pieces && Empties(from, k, own);
    } else {
      from :| from in r.pieces && Surrounds(from, k, own);
    }
  }

  lemma {:induction false} OneEmpty(from: Piece, range: Range, at: nat, extra: set<string>, k: nat)
    ensures (Takes(range, from) && Clipped(from, range, at, extra).range == Bounds(k, k)) <==>
            at <= k <= at + Length(range)
            && (from.range == Bounds(k - at + range.start, k - at + range.start)
                || (Length(range) == 0 && from.range.start < k - at + range.start < from.range.end))
  {
  }

  /** What is unresolved moves with its text. */
  lemma {:induction false} UnresolvedLaw(target: Rendered, source: Rendered, range: Range, extra: set<string>, limit: nat, k: nat)
    requires Cuts(source.text, range) && |target.text| + Length(range) <= limit
    ensures UnresolvedAt(Appended(target, source, range, extra, limit).0, k) <==>
            UnresolvedAt(target, k)
            || (|target.text| <= k < |target.text| + Length(range) && UnresolvedAt(source, k - |target.text| + range.start))
  {
    AppendedParts(target, source, range, extra, limit);
    UnresolvedParts(target, source, range, k, Appended(target, source, range, extra, limit).0);
  }

  lemma {:induction false} UnresolvedParts(target: Rendered, source: Rendered, range: Range, k: nat, after: Rendered)
    requires after.unresolved == target.unresolved + ClippedRanges(source.unresolved, range, |target.text|)
    ensures UnresolvedAt(after, k) <==>
            UnresolvedAt(target, k)
            || (|target.text| <= k < |target.text| + Length(range) && UnresolvedAt(source, k - |target.text| + range.start))
  {
    RangesMembers(source.unresolved, range, |target.text|, k);
    AmongBoth(target.unresolved, ClippedRanges(source.unresolved, range, |target.text|), k);
  }
}
