/** Call expansion of rendered templates by an explicit task stack, with byte maps that follow slices.
    Rendering, parsing and call recognition of one frame are a function of the call. */
module TemplateExpansion {
  import opened Options
  import opened Sorting
  import opened Ranges
  import opened Utf8

  datatype Limit = Nodes | TextBytes | RecursiveState | UnavailableTemplate | ParseNodes | ConsumptionDepth
                 | StructuralRecovery

  /** One root offset for each byte boundary of the piece, the last included. */
  datatype Mapping = Mapping(parameter: string, offsets: seq<nat>)

  datatype Piece = Piece(range: Range, parameters: set<string>, mapping: Option<Mapping>)

  datatype Rendered = Rendered(text: Text, pieces: seq<Piece>, unresolved: seq<Range>, frontiers: seq<nat>,
                               limits: set<Limit>)

  const Empty := Rendered([], [], [], [], {})

  // ----- Slices -----

  predicate Cuts(text: Text, range: Range) {
    range.end <= |text| && Boundary(text, range.start) && Boundary(text, range.end)
  }

  lemma CutIsText(text: Text, range: Range)
    requires Cuts(text, range)
    ensures var cut: seq<Byte> := text[range.start..range.end]; cut == [] || !Continuation(cut[0])
  {
  }

  function Cut(text: Text, range: Range): Text
    requires Cuts(text, range)
  {
    text[range.start..range.end]
  }

  function Joined(a: Text, b: Text): (joined: Text)
    ensures joined == a + b
  {
    var joined: seq<Byte> := a + b;
    joined
  }

  function Max(a: nat, b: nat): nat { if a < b then b else a }
  function Min(a: nat, b: nat): nat { if a < b then a else b }

  /** Does the slice take the piece? It overlaps, or is empty within the closed range. */
  predicate Takes(range: Range, piece: Piece) {
    || (piece.range.start < range.end && range.start < piece.range.end)
    || (piece.range.start == piece.range.end && range.start <= piece.range.start && piece.range.end <= range.end)
  }

  /** The offsets of the boundaries from `start` to `end` of a piece that begins at `from`. */
  function SliceOffsets(offsets: seq<nat>, from: nat, start: nat, end: nat): seq<nat>
    requires from <= start <= end
  {
    if end - from + 1 <= |offsets| then offsets[start - from..end - from + 1] else []
  }

  /** The part of a piece inside a range. */
  function Shared(piece: Piece, range: Range): (shared: Range)
    requires Takes(range, piece)
    ensures Within(shared, piece.range) && Within(shared, range)
  {
    Bounds(Max(piece.range.start, range.start), Min(piece.range.end, range.end))
  }

  /** A piece clipped to a range and moved so that the range begins at `at`. */
  function Clipped(piece: Piece, range: Range, at: nat, extra: set<string>): Piece
    requires Takes(range, piece)
  {
    var shared := Shared(piece, range);
    Piece(Bounds(at + (shared.start - range.start), at + (shared.end - range.start)), piece.parameters + extra,
          match piece.mapping
          case None => None
          case Some(mapping) =>
            Some(mapping.(offsets := SliceOffsets(mapping.offsets, piece.range.start, shared.start, shared.end))))
  }

  function ClippedPieces(pieces: seq<Piece>, range: Range, at: nat, extra: set<string>): seq<Piece> {
    if pieces == [] then []
    else
      var last := pieces[|pieces| - 1];
      ClippedPieces(pieces[..|pieces| - 1], range, at, extra)
      + if Takes(range, last) then [Clipped(last, range, at, extra)] else []
  }

  function ClippedRanges(ranges: seq<Range>, range: Range, at: nat): seq<Range> {
    if ranges == [] then []
    else
      var last := ranges[|ranges| - 1];
      var start, end := Max(last.start, range.start), Min(last.end, range.end);
      ClippedRanges(ranges[..|ranges| - 1], range, at)
      + if start < end then [Bounds(at + start - range.start, at + end - range.start)] else []
  }

  function MovedFrontiers(frontiers: seq<nat>, range: Range, at: nat): seq<nat> {
    if frontiers == [] then []
    else
      var last := frontiers[|frontiers| - 1];
      MovedFrontiers(frontiers[..|frontiers| - 1], range, at)
      + if range.start <= last <= range.end then [at + last - range.start] else []
  }

  /** Appends a slice of a frame; fails on a range that cuts no text, or with a limit when it does not fit. */
  function Appended(target: Rendered, source: Rendered, range: Range, extra: set<string>, limit: nat): (Rendered, bool)
  {
    if !Cuts(source.text, range) then (target, false)
    else
      var at := |target.text|;
      if range.end - range.start + at > limit then
        (target.(limits := target.limits + {TextBytes}, frontiers := target.frontiers + [at]), false)
      else
        (Rendered(Joined(target.text, Cut(source.text, range)),
                  target.pieces + ClippedPieces(source.pieces, range, at, extra),
                  target.unresolved + ClippedRanges(source.unresolved, range, at),
                  target.frontiers + MovedFrontiers(source.frontiers, range, at),
                  target.limits + source.limits),
         true)
  }

  // ----- What slices keep -----

  /** Does a root offset belong to a byte of generated text? */
  type Agreement = (string, Byte, nat) -> bool

  /** A byte of a mapped piece agrees with its root offset. */
  ghost predicate AgreesAt(agrees: Agreement, text: Text, piece: Piece, j: nat) {
    && piece.mapping.Some? && j < |piece.mapping.value.offsets| && piece.range.start + j < |text|
    && agrees(piece.mapping.value.parameter, text[piece.range.start + j], piece.mapping.value.offsets[j])
  }

  /** The map of a piece covers its boundaries, and each of its bytes agrees with its root offset. */
  ghost predicate MapsRight(agrees: Agreement, text: Text, piece: Piece) {
    && piece.range.end <= |text|
    && (piece.mapping.Some? ==>
          && |piece.mapping.value.offsets| == Length(piece.range) + 1
          && forall j: nat :: j < Length(piece.range) ==> AgreesAt(agrees, text, piece, j))
  }

  ghost predicate AllMapRight(agrees: Agreement, r: Rendered) {
    forall i :: 0 <= i < |r.pieces| ==> MapsRight(agrees, r.text, r.pieces[i])
  }

  lemma SliceAt(offsets: seq<nat>, from: nat, start: nat, end: nat, k: nat)
    requires from <= start <= k <= end && end - from + 1 <= |offsets|
    ensures |SliceOffsets(offsets, from, start, end)| == end - start + 1
    ensures SliceOffsets(offsets, from, start, end)[k - start] == offsets[k - from]
  {
  }

  /** A clipped piece maps each of its boundaries to the root offset it had in the whole frame. */
  lemma ClippingKeepsOffsets(piece: Piece, range: Range, at: nat, extra: set<string>, k: nat)
    requires Takes(range, piece) && piece.mapping.Some? && Shared(piece, range).start <= k <= Shared(piece, range).end
    requires |piece.mapping.value.offsets| == Length(piece.range) + 1
    ensures var clipped := Clipped(piece, range, at, extra);
            && clipped.mapping.Some? && clipped.mapping.value.parameter == piece.mapping.value.parameter
            && |clipped.mapping.value.offsets| == Length(clipped.range) + 1
            && clipped.mapping.value.offsets[k - Shared(piece, range).start] ==
               piece.mapping.value.offsets[k - piece.range.start]
  {
    var shared := Shared(piece, range);
    SliceAt(piece.mapping.value.offsets, piece.range.start, shared.start, shared.end, k);
  }

  lemma ClippedByte(text: Text, range: Range, target: Text, k: nat)
    requires Cuts(text, range) && range.start <= k < range.end
    ensures var at := |target| + (k - range.start);
            at < |Joined(target, Cut(text, range))| && Joined(target, Cut(text, range))[at] == text[k]
  {
    assert Joined(target, Cut(text, range))[|target| + (k - range.start)] == Cut(text, range)[k - range.start];
  }

  lemma AgreesMoves(agrees: Agreement, text: Text, piece: Piece, i: nat, whole: Text, clipped: Piece, j: nat)
    requires AgreesAt(agrees, text, piece, i) && clipped.mapping.Some?
    requires clipped.mapping.value.parameter == piece.mapping.value.parameter
    requires j < |clipped.mapping.value.offsets| && clipped.range.start + j < |whole|
    requires clipped.mapping.value.offsets[j] == piece.mapping.value.offsets[i]
    requires whole[clipped.range.start + j] == text[piece.range.start + i]
    ensures AgreesAt(agrees, whole, clipped, j)
  {
  }

  lemma ClippedAgrees(agrees: Agreement, text: Text, piece: Piece, range: Range, target: Text, extra: set<string>, k: nat)
    requires MapsRight(agrees, text, piece) && Takes(range, piece) && Cuts(text, range) && piece.mapping.Some?
    requires Shared(piece, range).start <= k < Shared(piece, range).end
    ensures AgreesAt(agrees, Joined(target, Cut(text, range)), Clipped(piece, range, |target|, extra),
                     k - Shared(piece, range).start)
  {
    ClippingKeepsOffsets(piece, range, |target|, extra, k);
    ClippedByte(text, range, target, k);
    assert AgreesAt(agrees, text, piece, k - piece.range.start);
    AgreesMoves(agrees, text, piece, k - piece.range.start, Joined(target, Cut(text, range)),
                Clipped(piece, range, |target|, extra), k - Shared(piece, range).start);
  }

  lemma ClippingKeepsMap(agrees: Agreement, text: Text, piece: Piece, range: Range, target: Text, extra: set<string>)
    requires MapsRight(agrees, text, piece) && Takes(range, piece) && Cuts(text, range)
    ensures MapsRight(agrees, Joined(target, Cut(text, range)), Clipped(piece, range, |target|, extra))
  {
    if piece.mapping.Some? {
      var shared := Shared(piece, range);
      ClippingKeepsOffsets(piece, range, |target|, extra, shared.start);
      forall j: nat | j < Length(shared)
        ensures AgreesAt(agrees, Joined(target, Cut(text, range)), Clipped(piece, range, |target|, extra), j)
      {
        ClippedAgrees(agrees, text, piece, range, target, extra, shared.start + j);
      }
    }
  }

  lemma {:induction false} ClippedPiecesMapRight(agrees: Agreement, source: Rendered, pieces: seq<Piece>, range: Range,
                                                 target: Text, extra: set<string>)
    requires Cuts(source.text, range) && forall i :: 0 <= i < |pieces| ==> MapsRight(agrees, source.text, pieces[i])
    ensures var clipped := ClippedPieces(pieces, range, |target|, extra);
            forall piece :: piece in clipped ==> MapsRight(agrees, Joined(target, Cut(source.text, range)), piece)
    decreases |pieces|
  {
    if pieces != [] {
      var last := pieces[|pieces| - 1];
      ClippedPiecesMapRight(agrees, source, pieces[..|pieces| - 1], range, target, extra);
      if Takes(range, last) {
        ClippingKeepsMap(agrees, source.text, last, range, target, extra);
      }
    }
  }

  lemma MapsRightLonger(agrees: Agreement, text: Text, more: Text, piece: Piece)
    requires MapsRight(agrees, text, piece)
    ensures MapsRight(agrees, Joined(text, more), piece)
  {
    if piece.mapping.Some? {
      forall j: nat | j < Length(piece.range)
        ensures AgreesAt(agrees, Joined(text, more), piece, j)
      {
        assert AgreesAt(agrees, text, piece, j);
      }
    }
  }

  /** Slicing keeps every byte map right: whatever offsets must agree with, they agree in the output as they
      agreed in the frame. */
  lemma AppendingMapsRight(agrees: Agreement, target: Rendered, source: Rendered, range: Range, extra: set<string>,
                           limit: nat)
    requires AllMapRight(agrees, target) && AllMapRight(agrees, source)
    ensures AllMapRight(agrees, Appended(target, source, range, extra, limit).0)
  {
    var (after, ok) := Appended(target, source, range, extra, limit);
    if ok {
      ClippedPiecesMapRight(agrees, source, source.pieces, range, target.text, extra);
      forall i | 0 <= i < |after.pieces|
        ensures MapsRight(agrees, after.text, after.pieces[i])
      {
        if i < |target.pieces| {
          MapsRightLonger(agrees, target.text, Cut(source.text, range), target.pieces[i]);
        } else {
          assert after.pieces[i] in ClippedPieces(source.pieces, range, |target.text|, extra);
        }
      }
    }
  }

  /** Appends a slice piece by piece. */
  method AppendSlice(target: Rendered, source: Rendered, range: Range, extra: set<string>, limit: nat)
    returns (after: Rendered, ok: bool)
    ensures (after, ok) == Appended(target, source, range, extra, limit)
  {
    if !Cuts(source.text, range) {
      return target, false;
    }
    var at := |target.text|;
    CutIsText(source.text, range);
    var text := Cut(source.text, range);
    if |text| + at > limit {
      return target.(limits := target.limits + {TextBytes}, frontiers := target.frontiers + [at]), false;
    }
    var pieces := ClipPieces(source.pieces, range, at, extra);
    var unresolved := ClipRanges(source.unresolved, range, at);
    var frontiers := MoveFrontiers(source.frontiers, range, at);
    after := Rendered(Joined(target.text, text), target.pieces + pieces, target.unresolved + unresolved,
                      target.frontiers + frontiers, target.limits + source.limits);
    ok := true;
  }

  method ClipPieces(given: seq<Piece>, range: Range, at: nat, extra: set<string>) returns (pieces: seq<Piece>)
    ensures pieces == ClippedPieces(given, range, at, extra)
  {
    pieces := [];
    for i := 0 to |given|
      invariant pieces == ClippedPieces(given[..i], range, at, extra)
    {
      assert given[..i + 1][..i] == given[..i];
      if Takes(range, given[i]) {
        pieces := pieces + [Clipped(given[i], range, at, extra)];
      }
    }
    assert given[..|given|] == given;
  }

  method ClipRanges(given: seq<Range>, range: Range, at: nat) returns (ranges: seq<Range>)
    ensures ranges == ClippedRanges(given, range, at)
  {
    ranges := [];
    for i := 0 to |given|
      invariant ranges == ClippedRanges(given[..i], range, at)
    {
      assert given[..i + 1][..i] == given[..i];
      var start, end := Max(given[i].start, range.start), Min(given[i].end, range.end);
      if start < end {
        ranges := ranges + [Bounds(at + start - range.start, at + end - range.start)];
      }
    }
    assert given[..|given|] == given;
  }

  method MoveFrontiers(given: seq<nat>, range: Range, at: nat) returns (frontiers: seq<nat>)
    ensures frontiers == MovedFrontiers(given, range, at)
  {
    frontiers := [];
    for i := 0 to |given|
      invariant frontiers == MovedFrontiers(given[..i], range, at)
    {
      assert given[..i + 1][..i] == given[..i];
      if range.start <= given[i] <= range.end {
        frontiers := frontiers + [at + given[i] - range.start];
      }
    }
    assert given[..|given|] == given;
  }

  // ----- Frames -----

  /** A call with its bindings and state, and what identifies it on the call chain. */
  type Call(00, !new)
  type Identity(==, 00, !new)

  /** What a property of a frame turns out to be. */
  datatype Use = Ignored | Missing(value: Option<Range>) | Invokes(call: Call)

  datatype Property = Property(range: Range, use: Use)

  /** A rendered frame with the limits its rendering noted (parsing may add more to its own), whether it
      could be parsed at all, and its properties in pre-order. */
  datatype Frame = Frame(rendered: Rendered, noted: set<Limit>, parsed: bool, properties: seq<Property>)

  datatype Program = Program(identity: Call -> Identity, frame: Call -> Frame, influence: Call -> set<string>,
                             byteLimit: nat)

  datatype Site = Site(range: Range, call: Call)

  datatype Selection = Selection(sites: seq<Site>, covered: seq<Range>, unresolved: seq<Range>, missing: bool)

  predicate Covered(covered: seq<Range>, range: Range) {
    exists i :: 0 <= i < |covered| && Within(range, covered[i])
  }

  /** One property: nothing inside a recognised call is looked at again. */
  function Select(before: Selection, property: Property): Selection {
    if property.use.Ignored? || Covered(before.covered, property.range) then before
    else
      match property.use
      case Missing(value) =>
        before.(covered := before.covered + [property.range], missing := true,
                unresolved := before.unresolved + if value.Some? then [value.value] else [])
      case Invokes(call) =>
        before.(covered := before.covered + [property.range], sites := before.sites + [Site(property.range, call)])
  }

  function Selected(properties: seq<Property>): Selection {
    if properties == [] then Selection([], [], [], false)
    else Select(Selected(properties[..|properties| - 1]), properties[|properties| - 1])
  }

  predicate Earlier(a: Site, b: Site) {
    a.range.start < b.range.start
  }

  /** The ranges of a parse tree in pre-order: a later one lies behind an earlier one or inside it. */
  ghost predicate Laminar(properties: seq<Property>) {
    forall i, j :: 0 <= i < j < |properties| ==>
      properties[i].range.end <= properties[j].range.start || Within(properties[j].range, properties[i].range)
  }

  /** Disjoint and in source order. */
  ghost predicate Disjoint(sites: seq<Site>) {
    forall i, j :: 0 <= i < j < |sites| ==> sites[i].range.end <= sites[j].range.start
  }

  ghost predicate Listed(properties: seq<Property>, range: Range) {
    exists k :: 0 <= k < |properties| && properties[k].range == range
  }

  /** The selection of some first properties: disjoint calls, all covered, all among the properties. */
  ghost predicate Selects(properties: seq<Property>, selection: Selection) {
    && Disjoint(selection.sites)
    && (forall i :: 0 <= i < |selection.sites| ==> selection.sites[i].range in selection.covered)
    && (forall i :: 0 <= i < |selection.covered| ==>
          Listed(properties, selection.covered[i]))
  }

  /** A property nothing covered so far is nested in lies behind every call selected so far. */
  lemma BehindSelected(front: seq<Property>, last: Property, before: Selection, i: nat)
    requires Laminar(front + [last]) && Selects(front, before) && !Covered(before.covered, last.range)
    requires i < |before.sites|
    ensures before.sites[i].range.end <= last.range.start
  {
    var range := before.sites[i].range;
    var k :| 0 <= k < |before.covered| && before.covered[k] == range;
    assert !Within(last.range, before.covered[k]);
    assert Listed(front, before.covered[k]);
    var p :| 0 <= p < |front| && front[p].range == before.covered[k];
    var all := front + [last];
    assert all[p] == front[p] && all[|front|] == last;
  }

  lemma SelectKeeps(front: seq<Property>, last: Property, before: Selection)
    requires Laminar(front + [last]) && Selects(front, before)
    ensures Selects(front + [last], Select(before, last))
  {
    var all, after := front + [last], Select(before, last);
    forall i | 0 <= i < |after.covered|
      ensures Listed(all, after.covered[i])
    {
      if i < |before.covered| {
        assert Listed(front, before.covered[i]);
        var k :| 0 <= k < |front| && front[k].range == before.covered[i];
        assert all[k] == front[k];
      } else {
        assert all[|front|] == last;
      }
    }
    if after != before && last.use.Invokes? {
      forall i | 0 <= i < |before.sites|
        ensures before.sites[i].range.end <= last.range.start
      {
        BehindSelected(front, last, before, i);
      }
    }
  }

  lemma {:induction false} SelectedIsDisjoint(properties: seq<Property>)
    requires Laminar(properties)
    ensures Selects(properties, Selected(properties))
    decreases |properties|
  {
    if properties != [] {
      var front, last := properties[..|properties| - 1], properties[|properties| - 1];
      SelectedIsDisjoint(front);
      assert properties == front + [last];
      SelectKeeps(front, last, Selected(front));
    }
  }

  /** The calls of a parsed frame are disjoint and in source order, so sorting leaves them in place. */
  lemma CallsAreDisjoint(frame: Frame)
    requires Laminar(frame.properties)
    ensures Sort(Earlier, Selected(frame.properties).sites) == Selected(frame.properties).sites
    ensures Disjoint(Sites(frame))
  {
    SelectedIsDisjoint(frame.properties);
    SortOrdered(Earlier, Selected(frame.properties).sites);
  }

  function Sites(frame: Frame): seq<Site> {
    Sort(Earlier, Selected(frame.properties).sites)
  }

  /** The frame whose slices are emitted: missing callees leave their argument maps unresolved. */
  function Sliced(frame: Frame): Rendered {
    var selection := Selected(frame.properties);
    frame.rendered.(unresolved := frame.rendered.unresolved + selection.unresolved,
                    limits := frame.rendered.limits + if selection.missing then {UnavailableTemplate} else {})
  }

  /** The limits the output takes over when a frame is entered. */
  function EntryLimits(frame: Frame): set<Limit> {
    frame.noted + if Selected(frame.properties).missing then {UnavailableTemplate} else {}
  }

  // ----- The task stack -----

  datatype Task =
    | Exit(identity: Identity)
    | Enter(call: Call)
    | Emit(source: Rendered, range: Range, influence: set<string>)

  /** The stack has its top first. */
  datatype State = State(work: seq<Task>, output: Rendered, visiting: set<Identity>, frames: nat, processed: nat,
                         stopped: bool)

  const FrameLimit: nat := 100_000

  function Halted(output: Rendered, limits: set<Limit>): Rendered {
    output.(limits := output.limits + limits, frontiers := output.frontiers + [|output.text|])
  }

  function Noted(output: Rendered, limits: set<Limit>): Rendered {
    output.(limits := output.limits + limits)
  }

  /** The calls in place, with the text before, between and behind them; from the top of the stack down. */
  function Tasks(source: Rendered, influence: set<string>, sites: seq<Site>, from: nat): seq<Task> {
    if sites == [] then [Emit(source, Span(from, |source.text|), influence)]
    else
      [Emit(source, Span(from, sites[0].range.start), influence), Enter(sites[0].call)]
      + Tasks(source, influence, sites[1..], sites[0].range.end)
  }

  /** A range, or the empty one where the bounds are not ordered. */
  function Span(start: nat, end: nat): Range {
    if start <= end then Bounds(start, end) else Bounds(start, start)
  }

  function StepEnter(p: Program, s: State, call: Call): State
    requires s.work != []
  {
    var frames := s.frames + 1;
    var identity := p.identity(call);
    var frame := p.frame(call);
    var processed := s.processed + |frame.rendered.text|;
    if frames > FrameLimit then s.(output := Halted(s.output, {Nodes}), frames := frames, stopped := true)
    else if identity in s.visiting then
      s.(output := Halted(s.output, {RecursiveState}), frames := frames, stopped := true)
    else
      var entered := State([Exit(identity)] + s.work[1..], s.output, s.visiting + {identity}, frames, processed, false);
      if processed > 16 * p.byteLimit then entered.(output := Halted(s.output, {TextBytes}), stopped := true)
      else if !frame.parsed then entered.(output := Halted(s.output, frame.noted + frame.rendered.limits), stopped := true)
      else
        entered.(output := Noted(s.output, EntryLimits(frame)),
                 work := Tasks(Sliced(frame), p.influence(call), Sites(frame), 0) + entered.work)
  }

  function Step(p: Program, s: State): (t: State)
    requires s.work != [] && !s.stopped && s.frames <= FrameLimit
    ensures t.stopped || (s.frames <= t.frames <= FrameLimit && (s.frames == t.frames ==> |t.work| < |s.work|))
  {
    match s.work[0]
    case Exit(identity) => s.(work := s.work[1..], visiting := s.visiting - {identity})
    case Emit(source, range, influence) =>
      var (output, ok) := Appended(s.output, source, range, influence, p.byteLimit);
      s.(work := s.work[1..], output := output, stopped := !ok)
    case Enter(call) => StepEnter(p, s, call)
  }

  predicate Counted(s: State) {
    s.stopped || s.frames <= FrameLimit
  }

  /** The stack is worked off; every entered call is charged a frame, every other step shrinks the stack. */
  function Run(p: Program, s: State): State
    requires Counted(s)
    decreases if s.stopped then 0 else 1, if s.stopped then 0 else FrameLimit - s.frames, |s.work|
  {
    if s.stopped || s.work == [] then s else Run(p, Step(p, s))
  }

  // ----- Recursive expansion -----

  /** What an expansion does to the output, in order. */
  datatype Event =
    | Note(limits: set<Limit>)
    | Slice(source: Rendered, range: Range, influence: set<string>)
    | Halt(limits: set<Limit>)

  /** An expansion that is complete, or one that met a limit of its own. */
  datatype Expansion = Expansion(events: seq<Event>, complete: bool, frames: nat, processed: nat)

  /** The expansion of a call below a chain of calls: its text in order, each call site replaced by the
      expansion of what it calls. */
  function Expand(p: Program, call: Call, chain: set<Identity>, frames: nat, processed: nat): (e: Expansion)
    requires frames <= FrameLimit
    ensures e.complete ==> frames < e.frames <= FrameLimit
    decreases FrameLimit - frames, 0
  {
    var identity := p.identity(call);
    var frame := p.frame(call);
    var total := processed + |frame.rendered.text|;
    if frames + 1 > FrameLimit then Expansion([Halt({Nodes})], false, frames + 1, processed)
    else if identity in chain then Expansion([Halt({RecursiveState})], false, frames + 1, processed)
    else if total > 16 * p.byteLimit then Expansion([Halt({TextBytes})], false, frames + 1, total)
    else if !frame.parsed then Expansion([Halt(frame.noted + frame.rendered.limits)], false, frames + 1, total)
    else
      var body := ExpandSites(p, Sliced(frame), p.influence(call), Sites(frame), 0, chain + {identity}, frames + 1, total);
      body.(events := [Note(EntryLimits(frame))] + body.events)
  }

  function ExpandSites(p: Program, source: Rendered, influence: set<string>, sites: seq<Site>, from: nat,
                       chain: set<Identity>, frames: nat, processed: nat): (e: Expansion)
    requires frames <= FrameLimit
    ensures e.complete ==> frames <= e.frames <= FrameLimit
    decreases FrameLimit - frames, |sites| + 1
  {
    if sites == [] then
      Expansion([Slice(source, Span(from, |source.text|), influence)], true, frames, processed)
    else
      var before := [Slice(source, Span(from, sites[0].range.start), influence)];
      var first := Expand(p, sites[0].call, chain, frames, processed);
      if !first.complete then first.(events := before + first.events)
      else
        var rest := ExpandSites(p, source, influence, sites[1..], sites[0].range.end, chain, first.frames, first.processed);
        rest.(events := before + first.events + rest.events)
  }

  /** Plays events into an output until one stops it. */
  function Replay(limit: nat, output: Rendered, events: seq<Event>): (Rendered, bool)
    decreases |events|
  {
    if events == [] then (output, true)
    else
      var (after, ok) := ReplayOne(limit, output, events[0]);
      if ok then Replay(limit, after, events[1..]) else (after, false)
  }

  function ReplayOne(limit: nat, output: Rendered, event: Event): (Rendered, bool) {
    match event
    case Note(limits) => (Noted(output, limits), true)
    case Slice(source, range, influence) => Appended(output, source, range, influence, limit)
    case Halt(limits) => (Halted(output, limits), false)
  }

  // ----- The stack refines the recursion -----

  lemma {:induction false} ReplayAppends(limit: nat, output: Rendered, a: seq<Event>, b: seq<Event>)
    ensures Replay(limit, output, a + b) ==
            var (after, ok) := Replay(limit, output, a); if ok then Replay(limit, after, b) else (after, false)
    decreases |a|
  {
    if a == [] {
      assert a + b == b;
    } else {
      var (after, ok) := ReplayOne(limit, output, a[0]);
      ReplayAppends(limit, after, a[1..], b);
      assert (a + b)[1..] == a[1..] + b;
    }
  }

  /** Running reaches the state after an expansion, or stops with the output the expansion stopped at. */
  ghost predicate Plays(p: Program, s: State, e: Expansion, rest: seq<Task>)
    requires Counted(s)
  {
    var (output, ok) := Replay(p.byteLimit, s.output, e.events);
    if ok then
      e.complete && e.frames <= FrameLimit
      && Run(p, s) == Run(p, State(rest, output, s.visiting, e.frames, e.processed, false))
    else Run(p, s).stopped && Run(p, s).output == output
  }

  lemma {:induction false} RunOnce(p: Program, s: State)
    requires !s.stopped && s.frames <= FrameLimit && s.work != []
    ensures Run(p, s) == Run(p, Step(p, s))
  {
  }

  /** A call on top of the stack plays its recursive expansion, whatever lies below it. */
  lemma {:induction false} EnterPlays(p: Program, s: State, call: Call, rest: seq<Task>)
    requires !s.stopped && s.frames <= FrameLimit && s.work == [Enter(call)] + rest
    ensures Plays(p, s, Expand(p, call, s.visiting, s.frames, s.processed), rest)
    decreases FrameLimit - s.frames, 0, 1
  {
    RunOnce(p, s);
    assert s.work[1..] == rest;
    if Step(p, s).stopped {
      HaltPlays(p, s, call, rest);
    } else {
      BodyPlays(p, s, call, rest);
    }
  }

  lemma HaltPlays(p: Program, s: State, call: Call, rest: seq<Task>)
    requires !s.stopped && s.frames <= FrameLimit && s.work == [Enter(call)] + rest && Step(p, s).stopped
    ensures Plays(p, s, Expand(p, call, s.visiting, s.frames, s.processed), rest)
  {
    RunOnce(p, s);
    var e := Expand(p, call, s.visiting, s.frames, s.processed);
    assert |e.events| == 1 && e.events[1..] == [];
  }

  lemma {:induction false} BodyPlays(p: Program, s: State, call: Call, rest: seq<Task>)
    requires !s.stopped && s.frames <= FrameLimit && s.work == [Enter(call)] + rest && !Step(p, s).stopped
    ensures Plays(p, s, Expand(p, call, s.visiting, s.frames, s.processed), rest)
    decreases FrameLimit - s.frames, 0, 0
  {
    EnterSteps(p, s, call, rest);
    var t, frame, identity := Step(p, s), p.frame(call), p.identity(call);
    var below := [Exit(identity)] + rest;
    var body := ExpandSites(p, Sliced(frame), p.influence(call), Sites(frame), 0, t.visiting, t.frames, t.processed);
    SitesPlay(p, t, Sliced(frame), p.influence(call), Sites(frame), 0, below);
    ExpandIsBody(p, call, s.visiting, s.frames, s.processed);
    ExitPlays(p, s, t, body, identity, rest, EntryLimits(frame), Expand(p, call, s.visiting, s.frames, s.processed));
  }

  lemma EnterSteps(p: Program, s: State, call: Call, rest: seq<Task>)
    requires !s.stopped && s.frames <= FrameLimit && s.work == [Enter(call)] + rest && !Step(p, s).stopped
    ensures var frame, identity := p.frame(call), p.identity(call);
            var t := Step(p, s);
            && s.frames + 1 <= FrameLimit && identity !in s.visiting && frame.parsed
            && s.processed + |frame.rendered.text| <= 16 * p.byteLimit
            && Run(p, s) == Run(p, t)
            && t == State(Tasks(Sliced(frame), p.influence(call), Sites(frame), 0) + ([Exit(identity)] + rest),
                          Noted(s.output, EntryLimits(frame)), s.visiting + {identity}, s.frames + 1,
                          s.processed + |frame.rendered.text|, false)
  {
    RunOnce(p, s);
    assert s.work[1..] == rest;
  }

  /** An expansion that enters its frame is the note of its limits and the expansion of its sites. */
  lemma ExpandIsBody(p: Program, call: Call, chain: set<Identity>, frames: nat, processed: nat)
    requires frames + 1 <= FrameLimit && p.identity(call) !in chain && p.frame(call).parsed
    requires processed + |p.frame(call).rendered.text| <= 16 * p.byteLimit
    ensures var frame := p.frame(call);
            var body := ExpandSites(p, Sliced(frame), p.influence(call), Sites(frame), 0, chain + {p.identity(call)},
                                    frames + 1, processed + |frame.rendered.text|);
            Expand(p, call, chain, frames, processed) == body.(events := [Note(EntryLimits(frame))] + body.events)
  {
  }

  /** After the body of a call, its identity leaves the chain. */
  lemma ExitPlays(p: Program, s: State, t: State, body: Expansion, identity: Identity, rest: seq<Task>,
                  limits: set<Limit>, whole: Expansion)
    requires !s.stopped && s.frames <= FrameLimit && !t.stopped && t.frames <= FrameLimit && Run(p, s) == Run(p, t)
    requires identity !in s.visiting && t.visiting == s.visiting + {identity}
    requires Plays(p, t, body, [Exit(identity)] + rest)
    requires Noted(s.output, limits) == t.output && whole == body.(events := [Note(limits)] + body.events)
    ensures Plays(p, s, whole, rest)
  {
    assert whole.events[1..] == body.events;
    var (output, ok) := Replay(p.byteLimit, t.output, body.events);
    if ok {
      var u := State([Exit(identity)] + rest, output, t.visiting, body.frames, body.processed, false);
      RunOnce(p, u);
      assert t.visiting - {identity} == s.visiting;
      assert u.work[1..] == rest;
    }
  }

  /** One slice, then what follows it. */
  lemma EmitPlays(p: Program, s: State, t: State, slice: Event, e: Expansion, rest: seq<Task>)
    requires Counted(s) && Counted(t) && Run(p, s) == Run(p, t) && t.visiting == s.visiting
    requires slice.Slice? && (t.output, !t.stopped) == ReplayOne(p.byteLimit, s.output, slice)
    requires !t.stopped ==> Plays(p, t, e, rest)
    ensures Plays(p, s, e.(events := [slice] + e.events), rest)
  {
    assert ([slice] + e.events)[1..] == e.events;
  }

  /** One expansion, then what follows it. */
  lemma JoinPlays(p: Program, t: State, first: Expansion, after: Expansion, more: seq<Task>, rest: seq<Task>)
    requires Counted(t) && Plays(p, t, first, more) && first.complete && first.frames <= FrameLimit
    requires var (output, ok) := Replay(p.byteLimit, t.output, first.events);
             ok ==> Plays(p, State(more, output, t.visiting, first.frames, first.processed, false), after, rest)
    ensures Plays(p, t, after.(events := first.events + after.events), rest)
  {
    ReplayAppends(p.byteLimit, t.output, first.events, after.events);
  }

  /** An expansion that meets a limit never replays to its end. */
  lemma IncompleteStops(p: Program, t: State, first: Expansion, more: seq<Task>, rest: seq<Task>)
    requires Counted(t) && Plays(p, t, first, more) && !first.complete
    ensures Plays(p, t, first, rest)
  {
  }

  /** The tasks of a frame play the expansion of its call sites. */
  lemma {:induction false} SitesPlay(p: Program, s: State, source: Rendered, influence: set<string>, sites: seq<Site>,
                                     from: nat, rest: seq<Task>)
    requires !s.stopped && s.frames <= FrameLimit && s.work == Tasks(source, influence, sites, from) + rest
    ensures Plays(p, s, ExpandSites(p, source, influence, sites, from, s.visiting, s.frames, s.processed), rest)
    decreases FrameLimit - s.frames, |sites| + 1, 0
  {
    if sites == [] {
      LastSlicePlays(p, s, source, influence, from, rest);
    } else {
      var range := Span(from, sites[0].range.start);
      var below := [Enter(sites[0].call)] + (Tasks(source, influence, sites[1..], sites[0].range.end) + rest);
      assert s.work == [Emit(source, range, influence)] + below;
      EmitSteps(p, s, source, range, influence, below);
      var t := Step(p, s);
      if !t.stopped {
        SitePlays(p, t, source, influence, sites, rest);
      }
      SliceFirst(p, source, influence, sites, from, s.visiting, s.frames, s.processed);
      EmitPlays(p, s, t, Slice(source, range, influence),
                SiteExpansion(p, source, influence, sites, s.visiting, s.frames, s.processed), rest);
    }
  }

  lemma EmitSteps(p: Program, s: State, source: Rendered, range: Range, influence: set<string>, below: seq<Task>)
    requires !s.stopped && s.frames <= FrameLimit && s.work == [Emit(source, range, influence)] + below
    ensures var t := Step(p, s);
            Run(p, s) == Run(p, t) && (t.output, !t.stopped) == Appended(s.output, source, range, influence, p.byteLimit)
            && t == s.(work := below, output := t.output, stopped := t.stopped)
  {
    RunOnce(p, s);
    assert s.work[1..] == below;
  }

  lemma SliceFirst(p: Program, source: Rendered, influence: set<string>, sites: seq<Site>, from: nat,
                   chain: set<Identity>, frames: nat, processed: nat)
    requires frames <= FrameLimit && sites != []
    ensures var e := SiteExpansion(p, source, influence, sites, chain, frames, processed);
            ExpandSites(p, source, influence, sites, from, chain, frames, processed) ==
            e.(events := [Slice(source, Span(from, sites[0].range.start), influence)] + e.events)
  {
    var before := [Slice(source, Span(from, sites[0].range.start), influence)];
    var first := Expand(p, sites[0].call, chain, frames, processed);
    if first.complete {
      var rest := ExpandSites(p, source, influence, sites[1..], sites[0].range.end, chain, first.frames, first.processed);
      assert before + first.events + rest.events == before + (first.events + rest.events);
    }
  }

  lemma LastSlicePlays(p: Program, s: State, source: Rendered, influence: set<string>, from: nat, rest: seq<Task>)
    requires !s.stopped && s.frames <= FrameLimit && s.work == Tasks(source, influence, [], from) + rest
    ensures Plays(p, s, ExpandSites(p, source, influence, [], from, s.visiting, s.frames, s.processed), rest)
  {
    RunOnce(p, s);
    var slice := Slice(source, Span(from, |source.text|), influence);
    assert s.work[0] == Emit(source, Span(from, |source.text|), influence);
    assert s.work[1..] == rest;
    assert [slice][1..] == [];
  }

  /** The first call site and everything behind it. */
  function SiteExpansion(p: Program, source: Rendered, influence: set<string>, sites: seq<Site>, chain: set<Identity>,
                         frames: nat, processed: nat): Expansion
    requires frames <= FrameLimit && sites != []
  {
    var first := Expand(p, sites[0].call, chain, frames, processed);
    if !first.complete then first
    else
      var rest := ExpandSites(p, source, influence, sites[1..], sites[0].range.end, chain, first.frames, first.processed);
      rest.(events := first.events + rest.events)
  }

  lemma {:induction false} SitePlays(p: Program, t: State, source: Rendered, influence: set<string>, sites: seq<Site>,
                                     rest: seq<Task>)
    requires !t.stopped && t.frames <= FrameLimit && sites != []
    requires t.work == [Enter(sites[0].call)] + (Tasks(source, influence, sites[1..], sites[0].range.end) + rest)
    ensures Plays(p, t, SiteExpansion(p, source, influence, sites, t.visiting, t.frames, t.processed), rest)
    decreases FrameLimit - t.frames, |sites|, 0
  {
    var more := Tasks(source, influence, sites[1..], sites[0].range.end) + rest;
    EnterPlays(p, t, sites[0].call, more);
    var first := Expand(p, sites[0].call, t.visiting, t.frames, t.processed);
    if !first.complete {
      IncompleteStops(p, t, first, more, rest);
    } else {
      var (output, ok) := Replay(p.byteLimit, t.output, first.events);
      var after := ExpandSites(p, source, influence, sites[1..], sites[0].range.end, t.visiting, first.frames,
                               first.processed);
      if ok {
        var u := State(more, output, t.visiting, first.frames, first.processed, false);
        SitesPlay(p, u, source, influence, sites[1..], sites[0].range.end, rest);
      }
      JoinPlays(p, t, first, after, more, rest);
    }
  }

  /** The whole expansion: the stack machine writes exactly what recursion from the root call writes, and it
      finishes if and only if the recursion meets no limit and all its slices fit. */
  lemma StackRefinesRecursion(p: Program, call: Call)
    ensures var end := Run(p, State([Enter(call)], Empty, {}, 0, 0, false));
            (end.output, !end.stopped) == Replay(p.byteLimit, Empty, Expand(p, call, {}, 0, 0).events)
  {
    var s := State([Enter(call)], Empty, {}, 0, 0, false);
    assert s.work == [Enter(call)] + [];
    EnterPlays(p, s, call, []);
  }

  // ----- The call chain -----

  /** The identities whose exit is still on the stack, innermost first. */
  function Exits(work: seq<Task>): seq<Identity> {
    if work == [] then []
    else (if work[0].Exit? then [work[0].identity] else []) + Exits(work[1..])
  }

  ghost predicate Distinct(chain: seq<Identity>) {
    forall i, j :: 0 <= i < j < |chain| ==> chain[i] != chain[j]
  }

  /** The identities being visited are exactly those of the calls entered and not yet left, each once. */
  ghost predicate OnChain(s: State) {
    Distinct(Exits(s.work)) && forall identity :: identity in s.visiting <==> identity in Exits(s.work)
  }

  lemma {:induction false} ExitsAppend(a: seq<Task>, b: seq<Task>)
    ensures Exits(a + b) == Exits(a) + Exits(b)
  {
    if a == [] {
      assert a + b == b;
    } else {
      var rest := a[1..];
      ExitsAppend(rest, b);
      assert (a + b)[0] == a[0] && (a + b)[1..] == rest + b;
      var first := if a[0].Exit? then [a[0].identity] else [];
      assert Exits(a + b) == first + Exits(rest + b) && Exits(a) == first + Exits(rest);
    }
  }

  lemma {:induction false} TasksDoNotExit(source: Rendered, influence: set<string>, sites: seq<Site>, from: nat)
    ensures Exits(Tasks(source, influence, sites, from)) == []
    decreases |sites|
  {
    if sites != [] {
      var rest := Tasks(source, influence, sites[1..], sites[0].range.end);
      TasksDoNotExit(source, influence, sites[1..], sites[0].range.end);
      ExitsAppend([Emit(source, Span(from, sites[0].range.start), influence), Enter(sites[0].call)], rest);
      assert Exits([Emit(source, Span(from, sites[0].range.start), influence), Enter(sites[0].call)]) == [] by {
        assert [Emit(source, Span(from, sites[0].range.start), influence), Enter(sites[0].call)][1..]
            == [Enter(sites[0].call)];
      }
    }
  }

  lemma ChainGrows(chain: seq<Identity>, identity: Identity)
    requires Distinct(chain) && identity !in chain
    ensures Distinct([identity] + chain)
    ensures forall i :: i in [identity] + chain <==> i == identity || i in chain
  {
  }

  lemma ChainShrinks(identity: Identity, chain: seq<Identity>)
    requires Distinct([identity] + chain)
    ensures Distinct(chain) && identity !in chain
    ensures forall i :: i in [identity] + chain <==> i == identity || i in chain
  {
    assert forall i :: 0 <= i < |chain| ==> ([identity] + chain)[i + 1] == chain[i];
    assert ([identity] + chain)[0] == identity;
  }

  lemma StepKeepsChain(p: Program, s: State)
    requires s.work != [] && !s.stopped && s.frames <= FrameLimit && OnChain(s)
    ensures Step(p, s).stopped || OnChain(Step(p, s))
  {
    var t := Step(p, s);
    match s.work[0]
    case Emit(_, _, _) => assert Exits(s.work) == Exits(t.work);
    case Exit(identity) =>
      assert Exits(s.work) == [identity] + Exits(t.work);
      ChainShrinks(identity, Exits(t.work));
    case Enter(call) =>
      if !t.stopped {
        var frame, identity := p.frame(call), p.identity(call);
        var tasks := Tasks(Sliced(frame), p.influence(call), Sites(frame), 0);
        TasksDoNotExit(Sliced(frame), p.influence(call), Sites(frame), 0);
        ExitsAppend(tasks, [Exit(identity)] + s.work[1..]);
        assert Exits([Exit(identity)] + s.work[1..]) == [identity] + Exits(s.work[1..]) by {
          assert ([Exit(identity)] + s.work[1..])[1..] == s.work[1..];
        }
        ChainGrows(Exits(s.work), identity);
        assert Exits(t.work) == [identity] + Exits(s.work);
      }
  }

  /** The state after a number of steps. */
  function After(p: Program, s: State, steps: nat): State
    requires Counted(s)
    decreases steps
  {
    if steps == 0 || s.stopped || s.work == [] then s else After(p, Step(p, s), steps - 1)
  }

  /** The step halts on a call that is already being expanded. */
  predicate Refuses(p: Program, s: State)
    requires s.work != [] && !s.stopped && s.frames <= FrameLimit
  {
    && s.work[0].Enter? && Step(p, s).stopped
    && Step(p, s) == s.(output := Halted(s.output, {RecursiveState}), frames := s.frames + 1, stopped := true)
  }

  lemma RefusedOnChain(p: Program, s: State)
    requires s.work != [] && !s.stopped && s.frames < FrameLimit && OnChain(s) && s.work[0].Enter?
    ensures Refuses(p, s) <==> p.identity(s.work[0].call) in Exits(s.work)
  {
    var identity := p.identity(s.work[0].call);
    assert identity !in s.visiting ==> Step(p, s).visiting == s.visiting + {identity};
  }

  /** In every state of every expansion the visited identities are exactly the current call chain, and a call
      is refused as recursive if and only if it is its own caller, directly or through others. */
  lemma {:induction false} VisitingIsTheChain(p: Program, s: State, steps: nat)
    requires Counted(s) && OnChain(s)
    ensures var t := After(p, s, steps);
            && (t.stopped || OnChain(t))
            && (!t.stopped && t.work != [] && t.work[0].Enter? && t.frames < FrameLimit ==>
                  (Refuses(p, t) <==> p.identity(t.work[0].call) in Exits(t.work)))
    decreases steps
  {
    if steps != 0 && !s.stopped && s.work != [] {
      StepKeepsChain(p, s);
      if !Step(p, s).stopped {
        VisitingIsTheChain(p, Step(p, s), steps - 1);
      }
    } else if !s.stopped && s.work != [] && s.work[0].Enter? && s.frames < FrameLimit {
      RefusedOnChain(p, s);
    }
  }

  // ----- What the output spells -----

  function SpellOne(event: Event): seq<Byte> {
    if event.Slice? && Cuts(event.source.text, event.range) then Cut(event.source.text, event.range) else []
  }

  function Spelling(events: seq<Event>): seq<Byte> {
    if events == [] then [] else SpellOne(events[0]) + Spelling(events[1..])
  }

  lemma OneSpells(limit: nat, output: Rendered, event: Event)
    requires ReplayOne(limit, output, event).1
    ensures ReplayOne(limit, output, event).0.text == output.text + SpellOne(event)
  {
  }

  lemma Associates(a: seq<Byte>, b: seq<Byte>, c: seq<Byte>)
    ensures (a + b) + c == a + (b + c)
  {
  }

  lemma {:induction false} ReplaySpells(limit: nat, output: Rendered, events: seq<Event>)
    requires Replay(limit, output, events).1
    ensures Replay(limit, output, events).0.text == output.text + Spelling(events)
    decreases |events|
  {
    if events != [] {
      var after := ReplayOne(limit, output, events[0]).0;
      OneSpells(limit, output, events[0]);
      ReplaySpells(limit, after, events[1..]);
      Associates(output.text, SpellOne(events[0]), Spelling(events[1..]));
    }
  }

  /** A finished expansion spells, in order, the text around each call and the expansion of the call. */
  lemma ExpansionSpells(p: Program, call: Call)
    ensures var end := Run(p, State([Enter(call)], Empty, {}, 0, 0, false));
            !end.stopped ==> end.output.text == Spelling(Expand(p, call, {}, 0, 0).events)
  {
    StackRefinesRecursion(p, call);
    if !Run(p, State([Enter(call)], Empty, {}, 0, 0, false)).stopped {
      ReplaySpells(p.byteLimit, Empty, Expand(p, call, {}, 0, 0).events);
    }
  }

  /** In a frame whose properties lie on character boundaries, every slice cuts the frame's text and starts
      where the last call ended. */
  ghost predicate Sound(frame: Frame) {
    Laminar(frame.properties) && forall property :: property in frame.properties ==> Cuts(frame.rendered.text, property.range)
  }

  lemma {:induction false} TasksCut(source: Rendered, influence: set<string>, sites: seq<Site>, from: nat)
    requires Disjoint(sites) && (sites != [] ==> from <= sites[0].range.start)
    requires from <= |source.text| && Boundary(source.text, from)
    requires forall site :: site in sites ==> Cuts(source.text, site.range)
    ensures forall task :: task in Tasks(source, influence, sites, from) && task.Emit? ==> Cuts(source.text, task.range)
    decreases |sites|
  {
    if sites != [] {
      assert sites[0] in sites;
      TasksCut(source, influence, sites[1..], sites[0].range.end);
    }
  }

  lemma SoundFramesCut(p: Program, call: Call)
    requires Sound(p.frame(call))
    ensures var frame := p.frame(call);
            forall task :: task in Tasks(Sliced(frame), p.influence(call), Sites(frame), 0) && task.Emit? ==>
              Cuts(frame.rendered.text, task.range)
  {
    var frame := p.frame(call);
    CallsAreDisjoint(frame);
    SelectedIsDisjoint(frame.properties);
    forall site | site in Sites(frame)
      ensures Cuts(frame.rendered.text, site.range)
    {
      var sites, covered := Selected(frame.properties).sites, Selected(frame.properties).covered;
      var i :| 0 <= i < |sites| && sites[i] == site;
      var k :| 0 <= k < |covered| && covered[k] == site.range;
      assert Listed(frame.properties, covered[k]);
      var p :| 0 <= p < |frame.properties| && frame.properties[p].range == covered[k];
      assert frame.properties[p] in frame.properties;
    }
    TasksCut(Sliced(frame), p.influence(call), Sites(frame), 0);
  }

  // ----- Maps across calls -----

  ghost predicate EventsMapRight(agrees: Agreement, events: seq<Event>) {
    forall event :: event in events && event.Slice? ==> AllMapRight(agrees, event.source)
  }

  lemma {:induction false} ReplayMapsRight(agrees: Agreement, limit: nat, output: Rendered, events: seq<Event>)
    requires AllMapRight(agrees, output) && EventsMapRight(agrees, events)
    ensures AllMapRight(agrees, Replay(limit, output, events).0)
    decreases |events|
  {
    if events != [] {
      assert events[0] in events;
      var (after, ok) := ReplayOne(limit, output, events[0]);
      if events[0].Slice? {
        AppendingMapsRight(agrees, output, events[0].source, events[0].range, events[0].influence, limit);
      }
      if ok {
        ReplayMapsRight(agrees, limit, after, events[1..]);
      }
    }
  }

  /** The frames of these calls map their bytes right, and call nothing else. */
  ghost predicate Closed(agrees: Agreement, p: Program, right: iset<Call>) {
    forall call :: call in right ==>
      AllMapRight(agrees, p.frame(call).rendered) && forall site :: site in Sites(p.frame(call)) ==> site.call in right
  }

  lemma {:induction false} ExpandMapsRight(agrees: Agreement, p: Program, right: iset<Call>, call: Call, chain: set<Identity>,
                                           frames: nat, processed: nat)
    requires frames <= FrameLimit && Closed(agrees, p, right) && call in right
    ensures EventsMapRight(agrees, Expand(p, call, chain, frames, processed).events)
    decreases FrameLimit - frames, 0
  {
    var identity, frame := p.identity(call), p.frame(call);
    var total := processed + |frame.rendered.text|;
    if frames + 1 <= FrameLimit && identity !in chain && total <= 16 * p.byteLimit && frame.parsed {
      assert AllMapRight(agrees, Sliced(frame));
      SitesMapRight(agrees, p, right, Sliced(frame), p.influence(call), Sites(frame), 0, chain + {identity}, frames + 1, total);
    }
  }

  lemma {:induction false} SitesMapRight(agrees: Agreement, p: Program, right: iset<Call>, source: Rendered,
                                         influence: set<string>, sites: seq<Site>, from: nat, chain: set<Identity>, frames: nat,
                                         processed: nat)
    requires frames <= FrameLimit && Closed(agrees, p, right) && forall site :: site in sites ==> site.call in right
    requires AllMapRight(agrees, source)
    ensures EventsMapRight(agrees, ExpandSites(p, source, influence, sites, from, chain, frames, processed).events)
    decreases FrameLimit - frames, |sites| + 1
  {
    if sites != [] {
      assert sites[0] in sites;
      var first := Expand(p, sites[0].call, chain, frames, processed);
      ExpandMapsRight(agrees, p, right, sites[0].call, chain, frames, processed);
      if first.complete {
        SitesMapRight(agrees, p, right, source, influence, sites[1..], sites[0].range.end, chain, first.frames, first.processed);
      }
    }
  }

  /** However calls are nested and sliced, and wherever the expansion stops: if every frame that can be entered
      maps its bytes right, the whole output does. */
  lemma ExpansionMapsRight(agrees: Agreement, p: Program, right: iset<Call>, call: Call)
    requires Closed(agrees, p, right) && call in right
    ensures AllMapRight(agrees, Run(p, State([Enter(call)], Empty, {}, 0, 0, false)).output)
  {
    StackRefinesRecursion(p, call);
    ExpandMapsRight(agrees, p, right, call, {}, 0, 0);
    ReplayMapsRight(agrees, p.byteLimit, Empty, Expand(p, call, {}, 0, 0).events);
  }

  // ----- The expansion loop -----

  method SelectCalls(frame: Frame) returns (selection: Selection)
    ensures selection == Selected(frame.properties)
  {
    selection := Selection([], [], [], false);
    for i := 0 to |frame.properties|
      invariant selection == Selected(frame.properties[..i])
    {
      var property := frame.properties[i];
      assert frame.properties[..i + 1][..i] == frame.properties[..i];
      if !property.use.Ignored? && !Covered(selection.covered, property.range) {
        match property.use {
          case Missing(value) =>
            selection := selection.(missing := true);
            if value.Some? {
              selection := selection.(unresolved := selection.unresolved + [value.value]);
            }
          case Invokes(call) =>
            selection := selection.(sites := selection.sites + [Site(property.range, call)]);
        }
        selection := selection.(covered := selection.covered + [property.range]);
      }
    }
    assert frame.properties[..|frame.properties|] == frame.properties;
  }

  method PushTasks(source: Rendered, influence: set<string>, sites: seq<Site>, below: seq<Task>) returns (work: seq<Task>)
    ensures work == Tasks(source, influence, sites, 0) + below
  {
    var tasks, from := [], 0;
    for i := 0 to |sites|
      invariant Tasks(source, influence, sites, 0) == tasks + Tasks(source, influence, sites[i..], from)
    {
      assert sites[i..][1..] == sites[i + 1..];
      tasks := tasks + [Emit(source, Span(from, sites[i].range.start), influence), Enter(sites[i].call)];
      from := sites[i].range.end;
    }
    assert sites[|sites|..] == [];
    work := (tasks + [Emit(source, Span(from, |source.text|), influence)]) + below;
  }

  method EnterCall(p: Program, s: State, call: Call) returns (t: State)
    requires s.work != []
    ensures t == StepEnter(p, s, call)
  {
    t := s.(frames := s.frames + 1);
    if t.frames > FrameLimit {
      return t.(output := Halted(t.output, {Nodes}), stopped := true);
    }
    var identity := p.identity(call);
    if identity in t.visiting {
      return t.(output := Halted(t.output, {RecursiveState}), stopped := true);
    }
    t := t.(visiting := t.visiting + {identity}, work := [Exit(identity)] + t.work[1..]);
    var frame := p.frame(call);
    t := t.(processed := t.processed + |frame.rendered.text|, stopped := false);
    if t.processed > 16 * p.byteLimit {
      return t.(output := Halted(t.output, {TextBytes}), stopped := true);
    }
    if !frame.parsed {
      return t.(output := Halted(t.output, frame.noted + frame.rendered.limits), stopped := true);
    }
    var selection := SelectCalls(frame);
    var missing := if selection.missing then {UnavailableTemplate} else {};
    var source := frame.rendered.(unresolved := frame.rendered.unresolved + selection.unresolved,
                                  limits := frame.rendered.limits + missing);
    var work := PushTasks(source, p.influence(call), Sort(Earlier, selection.sites), t.work);
    t := t.(output := Noted(t.output, frame.noted + missing), work := work);
  }

  /** Works the stack off; the result is the recursive expansion's, complete or stopped. */
  method RenderExpanded(p: Program, call: Call) returns (output: Rendered, finished: bool)
    ensures (output, finished) == Replay(p.byteLimit, Empty, Expand(p, call, {}, 0, 0).events)
    ensures finished ==> output.text == Spelling(Expand(p, call, {}, 0, 0).events)
  {
    var s := State([Enter(call)], Empty, {}, 0, 0, false);
    ghost var start := s;
    while !s.stopped && s.work != []
      invariant Counted(s) && Run(p, s) == Run(p, start)
      decreases if s.stopped then 0 else 1, if s.stopped then 0 else FrameLimit - s.frames, |s.work|
    {
      ghost var before := s;
      RunOnce(p, s);
      match s.work[0] {
        case Exit(identity) => s := s.(work := s.work[1..], visiting := s.visiting - {identity});
        case Emit(source, range, influence) =>
          var after, ok := AppendSlice(s.output, source, range, influence, p.byteLimit);
          s := s.(work := s.work[1..], output := after, stopped := !ok);
        case Enter(callee) => s := EnterCall(p, s, callee);
      }
      assert s == Step(p, before);
    }
    StackRefinesRecursion(p, call);
    ExpansionSpells(p, call);
    return s.output, !s.stopped;
  }
}
