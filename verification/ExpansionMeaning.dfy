/** When an expansion finishes, and what it then writes: the text of a call with every call site replaced by the
    expansion of what it calls, told from the frames alone. */
module ExpansionMeaning {
  import opened Options
  import opened Ranges
  import opened Utf8
  import opened TemplateExpansion

  /** A call unfolded to the end: its text, how many calls it takes and how many bytes their frames have, the limits
      they note, and which part of which frame stands where. */
  datatype Whole = Whole(text: seq<Byte>, calls: nat, bytes: nat, limits: set<Limit>, parts: seq<(Call, Range)>)

  function Then(a: Whole, b: Whole): Whole {
    Whole(a.text + b.text, a.calls + b.calls, a.bytes + b.bytes, a.limits + b.limits, a.parts + b.parts)
  }

  /** One part of the frame of a call, if it ends at characters. */
  function PartOf(p: Program, call: Call, from: nat, to: nat): Option<Whole> {
    var source := Sliced(p.frame(call));
    var range := if from <= to then Bounds(from, to) else Bounds(from, from);
    if Cuts(source.text, range)
    then Some(Whole(source.text[range.start..range.end], 0, 0, source.limits, [(call, range)]))
    else None
  }

  /** A call unfolds if it is none of its own callers, its frame can be parsed, and what it calls unfolds at a lesser
      depth. */
  function Unfolded(p: Program, call: Call, chain: set<Identity>, depth: nat): Option<Whole>
    decreases depth, 0
  {
    var frame := p.frame(call);
    if depth == 0 || p.identity(call) in chain || !frame.parsed then None
    else match UnfoldedFrom(p, call, Sites(frame), 0, chain + {p.identity(call)}, depth - 1)
      case None => None
      case Some(body) => Some(Then(Whole([], 1, |frame.rendered.text|, EntryLimits(frame), []), body))
  }

  function UnfoldedFrom(p: Program, call: Call, sites: seq<Site>, from: nat, chain: set<Identity>, depth: nat): Option<Whole>
    decreases depth, |sites| + 1
  {
    if sites == [] then PartOf(p, call, from, |p.frame(call).rendered.text|)
    else
      match (PartOf(p, call, from, sites[0].range.start), Unfolded(p, sites[0].call, chain, depth),
             UnfoldedFrom(p, call, sites[1..], sites[0].range.end, chain, depth))
      case (Some(before), Some(inner), Some(rest)) => Some(Then(Then(before, inner), rest))
      case _ => None
  }

  // ----- What events tell -----

  ghost predicate Plain(events: seq<Event>) {
    forall event :: event in events ==> !event.Halt? && (event.Slice? ==> Cuts(event.source.text, event.range))
  }

  function LimitsOf(events: seq<Event>): set<Limit> {
    if events == [] then {} else LimitsOfOne(events[0]) + LimitsOf(events[1..])
  }

  function LimitsOfOne(event: Event): set<Limit> {
    match event
    case Note(limits) => limits
    case Slice(source, _, _) => source.limits
    case Halt(limits) => limits
  }

  /** The slices that stand for some parts. */
  function SlicesOf(p: Program, parts: seq<(Call, Range)>): seq<Event> {
    seq(|parts|, i requires 0 <= i < |parts| => Slice(Sliced(p.frame(parts[i].0)), parts[i].1, p.influence(parts[i].0)))
  }

  function OnlySlices(events: seq<Event>): seq<Event> {
    if events == [] then [] else (if events[0].Slice? then [events[0]] else []) + OnlySlices(events[1..])
  }

  /** The events write what is unfolded. */
  ghost predicate Tells(p: Program, events: seq<Event>, w: Whole) {
    && Plain(events) && Spelling(events) == w.text && LimitsOf(events) == w.limits && OnlySlices(events) == SlicesOf(p, w.parts)
  }

  lemma {:induction false} FirstOfBoth(a: seq<Event>, b: seq<Event>)
    requires a != []
    ensures (a + b)[0] == a[0] && (a + b)[1..] == a[1..] + b
  {
  }

  lemma {:induction false} SpellingAppends(a: seq<Event>, b: seq<Event>)
    ensures Spelling(a + b) == Spelling(a) + Spelling(b)
    decreases |a|
  {
    if a == [] {
      assert a + b == b;
    } else {
      FirstOfBoth(a, b);
      SpellingAppends(a[1..], b);
      Associates(SpellOne(a[0]), Spelling(a[1..]), Spelling(b));
    }
  }

  lemma {:induction false} LimitsAppend(a: seq<Event>, b: seq<Event>)
    ensures LimitsOf(a + b) == LimitsOf(a) + LimitsOf(b)
    decreases |a|
  {
    if a == [] {
      assert a + b == b;
    } else {
      FirstOfBoth(a, b);
      LimitsAppend(a[1..], b);
    }
  }

  lemma {:induction false} SlicesAppend(a: seq<Event>, b: seq<Event>)
    ensures OnlySlices(a + b) == OnlySlices(a) + OnlySlices(b)
    decreases |a|
  {
    if a == [] {
      assert a + b == b;
    } else {
      FirstOfBoth(a, b);
      SlicesAppend(a[1..], b);
    }
  }

  lemma {:induction false} PlainAppends(a: seq<Event>, b: seq<Event>)
    ensures Plain(a + b) <==> Plain(a) && Plain(b)
  {
    assert forall event :: event in a + b <==> event in a || event in b;
  }

  lemma {:induction false} TellsThen(p: Program, a: seq<Event>, b: seq<Event>, v: Whole, w: Whole)
    requires Tells(p, a, v) && Tells(p, b, w)
    ensures Tells(p, a + b, Then(v, w))
  {
    PlainAppends(a, b);
    SpellingThen(a, b, v.text, w.text);
    LimitsAppend(a, b);
    SlicesThen(p, a, b, v.parts, w.parts);
  }

  lemma {:induction false} SpellingThen(a: seq<Event>, b: seq<Event>, v: seq<Byte>, w: seq<Byte>)
    requires Spelling(a) == v && Spelling(b) == w
    ensures Spelling(a + b) == v + w
  {
    SpellingAppends(a, b);
  }

  lemma {:induction false} SlicesThen(p: Program, a: seq<Event>, b: seq<Event>, v: seq<(Call, Range)>, w: seq<(Call, Range)>)
    requires OnlySlices(a) == SlicesOf(p, v) && OnlySlices(b) == SlicesOf(p, w)
    ensures OnlySlices(a + b) == SlicesOf(p, v + w)
  {
    SlicesAppend(a, b);
    assert SlicesOf(p, v + w) == SlicesOf(p, v) + SlicesOf(p, w);
  }

  lemma {:induction false} NoteTells(p: Program, limits: set<Limit>, calls: nat, bytes: nat)
    ensures Tells(p, [Note(limits)], Whole([], calls, bytes, limits, []))
  {
    assert [Note(limits)][1..] == [];
  }

  lemma {:induction false} PartTells(p: Program, call: Call, from: nat, to: nat)
    ensures var slice := Slice(Sliced(p.frame(call)), Span(from, to), p.influence(call));
            && (PartOf(p, call, from, to).Some? <==> Plain([slice]))
            && (PartOf(p, call, from, to).Some? ==> Tells(p, [slice], PartOf(p, call, from, to).value))
  {
    var slice := Slice(Sliced(p.frame(call)), Span(from, to), p.influence(call));
    assert [slice][1..] == [];
    assert slice in [slice];
    if Cuts(slice.source.text, slice.range) {
      var w := PartOf(p, call, from, to).value;
      assert SlicesOf(p, w.parts) == [slice];
      assert SpellOne(slice) + [] == SpellOne(slice);
    }
  }

  // ----- Expansion and unfolding -----

  /** The counts of an expansion that went through are those of what is unfolded. */
  predicate Counts(p: Program, e: Expansion, frames: nat, processed: nat, w: Whole) {
    e.complete && e.frames == frames + w.calls && e.processed == processed + w.bytes
  }

  ghost predicate Agrees(p: Program, e: Expansion, frames: nat, processed: nat, w: Whole) {
    Counts(p, e, frames, processed, w) && Tells(p, e.events, w)
  }

  /** What goes through unfolds, as deep as there are frames left. */
  lemma {:induction false} ExpandedUnfolds(p: Program, call: Call, chain: set<Identity>, frames: nat, processed: nat, depth: nat)
    requires frames <= FrameLimit <= frames + depth
    requires var e := Expand(p, call, chain, frames, processed); e.complete && Plain(e.events)
    ensures var w := Unfolded(p, call, chain, depth);
            w.Some? && Agrees(p, Expand(p, call, chain, frames, processed), frames, processed, w.value)
            && frames + w.value.calls <= FrameLimit && processed + w.value.bytes <= 16 * p.byteLimit
    decreases depth, 0
  {
    var total, chain' := processed + |p.frame(call).rendered.text|, chain + {p.identity(call)};
    var body := BodyOf(p, call, chain, frames, processed);
    SitesUnfold(p, call, Sites(p.frame(call)), 0, chain', frames + 1, total, depth - 1);
    var inner := UnfoldedFrom(p, call, Sites(p.frame(call)), 0, chain', depth - 1).value;
    EnteredUnfolds(p, call, chain, frames, processed, depth, Expand(p, call, chain, frames, processed), body, inner);
  }

  /** What goes through has entered its frame, and its body goes through. */
  lemma {:induction false} BodyOf(p: Program, call: Call, chain: set<Identity>, frames: nat, processed: nat) returns (body: Expansion)
    requires frames <= FrameLimit
    requires var e := Expand(p, call, chain, frames, processed); e.complete && Plain(e.events)
    ensures frames + 1 <= FrameLimit && p.identity(call) !in chain && p.frame(call).parsed
    ensures processed + |p.frame(call).rendered.text| <= 16 * p.byteLimit
    ensures body == ExpandSites(p, Sliced(p.frame(call)), p.influence(call), Sites(p.frame(call)), 0,
                                chain + {p.identity(call)}, frames + 1, processed + |p.frame(call).rendered.text|)
    ensures body.complete && Plain(body.events)
    ensures Expand(p, call, chain, frames, processed) == body.(events := [Note(EntryLimits(p.frame(call)))] + body.events)
  {
    CompleteIsEntered(p, call, chain, frames, processed);
    body := ExpandSites(p, Sliced(p.frame(call)), p.influence(call), Sites(p.frame(call)), 0,
                        chain + {p.identity(call)}, frames + 1, processed + |p.frame(call).rendered.text|);
    PlainAppends([Note(EntryLimits(p.frame(call)))], body.events);
  }

  lemma {:induction false} EnteredUnfolds(p: Program, call: Call, chain: set<Identity>, frames: nat, processed: nat, depth: nat,
                                          e: Expansion, body: Expansion, inner: Whole)
    requires depth > 0 && p.identity(call) !in chain && p.frame(call).parsed
    requires UnfoldedFrom(p, call, Sites(p.frame(call)), 0, chain + {p.identity(call)}, depth - 1) == Some(inner)
    requires e == body.(events := [Note(EntryLimits(p.frame(call)))] + body.events)
    requires Agrees(p, body, frames + 1, processed + |p.frame(call).rendered.text|, inner)
    ensures var w := Unfolded(p, call, chain, depth);
            w.Some? && Agrees(p, e, frames, processed, w.value)
            && w.value.calls == 1 + inner.calls && w.value.bytes == |p.frame(call).rendered.text| + inner.bytes
  {
    NotedAgrees(p, call, body, frames, processed, inner);
    UnfoldedIs(p, call, chain, depth, inner);
  }

  lemma {:induction false} UnfoldedIs(p: Program, call: Call, chain: set<Identity>, depth: nat, inner: Whole)
    requires depth > 0 && p.identity(call) !in chain && p.frame(call).parsed
    requires UnfoldedFrom(p, call, Sites(p.frame(call)), 0, chain + {p.identity(call)}, depth - 1) == Some(inner)
    ensures var frame := p.frame(call);
            Unfolded(p, call, chain, depth) == Some(Then(Whole([], 1, |frame.rendered.text|, EntryLimits(frame), []), inner))
  {
  }

  lemma {:induction false} CompleteIsEntered(p: Program, call: Call, chain: set<Identity>, frames: nat, processed: nat)
    requires frames <= FrameLimit && Expand(p, call, chain, frames, processed).complete
    ensures frames + 1 <= FrameLimit && p.identity(call) !in chain && p.frame(call).parsed
    ensures processed + |p.frame(call).rendered.text| <= 16 * p.byteLimit
    ensures var frame := p.frame(call);
            var body := ExpandSites(p, Sliced(frame), p.influence(call), Sites(frame), 0, chain + {p.identity(call)},
                                    frames + 1, processed + |frame.rendered.text|);
            Expand(p, call, chain, frames, processed) == body.(events := [Note(EntryLimits(frame))] + body.events)
  {
    ExpandIsBody(p, call, chain, frames, processed);
  }

  /** Entering a frame, and what is unfolded below it. */
  lemma {:induction false} NotedAgrees(p: Program, call: Call, body: Expansion, frames: nat, processed: nat, inner: Whole)
    requires Agrees(p, body, frames + 1, processed + |p.frame(call).rendered.text|, inner)
    ensures var frame := p.frame(call);
            Agrees(p, body.(events := [Note(EntryLimits(frame))] + body.events), frames, processed,
                   Then(Whole([], 1, |frame.rendered.text|, EntryLimits(frame), []), inner))
  {
    var frame := p.frame(call);
    NoteTells(p, EntryLimits(frame), 1, |frame.rendered.text|);
    TellsThen(p, [Note(EntryLimits(frame))], body.events, Whole([], 1, |frame.rendered.text|, EntryLimits(frame), []), inner);
  }

  lemma {:induction false} SitesUnfold(p: Program, call: Call, sites: seq<Site>, from: nat, chain: set<Identity>, frames: nat,
                                       processed: nat, depth: nat)
    requires frames <= FrameLimit <= frames + depth && processed <= 16 * p.byteLimit
    requires var e := ExpandSites(p, Sliced(p.frame(call)), p.influence(call), sites, from, chain, frames, processed);
             e.complete && Plain(e.events)
    ensures var w := UnfoldedFrom(p, call, sites, from, chain, depth);
            w.Some? && Agrees(p, ExpandSites(p, Sliced(p.frame(call)), p.influence(call), sites, from, chain, frames, processed),
                              frames, processed, w.value)
            && frames + w.value.calls <= FrameLimit && processed + w.value.bytes <= 16 * p.byteLimit
    decreases depth, |sites| + 1
  {
    var source, influence := Sliced(p.frame(call)), p.influence(call);
    if sites == [] {
      PartTells(p, call, from, |source.text|);
    } else {
      PartTells(p, call, from, sites[0].range.start);
      var before := [Slice(source, Span(from, sites[0].range.start), influence)];
      var first := Expand(p, sites[0].call, chain, frames, processed);
      var rest := ExpandSites(p, source, influence, sites[1..], sites[0].range.end, chain, first.frames, first.processed);
      PlainAppends(before + first.events, rest.events);
      PlainAppends(before, first.events);
      ExpandedUnfolds(p, sites[0].call, chain, frames, processed, depth);
      SitesUnfold(p, call, sites[1..], sites[0].range.end, chain, first.frames, first.processed, depth);
      var part := PartOf(p, call, from, sites[0].range.start).value;
      var inner := Unfolded(p, sites[0].call, chain, depth).value;
      TellsThen(p, before, first.events, part, inner);
      TellsThen(p, before + first.events, rest.events, Then(part, inner),
                UnfoldedFrom(p, call, sites[1..], sites[0].range.end, chain, depth).value);
    }
  }

  /** What unfolds goes through, if it takes no more frames and bytes than there are. */
  lemma {:induction false} UnfoldedExpands(p: Program, call: Call, chain: set<Identity>, frames: nat, processed: nat, depth: nat)
    requires frames <= FrameLimit && Unfolded(p, call, chain, depth).Some?
    requires var w := Unfolded(p, call, chain, depth).value;
             frames + w.calls <= FrameLimit && processed + w.bytes <= 16 * p.byteLimit
    ensures Agrees(p, Expand(p, call, chain, frames, processed), frames, processed, Unfolded(p, call, chain, depth).value)
    decreases depth, 0
  {
    var frame, total := p.frame(call), processed + |p.frame(call).rendered.text|;
    var chain' := chain + {p.identity(call)};
    var inner := UnfoldedFrom(p, call, Sites(frame), 0, chain', depth - 1).value;
    SitesExpand(p, call, Sites(frame), 0, chain', frames + 1, total, depth - 1);
    ExpandIsBody(p, call, chain, frames, processed);
    var body := ExpandSites(p, Sliced(frame), p.influence(call), Sites(frame), 0, chain', frames + 1, total);
    NotedAgrees(p, call, body, frames, processed, inner);
  }

  lemma {:induction false} SitesExpand(p: Program, call: Call, sites: seq<Site>, from: nat, chain: set<Identity>, frames: nat,
                                       processed: nat, depth: nat)
    requires frames <= FrameLimit && UnfoldedFrom(p, call, sites, from, chain, depth).Some?
    requires var w := UnfoldedFrom(p, call, sites, from, chain, depth).value;
             frames + w.calls <= FrameLimit && processed + w.bytes <= 16 * p.byteLimit
    ensures Agrees(p, ExpandSites(p, Sliced(p.frame(call)), p.influence(call), sites, from, chain, frames, processed),
                   frames, processed, UnfoldedFrom(p, call, sites, from, chain, depth).value)
    decreases depth, |sites| + 1
  {
    var source, influence := Sliced(p.frame(call)), p.influence(call);
    if sites == [] {
      PartTells(p, call, from, |source.text|);
    } else {
      PartTells(p, call, from, sites[0].range.start);
      var part := PartOf(p, call, from, sites[0].range.start).value;
      var inner := Unfolded(p, sites[0].call, chain, depth).value;
      var others := UnfoldedFrom(p, call, sites[1..], sites[0].range.end, chain, depth).value;
      UnfoldedExpands(p, sites[0].call, chain, frames, processed, depth);
      var first := Expand(p, sites[0].call, chain, frames, processed);
      SitesExpand(p, call, sites[1..], sites[0].range.end, chain, first.frames, first.processed, depth);
      var before := [Slice(source, Span(from, sites[0].range.start), influence)];
      var rest := ExpandSites(p, source, influence, sites[1..], sites[0].range.end, chain, first.frames, first.processed);
      TellsThen(p, before, first.events, part, inner);
      TellsThen(p, before + first.events, rest.events, Then(part, inner), others);
    }
  }

  // ----- Finishing -----

  lemma {:induction false} ReplayFinishes(limit: nat, output: Rendered, events: seq<Event>)
    requires |output.text| <= limit
    ensures Replay(limit, output, events).1 <==> Plain(events) && |output.text| + |Spelling(events)| <= limit
    ensures Replay(limit, output, events).1 ==>
              Replay(limit, output, events).0.text == output.text + Spelling(events)
              && Replay(limit, output, events).0.limits == output.limits + LimitsOf(events)
    decreases |events|
  {
    if events != [] {
      var (after, ok) := ReplayOne(limit, output, events[0]);
      OneFinishes(limit, output, events[0]);
      PlainHead(events);
      if ok {
        ReplayFinishes(limit, after, events[1..]);
        Associates(output.text, SpellOne(events[0]), Spelling(events[1..]));
      }
    }
  }

  lemma {:induction false} OneFinishes(limit: nat, output: Rendered, event: Event)
    requires |output.text| <= limit
    ensures var (after, ok) := ReplayOne(limit, output, event);
            && (ok <==> !event.Halt? && (event.Slice? ==> Cuts(event.source.text, event.range))
                        && |output.text| + |SpellOne(event)| <= limit)
            && (ok ==> after.text == output.text + SpellOne(event) && after.limits == output.limits + LimitsOfOne(event))
  {
  }

  lemma {:induction false} PlainHead(events: seq<Event>)
    requires events != []
    ensures Plain(events) <==> Plain(events[1..]) && !events[0].Halt?
                               && (events[0].Slice? ==> Cuts(events[0].source.text, events[0].range))
  {
    assert events == [events[0]] + events[1..];
    PlainAppends([events[0]], events[1..]);
    assert events[0] in [events[0]];
  }

  lemma {:induction false} IncompleteHalts(p: Program, call: Call, chain: set<Identity>, frames: nat, processed: nat)
    requires frames <= FrameLimit && !Expand(p, call, chain, frames, processed).complete
    ensures !Plain(Expand(p, call, chain, frames, processed).events)
    decreases FrameLimit - frames, 0
  {
    var frame, total := p.frame(call), processed + |p.frame(call).rendered.text|;
    if frames + 1 <= FrameLimit && p.identity(call) !in chain && total <= 16 * p.byteLimit && frame.parsed {
      var body := ExpandSites(p, Sliced(frame), p.influence(call), Sites(frame), 0, chain + {p.identity(call)}, frames + 1, total);
      SitesHalt(p, Sliced(frame), p.influence(call), Sites(frame), 0, chain + {p.identity(call)}, frames + 1, total);
      PlainAppends([Note(EntryLimits(frame))], body.events);
    } else {
      var halt := Expand(p, call, chain, frames, processed).events[0];
      assert halt in Expand(p, call, chain, frames, processed).events && halt.Halt?;
    }
  }

  lemma {:induction false} SitesHalt(p: Program, source: Rendered, influence: set<string>, sites: seq<Site>, from: nat,
                                     chain: set<Identity>, frames: nat, processed: nat)
    requires frames <= FrameLimit && !ExpandSites(p, source, influence, sites, from, chain, frames, processed).complete
    ensures !Plain(ExpandSites(p, source, influence, sites, from, chain, frames, processed).events)
    decreases FrameLimit - frames, |sites| + 1
  {
    var before := [Slice(source, Span(from, sites[0].range.start), influence)];
    var first := Expand(p, sites[0].call, chain, frames, processed);
    PlainAppends(before, first.events);
    if !first.complete {
      IncompleteHalts(p, sites[0].call, chain, frames, processed);
    } else {
      var rest := ExpandSites(p, source, influence, sites[1..], sites[0].range.end, chain, first.frames, first.processed);
      SitesHalt(p, source, influence, sites[1..], sites[0].range.end, chain, first.frames, first.processed);
      PlainAppends(before + first.events, rest.events);
    }
  }

  /** Within the limits on calls, on the bytes of their frames and on the output. */
  predicate Affordable(p: Program, w: Whole) {
    w.calls <= 100_000 && w.bytes <= 16 * p.byteLimit && |w.text| <= p.byteLimit
  }

  /** The call unfolds to this, within every limit. */
  ghost predicate UnfoldsTo(p: Program, call: Call, w: Whole) {
    Affordable(p, w) && exists depth: nat :: Unfolded(p, call, {}, depth) == Some(w)
  }

  /** An expansion finishes if and only if the call unfolds to the end within every limit; it then has written the
      unfolded text, with the limits of all frames, as slices of the frames in order. */
  lemma {:induction false} FinishLaw(p: Program, call: Call)
    ensures Replay(p.byteLimit, Empty, Expand(p, call, {}, 0, 0).events).1 <==> exists w :: UnfoldsTo(p, call, w)
    ensures forall w :: UnfoldsTo(p, call, w) ==>
              var output := Replay(p.byteLimit, Empty, Expand(p, call, {}, 0, 0).events).0;
              && output.text == w.text && output.limits == w.limits
              && OnlySlices(Expand(p, call, {}, 0, 0).events) == SlicesOf(p, w.parts)
  {
    var e := Expand(p, call, {}, 0, 0);
    ReplayFinishes(p.byteLimit, Empty, e.events);
    if Replay(p.byteLimit, Empty, e.events).1 {
      if !e.complete {
        IncompleteHalts(p, call, {}, 0, 0);
      }
      ExpandedUnfolds(p, call, {}, 0, 0, FrameLimit);
      assert UnfoldsTo(p, call, Unfolded(p, call, {}, FrameLimit).value);
    }
    forall w | UnfoldsTo(p, call, w)
      ensures Agrees(p, e, 0, 0, w)
    {
      var depth: nat :| Unfolded(p, call, {}, depth) == Some(w);
      UnfoldedExpands(p, call, {}, 0, 0, depth);
    }
  }

  // ----- Stops -----

  /** A call whose expansion starts is stopped by the number of calls before all else, then by its own callers, then
      by the bytes of the frames read, and last by a frame that cannot be parsed; each stop is recorded as such, and
      a frontier is left where the output ends. */
  lemma {:induction false} StopLaw(p: Program, s: State, call: Call)
    requires !s.stopped && s.work != [] && s.work[0] == Enter(call) && s.frames <= FrameLimit
    ensures var t, frame := Step(p, s), p.frame(call);
            var read := s.processed + |frame.rendered.text|;
            && t.output.text == s.output.text && t.output.pieces == s.output.pieces && t.output.unresolved == s.output.unresolved
            && (t.stopped <==>
                  s.frames >= 100_000 || p.identity(call) in s.visiting || read > 16 * p.byteLimit || !frame.parsed)
            && (t.stopped ==>
                  && t.output.frontiers == s.output.frontiers + [|s.output.text|]
                  && t.output.limits == s.output.limits + (
                       if s.frames >= 100_000 then {Nodes}
                       else if p.identity(call) in s.visiting then {RecursiveState}
                       else if read > 16 * p.byteLimit then {TextBytes}
                       else frame.noted + frame.rendered.limits))
            && (!t.stopped ==> t.output.frontiers == s.output.frontiers && t.output.limits == s.output.limits + EntryLimits(frame))
  {
  }
}
