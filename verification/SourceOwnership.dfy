/** Which documents and files effectively contribute to a workspace: overlays own physical paths, and
    candidates of one logical path replace or merge. Physical and logical paths are numbered in their
    own order. */
module SourceOwnership {
  import opened Options
  import opened Sorting
  import opened Ascii

  // ----- Preference among overlays of one physical file -----

  /** The identifier's scheme, up to its first colon, is `pdcloc` up to case. */
  predicate Decoded(id: string) {
    && |id| >= 7 && id[6] == ':'
    && forall i :: 0 <= i < 6 ==> LowerChar(id[i]) == "pdcloc"[i]
  }

  /** Lexicographic order of identifiers. */
  predicate Less(a: string, b: string) {
    if b == [] then false
    else if a == [] then true
    else a[0] < b[0] || (a[0] == b[0] && Less(a[1..], b[1..]))
  }

  /** The candidate takes over from the current owner. */
  predicate Prefers(current: string, candidate: string) {
    if Decoded(current) != Decoded(candidate) then Decoded(candidate) else Less(current, candidate)
  }

  lemma {:induction false} LessIsIrreflexive(a: string)
    ensures !Less(a, a)
  {
    if a != [] {
      LessIsIrreflexive(a[1..]);
    }
  }

  lemma {:induction false} LessIsTotal(a: string, b: string)
    ensures !(Less(a, b) && Less(b, a))
    ensures a != b ==> Less(a, b) || Less(b, a)
  {
    if a != [] && b != [] {
      LessIsTotal(a[1..], b[1..]);
      if a[0] == b[0] && a[1..] == b[1..] {
        assert a == [a[0]] + a[1..] && b == [b[0]] + b[1..];
      }
    }
  }

  lemma {:induction false} LessIsTransitive(a: string, b: string, c: string)
    requires Less(a, b) && Less(b, c)
    ensures Less(a, c)
  {
    if a != [] && a[0] == b[0] && b[0] == c[0] {
      LessIsTransitive(a[1..], b[1..], c[1..]);
    }
  }

  /** Preference is a strict total order on identifiers. */
  lemma PreferenceIsOrder(a: string, b: string, c: string)
    ensures !(Prefers(a, b) && Prefers(b, a)) && !Prefers(a, a)
    ensures a != b ==> Prefers(a, b) || Prefers(b, a)
    ensures Prefers(a, b) && Prefers(b, c) ==> Prefers(a, c)
  {
    LessIsIrreflexive(a);
    LessIsTotal(a, b);
    if Less(a, b) && Less(b, c) {
      LessIsTransitive(a, b, c);
    }
  }

  // ----- Owners -----

  datatype Overlay = Overlay(id: string, path: Option<nat>)

  datatype Ownership = Ownership(owners: map<nat, string>, suppressed: set<string>, pathless: set<string>)

  /** One overlay is offered: it owns its path, takes it over, or is suppressed. */
  function Offer(before: Ownership, overlay: Overlay): Ownership {
    if overlay.path.None? then before.(pathless := before.pathless + {overlay.id})
    else
      var path := overlay.path.value;
      if path in before.owners && !Prefers(before.owners[path], overlay.id) then
        before.(suppressed := before.suppressed + {overlay.id})
      else
        before.(suppressed := before.suppressed + if path in before.owners then {before.owners[path]} else {},
                owners := before.owners[path := overlay.id])
  }

  function OwnershipOf(overlays: seq<Overlay>): Ownership {
    if overlays == [] then Ownership(map[], {}, {})
    else Offer(OwnershipOf(overlays[..|overlays| - 1]), overlays[|overlays| - 1])
  }

  predicate DistinctIds(overlays: seq<Overlay>) {
    forall i, j :: 0 <= i < j < |overlays| ==> overlays[i].id != overlays[j].id
  }

  /** Every path an overlay has is owned, by one of its overlays that all others yield to. */
  ghost predicate Owned(overlays: seq<Overlay>, owners: map<nat, string>) {
    && (forall path :: path in owners ==> Overlay(owners[path], Some(path)) in overlays)
    && (forall o :: o in overlays && o.path.Some? ==>
          && o.path.value in owners
          && (owners[o.path.value] != o.id ==> Prefers(o.id, owners[o.path.value])))
  }

  /** The overlay has a path another overlay owns. */
  ghost predicate Yields(overlays: seq<Overlay>, owners: map<nat, string>, id: string) {
    exists o :: o in overlays && o.id == id && o.path.Some? && o.path.value in owners && owners[o.path.value] != id
  }

  /** What ownership means, independently of the order of the overlays. */
  ghost predicate Decides(overlays: seq<Overlay>, result: Ownership) {
    && Owned(overlays, result.owners)
    && (forall id :: id in result.suppressed <==> Yields(overlays, result.owners, id))
    && (forall id :: id in result.pathless <==> Overlay(id, None) in overlays)
  }

  /** The overlay loop leaves every path with its most preferred overlay and suppresses all others. */
  lemma {:induction false} OwnershipDecides(overlays: seq<Overlay>)
    requires DistinctIds(overlays)
    ensures Decides(overlays, OwnershipOf(overlays))
    decreases |overlays|
  {
    if overlays != [] {
      var front, overlay := overlays[..|overlays| - 1], overlays[|overlays| - 1];
      OwnershipDecides(front);
      assert overlays == front + [overlay];
      forall o | o in front
        ensures o.id != overlay.id
      {
        var i :| 0 <= i < |front| && front[i] == o;
        assert overlays[i] == o && overlays[|front|] == overlay;
      }
      OfferDecides(front, overlay, OwnershipOf(front), OwnershipOf(overlays));
    }
  }

  lemma OfferDecides(front: seq<Overlay>, overlay: Overlay, before: Ownership, after: Ownership)
    requires Decides(front, before) && after == Offer(before, overlay)
    requires forall o :: o in front ==> o.id != overlay.id
    ensures Decides(front + [overlay], after)
  {
    var all := front + [overlay];
    OfferOwns(front, overlay, before);
    forall id
      ensures id in after.suppressed <==> Yields(all, after.owners, id)
    {
      OfferSuppresses(front, overlay, before, id);
    }
    forall id
      ensures id in after.pathless <==> Overlay(id, None) in all
    {
      OfferPathless(front, overlay, before, id);
    }
  }

  lemma OfferPathless(front: seq<Overlay>, overlay: Overlay, before: Ownership, id: string)
    requires id in before.pathless <==> Overlay(id, None) in front
    ensures id in Offer(before, overlay).pathless <==> Overlay(id, None) in front + [overlay]
  {
  }

  lemma OfferOwns(front: seq<Overlay>, overlay: Overlay, before: Ownership)
    requires Owned(front, before.owners)
    ensures Owned(front + [overlay], Offer(before, overlay).owners)
  {
    if overlay.path.Some? {
      var path := overlay.path.value;
      if path in before.owners {
        var current := before.owners[path];
        PreferenceIsOrder(current, overlay.id, current);
        forall o | o in front && o.path == Some(path) && o.id != current
          ensures Prefers(current, overlay.id) ==> Prefers(o.id, overlay.id)
        {
          PreferenceIsOrder(o.id, current, overlay.id);
        }
      }
    }
  }

  lemma OfferSuppresses(front: seq<Overlay>, overlay: Overlay, before: Ownership, id: string)
    requires Owned(front, before.owners)
    requires id in before.suppressed <==> Yields(front, before.owners, id)
    requires forall o :: o in front ==> o.id != overlay.id
    ensures var after := Offer(before, overlay);
            id in after.suppressed <==> Yields(front + [overlay], after.owners, id)
  {
    var after := Offer(before, overlay);
    var all := front + [overlay];
    if id in after.suppressed {
      if id == overlay.id {
        assert id !in before.suppressed;
        assert overlay in all;
      } else if id in before.suppressed {
        var o :| o in front && o.id == id && o.path.Some? && o.path.value in before.owners
                 && before.owners[o.path.value] != id;
        assert o in all;
      } else {
        assert Overlay(id, overlay.path) in all;
      }
    }
    if Yields(all, after.owners, id) {
      var o :| o in all && o.id == id && o.path.Some? && o.path.value in after.owners
               && after.owners[o.path.value] != id;
      if o in front {
        if before.owners[o.path.value] != id {
          assert Yields(front, before.owners, id);
        }
      }
    }
  }

  /** The outcome is determined by the set of overlays: any two orders decide alike. */
  lemma OwnershipIsOrderFree(overlays: seq<Overlay>, others: seq<Overlay>, a: Ownership, b: Ownership)
    requires forall o :: o in overlays <==> o in others
    requires Decides(overlays, a) && Decides(others, b)
    ensures a == b
  {
    forall path | path in a.owners
      ensures path in b.owners && a.owners[path] == b.owners[path]
    {
      PreferenceIsOrder(a.owners[path], b.owners[path], a.owners[path]);
      assert Overlay(a.owners[path], Some(path)) in overlays && Overlay(b.owners[path], Some(path)) in others;
    }
    assert a.owners.Keys == b.owners.Keys;
    assert a.owners == b.owners;
    assert a.suppressed == b.suppressed;
    assert a.pathless == b.pathless;
  }

  /** The owner loop. */
  method DecideOwners(overlays: seq<Overlay>) returns (result: Ownership)
    ensures result == OwnershipOf(overlays)
    ensures DistinctIds(overlays) ==> Decides(overlays, result)
  {
    result := Ownership(map[], {}, {});
    for i := 0 to |overlays|
      invariant result == OwnershipOf(overlays[..i])
    {
      var overlay := overlays[i];
      assert overlays[..i + 1][..i] == overlays[..i];
      match overlay.path
      case None => result := result.(pathless := result.pathless + {overlay.id});
      case Some(path) =>
        if path in result.owners && !Prefers(result.owners[path], overlay.id) {
          result := result.(suppressed := result.suppressed + {overlay.id});
        } else {
          if path in result.owners {
            result := result.(suppressed := result.suppressed + {result.owners[path]});
          }
          result := result.(owners := result.owners[path := overlay.id]);
        }
    }
    assert overlays[..|overlays|] == overlays;
    if DistinctIds(overlays) {
      OwnershipDecides(overlays);
    }
  }

  // ----- Candidates of one logical path -----

  datatype Policy = ReplaceByRelativePath | Merge | ReplaceDirectory

  datatype Candidate = Candidate(file: Option<nat>, document: Option<string>, priority: nat, policy: Policy,
                                 active: bool)

  type Order = (Candidate, Candidate) -> bool

  /** The first ordering: higher priority first. */
  predicate Outranks(a: Candidate, b: Candidate) {
    a.priority > b.priority
  }

  /** The final ordering: active first, then higher priority, then documents before files. */
  predicate Precedes(a: Candidate, b: Candidate) {
    if a.active != b.active then a.active
    else if a.priority != b.priority then a.priority > b.priority
    else a.document.Some? && b.document.None?
  }

  predicate Visible(c: Candidate, hidden: set<nat>) {
    c.file.None? || c.file.value !in hidden
  }

  function FirstVisible(cs: seq<Candidate>, hidden: set<nat>): Option<Candidate> {
    if cs == [] then None
    else if Visible(cs[0], hidden) then Some(cs[0])
    else FirstVisible(cs[1..], hidden)
  }

  /** Every visible candidate is activated, or only the first one met. */
  function Mark(cs: seq<Candidate>, hidden: set<nat>, merge: bool, winner: bool): seq<Candidate> {
    if cs == [] then []
    else if !Visible(cs[0], hidden) then [cs[0]] + Mark(cs[1..], hidden, merge, winner)
    else [cs[0].(active := merge || !winner)] + Mark(cs[1..], hidden, merge, true)
  }

  predicate Merges(cs: seq<Candidate>, hidden: set<nat>) {
    var first := FirstVisible(cs, hidden);
    first.Some? && first.value.policy == Merge
  }

  /** The candidates of one logical path with their activity decided. */
  function Settle(cs: seq<Candidate>, hidden: set<nat>): seq<Candidate> {
    var ranked := Sort(Outranks, cs);
    Sort(Precedes, Mark(ranked, hidden, Merges(ranked, hidden), false))
  }

  /** The winner by its meaning: visible, of the highest priority, and the earliest gathered among equals. */
  ghost predicate Wins(cs: seq<Candidate>, hidden: set<nat>, w: nat) {
    && w < |cs| && Visible(cs[w], hidden)
    && forall i :: 0 <= i < |cs| && Visible(cs[i], hidden) ==>
         cs[i].priority <= cs[w].priority && (i < w ==> cs[i].priority < cs[w].priority)
  }

  lemma {:induction false} PlaceFirst(c: Candidate, sorted: seq<Candidate>, hidden: set<nat>)
    requires Ordered(Outranks, sorted)
    ensures var first := FirstVisible(sorted, hidden);
            FirstVisible(Place(Outranks, c, sorted), hidden) ==
            if Visible(c, hidden) && (first.None? || first.value.priority <= c.priority) then Some(c) else first
  {
    if sorted != [] && Outranks(sorted[0], c) {
      PlaceFirst(c, sorted[1..], hidden);
    } else {
      FirstIsMember(sorted, hidden);
    }
  }

  lemma {:induction false} FirstIsMember(cs: seq<Candidate>, hidden: set<nat>)
    ensures var first := FirstVisible(cs, hidden);
            if first.Some? then first.value in cs && Visible(first.value, hidden)
            else forall c :: c in cs ==> !Visible(c, hidden)
  {
    if cs != [] {
      FirstIsMember(cs[1..], hidden);
      assert forall c :: c in cs <==> c == cs[0] || c in cs[1..];
    }
  }

  /** The top candidate of the first ordering is the winner. */
  lemma {:induction false} FirstWins(cs: seq<Candidate>, hidden: set<nat>) returns (w: nat)
    ensures var first := FirstVisible(Sort(Outranks, cs), hidden);
            if first.Some? then Wins(cs, hidden, w) && cs[w] == first.value
            else forall c :: c in cs ==> !Visible(c, hidden)
  {
    w := 0;
    if cs != [] {
      var rest := cs[1..];
      var w' := FirstWins(rest, hidden);
      SortKeeps(Outranks, rest);
      PlaceFirst(cs[0], Sort(Outranks, rest), hidden);
      var first := FirstVisible(Sort(Outranks, cs), hidden);
      assert forall c :: c in cs <==> c == cs[0] || c in rest;
      if FirstVisible(Sort(Outranks, rest), hidden).None? || first != FirstVisible(Sort(Outranks, rest), hidden)
         || (Visible(cs[0], hidden) && rest[w'].priority <= cs[0].priority) {
        w := 0;
        assert forall i :: 0 < i < |cs| ==> cs[i] == rest[i - 1];
      } else {
        w := w' + 1;
        assert forall i :: 0 < i < |cs| ==> cs[i] == rest[i - 1];
      }
    }
  }

  ghost predicate Fresh(cs: seq<Candidate>) {
    forall c :: c in cs ==> !c.active
  }

  lemma {:induction false} MarkAfterWinner(cs: seq<Candidate>, hidden: set<nat>)
    requires Fresh(cs)
    ensures Mark(cs, hidden, false, true) == cs
  {
    if cs != [] {
      assert cs[0] in cs;
      MarkAfterWinner(cs[1..], hidden);
    }
  }

  /** Without merging, exactly one occurrence is activated: the first visible candidate. */
  lemma {:induction false} MarkOnce(cs: seq<Candidate>, hidden: set<nat>, c: Candidate)
    requires Fresh(cs) && c.active
    ensures var first := FirstVisible(cs, hidden);
            multiset(Mark(cs, hidden, false, false))[c] ==
            if first.Some? && c == first.value.(active := true) then 1 else 0
  {
    if cs != [] {
      assert cs[0] in cs;
      var rest := cs[1..];
      if Visible(cs[0], hidden) {
        MarkAfterWinner(rest, hidden);
        assert c !in rest;
      } else {
        MarkOnce(rest, hidden, c);
      }
    }
  }

  lemma {:induction false} MarkMerged(cs: seq<Candidate>, hidden: set<nat>, winner: bool)
    requires Fresh(cs)
    ensures forall c :: c in Mark(cs, hidden, true, winner) ==> (c.active <==> Visible(c, hidden))
  {
    if cs != [] {
      assert cs[0] in cs;
      MarkMerged(cs[1..], hidden, winner);
      MarkMerged(cs[1..], hidden, true);
    }
  }

  function Reset(cs: seq<Candidate>): seq<Candidate> {
    if cs == [] then [] else [cs[0].(active := false)] + Reset(cs[1..])
  }

  lemma {:induction false} MarkOnlyMarks(cs: seq<Candidate>, hidden: set<nat>, merge: bool, winner: bool)
    requires Fresh(cs)
    ensures Reset(Mark(cs, hidden, merge, winner)) == cs
  {
    if cs != [] {
      assert cs[0] in cs;
      MarkOnlyMarks(cs[1..], hidden, merge, winner);
      MarkOnlyMarks(cs[1..], hidden, merge, true);
      assert Mark(cs, hidden, merge, winner)[1..] ==
             Mark(cs[1..], hidden, merge, if Visible(cs[0], hidden) then true else winner);
    }
  }

  lemma {:induction false} PlaceResets(less: Order, c: Candidate, sorted: seq<Candidate>)
    ensures multiset(Reset(Place(less, c, sorted))) == multiset{c.(active := false)} + multiset(Reset(sorted))
  {
    var placed := Place(less, c, sorted);
    if sorted != [] && less(sorted[0], c) {
      PlaceResets(less, c, sorted[1..]);
      assert placed[1..] == Place(less, c, sorted[1..]);
    } else {
      assert placed[1..] == sorted;
    }
  }

  /** Sorting neither loses nor alters a candidate. */
  lemma {:induction false} SortResets(less: Order, cs: seq<Candidate>)
    ensures multiset(Reset(Sort(less, cs))) == multiset(Reset(cs))
  {
    if cs != [] {
      SortResets(less, cs[1..]);
      PlaceResets(less, cs[0], Sort(less, cs[1..]));
    }
  }

  /** Activity of one logical path. Hidden files are never active. When the winner merges, every visible
      candidate is active; otherwise the winner is, alone and first. No candidate is lost or altered. */
  ghost predicate Exclusive(cs: seq<Candidate>, hidden: set<nat>, settled: seq<Candidate>) {
    && multiset(Reset(settled)) == multiset(cs)
    && (forall c :: c in settled && c.active ==> Visible(c, hidden))
    && (forall w: nat :: Wins(cs, hidden, w) && cs[w].policy == Merge ==>
          forall c :: c in settled && Visible(c, hidden) ==> c.active)
    && (forall w: nat :: Wins(cs, hidden, w) && cs[w].policy != Merge ==>
          settled != [] && settled[0] == cs[w].(active := true) && forall i :: 0 < i < |settled| ==> !settled[i].active)
  }

  lemma SettleIsExclusive(cs: seq<Candidate>, hidden: set<nat>)
    requires Fresh(cs)
    ensures Exclusive(cs, hidden, Settle(cs, hidden))
  {
    var ranked := Sort(Outranks, cs);
    var settled := Settle(cs, hidden);
    RankedIsFresh(cs);
    MarkOnlyMarks(ranked, hidden, Merges(ranked, hidden), false);
    SortResets(Precedes, Mark(ranked, hidden, Merges(ranked, hidden), false));
    var w := FirstWins(cs, hidden);
    forall v: nat | Wins(cs, hidden, v)
      ensures FirstVisible(ranked, hidden) == Some(cs[v])
    {
      assert cs[v] in cs;
      assert v == w;
    }
    if Merges(ranked, hidden) {
      SettleMerged(cs, hidden);
    } else {
      SettleOnce(cs, hidden);
    }
  }

  lemma RankedIsFresh(cs: seq<Candidate>)
    requires Fresh(cs)
    ensures Fresh(Sort(Outranks, cs)) && multiset(Sort(Outranks, cs)) == multiset(cs)
  {
    SortKeeps(Outranks, cs);
    forall c | c in Sort(Outranks, cs)
      ensures !c.active
    {
      assert c in multiset(cs);
    }
  }

  lemma SettleMerged(cs: seq<Candidate>, hidden: set<nat>)
    requires Fresh(cs) && Merges(Sort(Outranks, cs), hidden)
    ensures forall c :: c in Settle(cs, hidden) ==> (c.active <==> Visible(c, hidden))
  {
    RankedIsFresh(cs);
    var marked := Mark(Sort(Outranks, cs), hidden, true, false);
    MarkMerged(Sort(Outranks, cs), hidden, false);
    SortKeeps(Precedes, marked);
    forall c | c in Settle(cs, hidden)
      ensures c in marked
    {
      assert c in multiset(marked);
    }
  }

  lemma SettleOnce(cs: seq<Candidate>, hidden: set<nat>)
    requires Fresh(cs) && !Merges(Sort(Outranks, cs), hidden)
    ensures var settled, first := Settle(cs, hidden), FirstVisible(Sort(Outranks, cs), hidden);
            && (forall c :: c in settled && c.active ==> first.Some? && c == first.value.(active := true) && Visible(c, hidden))
            && (first.Some? ==> settled != [] && settled[0] == first.value.(active := true)
                                && forall i :: 0 < i < |settled| ==> !settled[i].active)
  {
    RankedIsFresh(cs);
    var ranked := Sort(Outranks, cs);
    var marked := Mark(ranked, hidden, false, false);
    var settled := Settle(cs, hidden);
    var first := FirstVisible(ranked, hidden);
    SortKeeps(Precedes, marked);
    forall c: Candidate | c.active
      ensures multiset(settled)[c] == if first.Some? && c == first.value.(active := true) then 1 else 0
    {
      MarkOnce(ranked, hidden, c);
    }
    FirstIsMember(ranked, hidden);
    forall c | c in settled && c.active
      ensures first.Some? && c == first.value.(active := true)
    {
      assert c in multiset(settled);
    }
    if first.Some? {
      OnlyFirstActive(settled, first.value.(active := true));
    }
  }

  lemma OnlyFirstActive(settled: seq<Candidate>, winner: Candidate)
    requires Ordered(Precedes, settled) && winner.active
    requires forall c: Candidate :: c.active ==> multiset(settled)[c] == if c == winner then 1 else 0
    ensures settled != [] && settled[0] == winner && forall i :: 0 < i < |settled| ==> !settled[i].active
  {
    assert winner in multiset(settled);
    var i :| 0 <= i < |settled| && settled[i] == winner;
    if i > 0 {
      assert !Precedes(settled[i], settled[0]);
    }
    assert settled[0].active;
    assert settled[0] in multiset(settled);
    forall j | 0 < j < |settled|
      ensures !settled[j].active
    {
      assert settled[j] in multiset(settled);
      if settled[j].active {
        TwiceIsTwo(settled, winner, j);
      }
    }
  }

  lemma TwiceIsTwo<T>(s: seq<T>, x: T, j: nat)
    requires 0 < j < |s| && s[0] == s[j] == x
    ensures multiset(s)[x] >= 2
  {
    assert s == [x] + s[1..j] + [x] + s[j + 1..];
  }

  // ----- The whole resolution -----

  datatype File = File(id: nat, physical: nat, logical: nat, root: nat, policy: Policy)

  /** What the configured roots say of a physical path: below no root, not a valid logical path, or placed. */
  datatype Placement = Standalone | Unplaced | Placed(logical: nat, policy: Policy, priority: nat)

  /** Everything except the overlays: files in identifier order, root priorities, placements. */
  datatype Index = Index(files: seq<File>, priorities: map<nat, nat>, placements: map<nat, Placement>)

  datatype Resolution = Resolution(candidates: map<nat, seq<Candidate>>, files: set<nat>, documents: set<string>,
                                   suppressed: set<string>, overlays: seq<Overlay>)

  function PlacementOf(index: Index, path: nat): Placement {
    if path in index.placements then index.placements[path] else Standalone
  }

  function FileCandidate(index: Index, file: File): Candidate {
    Candidate(Some(file.id), None, if file.root in index.priorities then index.priorities[file.root] else 0,
              file.policy, false)
  }

  function OwnerCandidate(owner: string, placement: Placement): Candidate
    requires placement.Placed?
  {
    Candidate(None, Some(owner), placement.priority, placement.policy, false)
  }

  /** The file candidates of one logical path, in file order. */
  function FilesAt(index: Index, files: seq<File>, logical: nat): seq<Candidate> {
    if files == [] then []
    else
      var last := files[|files| - 1];
      FilesAt(index, files[..|files| - 1], logical)
      + if last.logical == logical then [FileCandidate(index, last)] else []
  }

  /** The overlay candidates of one logical path, in the order of the given owned paths. */
  function OwnersAt(index: Index, owners: map<nat, string>, paths: seq<nat>, logical: nat): seq<Candidate>
    requires forall path :: path in paths ==> path in owners
  {
    if paths == [] then []
    else
      var front, last := paths[..|paths| - 1], paths[|paths| - 1];
      var placement := PlacementOf(index, last);
      OwnersAt(index, owners, front, logical)
      + if placement.Placed? && placement.logical == logical then [OwnerCandidate(owners[last], placement)] else []
  }

  predicate IsLeast(paths: set<nat>, path: nat) {
    path in paths && forall other :: other in paths ==> path <= other
  }

  ghost function Least(paths: set<nat>): (path: nat)
    requires paths != {}
    ensures IsLeast(paths, path)
  {
    LeastExists(paths);
    var path :| IsLeast(paths, path);
    path
  }

  lemma {:induction false} LeastExists(paths: set<nat>)
    requires paths != {}
    ensures exists path :: IsLeast(paths, path)
  {
    var path :| path in paths;
    var rest := paths - {path};
    if rest == {} {
      assert paths == {path};
      assert IsLeast(paths, path);
    } else {
      LeastExists(rest);
      var least :| IsLeast(rest, least);
      LeastOfTwo(paths, path, least);
    }
  }

  lemma LeastOfTwo(paths: set<nat>, path: nat, least: nat)
    requires path in paths && IsLeast(paths - {path}, least)
    ensures IsLeast(paths, if path < least then path else least)
  {
    assert forall other :: other in paths ==> other == path || other in paths - {path};
  }

  /** The owned paths in their order. */
  ghost function Ascending(paths: set<nat>): (order: seq<nat>)
    ensures forall path :: path in order <==> path in paths
  {
    if paths == {} then [] else [Least(paths)] + Ascending(paths - {Least(paths)})
  }

  /** The candidates gathered for one logical path. */
  ghost function Gathered(index: Index, owners: map<nat, string>, logical: nat): seq<Candidate> {
    FilesAt(index, index.files, logical) + OwnersAt(index, owners, Ascending(owners.Keys), logical)
  }

  ghost function Hidden(index: Index, owners: map<nat, string>): set<nat> {
    set file | file in index.files && file.physical in owners :: file.id
  }

  ghost function Logicals(index: Index, owners: map<nat, string>): set<nat> {
    (set file | file in index.files :: file.logical)
    + (set path | path in owners && PlacementOf(index, path).Placed? :: PlacementOf(index, path).logical)
  }

  /** The documents that keep their editor semantics: without a path, or owners below no root. */
  ghost function Editor(index: Index, ownership: Ownership): set<string> {
    ownership.pathless
    + set path | path in ownership.owners && PlacementOf(index, path).Standalone? :: ownership.owners[path]
  }

  function ActiveFiles(settled: seq<Candidate>): set<nat> {
    set c | c in settled && c.active && c.file.Some? :: c.file.value
  }

  function ActiveDocuments(settled: seq<Candidate>): set<string> {
    set c | c in settled && c.active && c.document.Some? :: c.document.value
  }

  ghost function AllFiles(candidates: map<nat, seq<Candidate>>): set<nat> {
    set logical, c | logical in candidates.Keys && c in candidates[logical] && c.active && c.file.Some? :: c.file.value
  }

  ghost function AllDocuments(candidates: map<nat, seq<Candidate>>): set<string> {
    set logical, c | logical in candidates.Keys && c in candidates[logical] && c.active && c.document.Some? ::
      c.document.value
  }

  ghost function Resolve(index: Index, overlays: seq<Overlay>): Resolution {
    var ownership := OwnershipOf(overlays);
    var candidates := map logical | logical in Logicals(index, ownership.owners) ::
                        Settle(Gathered(index, ownership.owners, logical), Hidden(index, ownership.owners));
    Resolution(candidates, AllFiles(candidates), Editor(index, ownership) + AllDocuments(candidates),
               ownership.suppressed, overlays)
  }

  lemma {:induction false} FilesAtMembers(index: Index, files: seq<File>, logical: nat, c: Candidate)
    requires c in FilesAt(index, files, logical)
    ensures !c.active && c.document.None? && exists file :: file in files && c == FileCandidate(index, file)
    decreases |files|
  {
    var front, last := files[..|files| - 1], files[|files| - 1];
    assert last in files;
    if c in FilesAt(index, front, logical) {
      FilesAtMembers(index, front, logical, c);
      var file :| file in front && c == FileCandidate(index, file);
      assert file in files;
    }
  }

  lemma {:induction false} OwnersAtMembers(index: Index, owners: map<nat, string>, paths: seq<nat>, logical: nat,
                                           c: Candidate)
    requires forall path :: path in paths ==> path in owners
    requires c in OwnersAt(index, owners, paths, logical)
    ensures !c.active && c.file.None? && c.document.Some?
    ensures exists path :: path in owners && PlacementOf(index, path).Placed? && owners[path] == c.document.value
    decreases |paths|
  {
    var front, last := paths[..|paths| - 1], paths[|paths| - 1];
    assert last in paths;
    if c in OwnersAt(index, owners, front, logical) {
      OwnersAtMembers(index, owners, front, logical, c);
    }
  }

  lemma GatheredIsFresh(index: Index, owners: map<nat, string>, logical: nat)
    ensures Fresh(Gathered(index, owners, logical))
  {
    forall c | c in Gathered(index, owners, logical)
      ensures !c.active
    {
      if c in FilesAt(index, index.files, logical) {
        FilesAtMembers(index, index.files, logical, c);
      } else {
        OwnersAtMembers(index, owners, Ascending(owners.Keys), logical, c);
      }
    }
  }

  lemma {:induction false} ResetMember(settled: seq<Candidate>, c: Candidate)
    requires c in settled
    ensures c.(active := false) in Reset(settled)
  {
    if c != settled[0] {
      ResetMember(settled[1..], c);
    }
  }

  /** Every settled candidate was gathered. */
  lemma SettledWasGathered(cs: seq<Candidate>, hidden: set<nat>, c: Candidate)
    requires Fresh(cs) && c in Settle(cs, hidden)
    ensures c.(active := false) in cs
  {
    SettleIsExclusive(cs, hidden);
    ResetMember(Settle(cs, hidden), c);
    assert c.(active := false) in multiset(cs);
  }

  /** What the resolution promises, for every index and every set of overlays: per logical path activity is
      exclusive, a file some overlay owns is never effective, and neither is a suppressed document. */
  lemma ResolutionIsExclusive(index: Index, overlays: seq<Overlay>)
    requires DistinctIds(overlays)
    ensures var r, owners := Resolve(index, overlays), OwnershipOf(overlays).owners;
            && (forall logical :: logical in r.candidates ==>
                  Exclusive(Gathered(index, owners, logical), Hidden(index, owners), r.candidates[logical]))
            && r.files !! Hidden(index, owners)
            && r.documents !! r.suppressed
  {
    var r, ownership := Resolve(index, overlays), OwnershipOf(overlays);
    var owners, hidden := ownership.owners, Hidden(index, ownership.owners);
    OwnershipDecides(overlays);
    forall logical | logical in r.candidates
      ensures Exclusive(Gathered(index, owners, logical), hidden, r.candidates[logical])
    {
      GatheredIsFresh(index, owners, logical);
      SettleIsExclusive(Gathered(index, owners, logical), hidden);
    }
    forall id | id in r.files
      ensures id !in hidden
    {
      var logical, c :| logical in r.candidates && c in r.candidates[logical] && c.active && c.file == Some(id);
      assert Visible(c, hidden);
    }
    forall id | id in r.documents
      ensures id !in r.suppressed
    {
      DocumentOwns(index, overlays, id);
      NoOwnerYields(overlays, ownership, id);
    }
  }

  lemma DocumentOwns(index: Index, overlays: seq<Overlay>, id: string)
    requires DistinctIds(overlays) && id in Resolve(index, overlays).documents
    ensures var ownership := OwnershipOf(overlays);
            id in ownership.pathless || exists path :: path in ownership.owners && ownership.owners[path] == id
  {
    var r, ownership := Resolve(index, overlays), OwnershipOf(overlays);
    if id !in Editor(index, ownership) {
      var logical, c :| logical in r.candidates.Keys && c in r.candidates[logical] && c.active
                        && c.document == Some(id);
      var cs := Gathered(index, ownership.owners, logical);
      GatheredIsFresh(index, ownership.owners, logical);
      SettledWasGathered(cs, Hidden(index, ownership.owners), c);
      var source := c.(active := false);
      if source in FilesAt(index, index.files, logical) {
        FilesAtMembers(index, index.files, logical, source);
      } else {
        OwnersAtMembers(index, ownership.owners, Ascending(ownership.owners.Keys), logical, source);
      }
    }
  }

  lemma NoOwnerYields(overlays: seq<Overlay>, ownership: Ownership, id: string)
    requires DistinctIds(overlays) && Decides(overlays, ownership)
    requires id in ownership.pathless
             || exists path :: path in ownership.owners && ownership.owners[path] == id
    ensures id !in ownership.suppressed
  {
    var path :=
      if id in ownership.pathless then None
      else var path :| path in ownership.owners && ownership.owners[path] == id; Some(path);
    assert Overlay(id, path) in overlays;
    forall o | o in overlays && o.id == id
      ensures o == Overlay(id, path)
    {
      var i :| 0 <= i < |overlays| && overlays[i] == o;
      var j :| 0 <= j < |overlays| && overlays[j] == Overlay(id, path);
      assert i == j;
    }
  }

  // ----- The loops of the resolution -----

  function FileOf(c: Candidate): set<nat> {
    if c.active && c.file.Some? then {c.file.value} else {}
  }

  function DocumentOf(c: Candidate): set<string> {
    if c.active && c.document.Some? then {c.document.value} else {}
  }

  /** Activates one logical path's candidates in two sorts and one pass. */
  method ActivatePath(cs: seq<Candidate>, hidden: set<nat>)
    returns (settled: seq<Candidate>, files: set<nat>, documents: set<string>)
    requires Fresh(cs)
    ensures settled == Settle(cs, hidden)
    ensures files == ActiveFiles(settled) && documents == ActiveDocuments(settled)
  {
    var ranked := Sort(Outranks, cs);
    RankedIsFresh(cs);
    var marked;
    marked, files, documents := MarkRanked(ranked, hidden);
    settled := Sort(Precedes, marked);
    SortKeeps(Precedes, marked);
    ActiveIgnoresOrder(settled, marked);
  }

  method MarkRanked(ranked: seq<Candidate>, hidden: set<nat>)
    returns (marked: seq<Candidate>, files: set<nat>, documents: set<string>)
    requires Fresh(ranked)
    ensures marked == Mark(ranked, hidden, Merges(ranked, hidden), false)
    ensures files == ActiveFiles(marked) && documents == ActiveDocuments(marked)
  {
    var merge := Merges(ranked, hidden);
    var winner := false;
    marked, files, documents := [], {}, {};
    ghost var whole := Mark(ranked, hidden, merge, false);
    assert ranked[0..] == ranked;
    for i := 0 to |ranked|
      invariant whole == marked + Mark(ranked[i..], hidden, merge, winner)
      invariant files == ActiveFiles(marked) && documents == ActiveDocuments(marked)
    {
      var c := ranked[i];
      assert c in ranked;
      MarkStep(ranked, i, hidden, merge, winner, marked);
      if Visible(c, hidden) {
        c := c.(active := merge || !winner);
        winner := true;
        files, documents := files + FileOf(c), documents + DocumentOf(c);
      }
      ActiveAppends(marked, c);
      marked := marked + [c];
    }
  }

  lemma MarkStep(ranked: seq<Candidate>, i: nat, hidden: set<nat>, merge: bool, winner: bool, marked: seq<Candidate>)
    requires i < |ranked|
    ensures var c := ranked[i];
            marked + Mark(ranked[i..], hidden, merge, winner) ==
            if Visible(c, hidden) then
              (marked + [c.(active := merge || !winner)]) + Mark(ranked[i + 1..], hidden, merge, true)
            else (marked + [c]) + Mark(ranked[i + 1..], hidden, merge, winner)
  {
    assert ranked[i..][1..] == ranked[i + 1..];
  }

  lemma ActiveAppends(cs: seq<Candidate>, c: Candidate)
    ensures ActiveFiles(cs + [c]) == ActiveFiles(cs) + FileOf(c)
    ensures ActiveDocuments(cs + [c]) == ActiveDocuments(cs) + DocumentOf(c)
  {
    assert forall d :: d in cs + [c] <==> d in cs || d == c;
  }

  lemma ActiveIgnoresOrder(a: seq<Candidate>, b: seq<Candidate>)
    requires multiset(a) == multiset(b)
    ensures ActiveFiles(a) == ActiveFiles(b) && ActiveDocuments(a) == ActiveDocuments(b)
  {
    assert forall c :: c in a <==> c in multiset(a);
    assert forall c :: c in b <==> c in multiset(b);
  }

  function CandidatesAt(candidates: map<nat, seq<Candidate>>, logical: nat): seq<Candidate> {
    if logical in candidates then candidates[logical] else []
  }

  function Pushed(candidates: map<nat, seq<Candidate>>, logical: nat, c: Candidate): map<nat, seq<Candidate>> {
    candidates[logical := CandidatesAt(candidates, logical) + [c]]
  }

  /** What the first files give: the hidden ones, the logical paths, and the candidates of each. */
  ghost predicate FilesGathered(index: Index, owners: map<nat, string>, files: seq<File>,
                                candidates: map<nat, seq<Candidate>>, hidden: set<nat>) {
    && hidden == (set file | file in files && file.physical in owners :: file.id)
    && candidates.Keys == (set file | file in files :: file.logical)
    && forall logical: nat :: CandidatesAt(candidates, logical) == FilesAt(index, files, logical)
  }

  lemma FileGathered(index: Index, owners: map<nat, string>, files: seq<File>, candidates: map<nat, seq<Candidate>>,
                     hidden: set<nat>, file: File)
    requires FilesGathered(index, owners, files, candidates, hidden)
    ensures FilesGathered(index, owners, files + [file], Pushed(candidates, file.logical, FileCandidate(index, file)),
                          hidden + if file.physical in owners then {file.id} else {})
  {
    var all, after := files + [file], Pushed(candidates, file.logical, FileCandidate(index, file));
    assert all[..|files|] == files;
    assert forall f :: f in all <==> f in files || f == file;
    forall logical: nat
      ensures CandidatesAt(after, logical) == FilesAt(index, all, logical)
    {
      assert CandidatesAt(candidates, logical) == FilesAt(index, files, logical);
    }
  }

  lemma FilesNext(index: Index, owners: map<nat, string>, i: nat, candidates: map<nat, seq<Candidate>>, hidden: set<nat>)
    requires i < |index.files| && FilesGathered(index, owners, index.files[..i], candidates, hidden)
    ensures var file := index.files[i];
            FilesGathered(index, owners, index.files[..i + 1], Pushed(candidates, file.logical, FileCandidate(index, file)),
                          if file.physical in owners then hidden + {file.id} else hidden)
  {
    var file := index.files[i];
    assert index.files[..i + 1] == index.files[..i] + [file];
    assert hidden + {} == hidden;
    FileGathered(index, owners, index.files[..i], candidates, hidden, file);
  }

  /** The file loop: candidates by logical path, and the files some overlay hides. */
  method GatherFiles(index: Index, owners: map<nat, string>)
    returns (candidates: map<nat, seq<Candidate>>, hidden: set<nat>)
    ensures FilesGathered(index, owners, index.files, candidates, hidden)
  {
    candidates, hidden := map[], {};
    for i := 0 to |index.files|
      invariant FilesGathered(index, owners, index.files[..i], candidates, hidden)
    {
      var file := index.files[i];
      FilesNext(index, owners, i, candidates, hidden);
      if file.physical in owners {
        hidden := hidden + {file.id};
      }
      candidates := Pushed(candidates, file.logical, FileCandidate(index, file));
    }
    assert index.files[..|index.files|] == index.files;
  }

  /** The logical paths the given owned paths are placed at. */
  ghost function PlacedAt(index: Index, paths: seq<nat>): set<nat> {
    if paths == [] then {}
    else
      var placement := PlacementOf(index, paths[|paths| - 1]);
      PlacedAt(index, paths[..|paths| - 1]) + if placement.Placed? then {placement.logical} else {}
  }

  /** The owners of the given paths below no root. */
  ghost function StandingAt(index: Index, owners: map<nat, string>, paths: seq<nat>): set<string>
    requires forall path :: path in paths ==> path in owners
  {
    if paths == [] then {}
    else
      var front, last := paths[..|paths| - 1], paths[|paths| - 1];
      StandingAt(index, owners, front) + if PlacementOf(index, last).Standalone? then {owners[last]} else {}
  }

  lemma {:induction false} PathsAt(index: Index, owners: map<nat, string>, paths: seq<nat>)
    requires forall path :: path in paths ==> path in owners
    ensures PlacedAt(index, paths) == set path | path in paths && PlacementOf(index, path).Placed? ::
                                        PlacementOf(index, path).logical
    ensures StandingAt(index, owners, paths) ==
            set path | path in paths && PlacementOf(index, path).Standalone? :: owners[path]
  {
    if paths != [] {
      var front, last := paths[..|paths| - 1], paths[|paths| - 1];
      PathsAt(index, owners, front);
      assert forall path :: path in paths <==> path in front || path == last;
    }
  }

  /** The candidates after pushing the owners of the given paths one by one. */
  function PushOwners(index: Index, owners: map<nat, string>, paths: seq<nat>, base: map<nat, seq<Candidate>>)
    : map<nat, seq<Candidate>>
    requires forall path :: path in paths ==> path in owners
  {
    if paths == [] then base
    else
      var before := PushOwners(index, owners, paths[..|paths| - 1], base);
      var last := paths[|paths| - 1];
      var placement := PlacementOf(index, last);
      if placement.Placed? then Pushed(before, placement.logical, OwnerCandidate(owners[last], placement))
      else before
  }

  lemma {:induction false} PushedOwnersAt(index: Index, owners: map<nat, string>, paths: seq<nat>,
                                          base: map<nat, seq<Candidate>>, logical: nat)
    requires forall path :: path in paths ==> path in owners
    ensures PushOwners(index, owners, paths, base).Keys == base.Keys + PlacedAt(index, paths)
    ensures CandidatesAt(PushOwners(index, owners, paths, base), logical) ==
            CandidatesAt(base, logical) + OwnersAt(index, owners, paths, logical)
  {
    if paths != [] {
      PushedOwnersAt(index, owners, paths[..|paths| - 1], base, logical);
    }
  }

  /** The owner loop, in path order: standalone owners become effective, placed ones become candidates. */
  method GatherOwners(index: Index, owners: map<nat, string>, base: map<nat, seq<Candidate>>)
    returns (candidates: map<nat, seq<Candidate>>, documents: set<string>)
    ensures candidates == PushOwners(index, owners, Ascending(owners.Keys), base)
    ensures documents == StandingAt(index, owners, Ascending(owners.Keys))
  {
    candidates, documents := base, {};
    var rest := owners.Keys;
    ghost var order := Ascending(rest);
    ghost var done: seq<nat> := [];
    while rest != {}
      invariant rest <= owners.Keys && forall path :: path in done ==> path in owners
      invariant order == done + Ascending(rest)
      invariant candidates == PushOwners(index, owners, done, base)
      invariant documents == StandingAt(index, owners, done)
      decreases rest
    {
      LeastExists(rest);
      var path: nat :| IsLeast(rest, path);
      AscendingStep(rest, path, done);
      candidates, documents := PushOwner(index, owners, done, path, base, candidates, documents);
      done := done + [path];
      rest := rest - {path};
    }
    assert Ascending(rest) == [];
    assert done == order;
  }

  /** One owner. */
  method PushOwner(index: Index, owners: map<nat, string>, ghost done: seq<nat>, path: nat,
                   ghost base: map<nat, seq<Candidate>>, before: map<nat, seq<Candidate>>, given: set<string>)
    returns (candidates: map<nat, seq<Candidate>>, documents: set<string>)
    requires path in owners && forall p :: p in done ==> p in owners
    requires before == PushOwners(index, owners, done, base) && given == StandingAt(index, owners, done)
    ensures candidates == PushOwners(index, owners, done + [path], base)
    ensures documents == StandingAt(index, owners, done + [path])
  {
    candidates, documents := before, given;
    PathStep(index, owners, done, path, base);
    match PlacementOf(index, path)
    case Standalone => documents := documents + {owners[path]};
    case Unplaced =>
    case Placed(logical, policy, priority) =>
      candidates := Pushed(candidates, logical, Candidate(None, Some(owners[path]), priority, policy, false));
  }

  lemma AscendingStep(rest: set<nat>, path: nat, done: seq<nat>)
    requires IsLeast(rest, path)
    ensures done + Ascending(rest) == (done + [path]) + Ascending(rest - {path})
  {
    assert path == Least(rest);
  }

  lemma PathStep(index: Index, owners: map<nat, string>, done: seq<nat>, path: nat, base: map<nat, seq<Candidate>>)
    requires path in owners && forall p :: p in done ==> p in owners
    ensures var before, placement := PushOwners(index, owners, done, base), PlacementOf(index, path);
            PushOwners(index, owners, done + [path], base) ==
            if placement.Placed? then Pushed(before, placement.logical, OwnerCandidate(owners[path], placement))
            else before
    ensures StandingAt(index, owners, done + [path]) ==
            StandingAt(index, owners, done) + if PlacementOf(index, path).Standalone? then {owners[path]} else {}
  {
    assert (done + [path])[..|done|] == done;
  }

  ghost predicate SettledSoFar(index: Index, owners: map<nat, string>, settled: map<nat, seq<Candidate>>) {
    forall logical :: logical in settled ==>
      settled[logical] == Settle(Gathered(index, owners, logical), Hidden(index, owners))
  }

  /** The last loop: every logical path's candidates are activated. */
  method ActivatePaths(index: Index, owners: map<nat, string>, candidates: map<nat, seq<Candidate>>, hidden: set<nat>)
    returns (settled: map<nat, seq<Candidate>>, files: set<nat>, documents: set<string>)
    requires hidden == Hidden(index, owners)
    requires forall logical :: logical in candidates ==> candidates[logical] == Gathered(index, owners, logical)
    ensures settled.Keys == candidates.Keys && SettledSoFar(index, owners, settled)
    ensures files == AllFiles(settled) && documents == AllDocuments(settled)
  {
    settled, files, documents := map[], {}, {};
    var rest := candidates.Keys;
    while rest != {}
      invariant rest <= candidates.Keys && settled.Keys == candidates.Keys - rest
      invariant SettledSoFar(index, owners, settled)
      invariant files == AllFiles(settled) && documents == AllDocuments(settled)
      decreases rest
    {
      var logical :| logical in rest;
      GatheredIsFresh(index, owners, logical);
      var now, moreFiles, moreDocuments := ActivatePath(candidates[logical], hidden);
      SettledAdds(settled, logical, now);
      settled, files, documents := settled[logical := now], files + moreFiles, documents + moreDocuments;
      rest := rest - {logical};
    }
  }

  /** The whole resolution computes what it is specified to. */
  method SourceResolution(index: Index, overlays: seq<Overlay>) returns (result: Resolution)
    ensures result == Resolve(index, overlays)
  {
    var ownership := DecideOwners(overlays);
    var owners := ownership.owners;
    var listed, hidden := GatherFiles(index, owners);
    var candidates, standalone := GatherOwners(index, owners, listed);
    OwnersGathered(index, owners, listed);
    LogicalsAreGathered(index, ownership, candidates.Keys, standalone);
    var settled, files, documents := ActivatePaths(index, owners, candidates, hidden);
    assert settled == Resolve(index, overlays).candidates;
    result := Resolution(settled, files, ownership.pathless + standalone + documents, ownership.suppressed, overlays);
  }

  lemma OwnersGathered(index: Index, owners: map<nat, string>, listed: map<nat, seq<Candidate>>)
    requires forall logical: nat :: CandidatesAt(listed, logical) == FilesAt(index, index.files, logical)
    ensures var candidates := PushOwners(index, owners, Ascending(owners.Keys), listed);
            && candidates.Keys == listed.Keys + PlacedAt(index, Ascending(owners.Keys))
            && forall logical :: logical in candidates ==> candidates[logical] == Gathered(index, owners, logical)
  {
    var candidates := PushOwners(index, owners, Ascending(owners.Keys), listed);
    PushedOwnersAt(index, owners, Ascending(owners.Keys), listed, 0);
    forall logical | logical in candidates
      ensures candidates[logical] == Gathered(index, owners, logical)
    {
      PushedOwnersAt(index, owners, Ascending(owners.Keys), listed, logical);
    }
  }

  lemma LogicalsAreGathered(index: Index, ownership: Ownership, logicals: set<nat>, standalone: set<string>)
    requires var paths := Ascending(ownership.owners.Keys);
             && logicals == (set file | file in index.files :: file.logical) + PlacedAt(index, paths)
             && standalone == StandingAt(index, ownership.owners, paths)
    ensures logicals == Logicals(index, ownership.owners)
    ensures ownership.pathless + standalone == Editor(index, ownership)
  {
    var owners := ownership.owners;
    PathsAt(index, owners, Ascending(owners.Keys));
    assert PlacedAt(index, Ascending(owners.Keys)) ==
           set path | path in owners && PlacementOf(index, path).Placed? :: PlacementOf(index, path).logical;
  }

  lemma SettledAdds(settled: map<nat, seq<Candidate>>, logical: nat, now: seq<Candidate>)
    requires logical !in settled
    ensures AllFiles(settled[logical := now]) == AllFiles(settled) + ActiveFiles(now)
    ensures AllDocuments(settled[logical := now]) == AllDocuments(settled) + ActiveDocuments(now)
  {
    var after := settled[logical := now];
    forall file | file in AllFiles(settled) + ActiveFiles(now)
      ensures file in AllFiles(after)
    {
      if file in AllFiles(settled) {
        var l, c :| l in settled.Keys && c in settled[l] && c.active && c.file == Some(file);
        assert l in after.Keys && c in after[l];
      } else {
        var c :| c in now && c.active && c.file == Some(file);
        assert logical in after.Keys && c in after[logical];
      }
    }
    forall document | document in AllDocuments(settled) + ActiveDocuments(now)
      ensures document in AllDocuments(after)
    {
      if document in AllDocuments(settled) {
        var l, c :| l in settled.Keys && c in settled[l] && c.active && c.document == Some(document);
        assert l in after.Keys && c in after[l];
      } else {
        var c :| c in now && c.active && c.document == Some(document);
        assert logical in after.Keys && c in after[logical];
      }
    }
  }
}
