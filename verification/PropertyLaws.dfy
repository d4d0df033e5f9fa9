/** What the collected properties of a syntax tree are: one for each property node with a readable key, wherever it
    stands, in the order of the source. */
module PropertyLaws {
  import opened Options
  import opened Ranges
  import opened PropertyTree

  /** A place in a tree: which child to take at each node on the way. */
  type Place = seq<nat>

  function NodeAt(node: Node, place: Place): Option<Node> {
    if place == [] then Some(node)
    else if place[0] < |node.children| then NodeAt(node.children[place[0]], place[1..])
    else None
  }

  /** A place stands before another: on the way to it, or to the left of it. */
  predicate Before(a: Place, b: Place) {
    b != [] && (a == [] || a[0] < b[0] || (a[0] == b[0] && Before(a[1..], b[1..])))
  }

  predicate FirstOf(children: seq<Node>, kind: Kind, i: nat) {
    i < |children| && children[i].kind == kind && forall j :: 0 <= j < i ==> children[j].kind != kind
  }

  /** The key of a property: its first key child, if that has text. */
  predicate HasKey(node: Node, i: nat) {
    node.kind == Property && FirstOf(node.children, Key, i) && node.children[i].text != ""
  }

  ghost predicate Readable(node: Node) {
    exists i: nat :: HasKey(node, i)
  }

  ghost predicate ReadableAt(node: Node, place: Place) {
    NodeAt(node, place).Some? && Readable(NodeAt(node, place).value)
  }

  /** The keys of the readable nodes on the way to a place, its own included. */
  ghost function KeysTo(node: Node, place: Place): seq<string>
    requires NodeAt(node, place).Some?
  {
    (if Readable(node) then var i: nat :| HasKey(node, i); [node.children[i].text] else [])
    + if place == [] then [] else KeysTo(node.children[place[0]], place[1..])
  }

  /** Everything above the place is a document. */
  predicate OnlyDocuments(node: Node, place: Place)
    requires NodeAt(node, place).Some?
  {
    place == [] || (node.kind == Document && OnlyDocuments(node.children[place[0]], place[1..]))
  }

  ghost predicate IsValueRange(node: Node, range: Option<Range>) {
    match range
    case None => forall j :: 0 <= j < |node.children| ==> node.children[j].kind != Value
    case Some(r) => exists i: nat :: FirstOf(node.children, Value, i) && node.children[i].range == r
  }

  /** The item of the property at a place. */
  ghost predicate IsItemAt(node: Node, top: bool, path: seq<string>, place: Place, item: Item)
    requires NodeAt(node, place).Some?
  {
    var own := NodeAt(node, place).value;
    && (exists i: nat :: HasKey(own, i) && item.key == own.children[i].text && item.keyRange == own.children[i].range)
    && item.range == own.range && IsValueRange(own, item.valueRange)
    && item.path == path + KeysTo(node, place) && item.topLevel == (top && OnlyDocuments(node, place))
  }

  ghost predicate InPreorder(places: seq<Place>) {
    forall a, b :: 0 <= a < b < |places| ==> Before(places[a], places[b])
  }

  /** The items are those of the readable places, each once, in pre-order. */
  ghost predicate Collects(node: Node, top: bool, path: seq<string>, items: seq<Item>, places: seq<Place>) {
    && |items| == |places| && InPreorder(places)
    && (forall place :: place in places <==> ReadableAt(node, place))
    && forall k :: 0 <= k < |places| ==> ReadableAt(node, places[k]) && IsItemAt(node, top, path, places[k], items[k])
  }

  /** A place below one of the first children. */
  ghost predicate Below(node: Node, count: nat, place: Place)
    requires count <= |node.children|
  {
    place != [] && place[0] < count && ReadableAt(node.children[place[0]], place[1..])
  }

  ghost predicate CollectsBelow(node: Node, count: nat, top: bool, path: seq<string>, items: seq<Item>, places: seq<Place>)
    requires count <= |node.children|
  {
    && |items| == |places| && InPreorder(places)
    && (forall place :: place in places <==> Below(node, count, place))
    && forall k :: 0 <= k < |places| ==>
         Below(node, count, places[k]) && IsItemAt(node.children[places[k][0]], top, path, places[k][1..], items[k])
  }

  lemma {:induction false} FoundIsFirst(children: seq<Node>, kind: Kind)
    ensures Find(children, kind) < |children| <==> exists i: nat :: FirstOf(children, kind, i)
    ensures forall i: nat :: FirstOf(children, kind, i) ==> i == Find(children, kind)
    ensures Find(children, kind) < |children| ==> FirstOf(children, kind, Find(children, kind))
    ensures Find(children, kind) == |children| ==> forall j :: 0 <= j < |children| ==> children[j].kind != kind
  {
    if Find(children, kind) < |children| {
      assert FirstOf(children, kind, Find(children, kind));
    }
  }

  lemma {:induction false} RecognisedIsReadable(node: Node)
    ensures Recognised(node) <==> Readable(node)
    ensures forall i: nat :: HasKey(node, i) ==> i == Find(node.children, Key)
    ensures Recognised(node) ==> HasKey(node, Find(node.children, Key))
  {
    FoundIsFirst(node.children, Key);
    if Recognised(node) {
      assert HasKey(node, Find(node.children, Key));
    }
  }

  lemma {:induction false} OwnItem(node: Node, top: bool, path: seq<string>)
    requires Recognised(node)
    ensures ReadableAt(node, []) && IsItemAt(node, top, path, [], ItemOf(node, top, path))
    ensures KeysTo(node, []) == [node.children[Find(node.children, Key)].text]
  {
    RecognisedIsReadable(node);
    FoundIsFirst(node.children, Value);
  }

  /** The collected list, from the tree alone: a property for each readable place, with its own ranges, the keys on
      the way to it as its path, and at the top exactly if only documents are above it; in pre-order, and nothing
      else. */
  lemma {:induction false} CollectLaw(node: Node, top: bool, path: seq<string>) returns (places: seq<Place>)
    ensures Collects(node, top, path, Collect(node, top, path), places)
    decreases node, 0
  {
    RecognisedIsReadable(node);
    if Recognised(node) {
      var item := ItemOf(node, top, path);
      var below := CollectBelowLaw(node, |node.children|, false, item.path);
      OwnItem(node, top, path);
      places := [[]] + below;
      OwnFirst(node, top, path, CollectAll(node, |node.children|, false, item.path), below);
    } else {
      places := CollectBelowLaw(node, |node.children|, top && node.kind.Document?, path);
      OnlyBelow(node, top, path, CollectAll(node, |node.children|, top && node.kind.Document?, path), places);
    }
  }

  lemma {:induction false} DeeperItem(node: Node, top: bool, path: seq<string>, place: Place, item: Item)
    requires Below(node, |node.children|, place)
    requires Recognised(node) ==>
               IsItemAt(node.children[place[0]], false, path + [node.children[Find(node.children, Key)].text], place[1..], item)
    requires !Recognised(node) ==> IsItemAt(node.children[place[0]], top && node.kind.Document?, path, place[1..], item)
    ensures ReadableAt(node, place) && IsItemAt(node, top, path, place, item)
  {
    RecognisedIsReadable(node);
    var rest := KeysTo(node.children[place[0]], place[1..]);
    if Recognised(node) {
      var key := node.children[Find(node.children, Key)].text;
      assert KeysTo(node, place) == [key] + rest;
      assert (path + [key]) + rest == path + ([key] + rest);
    } else {
      assert KeysTo(node, place) == [] + rest == rest;
    }
  }

  lemma {:induction false} ReadableBelow(node: Node, place: Place)
    requires place != []
    ensures ReadableAt(node, place) <==> Below(node, |node.children|, place)
  {
  }

  lemma {:induction false} OwnFirst(node: Node, top: bool, path: seq<string>, items: seq<Item>, below: seq<Place>)
    requires Recognised(node)
    requires CollectsBelow(node, |node.children|, false, ItemOf(node, top, path).path, items, below)
    ensures Collects(node, top, path, [ItemOf(node, top, path)] + items, [[]] + below)
  {
    OwnPlaces(node, below);
    forall k | 0 <= k <= |below|
      ensures var places := [[]] + below;
              ReadableAt(node, places[k]) && IsItemAt(node, top, path, places[k], ([ItemOf(node, top, path)] + items)[k])
    {
      if k > 0 {
        OwnNext(node, top, path, items, below, k - 1);
      } else {
        OwnItem(node, top, path);
      }
    }
    RootFirst(below);
  }

  lemma {:induction false} OwnPlaces(node: Node, below: seq<Place>)
    requires Recognised(node) && forall place :: place in below <==> Below(node, |node.children|, place)
    ensures forall place :: place in [[]] + below <==> ReadableAt(node, place)
  {
    RecognisedIsReadable(node);
    forall place
      ensures place in [[]] + below <==> ReadableAt(node, place)
    {
      if place != [] {
        ReadableBelow(node, place);
      }
    }
  }

  lemma {:induction false} OwnNext(node: Node, top: bool, path: seq<string>, items: seq<Item>, below: seq<Place>, k: nat)
    requires Recognised(node) && k < |below|
    requires CollectsBelow(node, |node.children|, false, ItemOf(node, top, path).path, items, below)
    ensures ReadableAt(node, below[k]) && IsItemAt(node, top, path, below[k], items[k])
  {
    OwnItem(node, top, path);
    assert Below(node, |node.children|, below[k]);
    DeeperItem(node, top, path, below[k], items[k]);
  }

  lemma {:induction false} RootFirst(below: seq<Place>)
    requires InPreorder(below) && forall place :: place in below ==> place != []
    ensures InPreorder([[]] + below)
  {
    var places := [[]] + below;
    forall a, b | 0 <= a < b < |places|
      ensures Before(places[a], places[b])
    {
      assert places[b] == below[b - 1] && below[b - 1] in below;
    }
  }

  lemma {:induction false} OnlyBelow(node: Node, top: bool, path: seq<string>, items: seq<Item>, places: seq<Place>)
    requires !Recognised(node)
    requires CollectsBelow(node, |node.children|, top && node.kind.Document?, path, items, places)
    ensures Collects(node, top, path, items, places)
  {
    RecognisedIsReadable(node);
    forall place
      ensures place in places <==> ReadableAt(node, place)
    {
      if place != [] {
        ReadableBelow(node, place);
      }
    }
    forall k | 0 <= k < |places|
      ensures ReadableAt(node, places[k]) && IsItemAt(node, top, path, places[k], items[k])
    {
      assert Below(node, |node.children|, places[k]);
      DeeperItem(node, top, path, places[k], items[k]);
    }
  }

  lemma {:induction false} CollectBelowLaw(node: Node, count: nat, top: bool, path: seq<string>) returns (places: seq<Place>)
    requires count <= |node.children|
    ensures CollectsBelow(node, count, top, path, CollectAll(node, count, top, path), places)
    decreases node, 0, count
  {
    places := [];
    if count > 0 {
      var child := node.children[count - 1];
      var before := CollectBelowLaw(node, count - 1, top, path);
      var inner := CollectLaw(child, top, path);
      places := before + Prefixed(count - 1, inner);
      NextChild(node, count, top, path, CollectAll(node, count - 1, top, path), before, Collect(child, top, path), inner);
    }
  }

  function Prefixed(i: nat, places: seq<Place>): seq<Place> {
    seq(|places|, k requires 0 <= k < |places| => [i] + places[k])
  }

  lemma {:induction false} PrefixedMembers(i: nat, places: seq<Place>, place: Place)
    ensures place in Prefixed(i, places) <==> place != [] && place[0] == i && place[1..] in places
  {
    if place in Prefixed(i, places) {
      var k :| 0 <= k < |places| && Prefixed(i, places)[k] == place;
      assert place[1..] == places[k];
    }
    if place != [] && place[0] == i && place[1..] in places {
      var k :| 0 <= k < |places| && places[k] == place[1..];
      assert Prefixed(i, places)[k] == place;
    }
  }

  lemma {:induction false} NextChild(node: Node, count: nat, top: bool, path: seq<string>, items: seq<Item>, before: seq<Place>,
                  more: seq<Item>, inner: seq<Place>)
    requires 0 < count <= |node.children| && CollectsBelow(node, count - 1, top, path, items, before)
    requires Collects(node.children[count - 1], top, path, more, inner)
    ensures CollectsBelow(node, count, top, path, items + more, before + Prefixed(count - 1, inner))
  {
    var last, all, places := Prefixed(count - 1, inner), items + more, before + Prefixed(count - 1, inner);
    forall place
      ensures place in places <==> Below(node, count, place)
    {
      PrefixedMembers(count - 1, inner, place);
      assert place in before <==> Below(node, count - 1, place);
    }
    forall k | 0 <= k < |places|
      ensures Below(node, count, places[k]) && IsItemAt(node.children[places[k][0]], top, path, places[k][1..], all[k])
    {
      NextItem(node, count, top, path, items, before, more, inner, k);
    }
    forall a, b | 0 <= a < b < |places|
      ensures Before(places[a], places[b])
    {
      NextBefore(node, count, before, inner, a, b);
    }
  }

  lemma {:induction false} NextItem(node: Node, count: nat, top: bool, path: seq<string>, items: seq<Item>, before: seq<Place>,
                                    more: seq<Item>, inner: seq<Place>, k: nat)
    requires 0 < count <= |node.children| && CollectsBelow(node, count - 1, top, path, items, before)
    requires Collects(node.children[count - 1], top, path, more, inner) && k < |before| + |inner|
    ensures var place := (before + Prefixed(count - 1, inner))[k];
            Below(node, count, place) && IsItemAt(node.children[place[0]], top, path, place[1..], (items + more)[k])
  {
    if k < |before| {
      assert Below(node, count - 1, before[k]);
    } else {
      assert Prefixed(count - 1, inner)[k - |before|][1..] == inner[k - |before|];
    }
  }

  lemma {:induction false} NextBefore(node: Node, count: nat, before: seq<Place>, inner: seq<Place>, a: nat, b: nat)
    requires 0 < count <= |node.children| && InPreorder(before) && InPreorder(inner)
    requires forall k :: 0 <= k < |before| ==> Below(node, count - 1, before[k])
    requires a < b < |before| + |inner|
    ensures Before((before + Prefixed(count - 1, inner))[a], (before + Prefixed(count - 1, inner))[b])
  {
    var places := before + Prefixed(count - 1, inner);
    if a < |before| {
      assert Below(node, count - 1, before[a]);
    } else {
      assert places[a][1..] == inner[a - |before|] && places[b][1..] == inner[b - |before|];
    }
  }

  // ----- What the scans of the whole list select -----

  /** The places of some elements, in their order. */
  ghost predicate Selects(places: seq<nat>, count: nat, picked: nat -> bool) {
    && (forall a, b :: 0 <= a < b < |places| ==> places[a] < places[b])
    && forall k: nat :: k in places <==> k < count && picked(k)
  }

  lemma {:induction false} SelectsNext(places: seq<nat>, count: nat, picked: nat -> bool)
    requires Selects(places, count, picked)
    ensures Selects(places + if picked(count) then [count] else [], count + 1, picked)
  {
    var more := places + if picked(count) then [count] else [];
    assert forall a :: 0 <= a < |places| ==> places[a] in places;
    forall k: nat
      ensures k in more <==> k < count + 1 && picked(k)
    {
      assert k in more <==> k in places || (k == count && picked(count));
    }
  }

  lemma {:induction false} TopLevelSelects(items: seq<Item>, count: nat)
    requires count <= |items|
    ensures Selects(TopLevel(items, count), count, (k: nat) => k < |items| && items[k].topLevel)
  {
    if count > 0 {
      TopLevelSelects(items, count - 1);
      SelectsNext(TopLevel(items, count - 1), count - 1, (k: nat) => k < |items| && items[k].topLevel);
    }
  }

  /** The roots are the top-level properties, in order. */
  lemma {:induction false} RootsLaw(items: seq<Item>)
    ensures var roots := TopLevel(items, |items|);
            && (forall a, b :: 0 <= a < b < |roots| ==> roots[a] < roots[b])
            && forall k: nat :: k in roots <==> k < |items| && items[k].topLevel
  {
    TopLevelSelects(items, |items|);
  }

  lemma {:induction false} AtDepthSelects(items: seq<Item>, container: Range, depth: Option<nat>, count: nat)
    requires count <= |items|
    ensures Selects(AtDepth(items, container, depth, count), count, (k: nat) => k < |items| && Picked(items[k], container, depth))
  {
    if count > 0 {
      AtDepthSelects(items, container, depth, count - 1);
      SelectsNext(AtDepth(items, container, depth, count - 1), count - 1,
                  (k: nat) => k < |items| && Picked(items[k], container, depth));
    }
  }

  /** The property lies in the container. */
  predicate LiesIn(item: Item, container: Range) {
    container.start <= item.range.start && item.range.end <= container.end
  }

  /** And none that does has a shorter path. */
  predicate Shallowest(items: seq<Item>, container: Range, k: nat) {
    && k < |items| && LiesIn(items[k], container)
    && forall j :: 0 <= j < |items| && LiesIn(items[j], container) ==> |items[k].path| <= |items[j].path|
  }

  /** A scan of a container selects the shallowest properties in it, in order. */
  lemma {:induction false} ContainerLaw(items: seq<Item>, container: Range)
    ensures var selected := ScanContainer(items, container);
            && (forall a, b :: 0 <= a < b < |selected| ==> selected[a] < selected[b])
            && forall k: nat :: k in selected <==> Shallowest(items, container, k)
  {
    var depth := LeastDepth(items, container, |items|);
    LeastDepthIs(items, container, |items|);
    AtDepthSelects(items, container, depth, |items|);
    forall k: nat
      ensures k in ScanContainer(items, container) <==> Shallowest(items, container, k)
    {
      assert k in ScanContainer(items, container) <==> k < |items| && Picked(items[k], container, depth);
      ShallowestIsPicked(items, container, depth, k);
    }
  }

  lemma {:induction false} ShallowestIsPicked(items: seq<Item>, container: Range, depth: Option<nat>, k: nat)
    requires forall j: nat :: j < |items| && Within(items[j].range, container) ==> depth.Some? && depth.value <= |items[j].path|
    requires depth.Some? ==> exists j: nat :: j < |items| && Within(items[j].range, container) && |items[j].path| == depth.value
    ensures k < |items| && Picked(items[k], container, depth) <==> Shallowest(items, container, k)
  {
    forall j | 0 <= j < |items|
      ensures LiesIn(items[j], container) <==> Within(items[j].range, container)
    {
    }
  }

  /** The place of a property one path segment above another and around it. */
  ghost predicate Above(items: seq<Item>, p: Item, k: nat) {
    && k < |items| && items[k].range.start <= p.range.start && p.range.end <= items[k].range.end
    && exists last :: p.path == items[k].path + [last]
  }

  lemma {:induction false} CandidateLaw(items: seq<Item>, p: Item, k: nat)
    requires k < |items|
    ensures Candidate(items, k, p) <==> Above(items, p, k)
  {
    var up := items[k].path;
    if Candidate(items, k, p) {
      assert p.path == up + [p.path[|up|]];
    }
  }

  /** The first of the shortest properties above another one. */
  ghost predicate Nearest(items: seq<Item>, p: Item, count: nat, k: nat) {
    && k < count && Above(items, p, k)
    && forall j :: 0 <= j < count && Above(items, p, j) ==>
         Stretch(items, k) <= Stretch(items, j) && (j < k ==> Stretch(items, k) < Stretch(items, j))
  }

  function Stretch(items: seq<Item>, k: nat): nat {
    if k < |items| then items[k].range.end - items[k].range.start else 0
  }

  /** The parent that a scan finds for a property is the nearest one above it. */
  lemma {:induction false} ParentLaw(items: seq<Item>, p: Item, count: nat)
    requires count <= |items|
    ensures match ScanParent(items, p, count)
            case Some(k) => Nearest(items, p, count, k)
            case None => forall j :: 0 <= j < count ==> !Above(items, p, j)
  {
    if count > 0 {
      ParentLaw(items, p, count - 1);
      CandidateLaw(items, p, count - 1);
    }
  }

  /** The siblings of a property by a scan: what its parent's value holds, or all of the parent where it has no value,
      and without a parent the roots. */
  lemma {:induction false} SiblingsLaw(items: seq<Item>, p: Item)
    ensures match ScanParent(items, p, |items|)
            case None => ScanProperty(items, p) == TopLevel(items, |items|)
            case Some(k) =>
              match items[k].valueRange
              case Some(value) => ScanProperty(items, p) == ScanContainer(items, value)
              case None => ScanProperty(items, p) == ScanContainer(items, items[k].range)
  {
  }
}
