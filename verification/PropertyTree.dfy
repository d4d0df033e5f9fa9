/** Properties of a syntax tree in pre-order, their direct-child lists, and an index of physical containers
    that must agree with scans of the whole list. */
module PropertyTree {
  import opened Options
  import opened Ranges
  import opened Bisection

  // ----- The syntax tree and its properties -----

  datatype Kind = Document | Property | Key | Value | Other

  /** A node; the text is trimmed and matters for keys only. */
  datatype Node = Node(kind: Kind, range: Range, text: string, children: seq<Node>)

  datatype Item = Item(key: string, keyRange: Range, range: Range, path: seq<string>, topLevel: bool,
                       valueRange: Option<Range>)

  /** The first child of a kind, or the number of children. */
  function Find(children: seq<Node>, kind: Kind): (i: nat)
    ensures i <= |children| && (i < |children| ==> children[i].kind == kind)
    ensures forall j :: 0 <= j < i ==> children[j].kind != kind
  {
    if children == [] || children[0].kind == kind then 0
    else
      var i := Find(children[1..], kind);
      assert forall j :: 0 < j < i + 1 ==> children[j] == children[1..][j - 1];
      i + 1
  }

  /** A property with a readable key. */
  predicate Recognised(node: Node) {
    && node.kind.Property?
    && Find(node.children, Key) < |node.children| && node.children[Find(node.children, Key)].text != ""
  }

  function ItemOf(node: Node, top: bool, path: seq<string>): Item
    requires Recognised(node)
  {
    var key := node.children[Find(node.children, Key)];
    var value := Find(node.children, Value);
    Item(key.text, key.range, node.range, path + [key.text], top,
         if value < |node.children| then Some(node.children[value].range) else None)
  }

  /** The properties below a node, in pre-order. */
  function Collect(node: Node, top: bool, path: seq<string>): seq<Item>
    decreases node, 0
  {
    if Recognised(node) then
      var item := ItemOf(node, top, path);
      [item] + CollectAll(node, |node.children|, false, item.path)
    else CollectAll(node, |node.children|, top && node.kind.Document?, path)
  }

  /** The properties below the first children of a node. */
  function CollectAll(node: Node, count: nat, top: bool, path: seq<string>): seq<Item>
    requires count <= |node.children|
    decreases node, 0, count
  {
    if count == 0 then []
    else CollectAll(node, count - 1, top, path) + Collect(node.children[count - 1], top, path)
  }

  /** Children lie in their parent one behind the other; a readable key is not empty, its value comes after
      it, and only the value has properties. */
  ghost predicate Wellformed(node: Node)
    decreases node
  {
    && (forall i :: 0 <= i < |node.children| ==> Wellformed(node.children[i]) && Within(node.children[i].range, node.range))
    && (forall i, j :: 0 <= i < j < |node.children| ==> node.children[i].range.end <= node.children[j].range.start)
    && (Recognised(node) ==>
          var key, value := Find(node.children, Key), Find(node.children, Value);
          && node.children[key].range.start < node.children[key].range.end
          && (value < |node.children| ==> key < value)
          && forall i :: 0 <= i < |node.children| && i != value ==> Bare(node.children[i]))
  }

  /** No property anywhere below. */
  ghost predicate Bare(node: Node)
    decreases node
  {
    !Recognised(node) && forall i :: 0 <= i < |node.children| ==> Bare(node.children[i])
  }

  // ----- Nested lists -----

  /** The key is not empty and starts the property; the value follows the key. */
  predicate Sound(p: Item) {
    && Within(p.keyRange, p.range) && p.keyRange.start < p.keyRange.end
    && (p.valueRange.Some? ==> Within(p.valueRange.value, p.range) && p.keyRange.end <= p.valueRange.value.start)
  }

  predicate Apart(p: Item, q: Item) {
    p.range.end <= q.range.start
  }

  /** q lies in the value of p, and its path says so. */
  predicate Inside(p: Item, q: Item) {
    p.valueRange.Some? && Within(q.range, p.valueRange.value) && p.path < q.path
  }

  /** Properties in pre-order below a path: a later one is behind an earlier one or inside it. */
  ghost predicate Nested(items: seq<Item>, path: seq<string>) {
    && (forall i :: 0 <= i < |items| ==> Sound(items[i]) && path < items[i].path)
    && (forall i, j :: 0 <= i < j < |items| ==> Apart(items[i], items[j]) || Inside(items[i], items[j]))
  }

  ghost predicate IsParent(items: seq<Item>, i: nat, j: nat) {
    i < j < |items| && Inside(items[i], items[j]) && |items[j].path| == |items[i].path| + 1
  }

  ghost predicate HasParent(items: seq<Item>, j: nat) {
    exists i :: IsParent(items, i, j)
  }

  /** Every property has a parent in the list or hangs directly below the path; the latter alone can be
      top-level. */
  ghost predicate Rooted(items: seq<Item>, path: seq<string>) {
    forall j: nat {:trigger HasParent(items, j)} :: j < |items| ==>
      (|items[j].path| == |path| + 1 || HasParent(items, j))
      && (items[j].topLevel ==> |items[j].path| == |path| + 1)
  }

  ghost predicate Held(items: seq<Item>, path: seq<string>, range: Range) {
    Nested(items, path) && Rooted(items, path) && forall i :: 0 <= i < |items| ==> Within(items[i].range, range)
  }

  lemma HeldAppends(a: seq<Item>, b: seq<Item>, path: seq<string>, left: Range, right: Range, whole: Range)
    requires Held(a, path, left) && Held(b, path, right) && left.end <= right.start
    requires Within(left, whole) && Within(right, whole)
    ensures Held(a + b, path, whole)
  {
    NestedAppends(a, b, path, left, right, a + b);
    RootedAppends(a, b, path, a + b);
    WithinAppends(a, b, left, right, whole, a + b);
  }

  lemma WithinAppends(a: seq<Item>, b: seq<Item>, left: Range, right: Range, whole: Range, both: seq<Item>)
    requires (forall i :: 0 <= i < |a| ==> Within(a[i].range, left)) && (forall i :: 0 <= i < |b| ==> Within(b[i].range, right))
    requires Within(left, whole) && Within(right, whole) && both == a + b
    ensures forall i :: 0 <= i < |both| ==> Within(both[i].range, whole)
  {
  }

  lemma NestedAppends(a: seq<Item>, b: seq<Item>, path: seq<string>, left: Range, right: Range, both: seq<Item>)
    requires Nested(a, path) && Nested(b, path) && left.end <= right.start && both == a + b
    requires (forall i :: 0 <= i < |a| ==> Within(a[i].range, left)) && (forall i :: 0 <= i < |b| ==> Within(b[i].range, right))
    ensures Nested(both, path)
  {
  }

  lemma RootedAppends(a: seq<Item>, b: seq<Item>, path: seq<string>, both: seq<Item>)
    requires Rooted(a, path) && Rooted(b, path) && both == a + b
    ensures Rooted(both, path)
  {
    forall j: nat | j < |both|
      ensures |both[j].path| == |path| + 1 || HasParent(both, j)
      ensures both[j].topLevel ==> |both[j].path| == |path| + 1
    {
      if j < |a| {
        assert |a[j].path| == |path| + 1 || HasParent(a, j);
        if |both[j].path| != |path| + 1 {
          var i :| IsParent(a, i, j);
          assert IsParent(both, i, j);
        }
      } else {
        assert |b[j - |a|].path| == |path| + 1 || HasParent(b, j - |a|);
        if |both[j].path| != |path| + 1 {
          var i :| IsParent(b, i, j - |a|);
          assert IsParent(both, |a| + i, j);
        }
      }
    }
  }

  lemma HeldUnder(p: Item, below: seq<Item>, path: seq<string>, inner: Range)
    requires Sound(p) && |p.path| == |path| + 1 && path < p.path
    requires Held(below, p.path, inner) && forall i :: 0 <= i < |below| ==> !below[i].topLevel
    requires below != [] ==> p.valueRange == Some(inner)
    ensures Held([p] + below, path, p.range)
  {
    UnderIsNested(p, below, path, inner);
    UnderIsRooted(p, below, path, inner);
  }

  lemma UnderIsNested(p: Item, below: seq<Item>, path: seq<string>, inner: Range)
    requires Sound(p) && path < p.path && Held(below, p.path, inner) && (below != [] ==> p.valueRange == Some(inner))
    ensures Nested([p] + below, path) && forall i :: 0 <= i < |[p] + below| ==> Within(([p] + below)[i].range, p.range)
  {
    var all := [p] + below;
    forall j | 0 < j < |all|
      ensures Inside(p, all[j]) && Sound(all[j]) && path < all[j].path && Within(all[j].range, p.range)
    {
      BelowIsInside(p, below, path, inner, all, j);
    }
    forall i, j | 0 <= i < j < |all|
      ensures Apart(all[i], all[j]) || Inside(all[i], all[j])
    {
      if i == 0 {
        BelowIsInside(p, below, path, inner, all, j);
      } else {
        BelowStaysNested(p, below, path, all, i, j);
      }
    }
  }

  lemma BelowStaysNested(p: Item, below: seq<Item>, path: seq<string>, all: seq<Item>, i: nat, j: nat)
    requires Nested(below, p.path) && all == [p] + below && 0 < i < j < |all|
    ensures Apart(all[i], all[j]) || Inside(all[i], all[j])
  {
    assert all[i] == below[i - 1] && all[j] == below[j - 1];
  }

  lemma BelowIsInside(p: Item, below: seq<Item>, path: seq<string>, inner: Range, all: seq<Item>, j: nat)
    requires Sound(p) && path < p.path && Held(below, p.path, inner) && p.valueRange == Some(inner)
    requires all == [p] + below && 0 < j < |all|
    ensures Inside(p, all[j]) && Sound(all[j]) && path < all[j].path && Within(all[j].range, p.range)
  {
    assert all[j] == below[j - 1];
  }

  lemma UnderIsRooted(p: Item, below: seq<Item>, path: seq<string>, inner: Range)
    requires |p.path| == |path| + 1 && Held(below, p.path, inner) && (below != [] ==> p.valueRange == Some(inner))
    requires forall i :: 0 <= i < |below| ==> !below[i].topLevel
    ensures Rooted([p] + below, path)
  {
    var all := [p] + below;
    forall j: nat | j < |all|
      ensures |all[j].path| == |path| + 1 || HasParent(all, j)
      ensures all[j].topLevel ==> |all[j].path| == |path| + 1
    {
      if j > 0 {
        UnderHasParent(p, below, inner, j - 1);
      }
    }
  }

  lemma UnderHasParent(p: Item, below: seq<Item>, inner: Range, j: nat)
    requires Held(below, p.path, inner) && p.valueRange == Some(inner) && j < |below|
    ensures HasParent([p] + below, j + 1)
  {
    var all := [p] + below;
    assert all[j + 1] == below[j];
    if |below[j].path| == |p.path| + 1 {
      assert Inside(p, below[j]);
      assert IsParent(all, 0, j + 1);
    } else {
      assert HasParent(below, j);
      var i: nat :| IsParent(below, i, j);
      assert all[i + 1] == below[i];
      assert IsParent(all, i + 1, j + 1);
    }
  }

  lemma {:induction false} BareCollectsNothing(node: Node, top: bool, path: seq<string>)
    requires Bare(node)
    ensures Collect(node, top, path) == []
    decreases node, 0
  {
    BareChildren(node, |node.children|, top && node.kind.Document?, path);
  }

  lemma {:induction false} BareChildren(node: Node, count: nat, top: bool, path: seq<string>)
    requires count <= |node.children| && forall i :: 0 <= i < count ==> Bare(node.children[i])
    ensures CollectAll(node, count, top, path) == []
    decreases node, 0, count
  {
    if count > 0 {
      BareChildren(node, count - 1, top, path);
      BareCollectsNothing(node.children[count - 1], top, path);
    }
  }

  /** Whatever a well-formed tree is, the collected list is nested, rooted and inside the tree. */
  lemma {:induction false} CollectedIsHeld(node: Node, top: bool, path: seq<string>)
    requires Wellformed(node)
    ensures Held(Collect(node, top, path), path, node.range)
    decreases node, 0
  {
    if Recognised(node) {
      var item, value := ItemOf(node, top, path), Find(node.children, Value);
      OnlyValueCollects(node, value, |node.children|, item.path);
      var key := Find(node.children, Key);
      if value < |node.children| {
        assert node.children[key].range.end <= node.children[value].range.start;
        CollectedIsHeld(node.children[value], false, item.path);
        NothingIsTop(node.children[value], item.path);
        HeldUnder(item, Collect(node.children[value], false, item.path), path, node.children[value].range);
      } else {
        HeldUnder(item, [], path, node.range);
      }
    } else {
      ChildrenAreHeld(node, |node.children|, top && node.kind.Document?, path);
    }
  }

  lemma {:induction false} OnlyValueCollects(node: Node, value: nat, count: nat, path: seq<string>)
    requires count <= |node.children| && forall i :: 0 <= i < |node.children| && i != value ==> Bare(node.children[i])
    ensures CollectAll(node, count, false, path) ==
            if value < count then Collect(node.children[value], false, path) else []
    decreases count
  {
    if count > 0 {
      OnlyValueCollects(node, value, count - 1, path);
      if count - 1 != value {
        BareCollectsNothing(node.children[count - 1], false, path);
      }
    }
  }

  lemma {:induction false} NothingIsTop(node: Node, path: seq<string>)
    ensures forall item :: item in Collect(node, false, path) ==> !item.topLevel
    decreases node, 0
  {
    if Recognised(node) {
      NoChildIsTop(node, |node.children|, ItemOf(node, false, path).path);
    } else {
      NoChildIsTop(node, |node.children|, path);
    }
  }

  lemma {:induction false} NoChildIsTop(node: Node, count: nat, path: seq<string>)
    requires count <= |node.children|
    ensures forall item :: item in CollectAll(node, count, false, path) ==> !item.topLevel
    decreases node, 0, count
  {
    if count > 0 {
      NoChildIsTop(node, count - 1, path);
      NothingIsTop(node.children[count - 1], path);
    }
  }

  /** The extent of the first children. */
  function Extent(node: Node, count: nat): Bounds
    requires count <= |node.children|
  {
    Bounds(node.range.start, if count == 0 then node.range.start else node.children[count - 1].range.end)
  }

  lemma {:induction false} ChildrenAreHeld(node: Node, count: nat, top: bool, path: seq<string>)
    requires Wellformed(node) && count <= |node.children|
    ensures Extent(node, count).start <= Extent(node, count).end
    ensures Held(CollectAll(node, count, top, path), path, Extent(node, count))
    ensures Within(Extent(node, count), node.range)
    ensures Held(CollectAll(node, count, top, path), path, node.range)
    decreases node, 0, count
  {
    if count > 0 {
      var child := node.children[count - 1];
      ChildrenAreHeld(node, count - 1, top, path);
      CollectedIsHeld(child, top, path);
      HeldAppends(CollectAll(node, count - 1, top, path), Collect(child, top, path), path,
                  Extent(node, count - 1), child.range, Extent(node, count));
    }
  }

  /** The recursive walk, pushing onto the collector's list. */
  class FactCollector {
    var properties: seq<Item>

    constructor ()
      ensures properties == []
    {
      properties := [];
    }

    method CollectNode(node: Node, top: bool, path: seq<string>)
      modifies this
      ensures properties == old(properties) + Collect(node, top, path)
      decreases node, 0
    {
      if Recognised(node) {
        var item := ItemOf(node, top, path);
        properties := properties + [item];
        CollectChildren(node, false, item.path);
      } else {
        CollectChildren(node, top && node.kind.Document?, path);
      }
    }

    method CollectChildren(node: Node, top: bool, path: seq<string>)
      modifies this
      ensures properties == old(properties) + CollectAll(node, |node.children|, top, path)
      decreases node, 0, 0
    {
      for i := 0 to |node.children|
        invariant properties == old(properties) + CollectAll(node, i, top, path)
      {
        CollectNode(node.children[i], top, path);
      }
    }
  }

  // ----- Direct children -----

  lemma InsideIsTransitive(p: Item, q: Item, r: Item)
    requires Sound(q) && Inside(p, q) && Inside(q, r)
    ensures Inside(p, r)
  {
  }

  /** Of two properties that enclose a third, the earlier encloses the later. */
  lemma EnclosersNest(items: seq<Item>, path: seq<string>, i: nat, k: nat, j: nat)
    requires Nested(items, path) && i < k < j < |items| && Inside(items[i], items[j]) && Inside(items[k], items[j])
    ensures Inside(items[i], items[k])
  {
    assert Apart(items[i], items[k]) || Inside(items[i], items[k]);
  }

  /** In a nested list a property has one parent at most: the enclosing one a level up. */
  lemma ParentIsUnique(items: seq<Item>, path: seq<string>, i: nat, k: nat, j: nat)
    requires Nested(items, path) && IsParent(items, i, j) && IsParent(items, k, j)
    ensures i == k
  {
    if i < k {
      EnclosersNest(items, path, i, k, j);
    } else if k < i {
      EnclosersNest(items, path, k, i, j);
    }
  }

  /** The direct children of a property among the first ones, in source order. */
  ghost function ChildrenOf(items: seq<Item>, i: nat, count: nat): seq<nat> {
    if count == 0 then []
    else ChildrenOf(items, i, count - 1) + if IsParent(items, i, count - 1) then [count - 1] else []
  }

  lemma {:induction false} ChildrenAreDirect(items: seq<Item>, i: nat, count: nat)
    requires count <= |items|
    ensures var children := ChildrenOf(items, i, count);
            && (forall j: nat :: j in children <==> j < count && IsParent(items, i, j))
            && (forall a, b :: 0 <= a < b < |children| ==> children[a] < children[b])
  {
    if count > 0 {
      ChildrenAreDirect(items, i, count - 1);
      var before, children := ChildrenOf(items, i, count - 1), ChildrenOf(items, i, count);
      forall j: nat
        ensures j in children <==> j < count && IsParent(items, i, j)
      {
        assert j in children <==> j in before || (IsParent(items, i, count - 1) && j == count - 1);
      }
      assert forall a :: 0 <= a < |before| ==> before[a] in before;
    }
  }

  /** The ancestors on the stack are exactly the last property and all that enclose it, outermost first. */
  ghost predicate Stacked(items: seq<Item>, stack: seq<nat>, count: nat) {
    && (forall a :: 0 <= a < |stack| ==> stack[a] < count <= |items|)
    && (forall a, b :: 0 <= a < b < |stack| ==> stack[a] < stack[b] && Inside(items[stack[a]], items[stack[b]]))
    && (if count == 0 then stack == [] else stack != [] && stack[|stack| - 1] == count - 1)
    && (forall i: nat :: i + 1 < count && Inside(items[i], items[count - 1]) ==> i in stack)
  }

  /** Only what encloses the next property is left, and all of it. */
  ghost predicate Popped(items: seq<Item>, stack: seq<nat>, count: nat)
    requires count < |items|
  {
    && (forall a :: 0 <= a < |stack| ==> stack[a] < count)
    && (forall a, b :: 0 <= a < b < |stack| ==> stack[a] < stack[b] && Inside(items[stack[a]], items[stack[b]]))
    && (forall i: nat :: i < count && Inside(items[i], items[count]) ==> i in stack)
  }

  /** The test by which an ancestor stays. */
  predicate Encloses(p: Item, q: Item) {
    |q.path| > |p.path| && p.path <= q.path && Within(q.range, p.range)
  }

  lemma EnclosesIsInside(items: seq<Item>, path: seq<string>, i: nat, j: nat)
    requires Nested(items, path) && i < j < |items|
    ensures Encloses(items[i], items[j]) <==> Inside(items[i], items[j])
  {
    assert Apart(items[i], items[j]) || Inside(items[i], items[j]);
  }

  /** Whatever encloses the next property is on the stack. */
  lemma StackHoldsEnclosers(items: seq<Item>, path: seq<string>, stack: seq<nat>, count: nat)
    requires Nested(items, path) && Stacked(items, stack, count) && count < |items|
    ensures Popped(items, stack, count)
  {
    forall i: nat | i < count && Inside(items[i], items[count])
      ensures i in stack
    {
      if i == count - 1 {
        assert stack[|stack| - 1] == i;
      } else {
        assert Apart(items[i], items[count - 1]) || Inside(items[i], items[count - 1]);
        assert Apart(items[count - 1], items[count]) || Inside(items[count - 1], items[count]);
      }
    }
  }

  lemma PopKeeps(items: seq<Item>, path: seq<string>, stack: seq<nat>, count: nat)
    requires Nested(items, path) && count < |items| && Popped(items, stack, count) && stack != []
    requires !Encloses(items[stack[|stack| - 1]], items[count])
    ensures Popped(items, stack[..|stack| - 1], count)
  {
    var last := |stack| - 1;
    EnclosesIsInside(items, path, stack[last], count);
    assert stack == stack[..last] + [stack[last]];
  }

  /** Below an enclosing top, everything encloses; pushing the next property restores the stack. */
  lemma PushRestores(items: seq<Item>, path: seq<string>, stack: seq<nat>, count: nat)
    requires Nested(items, path) && count < |items| && Popped(items, stack, count)
    requires stack != [] ==> Encloses(items[stack[|stack| - 1]], items[count])
    ensures Stacked(items, stack + [count], count + 1)
    ensures forall a :: 0 <= a < |stack| ==> Inside(items[stack[a]], items[count])
  {
    if stack != [] {
      var last := |stack| - 1;
      EnclosesIsInside(items, path, stack[last], count);
      forall a | 0 <= a < |stack|
        ensures Inside(items[stack[a]], items[count])
      {
        if a < last {
          InsideIsTransitive(items[stack[a]], items[stack[last]], items[count]);
        }
      }
    }
    var pushed := stack + [count];
    forall i: nat | i + 1 < count + 1 && Inside(items[i], items[count])
      ensures i in pushed
    {
      assert i in stack;
    }
  }

  lemma EnclosedHasParent(items: seq<Item>, path: seq<string>, i: nat, j: nat)
    requires Nested(items, path) && Rooted(items, path) && i < j < |items| && Inside(items[i], items[j])
    ensures HasParent(items, j)
  {
    assert |path| < |items[i].path| < |items[j].path|;
  }

  /** The top of the popped stack is the parent, if there is one. */
  lemma TopIsParent(items: seq<Item>, path: seq<string>, stack: seq<nat>, count: nat)
    requires Nested(items, path) && Rooted(items, path) && count < |items| && Popped(items, stack, count)
    requires forall a :: 0 <= a < |stack| ==> Inside(items[stack[a]], items[count])
    ensures if stack == [] then !HasParent(items, count) else IsParent(items, stack[|stack| - 1], count)
  {
    if stack != [] {
      EnclosedHasParent(items, path, stack[0], count);
    }
    if HasParent(items, count) {
      var i: nat :| IsParent(items, i, count);
      assert i in stack;
      var a :| 0 <= a < |stack| && stack[a] == i;
      var last := |stack| - 1;
      assert a < last ==> Inside(items[stack[a]], items[stack[last]]);
      assert |items[stack[last]].path| < |items[count].path|;
    }
  }

  /** The direct children among the first properties, for every property. */
  ghost predicate Listed(items: seq<Item>, children: seq<seq<nat>>, count: nat) {
    count <= |items| == |children| && forall i :: 0 <= i < |items| ==> children[i] == ChildrenOf(items, i, count)
  }

  /** The state of the scan before a property. */
  ghost predicate Scanned(items: seq<Item>, ancestors: seq<nat>, children: seq<seq<nat>>, index: nat) {
    Stacked(items, ancestors, index) && Listed(items, children, index)
  }

  lemma NothingScanned(items: seq<Item>, children: seq<seq<nat>>)
    requires |children| == |items| && forall i :: 0 <= i < |items| ==> children[i] == []
    ensures Scanned(items, [], children, 0)
  {
  }

  lemma AllScanned(items: seq<Item>, ancestors: seq<nat>, children: seq<seq<nat>>)
    requires Scanned(items, ancestors, children, |items|)
    ensures |children| == |items| && forall i :: 0 <= i < |items| ==> children[i] == ChildrenOf(items, i, |items|)
  {
  }

  /** One scan with a stack of ancestors finds exactly the direct children of every property, in order. */
  method PropertyChildren(items: seq<Item>, ghost path: seq<string>) returns (children: seq<seq<nat>>)
    requires Nested(items, path) && Rooted(items, path)
    ensures |children| == |items|
    ensures forall i :: 0 <= i < |items| ==> children[i] == ChildrenOf(items, i, |items|)
  {
    children := seq(|items|, _ => []);
    var ancestors: seq<nat> := [];
    NothingScanned(items, children);
    for index := 0 to |items|
      invariant Scanned(items, ancestors, children, index)
    {
      ancestors, children := NextProperty(items, path, ancestors, index, children);
    }
    AllScanned(items, ancestors, children);
  }

  method NextProperty(items: seq<Item>, ghost path: seq<string>, stack: seq<nat>, index: nat, before: seq<seq<nat>>)
    returns (ancestors: seq<nat>, children: seq<seq<nat>>)
    requires Nested(items, path) && Rooted(items, path) && index < |items|
    requires Scanned(items, stack, before, index)
    ensures Scanned(items, ancestors, children, index + 1)
  {
    ancestors := PopAncestors(items, path, stack, index);
    PushRestores(items, path, ancestors, index);
    TopIsParent(items, path, ancestors, index);
    children := AddChild(items, path, ancestors, index, before);
    ancestors := ancestors + [index];
  }

  /** Pops what does not enclose the next property. */
  method PopAncestors(items: seq<Item>, ghost path: seq<string>, stack: seq<nat>, index: nat)
    returns (ancestors: seq<nat>)
    requires Nested(items, path) && index < |items| && Stacked(items, stack, index)
    ensures Popped(items, ancestors, index)
    ensures ancestors != [] ==> Encloses(items[ancestors[|ancestors| - 1]], items[index])
  {
    ancestors := stack;
    StackHoldsEnclosers(items, path, ancestors, index);
    while ancestors != [] && !Encloses(items[ancestors[|ancestors| - 1]], items[index])
      invariant Popped(items, ancestors, index)
      decreases |ancestors|
    {
      PopKeeps(items, path, ancestors, index);
      ancestors := ancestors[..|ancestors| - 1];
    }
  }

  /** Hands the next property to its parent, the top of the stack. */
  method AddChild(items: seq<Item>, ghost path: seq<string>, ancestors: seq<nat>, index: nat, before: seq<seq<nat>>)
    returns (children: seq<seq<nat>>)
    requires Nested(items, path) && index < |items| && |before| == |items|
    requires Listed(items, before, index)
    requires forall a :: 0 <= a < |ancestors| ==> ancestors[a] < index
    requires if ancestors == [] then !HasParent(items, index) else IsParent(items, ancestors[|ancestors| - 1], index)
    ensures Listed(items, children, index + 1)
  {
    children := before;
    if ancestors != [] {
      var parent := ancestors[|ancestors| - 1];
      forall i: nat | IsParent(items, i, index)
        ensures i == parent
      {
        ParentIsUnique(items, path, i, parent, index);
      }
      if |items[index].path| == |items[parent].path| + 1 {
        children := children[parent := children[parent] + [index]];
      }
    }
  }

  // ----- Scans of the whole list -----

  function LeastDepth(items: seq<Item>, container: Range, count: nat): Option<nat>
    requires count <= |items|
  {
    if count == 0 then None
    else
      var least := LeastDepth(items, container, count - 1);
      var depth := |items[count - 1].path|;
      if Within(items[count - 1].range, container) && (least.None? || depth < least.value) then Some(depth) else least
  }

  /** Contained, at the given depth. */
  predicate Picked(item: Item, container: Range, depth: Option<nat>) {
    Within(item.range, container) && Some(|item.path|) == depth
  }

  function AtDepth(items: seq<Item>, container: Range, depth: Option<nat>, count: nat): seq<nat>
    requires count <= |items|
  {
    if count == 0 then []
    else
      AtDepth(items, container, depth, count - 1)
      + if Picked(items[count - 1], container, depth) then [count - 1] else []
  }

  /** The properties of a container, by index: those contained at the least depth. */
  function ScanContainer(items: seq<Item>, container: Range): seq<nat> {
    AtDepth(items, container, LeastDepth(items, container, |items|), |items|)
  }

  predicate Candidate(items: seq<Item>, parent: nat, p: Item)
    requires parent < |items|
  {
    && |items[parent].path| + 1 == |p.path| && items[parent].path <= p.path && Within(p.range, items[parent].range)
  }

  /** The first shortest candidate. */
  function ScanParent(items: seq<Item>, p: Item, count: nat): (found: Option<nat>)
    requires count <= |items|
    ensures found.Some? ==> found.value < count
  {
    if count == 0 then None
    else
      var best := ScanParent(items, p, count - 1);
      if Candidate(items, count - 1, p)
         && (best.None? || Length(items[count - 1].range) < Length(items[best.value].range))
      then Some(count - 1) else best
  }

  function TopLevel(items: seq<Item>, count: nat): seq<nat>
    requires count <= |items|
  {
    if count == 0 then []
    else TopLevel(items, count - 1) + if items[count - 1].topLevel then [count - 1] else []
  }

  function ScanProperty(items: seq<Item>, p: Item): seq<nat> {
    var parent := ScanParent(items, p, |items|);
    if parent.None? then TopLevel(items, |items|)
    else
      var found := items[parent.value];
      ScanContainer(items, if found.valueRange.Some? then found.valueRange.value else found.range)
  }

  // ----- The index -----

  /** Lexicographic order of ranges. */
  predicate Before(a: Range, b: Range) {
    a.start < b.start || (a.start == b.start && a.end < b.end)
  }

  /** The properties whose key is before the given one. */
  function KeyBefore(key: Range): Item -> bool {
    (candidate: Item) => Before(candidate.keyRange, key)
  }

  datatype PropertyQueryIndex = PropertyQueryIndex(parents: seq<Option<nat>>, children: seq<seq<nat>>, roots: seq<nat>,
                                                   containers: map<Range, nat>)

  /** What the index must hold for a list. */
  ghost predicate Indexes(index: PropertyQueryIndex, items: seq<Item>) {
    && |index.parents| == |items| && |index.children| == |items|
    && (forall j: nat :: j < |items| ==>
          if HasParent(items, j) then index.parents[j].Some? && IsParent(items, index.parents[j].value, j)
          else index.parents[j].None?)
    && (forall i :: 0 <= i < |items| ==> index.children[i] == ChildrenOf(items, i, |items|))
    && index.roots == TopLevel(items, |items|)
    && (forall range :: range in index.containers ==>
          index.containers[range] < |items| && items[index.containers[range]].valueRange == Some(range))
    && (forall i :: 0 <= i < |items| && items[i].valueRange.Some? ==> items[i].valueRange.value in index.containers)
  }

  /** The siblings of a property by the index, falling back to the scan where the index cannot tell. */
  function ForProperty(index: PropertyQueryIndex, items: seq<Item>, p: Item): seq<nat>
    requires |index.parents| == |items| && |index.children| == |items|
    requires forall j :: 0 <= j < |items| && index.parents[j].Some? ==> index.parents[j].value < |items|
  {
    var i := Prefix(items, KeyBefore(p.keyRange));
    if i == |items| || items[i].keyRange != p.keyRange then ScanProperty(items, p)
    else if index.parents[i].None? then index.roots
    else
      var parent := index.parents[i].value;
      if items[parent].valueRange.Some? then index.children[parent] else ScanProperty(items, p)
  }

  /** The same, with the position of the property found by halving. */
  method FindForProperty(index: PropertyQueryIndex, items: seq<Item>, p: Item) returns (siblings: seq<nat>)
    requires |index.parents| == |items| && |index.children| == |items|
    requires forall j :: 0 <= j < |items| && index.parents[j].Some? ==> index.parents[j].value < |items|
    requires Partitioned(items, KeyBefore(p.keyRange))
    ensures siblings == ForProperty(index, items, p)
    ensures forall path :: Nested(items, path) && Rooted(items, path) && Indexes(index, items) && p in items ==>
              siblings == ScanProperty(items, p)
  {
    var i := PartitionPoint(items, KeyBefore(p.keyRange));
    if i == |items| || items[i].keyRange != p.keyRange {
      siblings := ScanProperty(items, p);
    } else {
      match index.parents[i]
      case None => siblings := index.roots;
      case Some(parent) =>
        siblings := if items[parent].valueRange.Some? then index.children[parent] else ScanProperty(items, p);
    }
    forall path | Nested(items, path) && Rooted(items, path) && Indexes(index, items) && p in items
      ensures ForProperty(index, items, p) == ScanProperty(items, p)
    {
      var j :| 0 <= j < |items| && items[j] == p;
      IndexAgreesOnProperties(index, items, path, j);
    }
  }

  function InContainer(index: PropertyQueryIndex, items: seq<Item>, container: Range): seq<nat>
    requires |index.children| == |items|
    requires forall range :: range in index.containers ==> index.containers[range] < |items|
  {
    if container in index.containers then index.children[index.containers[container]] else ScanContainer(items, container)
  }

  /** In a nested list what lies in a property's value is inside the property, and nothing else does. */
  lemma ValueHolds(items: seq<Item>, path: seq<string>, i: nat, j: nat)
    requires Nested(items, path) && i < |items| && j < |items| && items[i].valueRange.Some?
    requires Within(items[j].range, items[i].valueRange.value)
    ensures i < j && Inside(items[i], items[j])
  {
    assert Sound(items[i]) && Sound(items[j]);
    if j < i {
      OneOrOther(items, path, j, i);
    } else if i < j {
      OneOrOther(items, path, i, j);
    }
  }

  lemma OneOrOther(items: seq<Item>, path: seq<string>, i: nat, j: nat)
    requires Nested(items, path) && i < j < |items|
    ensures Apart(items[i], items[j]) || Inside(items[i], items[j])
  {
  }

  /** A property that has any inside has a direct child among them. */
  lemma DepthBelow(items: seq<Item>, path: seq<string>, i: nat, j: nat)
    requires Nested(items, path) && Rooted(items, path) && i < j < |items| && Inside(items[i], items[j])
    ensures exists k: nat :: k <= j && IsParent(items, i, k)
    decreases j
  {
    EnclosedHasParent(items, path, i, j);
    var k: nat :| IsParent(items, k, j);
    if k < i {
      EnclosersNest(items, path, k, i, j);
    } else if k > i {
      EnclosersNest(items, path, i, k, j);
      DepthBelow(items, path, i, k);
    }
  }

  /** The least depth is a bound, and reached. */
  lemma {:induction false} LeastDepthIs(items: seq<Item>, container: Range, count: nat)
    requires count <= |items|
    ensures var least := LeastDepth(items, container, count);
            && (forall j: nat :: j < count && Within(items[j].range, container) ==> least.Some? && least.value <= |items[j].path|)
            && (least.Some? ==> exists j: nat :: j < count && Within(items[j].range, container) && |items[j].path| == least.value)
  {
    if count > 0 {
      LeastDepthIs(items, container, count - 1);
    }
  }

  /** Filtering by a predicate that picks the direct children gives the direct children. */
  lemma {:induction false} AtDepthIsChildren(items: seq<Item>, container: Range, depth: Option<nat>, i: nat, count: nat)
    requires count <= |items|
    requires forall j: nat :: j < count ==> (IsParent(items, i, j) <==> Picked(items[j], container, depth))
    ensures AtDepth(items, container, depth, count) == ChildrenOf(items, i, count)
  {
    if count > 0 {
      AtDepthIsChildren(items, container, depth, i, count - 1);
    }
  }

  lemma {:induction false} NoneAtDepth(items: seq<Item>, container: Range, depth: Option<nat>, count: nat)
    requires count <= |items| && depth.None?
    ensures AtDepth(items, container, depth, count) == []
  {
    if count > 0 {
      NoneAtDepth(items, container, depth, count - 1);
    }
  }

  /** What lies in a value is deeper than its property, and has a direct child of it before or at it. */
  lemma ContainedIsDeeper(items: seq<Item>, path: seq<string>, i: nat, j: nat)
    requires Nested(items, path) && Rooted(items, path) && i < |items| && j < |items| && items[i].valueRange.Some?
    requires Within(items[j].range, items[i].valueRange.value)
    ensures |items[j].path| > |items[i].path| && exists k: nat :: k < |items| && IsParent(items, i, k)
  {
    ValueHolds(items, path, i, j);
    DepthBelow(items, path, i, j);
  }

  /** If a value holds anything, its least depth is that of the direct children. */
  lemma LeastIsChildDepth(items: seq<Item>, path: seq<string>, i: nat)
    requires Nested(items, path) && Rooted(items, path) && i < |items| && items[i].valueRange.Some?
    ensures var least := LeastDepth(items, items[i].valueRange.value, |items|);
            least.Some? ==> least.value == |items[i].path| + 1
  {
    var container := items[i].valueRange.value;
    LeastDepthIs(items, container, |items|);
    var least := LeastDepth(items, container, |items|);
    if least.Some? {
      var m: nat :| m < |items| && Within(items[m].range, container) && |items[m].path| == least.value;
      ContainedIsDeeper(items, path, i, m);
      var k: nat :| k < |items| && IsParent(items, i, k);
      assert Within(items[k].range, container);
    }
  }

  lemma {:induction false} SomeDepth(items: seq<Item>, container: Range, count: nat, j: nat)
    requires j < count <= |items| && Within(items[j].range, container)
    ensures LeastDepth(items, container, count).Some?
  {
    if j < count - 1 {
      SomeDepth(items, container, count - 1, j);
    }
  }

  lemma ChildIsContained(items: seq<Item>, path: seq<string>, i: nat, j: nat, container: Range)
    requires Nested(items, path) && i < |items| && j < |items| && items[i].valueRange == Some(container)
    ensures IsParent(items, i, j) <==> Within(items[j].range, container) && |items[j].path| == |items[i].path| + 1
  {
    if Within(items[j].range, container) {
      ValueHolds(items, path, i, j);
    }
  }

  lemma ChildIsPicked(items: seq<Item>, path: seq<string>, i: nat, j: nat, container: Range, depth: Option<nat>)
    requires Nested(items, path) && i < |items| && j < |items| && items[i].valueRange == Some(container)
    requires depth.Some? ==> depth.value == |items[i].path| + 1
    requires Within(items[j].range, container) ==> depth.Some?
    ensures IsParent(items, i, j) <==> Picked(items[j], container, depth)
  {
    ChildIsContained(items, path, i, j, container);
  }

  /** Scanning the value of a property finds exactly its direct children. */
  lemma ScanFindsChildren(items: seq<Item>, path: seq<string>, i: nat)
    requires Nested(items, path) && Rooted(items, path) && i < |items| && items[i].valueRange.Some?
    ensures ScanContainer(items, items[i].valueRange.value) == ChildrenOf(items, i, |items|)
  {
    var container := items[i].valueRange.value;
    var depth := LeastDepth(items, container, |items|);
    LeastIsChildDepth(items, path, i);
    forall j: nat | j < |items|
      ensures IsParent(items, i, j) <==> Picked(items[j], container, depth)
    {
      if Within(items[j].range, container) {
        SomeDepth(items, container, |items|, j);
      }
      ChildIsPicked(items, path, i, j, container, depth);
    }
    AtDepthIsChildren(items, container, depth, i, |items|);
  }

  /** A parent candidate of the scan is the parent. */
  lemma CandidateIsParent(items: seq<Item>, path: seq<string>, i: nat, j: nat)
    requires Nested(items, path) && i < |items| && j < |items|
    ensures Candidate(items, i, items[j]) <==> IsParent(items, i, j)
  {
    assert Sound(items[i]) && Sound(items[j]);
    if i < j {
      OneOrOther(items, path, i, j);
    } else if j < i {
      OneOrOther(items, path, j, i);
    }
  }

  /** The scan for the shortest enclosing candidate finds the parent if there is one. */
  lemma {:induction false} ScanFindsParent(items: seq<Item>, path: seq<string>, j: nat, count: nat)
    requires Nested(items, path) && j < |items| && count <= |items|
    ensures var found := ScanParent(items, items[j], count);
            && (found.Some? ==> IsParent(items, found.value, j))
            && (found.None? ==> forall i: nat :: i < count ==> !IsParent(items, i, j))
  {
    if count > 0 {
      var last := count - 1;
      ScanFindsParent(items, path, j, last);
      CandidateIsParent(items, path, last, j);
      var before, found := ScanParent(items, items[j], last), ScanParent(items, items[j], count);
      assert found == before || (found == Some(last) && IsParent(items, last, j));
      assert found.None? ==> before.None? && !IsParent(items, last, j);
    }
  }

  /** Keys come in source order. */
  lemma KeysAscend(items: seq<Item>, path: seq<string>, i: nat, j: nat)
    requires Nested(items, path) && i < j < |items|
    ensures Before(items[i].keyRange, items[j].keyRange)
  {
    OneOrOther(items, path, i, j);
    assert Sound(items[i]) && Sound(items[j]);
  }

  /** A nested list is in the order that the binary search by key needs. */
  lemma NestedIsPartitioned(items: seq<Item>, path: seq<string>, key: Range)
    requires Nested(items, path)
    ensures Partitioned(items, KeyBefore(key))
  {
    forall i, j | 0 <= i < j < |items| && KeyBefore(key)(items[j])
      ensures KeyBefore(key)(items[i])
    {
      KeysAscend(items, path, i, j);
    }
  }

  /** The partition point of a property's key is the property. */
  lemma PartitionFinds(items: seq<Item>, path: seq<string>, j: nat)
    requires Nested(items, path) && j < |items|
    ensures Prefix(items, KeyBefore(items[j].keyRange)) == j
  {
    var passed := KeyBefore(items[j].keyRange);
    forall i | 0 <= i < |items|
      ensures passed(items[i]) <==> i < j
    {
      if i < j {
        KeysAscend(items, path, i, j);
      } else if j < i {
        KeysAscend(items, path, j, i);
      }
    }
    PrefixIs(items, passed, j);
  }

  lemma ParentsAreIndices(index: PropertyQueryIndex, items: seq<Item>)
    requires Indexes(index, items)
    ensures forall i :: 0 <= i < |items| && index.parents[i].Some? ==> index.parents[i].value < |items|
  {
    forall i: nat | i < |items| && index.parents[i].Some?
      ensures index.parents[i].value < |items|
    {
      assert HasParent(items, i);
    }
  }

  /** The index knows the parent the scan finds. */
  lemma ParentsAgree(index: PropertyQueryIndex, items: seq<Item>, path: seq<string>, j: nat)
    requires Nested(items, path) && Indexes(index, items) && j < |items|
    ensures ScanParent(items, items[j], |items|) == index.parents[j]
    ensures index.parents[j].Some? ==> IsParent(items, index.parents[j].value, j)
  {
    ScanFindsParent(items, path, j, |items|);
    var found := ScanParent(items, items[j], |items|);
    if found.Some? {
      assert HasParent(items, j);
      ParentIsUnique(items, path, found.value, index.parents[j].value, j);
    } else {
      assert !HasParent(items, j);
    }
  }

  /** For every property of the list the index selects the siblings the scan selects. */
  lemma IndexAgreesOnProperties(index: PropertyQueryIndex, items: seq<Item>, path: seq<string>, j: nat)
    requires Nested(items, path) && Rooted(items, path) && Indexes(index, items) && j < |items|
    requires forall i :: 0 <= i < |items| && index.parents[i].Some? ==> index.parents[i].value < |items|
    ensures ForProperty(index, items, items[j]) == ScanProperty(items, items[j])
  {
    PartitionFinds(items, path, j);
    ParentsAgree(index, items, path, j);
    if index.parents[j].Some? {
      ScanFindsChildren(items, path, index.parents[j].value);
    }
  }

  /** For every container, a value of the list or any other range, the index selects what the scan selects. */
  lemma IndexAgreesOnContainers(index: PropertyQueryIndex, items: seq<Item>, path: seq<string>, container: Range)
    requires Nested(items, path) && Rooted(items, path) && Indexes(index, items)
    ensures InContainer(index, items, container) == ScanContainer(items, container)
  {
    if container in index.containers {
      ScanFindsChildren(items, path, index.containers[container]);
    }
  }

  /** On every well-formed syntax tree the index and the scans agree, even where paths repeat. */
  lemma IndexAgreesOnTrees(tree: Node, index: PropertyQueryIndex)
    requires Wellformed(tree) && Indexes(index, Collect(tree, true, []))
    ensures var items := Collect(tree, true, []);
            && (forall i :: 0 <= i < |items| && index.parents[i].Some? ==> index.parents[i].value < |items|)
            && (forall key: Range :: Partitioned(items, KeyBefore(key)))
            && (forall j :: 0 <= j < |items| ==> ForProperty(index, items, items[j]) == ScanProperty(items, items[j]))
            && (forall container: Range :: InContainer(index, items, container) == ScanContainer(items, container))
  {
    var items := Collect(tree, true, []);
    CollectedIsHeld(tree, true, []);
    ParentsAreIndices(index, items);
    forall key: Range
      ensures Partitioned(items, KeyBefore(key))
    {
      NestedIsPartitioned(items, [], key);
    }
    forall j: nat | j < |items|
      ensures ForProperty(index, items, items[j]) == ScanProperty(items, items[j])
    {
      IndexAgreesOnProperties(index, items, [], j);
    }
    forall container: Range
      ensures InContainer(index, items, container) == ScanContainer(items, container)
    {
      IndexAgreesOnContainers(index, items, [], container);
    }
  }

  // ----- Building the index -----

  /** The parent of each property, read off the child lists. */
  method InvertChildren(items: seq<Item>, ghost path: seq<string>, children: seq<seq<nat>>) returns (parents: seq<Option<nat>>)
    requires Nested(items, path) && |children| == |items|
    requires forall i :: 0 <= i < |items| ==> children[i] == ChildrenOf(items, i, |items|)
    ensures |parents| == |items|
    ensures forall j: nat :: j < |items| ==>
              if HasParent(items, j) then parents[j].Some? && IsParent(items, parents[j].value, j) else parents[j].None?
  {
    parents := seq(|items|, _ => None);
    for i := 0 to |items|
      invariant Inverted(items, parents, i)
    {
      ChildrenAreDirect(items, i, |items|);
      parents := Adopt(items, i, children[i], parents);
    }
  }

  /** The parents among the first properties, for every property. */
  ghost predicate Inverted(items: seq<Item>, parents: seq<Option<nat>>, count: nat) {
    |parents| == |items| && forall j: nat :: j < |items| ==>
      if parents[j].Some? then IsParent(items, parents[j].value, j) else forall k: nat :: k < count ==> !IsParent(items, k, j)
  }

  method Adopt(items: seq<Item>, i: nat, children: seq<nat>, before: seq<Option<nat>>) returns (parents: seq<Option<nat>>)
    requires Inverted(items, before, i) && forall j: nat :: j in children <==> j < |items| && IsParent(items, i, j)
    ensures Inverted(items, parents, i + 1)
  {
    parents := before;
    for c := 0 to |children|
      invariant |parents| == |items|
      invariant forall j: nat :: j < |items| ==>
                  if j in children[..c] then parents[j] == Some(i) else parents[j] == before[j]
    {
      var child := children[c];
      assert child in children;
      assert children[..c + 1] == children[..c] + [child];
      parents := parents[child := Some(i)];
    }
    assert children[..|children|] == children;
    forall j: nat | j < |items|
      ensures if parents[j].Some? then IsParent(items, parents[j].value, j) else forall k: nat :: k < i + 1 ==> !IsParent(items, k, j)
    {
      if j !in children && before[j].None? {
        assert forall k: nat :: k < i ==> !IsParent(items, k, j);
      }
    }
  }

  method IndexContainers(items: seq<Item>) returns (containers: map<Range, nat>)
    ensures forall range :: range in containers ==>
              containers[range] < |items| && items[containers[range]].valueRange == Some(range)
    ensures forall i :: 0 <= i < |items| && items[i].valueRange.Some? ==> items[i].valueRange.value in containers
  {
    containers := map[];
    for i := 0 to |items|
      invariant forall range :: range in containers ==>
                  containers[range] < i && items[containers[range]].valueRange == Some(range)
      invariant forall j :: 0 <= j < i && items[j].valueRange.Some? ==> items[j].valueRange.value in containers
    {
      if items[i].valueRange.Some? && items[i].valueRange.value !in containers {
        containers := containers[items[i].valueRange.value := i];
      }
    }
  }

  method CollectRoots(items: seq<Item>) returns (roots: seq<nat>)
    ensures roots == TopLevel(items, |items|)
  {
    roots := [];
    for i := 0 to |items|
      invariant roots == TopLevel(items, i)
    {
      if items[i].topLevel {
        roots := roots + [i];
      }
    }
  }

  /** Builds the index of a nested list. */
  method BuildIndex(items: seq<Item>, ghost path: seq<string>) returns (index: PropertyQueryIndex)
    requires Nested(items, path) && Rooted(items, path)
    ensures Indexes(index, items)
  {
    var children := PropertyChildren(items, path);
    var parents := InvertChildren(items, path, children);
    var containers := IndexContainers(items);
    var roots := CollectRoots(items);
    index := PropertyQueryIndex(parents, children, roots, containers);
  }
}
