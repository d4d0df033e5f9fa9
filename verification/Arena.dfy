/** Three-valued verdicts, ordered Invalid < Unknown < Valid for conjunction, and by information
    (Unknown below both decided verdicts) for refinement. */
module Kleene {
  datatype Validation = Invalid | Unknown | Valid

  /** Verdict of an `All` node: a rejection wins, then missing knowledge. */
  function Conj(outcomes: set<Validation>): Validation {
    if Invalid in outcomes then Invalid else if Unknown in outcomes then Unknown else Valid
  }

  /** Verdict of an `Any` node: a proof wins, then missing knowledge. */
  function Disj(outcomes: set<Validation>): Validation {
    if Valid in outcomes then Valid else if Unknown in outcomes then Unknown else Invalid
  }

  function Both(x: Validation, y: Validation): Validation {
    Conj({x, y})
  }

  /** A conjunction fails if one outcome does, and holds if all do. */
  lemma ConjLaw(outcomes: set<Validation>)
    ensures Conj(outcomes) == Invalid <==> exists o :: o in outcomes && o == Invalid
    ensures Conj(outcomes) == Valid <==> forall o :: o in outcomes ==> o == Valid
  {
    forall o | o in outcomes
      ensures o == Invalid || o == Unknown || o == Valid
    {
    }
  }

  /** A disjunction holds if one outcome does, and fails if all do. */
  lemma DisjLaw(outcomes: set<Validation>)
    ensures Disj(outcomes) == Valid <==> exists o :: o in outcomes && o == Valid
    ensures Disj(outcomes) == Invalid <==> forall o :: o in outcomes ==> o == Invalid
  {
    forall o | o in outcomes
      ensures o == Invalid || o == Unknown || o == Valid
    {
    }
  }

  /** Two verdicts hold together if both do, and fail if one does. */
  lemma BothLaw(x: Validation, y: Validation)
    ensures Both(x, y) == Valid <==> x == Valid && y == Valid
    ensures Both(x, y) == Invalid <==> x == Invalid || y == Invalid
  {
  }

  lemma ConjNested(xs: set<Validation>, ys: set<Validation>)
    ensures Conj(xs + ys) == Conj(xs + {Conj(ys)})
  {
  }

  lemma ConjLowers(xs: set<Validation>, more: set<Validation>)
    ensures Holds(Lower, Conj(xs + more), Conj(xs))
  {
  }

  /** The ways one verdict may stand to another; each is kept by `Conj` and `Disj`. */
  datatype Relation =
    | Same
    | Degraded  // equal, except that a proof may have been lost
    | Resolves  // equal, except that an unknown may have been decided
    | Lower     // not closer to acceptance

  predicate Holds(rel: Relation, x: Validation, y: Validation) {
    match rel
    case Same => x == y
    case Degraded => x == y || (x == Unknown && y == Valid)
    case Resolves => x == y || y == Unknown
    case Lower => x == y || x == Invalid || y == Valid
  }

  lemma HoldsTransitive(rel: Relation, x: Validation, y: Validation, z: Validation)
    requires Holds(rel, x, y) && Holds(rel, y, z)
    ensures Holds(rel, x, z)
  {
  }

  /** Some outcome in `ys` is related to `x`; written out over the three verdicts. */
  predicate Covers(rel: Relation, x: Validation, ys: set<Validation>) {
    || (Invalid in ys && Holds(rel, x, Invalid))
    || (Unknown in ys && Holds(rel, x, Unknown))
    || (Valid in ys && Holds(rel, x, Valid))
  }

  predicate CoveredBy(rel: Relation, xs: set<Validation>, y: Validation) {
    || (Invalid in xs && Holds(rel, Invalid, y))
    || (Unknown in xs && Holds(rel, Unknown, y))
    || (Valid in xs && Holds(rel, Valid, y))
  }

  /** Every outcome on one side is matched by a related outcome on the other. */
  predicate Matches(rel: Relation, xs: set<Validation>, ys: set<Validation>) {
    && (Invalid in xs ==> Covers(rel, Invalid, ys))
    && (Unknown in xs ==> Covers(rel, Unknown, ys))
    && (Valid in xs ==> Covers(rel, Valid, ys))
    && (Invalid in ys ==> CoveredBy(rel, xs, Invalid))
    && (Unknown in ys ==> CoveredBy(rel, xs, Unknown))
    && (Valid in ys ==> CoveredBy(rel, xs, Valid))
  }

  lemma MatchesWith(rel: Relation, xs: set<Validation>, ys: set<Validation>, more: set<Validation>)
    requires Matches(rel, xs, ys)
    ensures Matches(rel, xs + more, ys + more)
  {
  }

  lemma CombinedHolds(rel: Relation, xs: set<Validation>, ys: set<Validation>)
    requires Matches(rel, xs, ys)
    ensures Holds(rel, Conj(xs), Conj(ys))
    ensures Holds(rel, Disj(xs), Disj(ys))
  {
  }
}

/** The And/Or arena shared by overload checking and entry-scope solving. */
module Arena {
  import opened Kleene

  datatype Node = All(children: seq<nat>) | Any(children: seq<nat>) | Value(value: Validation)

  function Children(node: Node): seq<nat> {
    match node
    case Value(_) => []
    case All(children) => children
    case Any(children) => children
  }

  predicate Edge(nodes: seq<Node>, parent: nat, child: nat) {
    parent < |nodes| && child in Children(nodes[parent])
  }

  ghost predicate Ranked(nodes: seq<Node>, rank: seq<nat>) {
    && |rank| == |nodes|
    && forall p: nat, c: nat :: Edge(nodes, p, c) ==> c < |nodes| && rank[c] < rank[p]
  }

  /** No node reaches itself; nodes may be shared. */
  ghost predicate Acyclic(nodes: seq<Node>) {
    exists rank :: Ranked(nodes, rank)
  }

  ghost function RankOf(nodes: seq<Node>): (rank: seq<nat>)
    requires Acyclic(nodes)
    ensures Ranked(nodes, rank)
  {
    var rank :| Ranked(nodes, rank);
    rank
  }

  function DueAt(due: map<nat, Validation>, id: nat): set<Validation> {
    if id in due then {due[id]} else {}
  }

  /** Recursive Kleene verdict of a node, where `due` holds verdicts that unfinished tasks still owe
      to an `All` node. `Eval(nodes, map[], id)` is the meaning of a finished arena. */
  ghost function Eval(nodes: seq<Node>, due: map<nat, Validation>, id: nat): Validation
    requires Acyclic(nodes) && id < |nodes|
    decreases RankOf(nodes)[id]
  {
    assert Ranked(nodes, RankOf(nodes)) && forall c :: c in Children(nodes[id]) ==> Edge(nodes, id, c);
    if nodes[id].Value? then nodes[id].value
    else
      var outcomes := set c | c in Children(nodes[id]) :: Eval(nodes, due, c);
      if nodes[id].All? then Conj(outcomes + DueAt(due, id)) else Disj(outcomes)
  }

  ghost function Outcomes(nodes: seq<Node>, due: map<nat, Validation>, ids: seq<nat>): (outcomes: set<Validation>)
    requires Acyclic(nodes) && forall c :: c in ids ==> c < |nodes|
  {
    set c | c in ids :: Eval(nodes, due, c)
  }

  lemma EvalNode(nodes: seq<Node>, due: map<nat, Validation>, id: nat)
    requires Acyclic(nodes) && id < |nodes|
    ensures forall c :: c in Children(nodes[id]) ==> c < |nodes|
    ensures Eval(nodes, due, id) ==
            if nodes[id].Value? then nodes[id].value
            else if nodes[id].All? then Conj(Outcomes(nodes, due, Children(nodes[id])) + DueAt(due, id))
            else Disj(Outcomes(nodes, due, Children(nodes[id])))
  {
    assert Ranked(nodes, RankOf(nodes)) && forall c :: c in Children(nodes[id]) ==> Edge(nodes, id, c);
    if !nodes[id].Value? {
      assert (set c | c in Children(nodes[id]) :: Eval(nodes, due, c)) == Outcomes(nodes, due, Children(nodes[id]));
    }
  }

  /** The verdict of a node in terms of those of its children: an All node fails with one of them and holds with all
      of them, an Any node holds with one and fails with all, and everything else is unknown. */
  lemma VerdictLaw(nodes: seq<Node>, id: nat)
    requires Acyclic(nodes) && id < |nodes|
    ensures forall c :: c in Children(nodes[id]) ==> c < |nodes|
    ensures match nodes[id]
            case Value(value) => Eval(nodes, map[], id) == value
            case All(children) =>
              && (Eval(nodes, map[], id) == Invalid <==> exists c :: c in children && c < |nodes| && Eval(nodes, map[], c) == Invalid)
              && (Eval(nodes, map[], id) == Valid <==> forall c :: c in children && c < |nodes| ==> Eval(nodes, map[], c) == Valid)
            case Any(children) =>
              && (Eval(nodes, map[], id) == Valid <==> exists c :: c in children && c < |nodes| && Eval(nodes, map[], c) == Valid)
              && (Eval(nodes, map[], id) == Invalid <==> forall c :: c in children && c < |nodes| ==> Eval(nodes, map[], c) == Invalid)
  {
    EvalNode(nodes, map[], id);
    var outcomes := Outcomes(nodes, map[], Children(nodes[id]));
    assert outcomes + {} == outcomes;
    ConjLaw(outcomes);
    DisjLaw(outcomes);
  }

  lemma OutcomesMatch(rel: Relation, nodes: seq<Node>, due: map<nat, Validation>,
                      nodes': seq<Node>, due': map<nat, Validation>, ids: seq<nat>)
    requires Acyclic(nodes) && Acyclic(nodes') && |nodes| <= |nodes'|
    requires forall c :: c in ids ==> c < |nodes| && Holds(rel, Eval(nodes', due', c), Eval(nodes, due, c))
    ensures Matches(rel, Outcomes(nodes', due', ids), Outcomes(nodes, due, ids))
  {
    var xs, ys := Outcomes(nodes', due', ids), Outcomes(nodes, due, ids);
    forall x | x in xs
      ensures Covers(rel, x, ys)
    {
      var c :| c in ids && Eval(nodes', due', c) == x;
      var y := Eval(nodes, due, c);
      assert y in ys && Holds(rel, x, y);
      assert y.Invalid? || y.Unknown? || y.Valid?;
    }
    forall y | y in ys
      ensures CoveredBy(rel, xs, y)
    {
      var c :| c in ids && Eval(nodes, due, c) == y;
      var x := Eval(nodes', due', c);
      assert x in xs && Holds(rel, x, y);
      assert x.Invalid? || x.Unknown? || x.Valid?;
    }
  }

  /** Verdicts move with the changed nodes: if only `touched` nodes change, and their verdicts move by
      `rel`, then every verdict moves by `rel` or stays. */
  lemma {:induction false} Transfer(rel: Relation, nodes: seq<Node>, due: map<nat, Validation>,
                                    nodes': seq<Node>, due': map<nat, Validation>, touched: set<nat>, id: nat)
    requires Acyclic(nodes) && Acyclic(nodes') && |nodes| <= |nodes'| && id < |nodes|
    requires forall i: nat :: i < |nodes| && i !in touched ==> nodes'[i] == nodes[i] && DueAt(due', i) == DueAt(due, i)
    requires forall i: nat :: i in touched && i < |nodes| ==> Holds(rel, Eval(nodes', due', i), Eval(nodes, due, i))
    ensures Holds(rel, Eval(nodes', due', id), Eval(nodes, due, id))
    decreases RankOf(nodes)[id]
  {
    if id !in touched {
      EvalNode(nodes, due, id);
      EvalNode(nodes', due', id);
      var cs := Children(nodes[id]);
      assert Ranked(nodes, RankOf(nodes));
      forall c | c in cs
        ensures c < |nodes| && Holds(rel, Eval(nodes', due', c), Eval(nodes, due, c))
      {
        assert Edge(nodes, id, c);
        Transfer(rel, nodes, due, nodes', due', touched, c);
      }
      OutcomesMatch(rel, nodes, due, nodes', due', cs);
      var xs, ys := Outcomes(nodes', due', cs), Outcomes(nodes, due, cs);
      MatchesWith(rel, xs, ys, DueAt(due, id));
      CombinedHolds(rel, xs, ys);
      CombinedHolds(rel, xs + DueAt(due, id), ys + DueAt(due, id));
    }
  }

  /** Replacing a finished node by its verdict changes no verdict anywhere. */
  lemma CollapseKeeps(nodes: seq<Node>, due: map<nat, Validation>, t: nat, id: nat)
    requires Acyclic(nodes) && t < |nodes| && id < |nodes|
    ensures Acyclic(nodes[t := Value(Eval(nodes, due, t))])
    ensures Eval(nodes[t := Value(Eval(nodes, due, t))], due, id) == Eval(nodes, due, id)
  {
    var nodes' := nodes[t := Value(Eval(nodes, due, t))];
    var rank := RankOf(nodes);
    assert forall p: nat, c: nat :: Edge(nodes', p, c) ==> Edge(nodes, p, c);
    assert Ranked(nodes', rank);
    Transfer(Same, nodes, due, nodes', due, {t}, id);
  }

  /** `nodes'` learns more than `nodes`: unknown leaves may have become anything. */
  ghost predicate Resolved(nodes: seq<Node>, nodes': seq<Node>) {
    && |nodes| <= |nodes'|
    && forall i: nat :: i < |nodes| ==> nodes'[i] == nodes[i] || nodes[i] == Value(Unknown)
  }

  /** Learning the value of unknown leaves never flips a decided verdict. */
  lemma DecidedIsFinal(nodes: seq<Node>, nodes': seq<Node>, id: nat)
    requires Acyclic(nodes) && Acyclic(nodes') && Resolved(nodes, nodes') && id < |nodes|
    requires Eval(nodes, map[], id) != Unknown
    ensures Eval(nodes', map[], id) == Eval(nodes, map[], id)
  {
    var touched := set i: nat | i in IdsBelow(|nodes|) && nodes'[i] != nodes[i];
    Transfer(Resolves, nodes, map[], nodes', map[], touched, id);
  }

  /** The shape both solvers keep: a child is younger than its parent, or already a finished value. */
  ghost predicate Forward(nodes: seq<Node>) {
    forall p: nat, c: nat :: Edge(nodes, p, c) ==> c < |nodes| && (p < c || nodes[c].Value?)
  }

  lemma ForwardIsAcyclic(nodes: seq<Node>)
    requires Forward(nodes)
    ensures Acyclic(nodes)
  {
    var rank := seq(|nodes|, i requires 0 <= i < |nodes| => if nodes[i].Value? then 0 else |nodes| - i);
    assert Ranked(nodes, rank);
  }

  /** In a forward arena a verdict depends only on the values and on the nodes from its own id on. */
  lemma {:induction false} YoungerOnly(nodes: seq<Node>, due: map<nat, Validation>,
                                       nodes': seq<Node>, due': map<nat, Validation>, from: nat, id: nat)
    requires Forward(nodes) && Acyclic(nodes) && Acyclic(nodes') && |nodes| <= |nodes'| && id < |nodes|
    requires from <= id || nodes[id].Value?
    requires forall i: nat :: i < |nodes| && (from <= i || nodes[i].Value?) ==>
               nodes'[i] == nodes[i] && (nodes[i].Value? || DueAt(due', i) == DueAt(due, i))
    ensures Eval(nodes', due', id) == Eval(nodes, due, id)
    decreases RankOf(nodes)[id]
  {
    EvalNode(nodes, due, id);
    EvalNode(nodes', due', id);
    var cs := Children(nodes[id]);
    assert Ranked(nodes, RankOf(nodes));
    forall c | c in cs
      ensures c < |nodes| && Eval(nodes', due', c) == Eval(nodes, due, c)
    {
      assert Edge(nodes, id, c);
      YoungerOnly(nodes, due, nodes', due', from, c);
    }
    assert Outcomes(nodes', due', cs) == Outcomes(nodes, due, cs);
  }

  function Attach(node: Node, id: nat): Node {
    match node
    case All(children) => All(children + [id])
    case Any(children) => Any(children + [id])
    case Value(_) => node
  }

  /** Appends a node and links it under `parent`; a parent that is already a value takes no child. */
  function Add(nodes: seq<Node>, parent: nat, node: Node): seq<Node>
    requires parent < |nodes|
  {
    nodes[parent := Attach(nodes[parent], |nodes|)] + [node]
  }

  lemma AddKeepsForward(nodes: seq<Node>, parent: nat, node: Node)
    requires Forward(nodes) && parent < |nodes| && Children(node) == []
    ensures Forward(Add(nodes, parent, node))
  {
    var nodes' := Add(nodes, parent, node);
    forall p: nat, c: nat | Edge(nodes', p, c)
      ensures c < |nodes'| && (p < c || nodes'[c].Value?)
    {
      if c != |nodes| {
        assert Edge(nodes, p, c);
      }
    }
  }

  /** `nodes` grew from `before`: only `parent` changed, by the children `added`. */
  ghost predicate Grown(before: seq<Node>, nodes: seq<Node>, parent: nat, added: seq<nat>) {
    && parent < |before| <= |nodes|
    && (forall i: nat :: i < |before| && i != parent ==> nodes[i] == before[i])
    && !before[parent].Value?
    && nodes[parent] == (if before[parent].All? then All(before[parent].children + added)
                         else Any(before[parent].children + added))
  }

  lemma ParentLowers(nodes: seq<Node>, nodes': seq<Node>, parent: nat, added: seq<nat>)
    requires Forward(nodes) && Forward(nodes') && Acyclic(nodes) && Acyclic(nodes')
    requires Grown(nodes, nodes', parent, added) && nodes[parent].All?
    ensures Holds(Lower, Eval(nodes', map[], parent), Eval(nodes, map[], parent))
  {
    EvalNode(nodes, map[], parent);
    EvalNode(nodes', map[], parent);
    var children := nodes[parent].children;
    forall c | c in children
      ensures c < |nodes| && Eval(nodes', map[], c) == Eval(nodes, map[], c)
    {
      assert Edge(nodes, parent, c);
      YoungerOnly(nodes, map[], nodes', map[], parent + 1, c);
    }
    forall c | c in added
      ensures c < |nodes'|
    {
      assert Edge(nodes', parent, c);
    }
    var xs, more := Outcomes(nodes, map[], children), Outcomes(nodes', map[], added);
    assert Outcomes(nodes', map[], children + added) == xs + more;
    assert xs + {} == xs && xs + more + {} == xs + more;
    ConjLowers(xs, more);
  }

  /** In a grown arena every old verdict moves no closer to acceptance, provided the node that took the
      new children is not an `Any`. */
  lemma GrowthLowers(nodes: seq<Node>, nodes': seq<Node>, parent: nat, added: seq<nat>, id: nat)
    requires Forward(nodes) && Forward(nodes') && Acyclic(nodes) && Acyclic(nodes')
    requires Grown(nodes, nodes', parent, added) && nodes[parent].All? && id < |nodes|
    ensures Holds(Lower, Eval(nodes', map[], id), Eval(nodes, map[], id))
  {
    ParentLowers(nodes, nodes', parent, added);
    Transfer(Lower, nodes, map[], nodes', map[], {parent}, id);
  }

  /** The value written for incomplete coverage caps a root that is still open. */
  lemma CapsAtUnknown(nodes: seq<Node>)
    requires Forward(nodes) && Acyclic(nodes) && nodes != [] && nodes[0].All?
    ensures Acyclic(Add(nodes, 0, Value(Unknown)))
    ensures Eval(Add(nodes, 0, Value(Unknown)), map[], 0) == Both(Eval(nodes, map[], 0), Unknown)
  {
    var capped := Add(nodes, 0, Value(Unknown));
    AddKeepsForward(nodes, 0, Value(Unknown));
    ForwardIsAcyclic(capped);
    EvalNode(nodes, map[], 0);
    EvalNode(capped, map[], 0);
    EvalNode(capped, map[], |nodes|);
    var children := nodes[0].children;
    forall c | c in children
      ensures c < |nodes| && Eval(nodes, map[], c) == Eval(capped, map[], c)
    {
      assert Edge(nodes, 0, c);
      YoungerOnly(nodes, map[], capped, map[], 1, c);
    }
    assert Outcomes(capped, map[], children + [|nodes|]) == Outcomes(nodes, map[], children) + {Unknown};
  }

  /** The nodes whose finishing visit is on the stack. */
  ghost function Finishing(pending: seq<(nat, bool)>): set<nat> {
    set i | 0 <= i < |pending| && pending[i].1 :: pending[i].0
  }

  ghost function IdsBelow(n: nat): (ids: set<nat>)
    ensures forall k: nat :: k in ids <==> k < n
  {
    if n == 0 then {} else IdsBelow(n - 1) + {n - 1}
  }

  predicate Awaited(pending: seq<(nat, bool)>, from: nat, id: nat) {
    exists j :: from <= j < |pending| && pending[j].0 == id
  }

  /** The visiting stack: whatever lies above a finishing visit is a strict descendant of that node,
      and every child of the node is either valued or still awaited above it. */
  ghost predicate StackInvariant(nodes: seq<Node>, rank: seq<nat>, values: map<nat, Validation>,
                                 pending: seq<(nat, bool)>)
    requires Ranked(nodes, rank)
  {
    && (forall i :: 0 <= i < |pending| ==> pending[i].0 < |nodes| && (pending[i].1 ==> !nodes[pending[i].0].Value?))
    && (forall i, j :: 0 <= i < j < |pending| && pending[i].1 ==> rank[pending[j].0] < rank[pending[i].0])
    && (forall i: nat, c: nat :: i < |pending| && pending[i].1 && Edge(nodes, pending[i].0, c) ==>
          c in values || Awaited(pending, i + 1, c))
  }

  lemma PopKeeps(nodes: seq<Node>, rank: seq<nat>, values: map<nat, Validation>, values': map<nat, Validation>,
                 pending: seq<(nat, bool)>)
    requires Ranked(nodes, rank) && StackInvariant(nodes, rank, values, pending) && pending != []
    requires values'.Keys == values.Keys + {pending[|pending| - 1].0}
    ensures StackInvariant(nodes, rank, values', pending[..|pending| - 1])
  {
    var rest := pending[..|pending| - 1];
    forall i: nat, c: nat | i < |rest| && rest[i].1 && Edge(nodes, rest[i].0, c)
      ensures c in values' || Awaited(rest, i + 1, c)
    {
      assert pending[i] == rest[i];
      if c !in values' {
        var j :| i + 1 <= j < |pending| && pending[j].0 == c;
        assert rest[j].0 == c;
      }
    }
  }

  lemma PushKeeps(nodes: seq<Node>, rank: seq<nat>, values: map<nat, Validation>, pending: seq<(nat, bool)>,
                  rest: seq<(nat, bool)>, id: nat, pushed: seq<(nat, bool)>)
    requires Ranked(nodes, rank) && StackInvariant(nodes, rank, values, pending)
    requires pending == rest + [(id, false)] && id < |nodes| && !nodes[id].Value?
    requires pushed == seq(|Children(nodes[id])|, k requires 0 <= k < |Children(nodes[id])| => (Children(nodes[id])[k], false))
    ensures StackInvariant(nodes, rank, values, rest + [(id, true)] + pushed)
  {
    var next := rest + [(id, true)] + pushed;
    var n := |rest|;
    forall j | n < j < |next|
      ensures next[j].0 < |nodes| && !next[j].1 && rank[next[j].0] < rank[id]
    {
      assert next[j] == pushed[j - n - 1];
      assert Edge(nodes, id, next[j].0);
    }
    forall i | 0 <= i < |next|
      ensures next[i].0 < |nodes| && (next[i].1 ==> !nodes[next[i].0].Value?)
    {
      if i < n {
        assert next[i] == pending[i];
      }
    }
    forall i, j | 0 <= i < j < |next| && next[i].1
      ensures rank[next[j].0] < rank[next[i].0]
    {
      if i < n {
        assert pending[i] == next[i] && rank[pending[n].0] < rank[pending[i].0];
        if j <= n { assert pending[j].0 == next[j].0; }
      }
    }
    forall i: nat, c: nat | i < |next| && next[i].1 && Edge(nodes, next[i].0, c)
      ensures c in values || Awaited(next, i + 1, c)
    {
      if i == n {
        var k :| 0 <= k < |pushed| && Children(nodes[id])[k] == c;
        assert pushed[k].0 == c;
        assert next[n + 1 + k].0 == c;
      } else if c !in values {
        assert pending[i] == next[i];
        var j :| i + 1 <= j < |pending| && pending[j].0 == c;
        assert next[j].0 == c;
      }
    }
  }

  /** The pushed node was not being finished, and is now. */
  lemma PushFinishes(nodes: seq<Node>, rank: seq<nat>, values: map<nat, Validation>, rest: seq<(nat, bool)>, id: nat,
                     pushed: seq<(nat, bool)>)
    requires Ranked(nodes, rank) && StackInvariant(nodes, rank, values, rest + [(id, false)])
    requires forall k :: 0 <= k < |pushed| ==> !pushed[k].1
    ensures Finishing(rest + [(id, true)] + pushed) == Finishing(rest) + {id}
    ensures id !in Finishing(rest)
  {
    var pending, next := rest + [(id, false)], rest + [(id, true)] + pushed;
    forall i | 0 <= i < |rest| && rest[i].1
      ensures rest[i].0 != id
    {
      assert pending[i] == rest[i] && pending[|rest|].0 == id;
    }
    forall x | x in Finishing(rest) + {id}
      ensures x in Finishing(next)
    {
      if x in Finishing(rest) {
        var i :| 0 <= i < |rest| && rest[i].1 && rest[i].0 == x;
        assert next[i] == rest[i];
      } else {
        assert next[|rest|] == (id, true);
      }
    }
  }

  /** The verdict combination of one node from the verdicts found so far. */
  method Combined(nodes: seq<Node>, id: nat, values: map<nat, Validation>) returns (verdict: Validation)
    requires Acyclic(nodes) && id < |nodes|
    requires forall k: nat :: k in values ==> k < |nodes| && values[k] == Eval(nodes, map[], k)
    requires !nodes[id].Value? ==> forall c: nat :: Edge(nodes, id, c) ==> c in values
    ensures verdict == Eval(nodes, map[], id)
  {
    EvalNode(nodes, map[], id);
    var node := nodes[id];
    if node.Value? {
      return node.value;
    }
    assert forall c :: c in node.children ==> Edge(nodes, id, c);
    var outcomes := set c | c in node.children :: if c in values then values[c] else Unknown;
    assert outcomes == Outcomes(nodes, map[], node.children);
    assert outcomes == outcomes + DueAt(map[], id);
    verdict := if node.Any? then Disj(outcomes) else Conj(outcomes);
  }

  /** What the fold keeps: the verdicts found are right, and the root is found or still awaited. */
  ghost predicate Folding(nodes: seq<Node>, rank: seq<nat>, root: nat, values: map<nat, Validation>, pending: seq<(nat, bool)>) {
    && Acyclic(nodes) && Ranked(nodes, rank) && StackInvariant(nodes, rank, values, pending)
    && (forall k: nat :: k in values ==> k < |nodes| && values[k] == Eval(nodes, map[], k))
    && (root in values || Awaited(pending, 0, root))
  }

  lemma FinishingTop(rest: seq<(nat, bool)>, id: nat, finish: bool)
    ensures Finishing(rest + [(id, finish)]) == Finishing(rest) + if finish then {id} else {}
  {
    var pending := rest + [(id, finish)];
    assert pending[|rest|] == (id, finish);
    forall x | x in Finishing(rest)
      ensures x in Finishing(pending)
    {
      var i :| 0 <= i < |rest| && rest[i].1 && rest[i].0 == x;
      assert pending[i] == rest[i];
    }
  }

  lemma PopFolds(nodes: seq<Node>, rank: seq<nat>, root: nat, values: map<nat, Validation>, values': map<nat, Validation>,
                 pending: seq<(nat, bool)>)
    requires Folding(nodes, rank, root, values, pending) && pending != []
    requires values'.Keys == values.Keys + {pending[|pending| - 1].0}
    requires forall k: nat :: k in values' ==> k < |nodes| && values'[k] == Eval(nodes, map[], k)
    ensures Folding(nodes, rank, root, values', pending[..|pending| - 1])
  {
    PopKeeps(nodes, rank, values, values', pending);
    if root !in values' {
      var j :| 0 <= j < |pending| && pending[j].0 == root;
      assert pending[..|pending| - 1][j].0 == root;
    }
  }

  lemma PushFolds(nodes: seq<Node>, rank: seq<nat>, root: nat, values: map<nat, Validation>, pending: seq<(nat, bool)>,
                  rest: seq<(nat, bool)>, id: nat, pushed: seq<(nat, bool)>)
    requires Folding(nodes, rank, root, values, pending)
    requires pending == rest + [(id, false)] && id < |nodes| && !nodes[id].Value?
    requires pushed == seq(|Children(nodes[id])|, k requires 0 <= k < |Children(nodes[id])| => (Children(nodes[id])[k], false))
    ensures Folding(nodes, rank, root, values, rest + [(id, true)] + pushed)
  {
    PushKeeps(nodes, rank, values, pending, rest, id, pushed);
    if root !in values {
      var j :| 0 <= j < |pending| && pending[j].0 == root;
      assert (rest + [(id, true)] + pushed)[j].0 == root;
    }
  }

  lemma ChildrenKnown(nodes: seq<Node>, rank: seq<nat>, root: nat, values: map<nat, Validation>, rest: seq<(nat, bool)>, id: nat)
    requires Folding(nodes, rank, root, values, rest + [(id, true)])
    ensures forall c: nat :: Edge(nodes, id, c) ==> c in values
  {
    var pending := rest + [(id, true)];
    forall c: nat | Edge(nodes, id, c)
      ensures c in values
    {
      assert pending[|rest|] == (id, true);
      assert !Awaited(pending, |rest| + 1, c);
    }
  }

  /** The explicit-stack fold computes the recursive verdict on every acyclic arena, shared nodes
      included, and terminates. */
  method Fold(nodes: seq<Node>, root: nat) returns (verdict: Validation)
    requires Acyclic(nodes) && root < |nodes|
    ensures verdict == Eval(nodes, map[], root)
  {
    ghost var rank := RankOf(nodes);
    var values: map<nat, Validation> := map[];
    var pending: seq<(nat, bool)> := [(root, false)];
    assert pending[0].0 == root;
    while pending != []
      invariant Folding(nodes, rank, root, values, pending)
      decreases IdsBelow(|nodes|) - values.Keys - Finishing(pending), |pending|
    {
      var (id, finish) := pending[|pending| - 1];
      var rest := pending[..|pending| - 1];
      assert pending == rest + [(id, finish)];
      FinishingTop(rest, id, finish);
      if id in values {
        PopFolds(nodes, rank, root, values, values, pending);
        pending := rest;
      } else if !nodes[id].Value? && !finish {
        var children := Children(nodes[id]);
        var pushed := seq(|children|, k requires 0 <= k < |children| => (children[k], false));
        PushFinishes(nodes, rank, values, rest, id, pushed);
        PushFolds(nodes, rank, root, values, pending, rest, id, pushed);
        pending := rest + [(id, true)] + pushed;
        assert id in IdsBelow(|nodes|);
      } else {
        if !nodes[id].Value? {
          ChildrenKnown(nodes, rank, root, values, rest, id);
        }
        var verdict := Combined(nodes, id, values);
        PopFolds(nodes, rank, root, values, values[id := verdict], pending);
        values, pending := values[id := verdict], rest;
      }
    }
    verdict := if root in values then values[root] else Unknown;
  }
}
