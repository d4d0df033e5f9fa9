/** A complete run of the entry-scope machine answers the recursive verdict. While it runs, every
    unfinished task owes its target the verdict of what it still has to write. */
module TemplateSoundness {
  import opened Kleene
  import opened Arena
  import opened Options
  import opened TemplateScope
  import opened TemplateMeaning

  // ----- What unfinished tasks owe -----

  datatype Goal = Callee(key: StateKey, target: nat) | Rest(cursor: Cursor) | Leaving(key: StateKey)

  function GoalOf(task: Task): Goal {
    match task
    case Call(key, target) => Callee(key, target)
    case Exit(key) => Leaving(key)
    case Block(program, block, schema, key, target) => Rest(Running(program, block, 0, schema, key, target, false))
  }

  function Goals(work: seq<Task>): seq<Goal> {
    seq(|work|, k requires 0 <= k < |work| => GoalOf(work[k]))
  }

  /** The stack of goals: the tasks, and on top of them the block being run. */
  function Pending(work: seq<Task>, cursor: Cursor): seq<Goal> {
    Goals(work) + if cursor.Running? then [Rest(cursor)] else []
  }

  /** The node a goal writes to; a call being left writes the value of its own body. */
  function TargetOf(memo: map<StateKey, nat>, goal: Goal): nat {
    match goal
    case Callee(_, target) => target
    case Rest(cursor) => if cursor.Running? then cursor.target else 0
    case Leaving(key) => if key in memo then memo[key] else 0
  }

  ghost predicate Means(facts: Facts, goal: Goal, verdict: Validation) {
    match goal
    case Callee(key, _) => CallMeans(facts, key, verdict)
    case Rest(cursor) => cursor.Running? && RestMeans(facts, cursor, verdict)
    case Leaving(_) => false
  }

  /** The goal's verdict, if it has one; only then does a run that works it off come to an end. */
  ghost predicate Defined(facts: Facts, goal: Goal) {
    goal.Leaving? || exists verdict :: Means(facts, goal, verdict)
  }

  ghost predicate AllDefined(facts: Facts, goals: seq<Goal>, from: nat) {
    forall k :: from <= k < |goals| ==> Defined(facts, goals[k])
  }

  /** What a goal owes a node. */
  ghost function Share(facts: Facts, goal: Goal, id: nat): Validation {
    if !goal.Leaving? && TargetOf(map[], goal) == id && Defined(facts, goal) then
      var verdict :| Means(facts, goal, verdict);
      verdict
    else Valid
  }

  lemma ShareIs(facts: Facts, goal: Goal, verdict: Validation)
    requires Means(facts, goal, verdict)
    ensures Share(facts, goal, TargetOf(map[], goal)) == verdict
  {
    var chosen := Share(facts, goal, TargetOf(map[], goal));
    assert Means(facts, goal, chosen);
    match goal
    case Callee(key, _) => CallMeansOnce(facts, key, chosen, verdict);
    case Rest(cursor) => RestMeansOnce(facts, cursor, chosen, verdict);
  }

  ghost function Owed(facts: Facts, goals: seq<Goal>, id: nat): Validation {
    if goals == [] then Valid
    else Both(Owed(facts, goals[..|goals| - 1], id), Share(facts, goals[|goals| - 1], id))
  }

  lemma {:induction false} OwedSplits(facts: Facts, goals: seq<Goal>, more: seq<Goal>, id: nat)
    ensures Owed(facts, goals + more, id) == Both(Owed(facts, goals, id), Owed(facts, more, id))
    decreases more
  {
    if more == [] {
      assert goals + more == goals;
    } else {
      var all := goals + more;
      assert all[..|all| - 1] == goals + more[..|more| - 1] && all[|all| - 1] == more[|more| - 1];
      OwedSplits(facts, goals, more[..|more| - 1], id);
    }
  }

  lemma OwedOne(facts: Facts, goal: Goal, id: nat)
    ensures Owed(facts, [goal], id) == Share(facts, goal, id)
  {
    assert [goal][..0] == [];
    assert Owed(facts, [], id) == Valid;
  }

  /** No goal writes to `id`. */
  ghost predicate Untouched(goals: seq<Goal>, id: nat) {
    forall goal :: goal in goals && !goal.Leaving? ==> TargetOf(map[], goal) != id
  }

  lemma {:induction false} NothingOwed(facts: Facts, goals: seq<Goal>, id: nat)
    requires Untouched(goals, id)
    ensures Owed(facts, goals, id) == Valid
    decreases goals
  {
    if goals != [] {
      var front := goals[..|goals| - 1];
      assert forall goal :: goal in front ==> goal in goals;
      assert goals[|goals| - 1] in goals;
      NothingOwed(facts, front, id);
    }
  }

  ghost function Due(facts: Facts, goals: seq<Goal>, size: nat): map<nat, Validation> {
    map id | id in IdsBelow(size) :: Owed(facts, goals, id)
  }

  /** The verdict a node will have when all goals are worked off. */
  ghost function Worth(facts: Facts, nodes: seq<Node>, goals: seq<Goal>, id: nat): Validation
    requires Acyclic(nodes) && id < |nodes|
  {
    Eval(nodes, Due(facts, goals, |nodes|), id)
  }

  ghost function Worths(facts: Facts, nodes: seq<Node>, goals: seq<Goal>, ids: seq<nat>): set<Validation>
    requires Acyclic(nodes) && forall c :: c in ids ==> c < |nodes|
  {
    Outcomes(nodes, Due(facts, goals, |nodes|), ids)
  }

  lemma WorthOfAll(facts: Facts, nodes: seq<Node>, goals: seq<Goal>, id: nat)
    requires Acyclic(nodes) && id < |nodes| && nodes[id].All?
    ensures forall c :: c in nodes[id].children ==> c < |nodes|
    ensures Worth(facts, nodes, goals, id) == Both(Conj(Worths(facts, nodes, goals, nodes[id].children)), Owed(facts, goals, id))
  {
    var due := Due(facts, goals, |nodes|);
    EvalNode(nodes, due, id);
    assert DueAt(due, id) == {Owed(facts, goals, id)};
    BothIsConj(Worths(facts, nodes, goals, nodes[id].children), Owed(facts, goals, id));
  }

  lemma BothIsConj(outcomes: set<Validation>, verdict: Validation)
    ensures Conj(outcomes + {verdict}) == Both(Conj(outcomes), verdict)
  {
  }

  lemma ConjSplits(xs: set<Validation>, ys: set<Validation>)
    ensures Conj(xs + ys) == Both(Conj(xs), Conj(ys))
  {
  }

  lemma WorthOfAny(facts: Facts, nodes: seq<Node>, goals: seq<Goal>, id: nat)
    requires Acyclic(nodes) && id < |nodes| && nodes[id].Any?
    ensures forall c :: c in nodes[id].children ==> c < |nodes|
    ensures Worth(facts, nodes, goals, id) == Disj(Worths(facts, nodes, goals, nodes[id].children))
  {
    EvalNode(nodes, Due(facts, goals, |nodes|), id);
  }

  lemma WorthOfValue(facts: Facts, nodes: seq<Node>, goals: seq<Goal>, id: nat)
    requires Acyclic(nodes) && id < |nodes| && nodes[id].Value?
    ensures Worth(facts, nodes, goals, id) == nodes[id].value
  {
    EvalNode(nodes, Due(facts, goals, |nodes|), id);
  }

  /** Nodes from `from` on and values are written by the same hands in both states. */
  ghost predicate SameFrom(facts: Facts, nodes: seq<Node>, goals: seq<Goal>, nodes': seq<Node>, goals': seq<Goal>, from: nat) {
    && |nodes| <= |nodes'|
    && forall i: nat :: i < |nodes| && (from <= i || nodes[i].Value?) ==>
         nodes'[i] == nodes[i] && (nodes[i].Value? || Owed(facts, goals', i) == Owed(facts, goals, i))
  }

  lemma WorthFrom(facts: Facts, nodes: seq<Node>, goals: seq<Goal>, nodes': seq<Node>, goals': seq<Goal>, from: nat, id: nat)
    requires Forward(nodes) && Acyclic(nodes) && Acyclic(nodes') && id < |nodes| && (from <= id || nodes[id].Value?)
    requires SameFrom(facts, nodes, goals, nodes', goals', from)
    ensures id < |nodes'| && Worth(facts, nodes', goals', id) == Worth(facts, nodes, goals, id)
  {
    YoungerOnly(nodes, Due(facts, goals, |nodes|), nodes', Due(facts, goals', |nodes'|), from, id);
  }

  // ----- The state of a complete run -----

  /** Coverage was not cut: what is recorded may be missing or recovered templates, but no verdict was
      given up for the budget or for recursion. */
  predicate Complete(limits: set<Limit>) {
    Nodes !in limits && RecursiveState !in limits
  }

  ghost predicate Stands(nodes: seq<Node>, memo: map<StateKey, nat>, goal: Goal) {
    && (goal.Leaving? ==> goal.key in memo) && (goal.Rest? ==> goal.cursor.Running?)
    && TargetOf(memo, goal) < |nodes| && nodes[TargetOf(memo, goal)].All?
  }

  /** Every goal writes to an open `All`, and goals below a call being left write to older nodes than its body. */
  ghost predicate Placed(nodes: seq<Node>, memo: map<StateKey, nat>, goals: seq<Goal>) {
    && (forall k :: 0 <= k < |goals| ==> Stands(nodes, memo, goals[k]))
    && (forall j, k :: 0 <= j < k < |goals| && goals[k].Leaving? ==> TargetOf(memo, goals[j]) < TargetOf(memo, goals[k]))
  }

  /** If every goal from `from` on has a verdict, so has the call, and its body will have the same. */
  ghost predicate Concludes(facts: Facts, nodes: seq<Node>, goals: seq<Goal>, from: nat, body: nat, key: StateKey) {
    && Acyclic(nodes) && body < |nodes|
    && (AllDefined(facts, goals, from) ==> CallMeans(facts, key, Worth(facts, nodes, goals, body)))
  }

  ghost predicate Framed(facts: Facts, nodes: seq<Node>, memo: map<StateKey, nat>, goals: seq<Goal>, from: nat) {
    forall k :: from <= k < |goals| && goals[k].Leaving? ==>
      Concludes(facts, nodes, goals, k + 1, TargetOf(memo, goals[k]), goals[k].key)
  }

  ghost predicate Remembers(facts: Facts, nodes: seq<Node>, key: StateKey, id: nat) {
    id < |nodes| && nodes[id].Value? && CallMeans(facts, key, nodes[id].value)
  }

  /** Bodies of calls that were left hold their verdicts. */
  ghost predicate MemoHolds(facts: Facts, nodes: seq<Node>, memo: map<StateKey, nat>, visiting: set<StateKey>) {
    forall key :: key in memo && key !in visiting ==> Remembers(facts, nodes, key, memo[key])
  }

  ghost predicate SharedHolds(facts: Facts, shared: Option<map<StateKey, ScopeMemo>>) {
    shared.Some? ==> forall key :: key in shared.value ==> CallMeans(facts, key, shared.value[key].value)
  }

  ghost predicate Settled(facts: Facts, root: StateKey, nodes: seq<Node>, memo: map<StateKey, nat>, goals: seq<Goal>) {
    && Forward(nodes) && Acyclic(nodes) && nodes != []
    && Placed(nodes, memo, goals) && Framed(facts, nodes, memo, goals, 0)
    && Concludes(facts, nodes, goals, 0, 0, root)
  }

  // ----- One goal worked off -----

  /** The top goal `goal` became the goals `more`; only its target changed among the old nodes. */
  ghost predicate Worked(nodes: seq<Node>, goal: Goal, nodes': seq<Node>, more: seq<Goal>, added: seq<nat>) {
    && Forward(nodes) && Acyclic(nodes) && Forward(nodes') && Acyclic(nodes')
    && !goal.Leaving? && Grown(nodes, nodes', TargetOf(map[], goal), added) && nodes[TargetOf(map[], goal)].All?
    && (forall c :: c in added ==> c < |nodes'|)
    && (forall g :: g in more && !g.Leaving? ==> TargetOf(map[], g) == TargetOf(map[], goal) || |nodes| <= TargetOf(map[], g))
  }

  /** What was written and what is still owed make up the verdict of the goal. */
  ghost predicate Pays(facts: Facts, goal: Goal, nodes': seq<Node>, goals': seq<Goal>, more: seq<Goal>, added: seq<nat>)
    requires Acyclic(nodes') && forall c :: c in added ==> c < |nodes'|
  {
    Means(facts, goal, Both(Conj(Worths(facts, nodes', goals', added)), Owed(facts, more, TargetOf(map[], goal))))
  }

  lemma OwedElsewhere(facts: Facts, nodes: seq<Node>, below: seq<Goal>, goal: Goal, nodes': seq<Node>, more: seq<Goal>,
                      added: seq<nat>, id: nat)
    requires Worked(nodes, goal, nodes', more, added) && id < |nodes| && id != TargetOf(map[], goal)
    ensures Owed(facts, below + more, id) == Owed(facts, below + [goal], id)
  {
    OwedSplits(facts, below, more, id);
    OwedSplits(facts, below, [goal], id);
    NothingOwed(facts, more, id);
    NothingOwed(facts, [goal], id);
  }

  /** The target's own verdict stays what it was going to be. */
  lemma TargetPaid(facts: Facts, nodes: seq<Node>, below: seq<Goal>, goal: Goal, nodes': seq<Node>, more: seq<Goal>,
                   added: seq<nat>)
    requires Worked(nodes, goal, nodes', more, added) && Pays(facts, goal, nodes', below + more, more, added)
    ensures Worth(facts, nodes', below + more, TargetOf(map[], goal)) == Worth(facts, nodes, below + [goal], TargetOf(map[], goal))
  {
    var t, goals, goals' := TargetOf(map[], goal), below + [goal], below + more;
    var children := nodes[t].children;
    WorthOfAll(facts, nodes, goals, t);
    WorthOfAll(facts, nodes', goals', t);
    forall i: nat | i < |nodes| && (t + 1 <= i || nodes[i].Value?)
      ensures nodes'[i] == nodes[i] && Owed(facts, goals', i) == Owed(facts, goals, i)
    {
      OwedElsewhere(facts, nodes, below, goal, nodes', more, added, i);
    }
    forall c | c in children
      ensures Worth(facts, nodes', goals', c) == Worth(facts, nodes, goals, c)
    {
      assert Edge(nodes, t, c);
      WorthFrom(facts, nodes, goals, nodes', goals', t + 1, c);
    }
    assert Worths(facts, nodes', goals', children + added) ==
           Worths(facts, nodes, goals, children) + Worths(facts, nodes', goals', added);
    ConjSplits(Worths(facts, nodes, goals, children), Worths(facts, nodes', goals', added));
    OwedSplits(facts, below, more, t);
    OwedSplits(facts, below, [goal], t);
    OwedOne(facts, goal, t);
    ShareIs(facts, goal, Both(Conj(Worths(facts, nodes', goals', added)), Owed(facts, more, t)));
  }

  lemma WorthKept(facts: Facts, nodes: seq<Node>, below: seq<Goal>, goal: Goal, nodes': seq<Node>, more: seq<Goal>,
                  added: seq<nat>, id: nat)
    requires Worked(nodes, goal, nodes', more, added) && Pays(facts, goal, nodes', below + more, more, added) && id < |nodes|
    ensures Worth(facts, nodes', below + more, id) == Worth(facts, nodes, below + [goal], id)
  {
    var t := TargetOf(map[], goal);
    var due, due' := Due(facts, below + [goal], |nodes|), Due(facts, below + more, |nodes'|);
    TargetPaid(facts, nodes, below, goal, nodes', more, added);
    forall i: nat | i < |nodes| && i != t
      ensures nodes'[i] == nodes[i] && DueAt(due', i) == DueAt(due, i)
    {
      OwedElsewhere(facts, nodes, below, goal, nodes', more, added, i);
    }
    Transfer(Same, nodes, due, nodes', due', {t}, id);
  }

  /** A conclusion about older goals survives when the top goal is worked off. */
  lemma ConclusionKept(facts: Facts, nodes: seq<Node>, below: seq<Goal>, goal: Goal, nodes': seq<Node>, more: seq<Goal>,
                       added: seq<nat>, from: nat, body: nat, key: StateKey)
    requires Worked(nodes, goal, nodes', more, added) && from <= |below|
    requires AllDefined(facts, more, 0) ==> Pays(facts, goal, nodes', below + more, more, added)
    requires Concludes(facts, nodes, below + [goal], from, body, key)
    ensures Concludes(facts, nodes', below + more, from, body, key)
  {
    var goals, goals' := below + [goal], below + more;
    if AllDefined(facts, goals', from) {
      forall k | 0 <= k < |more|
        ensures Defined(facts, more[k])
      {
        assert more[k] == goals'[|below| + k];
      }
      forall k | from <= k < |goals|
        ensures Defined(facts, goals[k])
      {
        if k < |below| {
          assert goals[k] == goals'[k];
        }
      }
      WorthKept(facts, nodes, below, goal, nodes', more, added, body);
    }
  }

  /** Where the new goals stand. */
  ghost predicate Stacked(nodes: seq<Node>, nodes': seq<Node>, memo': map<StateKey, nat>, more: seq<Goal>) {
    && Placed(nodes', memo', more)
    && forall k :: 0 <= k < |more| && more[k].Leaving? ==> |nodes| <= TargetOf(memo', more[k])
  }

  lemma PlacedAfter(nodes: seq<Node>, memo: map<StateKey, nat>, below: seq<Goal>, goal: Goal, nodes': seq<Node>,
                    memo': map<StateKey, nat>, more: seq<Goal>, added: seq<nat>)
    requires Placed(nodes, memo, below + [goal]) && Worked(nodes, goal, nodes', more, added)
    requires Stacked(nodes, nodes', memo', more) && forall key :: key in memo ==> key in memo' && memo'[key] == memo[key]
    ensures Placed(nodes', memo', below + more)
    ensures forall k :: 0 <= k < |below| ==> TargetOf(memo', below[k]) == TargetOf(memo, below[k])
  {
    var goals, goals' := below + [goal], below + more;
    forall k | 0 <= k < |below|
      ensures TargetOf(memo', below[k]) == TargetOf(memo, below[k]) && Stands(nodes', memo', below[k])
      ensures TargetOf(memo, below[k]) < |nodes|
    {
      assert goals[k] == below[k] && Stands(nodes, memo, goals[k]);
    }
    forall k | 0 <= k < |goals'|
      ensures Stands(nodes', memo', goals'[k])
    {
      if k >= |below| {
        assert goals'[k] == more[k - |below|];
      }
    }
    forall j, k | 0 <= j < k < |goals'| && goals'[k].Leaving?
      ensures TargetOf(memo', goals'[j]) < TargetOf(memo', goals'[k])
    {
      if k < |below| {
        assert goals[j] == goals'[j] && goals[k] == goals'[k];
      } else if j < |below| {
        assert goals'[k] == more[k - |below|];
      } else {
        assert goals'[k] == more[k - |below|] && goals'[j] == more[j - |below|];
      }
    }
  }

  /** Working off the top goal keeps the state settled. */
  lemma StepSettles(facts: Facts, root: StateKey, nodes: seq<Node>, memo: map<StateKey, nat>, below: seq<Goal>, goal: Goal,
                    nodes': seq<Node>, memo': map<StateKey, nat>, more: seq<Goal>, added: seq<nat>)
    requires Settled(facts, root, nodes, memo, below + [goal]) && Worked(nodes, goal, nodes', more, added)
    requires AllDefined(facts, more, 0) ==> Pays(facts, goal, nodes', below + more, more, added)
    requires Stacked(nodes, nodes', memo', more) && forall key :: key in memo ==> key in memo' && memo'[key] == memo[key]
    requires Framed(facts, nodes', memo', below + more, |below|)
    ensures Settled(facts, root, nodes', memo', below + more)
  {
    var goals, goals' := below + [goal], below + more;
    PlacedAfter(nodes, memo, below, goal, nodes', memo', more, added);
    forall k | 0 <= k < |goals'| && goals'[k].Leaving?
      ensures Concludes(facts, nodes', goals', k + 1, TargetOf(memo', goals'[k]), goals'[k].key)
    {
      if k < |below| {
        assert goals[k] == goals'[k] == below[k];
        ConclusionKept(facts, nodes, below, goal, nodes', more, added, k + 1, TargetOf(memo, below[k]), below[k].key);
      }
    }
    ConclusionKept(facts, nodes, below, goal, nodes', more, added, 0, 0, root);
  }

  // ----- Leaving a call -----

  lemma OwedBelow(facts: Facts, nodes: seq<Node>, memo: map<StateKey, nat>, below: seq<Goal>, key: StateKey, id: nat)
    requires Placed(nodes, memo, below + [Leaving(key)]) && key in memo && memo[key] <= id
    ensures Owed(facts, below + [Leaving(key)], id) == Valid
  {
    var goals := below + [Leaving(key)];
    assert goals[|below|] == Leaving(key);
    forall goal | goal in goals && !goal.Leaving?
      ensures TargetOf(map[], goal) != id
    {
      var k :| 0 <= k < |goals| && goals[k] == goal;
      assert k < |below| && TargetOf(memo, goals[k]) < TargetOf(memo, goals[|below|]);
    }
    NothingOwed(facts, goals, id);
  }

  /** Where nothing is owed, the verdict to come is the verdict of the arena as it is. */
  lemma {:induction false} PaidUp(facts: Facts, nodes: seq<Node>, goals: seq<Goal>, from: nat, id: nat)
    requires Forward(nodes) && Acyclic(nodes) && id < |nodes| && (from <= id || nodes[id].Value?)
    requires forall i: nat :: from <= i < |nodes| ==> Owed(facts, goals, i) == Valid
    ensures Worth(facts, nodes, goals, id) == Eval(nodes, map[], id)
    decreases RankOf(nodes)[id]
  {
    var due := Due(facts, goals, |nodes|);
    EvalNode(nodes, due, id);
    EvalNode(nodes, map[], id);
    var children := Children(nodes[id]);
    assert Ranked(nodes, RankOf(nodes));
    forall c | c in children
      ensures c < |nodes| && Eval(nodes, due, c) == Eval(nodes, map[], c)
    {
      assert Edge(nodes, id, c);
      PaidUp(facts, nodes, goals, from, c);
    }
    assert Outcomes(nodes, due, children) == Outcomes(nodes, map[], children);
    if nodes[id].All? {
      assert DueAt(due, id) == {Valid};
    }
  }

  /** When a call is left, the fold of its body is its verdict. */
  lemma LeftMeans(facts: Facts, root: StateKey, nodes: seq<Node>, memo: map<StateKey, nat>, below: seq<Goal>, key: StateKey)
    requires Settled(facts, root, nodes, memo, below + [Leaving(key)])
    ensures key in memo && memo[key] < |nodes| && nodes[memo[key]].All?
    ensures Worth(facts, nodes, below + [Leaving(key)], memo[key]) == Eval(nodes, map[], memo[key])
    ensures CallMeans(facts, key, Eval(nodes, map[], memo[key]))
  {
    var goals := below + [Leaving(key)];
    assert goals[|below|] == Leaving(key) && Stands(nodes, memo, goals[|below|]);
    var body := memo[key];
    forall i: nat | body <= i < |nodes|
      ensures Owed(facts, goals, i) == Valid
    {
      OwedBelow(facts, nodes, memo, below, key, i);
    }
    PaidUp(facts, nodes, goals, body, body);
    assert AllDefined(facts, goals, |below| + 1);
  }

  lemma CollapsedForward(nodes: seq<Node>, body: nat, verdict: Validation)
    requires Forward(nodes) && body < |nodes|
    ensures Forward(nodes[body := Value(verdict)]) && Acyclic(nodes[body := Value(verdict)])
  {
    var nodes' := nodes[body := Value(verdict)];
    forall p: nat, c: nat | Edge(nodes', p, c)
      ensures c < |nodes'| && (p < c || nodes'[c].Value?)
    {
      assert Edge(nodes, p, c);
    }
    ForwardIsAcyclic(nodes');
  }

  lemma LeaveKeepsWorth(facts: Facts, nodes: seq<Node>, below: seq<Goal>, key: StateKey, body: nat, id: nat)
    requires Forward(nodes) && Acyclic(nodes) && body < |nodes| && id < |nodes|
    ensures var nodes' := nodes[body := Value(Worth(facts, nodes, below + [Leaving(key)], body))];
            Acyclic(nodes') && Worth(facts, nodes', below, id) == Worth(facts, nodes, below + [Leaving(key)], id)
  {
    var goals := below + [Leaving(key)];
    forall i: nat | i < |nodes|
      ensures Owed(facts, goals, i) == Owed(facts, below, i)
    {
      OwedSplits(facts, below, [Leaving(key)], i);
      NothingOwed(facts, [Leaving(key)], i);
    }
    assert Due(facts, goals, |nodes|) == Due(facts, below, |nodes|);
    CollapseKeeps(nodes, Due(facts, goals, |nodes|), body, id);
  }

  lemma LeaveConcludes(facts: Facts, nodes: seq<Node>, below: seq<Goal>, key: StateKey, body: nat, from: nat, other: nat,
                       caller: StateKey)
    requires Forward(nodes) && Acyclic(nodes) && body < |nodes| && from <= |below|
    requires Concludes(facts, nodes, below + [Leaving(key)], from, other, caller)
    ensures Concludes(facts, nodes[body := Value(Worth(facts, nodes, below + [Leaving(key)], body))], below, from, other, caller)
  {
    var goals := below + [Leaving(key)];
    LeaveKeepsWorth(facts, nodes, below, key, body, other);
    if AllDefined(facts, below, from) {
      forall k | from <= k < |goals|
        ensures Defined(facts, goals[k])
      {
        assert k < |below| ==> goals[k] == below[k];
      }
    }
  }

  /** Collapsing the body of a call that is left keeps the state settled. */
  lemma LeaveSettles(facts: Facts, root: StateKey, nodes: seq<Node>, memo: map<StateKey, nat>, below: seq<Goal>, key: StateKey)
    requires Settled(facts, root, nodes, memo, below + [Leaving(key)])
    ensures key in memo && memo[key] < |nodes|
    ensures CallMeans(facts, key, Eval(nodes, map[], memo[key]))
    ensures Settled(facts, root, nodes[memo[key] := Value(Eval(nodes, map[], memo[key]))], memo, below)
  {
    var goals := below + [Leaving(key)];
    LeftMeans(facts, root, nodes, memo, below, key);
    var body := memo[key];
    var nodes' := nodes[body := Value(Eval(nodes, map[], body))];
    CollapsedForward(nodes, body, Eval(nodes, map[], body));
    forall k | 0 <= k < |below|
      ensures goals[k] == below[k] && Stands(nodes', memo, below[k])
    {
      assert goals[k] == below[k] && Stands(nodes, memo, goals[k]);
      assert goals[|below|].Leaving? && TargetOf(memo, goals[k]) < TargetOf(memo, goals[|below|]);
    }
    forall k | 0 <= k < |below| && below[k].Leaving?
      ensures Concludes(facts, nodes', below, k + 1, TargetOf(memo, below[k]), below[k].key)
    {
      assert goals[k] == below[k];
      LeaveConcludes(facts, nodes, below, key, body, k + 1, TargetOf(memo, below[k]), below[k].key);
    }
    LeaveConcludes(facts, nodes, below, key, body, 0, 0, root);
  }

  // ----- One instruction -----

  /** The top of the stack is a block at work. */
  lemma PendingRuns(work: seq<Task>, cursor: Cursor)
    requires cursor.Running?
    ensures Pending(work, cursor) == Goals(work) + [Rest(cursor)]
  {
  }

  lemma GoalsSplit(work: seq<Task>, more: seq<Task>)
    ensures Goals(work + more) == Goals(work) + Goals(more)
  {
  }

  /** Tasks that write to open `All` nodes. */
  ghost predicate TasksStand(nodes: seq<Node>, tasks: seq<Task>) {
    forall task :: task in tasks ==> !task.Exit? && task.target < |nodes| && nodes[task.target].All?
  }

  lemma TasksStacked(nodes: seq<Node>, nodes': seq<Node>, memo: map<StateKey, nat>, tasks: seq<Task>, next: Cursor)
    requires TasksStand(nodes', tasks) && next.Running? && next.target < |nodes'| && nodes'[next.target].All?
    ensures Stacked(nodes, nodes', memo, Goals(tasks) + [Rest(next)])
  {
    var more := Goals(tasks) + [Rest(next)];
    forall k | 0 <= k < |more|
      ensures Stands(nodes', memo, more[k]) && !more[k].Leaving?
    {
      if k < |tasks| {
        assert tasks[k] in tasks && more[k] == GoalOf(tasks[k]);
      }
    }
  }

  /** The verdict that an instruction contributes at once, and through the tasks it leaves. */
  ghost predicate Contributes(facts: Facts, cursor: Cursor, instruction: Instruction, nodes': seq<Node>, goals': seq<Goal>,
                              tasks: seq<Task>, added: seq<nat>)
    requires Acyclic(nodes') && cursor.Running? && forall c :: c in added ==> c < |nodes'|
  {
    InstructionMeans(facts, cursor, instruction,
                     Both(Conj(Worths(facts, nodes', goals', added)), Owed(facts, Goals(tasks), cursor.target)))
  }

  lemma BothAssociates(x: Validation, y: Validation, z: Validation)
    ensures Both(Both(x, y), z) == Both(x, Both(y, z))
  {
  }

  lemma InstructionPays(facts: Facts, cursor: Cursor, instruction: Instruction, nodes': seq<Node>, goals': seq<Goal>,
                        tasks: seq<Task>, added: seq<nat>)
    requires Acyclic(nodes') && cursor.Running? && !AtEnd(cursor) && forall c :: c in added ==> c < |nodes'|
    requires instruction == Instructions(cursor.program, cursor.block)[cursor.index]
    requires Contributes(facts, cursor, instruction, nodes', goals', tasks, added)
    requires Defined(facts, Rest(After(facts, cursor, instruction)))
    ensures Pays(facts, Rest(cursor), nodes', goals', Goals(tasks) + [Rest(After(facts, cursor, instruction))], added)
  {
    var next := After(facts, cursor, instruction);
    var w :| Means(facts, Rest(next), w);
    var x, y := Conj(Worths(facts, nodes', goals', added)), Owed(facts, Goals(tasks), cursor.target);
    ShareIs(facts, Rest(next), w);
    OwedOne(facts, Rest(next), cursor.target);
    OwedSplits(facts, Goals(tasks), [Rest(next)], cursor.target);
    StepMeans(facts, cursor, instruction, Both(x, y), w);
    BothAssociates(x, y, w);
  }

  lemma InstructionSettles(facts: Facts, root: StateKey, nodes: seq<Node>, memo: map<StateKey, nat>, work: seq<Task>,
                           cursor: Cursor, instruction: Instruction, nodes': seq<Node>, tasks: seq<Task>, added: seq<nat>,
                           next: Cursor)
    requires cursor.Running? && !AtEnd(cursor) && instruction == Instructions(cursor.program, cursor.block)[cursor.index]
    requires Settled(facts, root, nodes, memo, Pending(work, cursor)) && next == After(facts, cursor, instruction)
    requires Worked(nodes, Rest(cursor), nodes', Goals(tasks) + [Rest(next)], added) && TasksStand(nodes', tasks)
    requires AllDefined(facts, Goals(tasks), 0) ==>
               Contributes(facts, cursor, instruction, nodes', Pending(work + tasks, next), tasks, added)
    ensures Settled(facts, root, nodes', memo, Pending(work + tasks, next))
  {
    var more := Goals(tasks) + [Rest(next)];
    PendingRuns(work, cursor);
    PendingRuns(work + tasks, next);
    GoalsSplit(work, tasks);
    assert Goals(work) + Goals(tasks) + [Rest(next)] == Goals(work) + more;
    TasksStacked(nodes, nodes', memo, tasks, next);
    if AllDefined(facts, more, 0) {
      forall k | 0 <= k < |tasks|
        ensures Defined(facts, Goals(tasks)[k])
      {
        assert more[k] == Goals(tasks)[k];
      }
      assert more[|tasks|] == Rest(next);
      InstructionPays(facts, cursor, instruction, nodes', Goals(work) + more, tasks, added);
    }
    forall k | |work| <= k < |Goals(work) + more|
      ensures !(Goals(work) + more)[k].Leaving?
    {
      var goal := (Goals(work) + more)[k];
      assert goal == more[k - |work|];
      assert k - |work| < |tasks| ==> tasks[k - |work|] in tasks;
    }
    StepSettles(facts, root, nodes, memo, Goals(work), Rest(cursor), nodes', memo, more, added);
  }

  lemma WorkedAll(nodes: seq<Node>, cursor: Cursor, nodes': seq<Node>, tasks: seq<Task>, next: Cursor, added: seq<nat>)
    requires cursor.Running? && next.Running? && next.target == cursor.target
    requires Forward(nodes) && Forward(nodes') && cursor.target < |nodes| && nodes[cursor.target].All?
    requires Grown(nodes, nodes', cursor.target, added) && forall c :: c in added ==> c < |nodes'|
    requires forall task :: task in tasks && !task.Exit? ==> task.target == cursor.target || |nodes| <= task.target
    ensures Worked(nodes, Rest(cursor), nodes', Goals(tasks) + [Rest(next)], added)
  {
    ForwardIsAcyclic(nodes);
    ForwardIsAcyclic(nodes');
    forall g | g in Goals(tasks) + [Rest(next)] && !g.Leaving?
      ensures TargetOf(map[], g) == cursor.target || |nodes| <= TargetOf(map[], g)
    {
      if g != Rest(next) {
        var k :| 0 <= k < |tasks| && Goals(tasks)[k] == g;
        assert tasks[k] in tasks;
      }
    }
  }

  lemma TopStands(facts: Facts, root: StateKey, nodes: seq<Node>, memo: map<StateKey, nat>, below: seq<Goal>, goal: Goal)
    requires Settled(facts, root, nodes, memo, below + [goal])
    ensures Stands(nodes, memo, goal)
  {
    assert (below + [goal])[|below|] == goal;
  }

  /** An instruction that writes no node. */
  lemma SilentSettles(facts: Facts, root: StateKey, nodes: seq<Node>, memo: map<StateKey, nat>, work: seq<Task>,
                      cursor: Cursor, instruction: Instruction, tasks: seq<Task>)
    requires cursor.Running? && !AtEnd(cursor) && instruction == Instructions(cursor.program, cursor.block)[cursor.index]
    requires Settled(facts, root, nodes, memo, Pending(work, cursor))
    requires forall task :: task in tasks ==> task.Block? && task.target == cursor.target
    requires AllDefined(facts, Goals(tasks), 0) ==>
               InstructionMeans(facts, cursor, instruction, Owed(facts, Goals(tasks), cursor.target))
    ensures Settled(facts, root, nodes, memo, Pending(work + tasks, After(facts, cursor, instruction)))
  {
    var next := After(facts, cursor, instruction);
    PendingRuns(work, cursor);
    TopStands(facts, root, nodes, memo, Goals(work), Rest(cursor));
    assert nodes[cursor.target].children + [] == nodes[cursor.target].children;
    WorkedAll(nodes, cursor, nodes, tasks, next, []);
    assert Worths(facts, nodes, Pending(work + tasks, next), []) == {};
    InstructionSettles(facts, root, nodes, memo, work, cursor, instruction, nodes, tasks, [], next);
  }

  /** An instruction that leaves its block open. */
  lemma OpenSettles(facts: Facts, root: StateKey, nodes: seq<Node>, memo: map<StateKey, nat>, work: seq<Task>,
                    cursor: Cursor, instruction: Instruction)
    requires cursor.Running? && !AtEnd(cursor) && instruction == Instructions(cursor.program, cursor.block)[cursor.index]
    requires Settled(facts, root, nodes, memo, Pending(work, cursor)) && cursor.target < |nodes|
    requires InstructionMeans(facts, cursor, instruction, Unknown)
    ensures Settled(facts, root, Add(nodes, cursor.target, Value(Unknown)), memo, Pending(work, After(facts, cursor, instruction)))
  {
    var next := After(facts, cursor, instruction);
    var nodes' := Add(nodes, cursor.target, Value(Unknown));
    PendingRuns(work, cursor);
    TopStands(facts, root, nodes, memo, Goals(work), Rest(cursor));
    AddKeepsForward(nodes, cursor.target, Value(Unknown));
    WorkedAll(nodes, cursor, nodes', [], next, [|nodes|]);
    assert work + [] == work;
    WorthOfValue(facts, nodes', Pending(work, next), |nodes|);
    assert Worths(facts, nodes', Pending(work, next), [|nodes|]) == {Unknown};
    InstructionSettles(facts, root, nodes, memo, work, cursor, instruction, nodes', [], [|nodes|], next);
  }

  lemma TakenSettles(facts: Facts, root: StateKey, nodes: seq<Node>, memo: map<StateKey, nat>, work: seq<Task>,
                     cursor: Cursor, instruction: Instruction)
    requires cursor.Running? && !AtEnd(cursor) && instruction == Instructions(cursor.program, cursor.block)[cursor.index]
    requires Settled(facts, root, nodes, memo, Pending(work, cursor)) && Taken(facts, cursor.key, instruction)
    ensures Settled(facts, root, nodes, memo,
                    Pending(work + [Block(cursor.program, instruction.block, cursor.schema, cursor.key, cursor.target)],
                            After(facts, cursor, instruction)))
  {
    var task := Block(cursor.program, instruction.block, cursor.schema, cursor.key, cursor.target);
    var goal := GoalOf(task);
    assert Goals([task]) == [goal];
    if AllDefined(facts, Goals([task]), 0) {
      assert Defined(facts, Goals([task])[0]);
      var verdict :| Means(facts, goal, verdict);
      ShareIs(facts, goal, verdict);
      OwedOne(facts, goal, cursor.target);
      TakenMeans(facts, cursor, instruction, verdict);
    }
    SilentSettles(facts, root, nodes, memo, work, cursor, instruction, [task]);
  }

  /** A verdict without fuel for the instructions that need none. */
  lemma PlainMeans(facts: Facts, cursor: Cursor, instruction: Instruction)
    requires cursor.Running?
    ensures instruction.Recover? ==> InstructionMeans(facts, cursor, instruction, Unknown)
    ensures instruction.Consume? ==>
              InstructionMeans(facts, cursor, instruction,
                               if facts.text(instruction.token, cursor.key.values).None? then Unknown else Valid)
    ensures instruction.When? && !Taken(facts, cursor.key, instruction) ==> InstructionMeans(facts, cursor, instruction, Valid)
    ensures instruction.Dispatch? && (cursor.uncertain || facts.text(instruction.key, cursor.key.values).None?) ==>
              InstructionMeans(facts, cursor, instruction, Unknown)
    ensures instruction.Dispatch? && !cursor.uncertain && facts.text(instruction.key, cursor.key.values).Some?
            && facts.candidates(cursor.schema, facts.text(instruction.key, cursor.key.values).value,
                                instruction.operand.BlockOperand?) == [] ==>
              InstructionMeans(facts, cursor, instruction, Valid)
  {
    assert InstructionVerdict(facts, 0, cursor.(target := 0), instruction).Some? ==>
             InstructionMeans(facts, cursor, instruction,
                              InstructionVerdict(facts, 0, cursor.(target := 0), instruction).value);
  }
}
