/** The field alternatives of a property: what a dispatch writes, and what its tasks still owe. */
module TemplateDispatch {
  import opened Kleene
  import opened Arena
  import opened Options
  import opened TemplateScope
  import opened TemplateMeaning
  import opened TemplateSoundness

  /** The alternatives node and the tasks left on its rows so far. */
  ghost predicate Rows(nodes: seq<Node>, tasks: seq<Task>, alternatives: nat) {
    && Forward(nodes) && Acyclic(nodes) && alternatives < |nodes| && nodes[alternatives].Any?
    && TasksStand(nodes, tasks) && forall task :: task in tasks ==> alternatives < task.target
  }

  ghost function RowWorths(facts: Facts, nodes: seq<Node>, tasks: seq<Task>, alternatives: nat): set<Validation>
    requires Rows(nodes, tasks, alternatives)
  {
    EvalNode(nodes, map[], alternatives);
    Worths(facts, nodes, Goals(tasks), nodes[alternatives].children)
  }

  function WithField(nodes: seq<Node>, alternatives: nat, leaf: Validation): seq<Node>
    requires alternatives < |nodes|
  {
    Add(Add(nodes, alternatives, All([])), |nodes|, Value(leaf))
  }

  lemma FieldNodes(nodes: seq<Node>, alternatives: nat, leaf: Validation)
    requires Forward(nodes) && alternatives < |nodes| && nodes[alternatives].Any?
    ensures var nodes', row := WithField(nodes, alternatives, leaf), |nodes|;
            && Forward(nodes') && Acyclic(nodes') && |nodes'| == row + 2
            && nodes'[alternatives] == Any(nodes[alternatives].children + [row])
            && nodes'[row] == All([row + 1]) && nodes'[row + 1] == Value(leaf)
            && forall i :: 0 <= i < row && i != alternatives ==> nodes'[i] == nodes[i]
  {
    AddKeepsForward(nodes, alternatives, All([]));
    AddKeepsForward(Add(nodes, alternatives, All([])), |nodes|, Value(leaf));
    ForwardIsAcyclic(WithField(nodes, alternatives, leaf));
    assert [] + [|nodes| + 1] == [|nodes| + 1];
  }

  /** Tasks on one row. */
  predicate OnRow(more: seq<Task>, row: nat) {
    forall task :: task in more ==> !task.Exit? && task.target == row
  }

  lemma TasksTarget(tasks: seq<Task>, goal: Goal) returns (task: Task)
    requires goal in Goals(tasks)
    ensures task in tasks && GoalOf(task) == goal
  {
    var k :| 0 <= k < |tasks| && Goals(tasks)[k] == goal;
    task := tasks[k];
  }

  lemma OwedByOthers(facts: Facts, tasks: seq<Task>, id: nat)
    requires forall task :: task in tasks && !task.Exit? ==> task.target != id
    ensures Owed(facts, Goals(tasks), id) == Valid
  {
    forall goal | goal in Goals(tasks) && !goal.Leaving?
      ensures TargetOf(map[], goal) != id
    {
      var task := TasksTarget(tasks, goal);
    }
    NothingOwed(facts, Goals(tasks), id);
  }

  lemma OwedMore(facts: Facts, tasks: seq<Task>, more: seq<Task>, id: nat)
    ensures Owed(facts, Goals(tasks + more), id) == Both(Owed(facts, Goals(tasks), id), Owed(facts, Goals(more), id))
  {
    GoalsSplit(tasks, more);
    OwedSplits(facts, Goals(tasks), Goals(more), id);
  }

  /** The worth of a new row. */
  lemma RowWorth(facts: Facts, nodes: seq<Node>, tasks: seq<Task>, alternatives: nat, leaf: Validation, more: seq<Task>)
    requires Rows(nodes, tasks, alternatives) && OnRow(more, |nodes|)
    ensures var nodes' := WithField(nodes, alternatives, leaf);
            && Acyclic(nodes')
            && Worth(facts, nodes', Goals(tasks + more), |nodes|) == Both(leaf, Owed(facts, Goals(more), |nodes|))
  {
    var row := |nodes|;
    var nodes' := WithField(nodes, alternatives, leaf);
    FieldNodes(nodes, alternatives, leaf);
    WorthOfAll(facts, nodes', Goals(tasks + more), row);
    WorthOfValue(facts, nodes', Goals(tasks + more), row + 1);
    assert Worths(facts, nodes', Goals(tasks + more), [row + 1]) == {leaf};
    OwedMore(facts, tasks, more, row);
    OwedByOthers(facts, tasks, row);
  }

  /** The rows written before keep their worth. */
  lemma OldRows(facts: Facts, nodes: seq<Node>, tasks: seq<Task>, alternatives: nat, leaf: Validation, more: seq<Task>, row: nat)
    requires Rows(nodes, tasks, alternatives) && OnRow(more, |nodes|) && row in nodes[alternatives].children
    ensures var nodes' := WithField(nodes, alternatives, leaf);
            row < |nodes| && Acyclic(nodes')
            && Worth(facts, nodes', Goals(tasks + more), row) == Worth(facts, nodes, Goals(tasks), row)
  {
    var nodes' := WithField(nodes, alternatives, leaf);
    FieldNodes(nodes, alternatives, leaf);
    assert Edge(nodes, alternatives, row);
    forall i: nat | i < |nodes| && (alternatives + 1 <= i || nodes[i].Value?)
      ensures nodes'[i] == nodes[i] && Owed(facts, Goals(tasks + more), i) == Owed(facts, Goals(tasks), i)
    {
      OwedMore(facts, tasks, more, i);
      OwedByOthers(facts, more, i);
    }
    WorthFrom(facts, nodes, Goals(tasks), nodes', Goals(tasks + more), alternatives + 1, row);
  }

  /** One more row adds the worth of that row, and changes no other. */
  lemma RowAdded(facts: Facts, nodes: seq<Node>, tasks: seq<Task>, alternatives: nat, leaf: Validation, more: seq<Task>)
    requires Rows(nodes, tasks, alternatives) && OnRow(more, |nodes|)
    ensures var nodes' := WithField(nodes, alternatives, leaf);
            && Rows(nodes', tasks + more, alternatives)
            && RowWorths(facts, nodes', tasks + more, alternatives)
            == RowWorths(facts, nodes, tasks, alternatives) + {Both(leaf, Owed(facts, Goals(more), |nodes|))}
  {
    var nodes', row := WithField(nodes, alternatives, leaf), |nodes|;
    FieldNodes(nodes, alternatives, leaf);
    assert Rows(nodes', tasks + more, alternatives);
    var children := nodes[alternatives].children;
    forall c | c in children
      ensures c < |nodes| && Worth(facts, nodes', Goals(tasks + more), c) == Worth(facts, nodes, Goals(tasks), c)
    {
      OldRows(facts, nodes, tasks, alternatives, leaf, more, c);
    }
    RowWorth(facts, nodes, tasks, alternatives, leaf, more);
    assert Worths(facts, nodes', Goals(tasks + more), children + [row])
        == Worths(facts, nodes, Goals(tasks), children) + {Worth(facts, nodes', Goals(tasks + more), row)};
  }

  /** The task that a field leaves on its row. */
  ghost predicate FieldLeft(solver: Solver, next: Solver, alternatives: nat, leaf: Validation, more: seq<Task>)
    requires alternatives < |solver.nodes|
  {
    && next.nodes == WithField(solver.nodes, alternatives, leaf) && next.work == solver.work + more
    && OnRow(more, |solver.nodes|) && solver.limits <= next.limits
    && next == solver.(nodes := next.nodes, work := next.work, remaining := next.remaining, limits := next.limits)
  }

  lemma OneOwed(facts: Facts, task: Task) returns (verdict: Validation)
    requires !task.Exit? && AllDefined(facts, Goals([task]), 0)
    ensures Means(facts, GoalOf(task), verdict) && Owed(facts, Goals([task]), task.target) == verdict
  {
    assert Goals([task]) == [GoalOf(task)] && Defined(facts, Goals([task])[0]);
    verdict :| Means(facts, GoalOf(task), verdict);
    ShareIs(facts, GoalOf(task), verdict);
    OwedOne(facts, GoalOf(task), task.target);
  }

  /** A field writes whether its scope is allowed, and leaves the task that decides the rest of it. */
  lemma FieldPays(facts: Facts, solver: Solver, cursor: Cursor, operand: Operand, spelling: nat, alternatives: nat, field: nat)
    returns (more: seq<Task>)
    requires cursor.Running? && alternatives < |solver.nodes|
    ensures var next := FieldStep(facts, solver, cursor, operand, spelling, alternatives, field);
            var leaf := Allowed(facts, field, cursor.key, spelling);
            && FieldLeft(solver, next, alternatives, leaf, more)
            && (Nodes !in next.limits && AllDefined(facts, Goals(more), 0) ==>
                  FieldMeans(facts, cursor, operand, spelling, field, Both(leaf, Owed(facts, Goals(more), |solver.nodes|))))
  {
    var row, allowed := |solver.nodes|, Allowed(facts, field, cursor.key, spelling);
    var next := FieldStep(facts, solver, cursor, operand, spelling, alternatives, field);
    if allowed != Invalid && facts.callee(field).Some? {
      var kind := facts.callee(field).value;
      var arguments := CallArguments(facts, cursor, operand, solver.remaining);
      var task := Call(CalleeKey(facts, cursor, spelling, kind, arguments), row);
      more := [task];
      if Nodes !in next.limits && AllDefined(facts, Goals(more), 0) {
        var verdict := OneOwed(facts, task);
        CalleeMeans(facts, cursor, operand, spelling, field, kind, solver.remaining, verdict);
      }
    } else if allowed != Invalid && EntersChild(facts, cursor, operand, field) {
      var child := ChildCursor(facts, cursor, operand, spelling, field, row);
      var task := Block(child.program, child.block, child.schema, child.key, row);
      more := [task];
      if AllDefined(facts, Goals(more), 0) {
        var verdict := OneOwed(facts, task);
        ChildMeans(facts, cursor, operand, spelling, field, row, verdict);
      }
    } else {
      more := [];
      assert solver.work + [] == solver.work;
      assert FieldVerdict(facts, 0, cursor.(target := 0), operand, spelling, field) == Some(allowed);
    }
  }

  /** What the field loop leaves. */
  ghost predicate FieldsLeft(solver: Solver, next: Solver, alternatives: nat, tasks: seq<Task>, more: seq<Task>) {
    && alternatives < |solver.nodes| <= |next.nodes| && next.nodes[..alternatives] == solver.nodes[..alternatives]
    && Rows(next.nodes, tasks + more, alternatives) && next.work == solver.work + more && solver.limits <= next.limits
    && next == solver.(nodes := next.nodes, work := next.work, remaining := next.remaining, limits := next.limits)
  }

  /** If the tasks it left have verdicts, the field loop adds the verdicts of the fields. */
  ghost predicate FieldsPaid(facts: Facts, solver: Solver, next: Solver, cursor: Cursor, operand: Operand, spelling: nat,
                             alternatives: nat, fields: seq<nat>, tasks: seq<Task>, more: seq<Task>)
    requires cursor.Running? && Rows(solver.nodes, tasks, alternatives) && FieldsLeft(solver, next, alternatives, tasks, more)
  {
    Nodes !in next.limits && AllDefined(facts, Goals(more), 0) ==>
      exists verdicts :: FieldsMean(facts, cursor, operand, spelling, fields, verdicts)
        && RowWorths(facts, next.nodes, tasks + more, alternatives)
        == RowWorths(facts, solver.nodes, tasks, alternatives) + verdicts
  }

  lemma PartsDefined(facts: Facts, first: seq<Goal>, second: seq<Goal>)
    requires AllDefined(facts, first + second, 0)
    ensures AllDefined(facts, first, 0) && AllDefined(facts, second, 0)
  {
    var goals := first + second;
    forall k | 0 <= k < |first|
      ensures Defined(facts, first[k])
    {
      assert goals[k] == first[k];
    }
    forall k | 0 <= k < |second|
      ensures Defined(facts, second[k])
    {
      assert goals[|first| + k] == second[k];
    }
  }

  lemma DefinedParts(facts: Facts, first: seq<Task>, second: seq<Task>)
    requires AllDefined(facts, Goals(first + second), 0)
    ensures AllDefined(facts, Goals(first), 0) && AllDefined(facts, Goals(second), 0)
  {
    GoalsSplit(first, second);
    PartsDefined(facts, Goals(first), Goals(second));
  }

  lemma FieldsPayCons(facts: Facts, solver: Solver, middle: Solver, next: Solver, cursor: Cursor, operand: Operand,
                      spelling: nat, alternatives: nat, fields: seq<nat>, tasks: seq<Task>, first: seq<Task>, others: seq<Task>)
    requires cursor.Running? && fields != [] && Rows(solver.nodes, tasks, alternatives)
    requires FieldLeft(solver, middle, alternatives, Allowed(facts, fields[0], cursor.key, spelling), first)
    requires Nodes !in middle.limits && AllDefined(facts, Goals(first), 0) ==>
               FieldMeans(facts, cursor, operand, spelling, fields[0],
                          Both(Allowed(facts, fields[0], cursor.key, spelling), Owed(facts, Goals(first), |solver.nodes|)))
    requires Rows(middle.nodes, tasks + first, alternatives)
    requires FieldsLeft(middle, next, alternatives, tasks + first, others)
    requires FieldsPaid(facts, middle, next, cursor, operand, spelling, alternatives, fields[1..], tasks + first, others)
    ensures FieldsLeft(solver, next, alternatives, tasks, first + others)
    ensures FieldsPaid(facts, solver, next, cursor, operand, spelling, alternatives, fields, tasks, first + others)
  {
    assert tasks + first + others == tasks + (first + others);
    assert solver.work + first + others == solver.work + (first + others);
    var leaf := Allowed(facts, fields[0], cursor.key, spelling);
    RowAdded(facts, solver.nodes, tasks, alternatives, leaf, first);
    FieldNodes(solver.nodes, alternatives, leaf);
    assert middle.nodes[..alternatives] == solver.nodes[..alternatives];
    if Nodes !in next.limits && AllDefined(facts, Goals(first + others), 0) {
      DefinedParts(facts, first, others);
      var verdict := Both(leaf, Owed(facts, Goals(first), |solver.nodes|));
      var verdicts :| FieldsMean(facts, cursor, operand, spelling, fields[1..], verdicts)
        && RowWorths(facts, next.nodes, tasks + first + others, alternatives)
        == RowWorths(facts, middle.nodes, tasks + first, alternatives) + verdicts;
      FieldsMeanCons(facts, cursor, operand, spelling, fields, verdict, verdicts);
      assert RowWorths(facts, solver.nodes, tasks, alternatives) + {verdict} + verdicts
          == RowWorths(facts, solver.nodes, tasks, alternatives) + ({verdict} + verdicts);
    }
  }

  lemma {:induction false} FieldsPay(facts: Facts, solver: Solver, cursor: Cursor, operand: Operand, spelling: nat,
                                     alternatives: nat, fields: seq<nat>, tasks: seq<Task>) returns (more: seq<Task>)
    requires cursor.Running? && Rows(solver.nodes, tasks, alternatives)
    ensures var next := FieldSteps(facts, solver, cursor, operand, spelling, alternatives, fields);
            && FieldsLeft(solver, next, alternatives, tasks, more)
            && FieldsPaid(facts, solver, next, cursor, operand, spelling, alternatives, fields, tasks, more)
    decreases fields
  {
    if fields == [] {
      more := [];
      assert tasks + [] == tasks && solver.work + [] == solver.work;
      NoFieldsMean(facts, cursor, operand, spelling);
      assert RowWorths(facts, solver.nodes, tasks, alternatives) + {} == RowWorths(facts, solver.nodes, tasks, alternatives);
    } else {
      var middle := FieldStep(facts, solver, cursor, operand, spelling, alternatives, fields[0]);
      var first := FieldPays(facts, solver, cursor, operand, spelling, alternatives, fields[0]);
      RowAdded(facts, solver.nodes, tasks, alternatives, Allowed(facts, fields[0], cursor.key, spelling), first);
      var others := FieldsPay(facts, middle, cursor, operand, spelling, alternatives, fields[1..], tasks + first);
      more := first + others;
      FieldsPayCons(facts, solver, middle, FieldSteps(facts, solver, cursor, operand, spelling, alternatives, fields), cursor,
                    operand, spelling, alternatives, fields, tasks, first, others);
    }
  }

  // ----- The whole dispatch -----

  /** Within the whole stack the alternatives are worth what their own tasks make of them. */
  lemma LocalWorth(facts: Facts, nodes: seq<Node>, work: seq<Task>, tasks: seq<Task>, next: Cursor, alternatives: nat)
    requires next.Running? && next.target < alternatives && Rows(nodes, tasks, alternatives)
    requires forall goal :: goal in Goals(work) && !goal.Leaving? ==> TargetOf(map[], goal) < alternatives
    ensures Worth(facts, nodes, Pending(work + tasks, next), alternatives) == Worth(facts, nodes, Goals(tasks), alternatives)
  {
    var goals := Pending(work + tasks, next);
    forall i: nat | i < |nodes| && (alternatives <= i || nodes[i].Value?)
      ensures nodes[i].Value? || Owed(facts, goals, i) == Owed(facts, Goals(tasks), i)
    {
      if !nodes[i].Value? {
        PendingRuns(work + tasks, next);
        GoalsSplit(work, tasks);
        OwedSplits(facts, Goals(work) + Goals(tasks), [Rest(next)], i);
        OwedSplits(facts, Goals(work), Goals(tasks), i);
        NothingOwed(facts, Goals(work), i);
        NothingOwed(facts, [Rest(next)], i);
      }
    }
    WorthFrom(facts, nodes, Goals(tasks), nodes, goals, alternatives, alternatives);
  }

  lemma TargetsOld(nodes: seq<Node>, memo: map<StateKey, nat>, work: seq<Task>, cursor: Cursor)
    requires Placed(nodes, memo, Pending(work, cursor))
    ensures forall goal :: goal in Goals(work) && !goal.Leaving? ==> TargetOf(map[], goal) < |nodes|
  {
    forall goal | goal in Goals(work) && !goal.Leaving?
      ensures TargetOf(map[], goal) < |nodes|
    {
      var k :| 0 <= k < |work| && Goals(work)[k] == goal;
      assert Pending(work, cursor)[k] == goal && Stands(nodes, memo, goal);
    }
  }

  /** A dispatch that names fields keeps the state settled. */
  lemma DispatchSettles(facts: Facts, root: StateKey, solver: Solver, cursor: Cursor, key: nat, operand: Operand,
                        spelling: nat, fields: seq<nat>)
    returns (next: Solver)
    requires cursor.Running? && !AtEnd(cursor) && Dispatch(key, operand) == Instructions(cursor.program, cursor.block)[cursor.index]
    requires !cursor.uncertain && facts.text(key, cursor.key.values) == Some(spelling)
    requires fields == facts.candidates(cursor.schema, spelling, operand.BlockOperand?) && fields != []
    requires Settled(facts, root, solver.nodes, solver.memo, Pending(solver.work, cursor)) && cursor.target < |solver.nodes|
    ensures var after := After(facts, cursor, Dispatch(key, operand));
            var started := solver.(nodes := Add(solver.nodes, cursor.target, Any([])), cursor := after);
            && next == FieldSteps(facts, started, after, operand, spelling, |solver.nodes|, fields)
            && solver.limits <= next.limits
            && next == solver.(nodes := next.nodes, work := next.work, remaining := next.remaining, limits := next.limits, cursor := after)
            && (Nodes !in next.limits ==> Settled(facts, root, next.nodes, solver.memo, Pending(next.work, after)))
            && |solver.nodes| <= |next.nodes|
            && forall i :: 0 <= i < |solver.nodes| && i != cursor.target ==> next.nodes[i] == solver.nodes[i]
  {
    var nodes, a := solver.nodes, |solver.nodes|;
    var instruction := Dispatch(key, operand);
    var after := After(facts, cursor, instruction);
    var started := solver.(nodes := Add(nodes, cursor.target, Any([])), cursor := after);
    next := FieldSteps(facts, started, after, operand, spelling, a, fields);
    PendingRuns(solver.work, cursor);
    TopStands(facts, root, nodes, solver.memo, Goals(solver.work), Rest(cursor));
    AddKeepsForward(nodes, cursor.target, Any([]));
    ForwardIsAcyclic(started.nodes);
    var tasks := FieldsPay(facts, started, after, operand, spelling, a, fields, []);
    assert [] + tasks == tasks;
    assert forall i :: 0 <= i < a ==> next.nodes[i] == next.nodes[..a][i] == started.nodes[i];
    TargetsOld(nodes, solver.memo, solver.work, cursor);
    WorkedAll(nodes, cursor, next.nodes, tasks, after, [a]);
    if Nodes !in next.limits {
      if AllDefined(facts, Goals(tasks), 0) {
        DispatchPays(facts, started, next, cursor, after, key, operand, spelling, fields, solver.work, tasks);
      }
      InstructionSettles(facts, root, nodes, solver.memo, solver.work, cursor, instruction, next.nodes, tasks, [a], after);
    }
  }

  lemma DispatchPays(facts: Facts, started: Solver, next: Solver, cursor: Cursor, after: Cursor, key: nat, operand: Operand,
                     spelling: nat, fields: seq<nat>, work: seq<Task>, tasks: seq<Task>)
    requires cursor.Running? && started.nodes != [] && after == After(facts, cursor, Dispatch(key, operand))
    requires !cursor.uncertain && facts.text(key, cursor.key.values) == Some(spelling)
    requires fields == facts.candidates(cursor.schema, spelling, operand.BlockOperand?) && fields != []
    requires var a := |started.nodes| - 1;
             && Rows(started.nodes, [], a) && started.nodes[a] == Any([]) && cursor.target < a
             && FieldsLeft(started, next, a, [], tasks) && Nodes !in next.limits && AllDefined(facts, Goals(tasks), 0)
             && FieldsPaid(facts, started, next, after, operand, spelling, a, fields, [], tasks)
             && (forall goal :: goal in Goals(work) && !goal.Leaving? ==> TargetOf(map[], goal) < a)
    ensures Contributes(facts, cursor, Dispatch(key, operand), next.nodes, Pending(work + tasks, after), tasks, [|started.nodes| - 1])
  {
    var a := |started.nodes| - 1;
    assert [] + tasks == tasks;
    var verdicts :| FieldsMean(facts, after, operand, spelling, fields, verdicts)
      && RowWorths(facts, next.nodes, tasks, a) == RowWorths(facts, started.nodes, [], a) + verdicts;
    assert RowWorths(facts, started.nodes, [], a) == {};
    WorthOfAny(facts, next.nodes, Goals(tasks), a);
    LocalWorth(facts, next.nodes, work, tasks, after, a);
    assert Worths(facts, next.nodes, Pending(work + tasks, after), [a]) == {Disj(verdicts)};
    OwedByOthers(facts, tasks, cursor.target);
    SameFields(facts, cursor, after, operand, spelling, fields, verdicts);
    DispatchMeans(facts, cursor, key, operand, spelling, fields, verdicts);
  }

  /** The fields of a property do not depend on where in the block it stands. */
  lemma SameFields(facts: Facts, cursor: Cursor, after: Cursor, operand: Operand, spelling: nat, fields: seq<nat>,
                   verdicts: set<Validation>)
    requires cursor.Running? && after.Running? && after == cursor.(index := after.index, uncertain := after.uncertain)
    requires FieldsMean(facts, after, operand, spelling, fields, verdicts)
    ensures FieldsMean(facts, cursor, operand, spelling, fields, verdicts)
  {
    var fuel: nat :| FieldVerdicts(facts, fuel, after.(target := 0), operand, spelling, fields) == Some(verdicts);
    SameFieldVerdicts(facts, fuel, cursor.(target := 0), after.(target := 0), operand, spelling, fields);
  }

  lemma {:induction false} SameFieldVerdicts(facts: Facts, fuel: nat, cursor: Cursor, after: Cursor, operand: Operand,
                                             spelling: nat, fields: seq<nat>)
    requires cursor.Running? && after.Running? && after == cursor.(index := after.index, uncertain := after.uncertain)
    ensures FieldVerdicts(facts, fuel, after, operand, spelling, fields)
         == FieldVerdicts(facts, fuel, cursor, operand, spelling, fields)
    decreases fields
  {
    if fields != [] {
      assert FieldVerdict(facts, fuel, after, operand, spelling, fields[0]) == FieldVerdict(facts, fuel, cursor, operand, spelling, fields[0]);
      SameFieldVerdicts(facts, fuel, cursor, after, operand, spelling, fields[1..]);
    }
  }
}
