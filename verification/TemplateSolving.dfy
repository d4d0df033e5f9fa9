/** The entry-scope solver: every charged step keeps what unfinished tasks owe, so that a complete run
    answers the recursive verdict, and the task loop is that run. */
module TemplateSolving {
  import opened Kleene
  import opened Arena
  import opened Options
  import opened TemplateScope
  import opened TemplateMeaning
  import opened TemplateSoundness
  import opened TemplateDispatch

  /** What holds at every charge. A shared memo stays right in every run; the arena stands for the
      recursive verdict as long as nothing was given up for the budget or for recursion. */
  ghost predicate Sound(facts: Facts, root: StateKey, solver: Solver) {
    && SharedHolds(facts, solver.shared)
    && (Complete(solver.limits) ==>
          && Settled(facts, root, solver.nodes, solver.memo, Pending(solver.work, solver.cursor))
          && MemoHolds(facts, solver.nodes, solver.memo, solver.visiting))
  }

  // ----- Calls -----

  /** The memo outlives changes to open nodes. */
  lemma MemoKept(facts: Facts, nodes: seq<Node>, memo: map<StateKey, nat>, visiting: set<StateKey>, nodes': seq<Node>, target: nat)
    requires MemoHolds(facts, nodes, memo, visiting) && target < |nodes| <= |nodes'| && !nodes[target].Value?
    requires forall i :: 0 <= i < |nodes| && i != target ==> nodes'[i] == nodes[i]
    ensures MemoHolds(facts, nodes', memo, visiting)
  {
    forall key | key in memo && key !in visiting
      ensures Remembers(facts, nodes', key, memo[key])
    {
      assert Remembers(facts, nodes, key, memo[key]);
    }
  }

  /** A call whose verdict is known is worked off by one child. */
  lemma AnsweredSettles(facts: Facts, root: StateKey, nodes: seq<Node>, memo: map<StateKey, nat>, below: seq<Goal>,
                        key: StateKey, target: nat, nodes': seq<Node>, child: nat)
    requires Settled(facts, root, nodes, memo, below + [Callee(key, target)]) && Forward(nodes')
    requires Grown(nodes, nodes', target, [child]) && child < |nodes'| && nodes'[child].Value?
    requires CallMeans(facts, key, nodes'[child].value)
    ensures Settled(facts, root, nodes', memo, below)
  {
    var goal := Callee(key, target);
    TopStands(facts, root, nodes, memo, below, goal);
    ForwardIsAcyclic(nodes');
    assert below + [] == below;
    WorthOfValue(facts, nodes', below, child);
    assert Worths(facts, nodes', below, [child]) == {nodes'[child].value};
    StepSettles(facts, root, nodes, memo, below, goal, nodes', memo, [], [child]);
  }

  lemma TargetsBelow(nodes: seq<Node>, memo: map<StateKey, nat>, below: seq<Goal>, goal: Goal)
    requires Placed(nodes, memo, below + [goal])
    ensures Untouched(below, |nodes|)
  {
    forall g | g in below && !g.Leaving?
      ensures TargetOf(map[], g) != |nodes|
    {
      var k :| 0 <= k < |below| && below[k] == g;
      assert (below + [goal])[k] == g && Stands(nodes, memo, g);
    }
  }

  /** A new call owes its own body what its block will write, and is left behind that. */
  lemma BodySettles(facts: Facts, root: StateKey, nodes: seq<Node>, memo: map<StateKey, nat>, below: seq<Goal>, key: StateKey,
                    target: nat, definition: Definition)
    requires Settled(facts, root, nodes, memo, below + [Callee(key, target)]) && key !in memo && target < |nodes|
    requires facts.definition(key.kind, key.name) == Some(definition)
    ensures var block := Running(definition.program, 0, 0, definition.schema, key, |nodes|, false);
            Settled(facts, root, Add(nodes, target, All([])), memo[key := |nodes|], below + [Leaving(key), Rest(block)])
  {
    var goal, body := Callee(key, target), |nodes|;
    var block := Running(definition.program, 0, 0, definition.schema, key, body, false);
    var nodes', memo', more := Add(nodes, target, All([])), memo[key := body], [Leaving(key), Rest(block)];
    TopStands(facts, root, nodes, memo, below, goal);
    AddKeepsForward(nodes, target, All([]));
    ForwardIsAcyclic(nodes');
    assert Worked(nodes, goal, nodes', more, [body]);
    TargetsBelow(nodes, memo, below, goal);
    if Defined(facts, Rest(block)) {
      BodyWorth(facts, nodes', below, key, definition, body, target);
    }
    forall k | |below| <= k < |below + more| && (below + more)[k].Leaving?
      ensures Concludes(facts, nodes', below + more, k + 1, TargetOf(memo', (below + more)[k]), (below + more)[k].key)
    {
      assert k == |below| && (below + more)[k + 1] == Rest(block);
    }
    assert AllDefined(facts, more, 0) ==> Defined(facts, more[1]);
    StepSettles(facts, root, nodes, memo, below, goal, nodes', memo', more, [body]);
  }

  lemma BodyWorth(facts: Facts, nodes': seq<Node>, below: seq<Goal>, key: StateKey, definition: Definition, body: nat, target: nat)
    requires Acyclic(nodes') && body < |nodes'| && nodes'[body] == All([]) && target != body
    requires facts.definition(key.kind, key.name) == Some(definition)
    requires Defined(facts, Rest(Running(definition.program, 0, 0, definition.schema, key, body, false)))
    requires Untouched(below, body)
    ensures var more := [Leaving(key), Rest(Running(definition.program, 0, 0, definition.schema, key, body, false))];
            && CallMeans(facts, key, Worth(facts, nodes', below + more, body))
            && Pays(facts, Callee(key, target), nodes', below + more, more, [body])
  {
    var block := Rest(Running(definition.program, 0, 0, definition.schema, key, body, false));
    var more := [Leaving(key), block];
    var verdict :| Means(facts, block, verdict);
    ShareIs(facts, block, verdict);
    CallIsItsBody(facts, key, definition, body, verdict);
    WorthOfAll(facts, nodes', below + more, body);
    assert more == [Leaving(key)] + [block];
    OwedSplits(facts, below, more, body);
    OwedSplits(facts, [Leaving(key)], [block], body);
    OwedOne(facts, block, body);
    NothingOwed(facts, [Leaving(key)], body);
    NothingOwed(facts, below, body);
    NothingOwed(facts, more, target);
    assert Worths(facts, nodes', below + more, []) == {};
    assert Worths(facts, nodes', below + more, [body]) == {verdict};
  }

  lemma PendingIdle(work: seq<Task>)
    ensures Pending(work, Idle) == Goals(work)
  {
  }

  /** A call that is known already takes one value and leaves no task. */
  lemma KnownCallSound(facts: Facts, root: StateKey, solver: Solver, key: StateKey, target: nat, next: Solver, child: nat)
    requires solver.cursor.Idle? && SharedHolds(facts, solver.shared)
    requires MemoHolds(facts, solver.nodes, solver.memo, solver.visiting)
    requires Settled(facts, root, solver.nodes, solver.memo, Goals(solver.work) + [Callee(key, target)])
    requires next == solver.(nodes := next.nodes, limits := next.limits, conditions := next.conditions, dynamic := next.dynamic)
    requires Forward(next.nodes) && Grown(solver.nodes, next.nodes, target, [child])
    requires child < |next.nodes| && next.nodes[child].Value? && CallMeans(facts, key, next.nodes[child].value)
    ensures Sound(facts, root, next)
  {
    MemoKept(facts, solver.nodes, solver.memo, solver.visiting, next.nodes, target);
    AnsweredSettles(facts, root, solver.nodes, solver.memo, Goals(solver.work), key, target, next.nodes, child);
    PendingIdle(next.work);
  }

  lemma FreshCallSound(facts: Facts, root: StateKey, solver: Solver, key: StateKey, target: nat, definition: Definition)
    requires solver.cursor.Idle? && SharedHolds(facts, solver.shared) && target < |solver.nodes| && key !in solver.memo
    requires MemoHolds(facts, solver.nodes, solver.memo, solver.visiting)
    requires Settled(facts, root, solver.nodes, solver.memo, Goals(solver.work) + [Callee(key, target)])
    requires facts.definition(key.kind, key.name) == Some(definition)
    ensures Sound(facts, root,
                  solver.(nodes := Add(solver.nodes, target, All([])), memo := solver.memo[key := |solver.nodes|],
                          visiting := solver.visiting + {key},
                          work := solver.work + [Exit(key), Block(definition.program, 0, definition.schema, key, |solver.nodes|)]))
  {
    TopStands(facts, root, solver.nodes, solver.memo, Goals(solver.work), Callee(key, target));
    BodySettles(facts, root, solver.nodes, solver.memo, Goals(solver.work), key, target, definition);
    MemoKept(facts, solver.nodes, solver.memo, solver.visiting, Add(solver.nodes, target, All([])), target);
    var tasks := [Exit(key), Block(definition.program, 0, definition.schema, key, |solver.nodes|)];
    FreshGoals(solver.work, definition, key, |solver.nodes|);
    PendingIdle(solver.work + tasks);
  }

  lemma CallSound(facts: Facts, root: StateKey, solver: Solver, key: StateKey, target: nat)
    requires Wellformed(solver) && solver.cursor.Idle? && target < |solver.nodes| && !solver.nodes[target].Any?
    requires SharedHolds(facts, solver.shared) && MemoHolds(facts, solver.nodes, solver.memo, solver.visiting)
    requires Settled(facts, root, solver.nodes, solver.memo, Goals(solver.work) + [Callee(key, target)])
    requires Complete(EnterCall(facts, solver, key, target).limits)
    ensures Sound(facts, root, EnterCall(facts, solver, key, target))
  {
    var next := EnterCall(facts, solver, key, target);
    TopStands(facts, root, solver.nodes, solver.memo, Goals(solver.work), Callee(key, target));
    EnterCallSound(facts, solver, key, target);
    if key in solver.memo {
      assert Remembers(facts, solver.nodes, key, solver.memo[key]);
      KnownCallSound(facts, root, solver, key, target, next, solver.memo[key]);
    } else if solver.shared.Some? && key in solver.shared.value {
      KnownCallSound(facts, root, solver, key, target, next, |solver.nodes|);
    } else if facts.definition(key.kind, key.name).None? {
      MissingIsOpen(facts, key);
      KnownCallSound(facts, root, solver, key, target, next, |solver.nodes|);
    } else {
      FreshCallSound(facts, root, solver, key, target, facts.definition(key.kind, key.name).value);
    }
  }

  lemma FreshGoals(work: seq<Task>, definition: Definition, key: StateKey, body: nat)
    ensures Goals(work + [Exit(key), Block(definition.program, 0, definition.schema, key, body)])
         == Goals(work) + [Leaving(key), Rest(Running(definition.program, 0, 0, definition.schema, key, body, false))]
  {
  }

  lemma MemoAfterLeaving(facts: Facts, nodes: seq<Node>, memo: map<StateKey, nat>, visiting: set<StateKey>, key: StateKey,
                         verdict: Validation)
    requires MemoHolds(facts, nodes, memo, visiting) && key in memo && memo[key] < |nodes| && nodes[memo[key]].All?
    requires CallMeans(facts, key, verdict)
    ensures MemoHolds(facts, nodes[memo[key] := Value(verdict)], memo, visiting - {key})
  {
    var nodes' := nodes[memo[key] := Value(verdict)];
    forall other | other in memo && other !in visiting - {key}
      ensures Remembers(facts, nodes', other, memo[other])
    {
      if other != key {
        assert Remembers(facts, nodes, other, memo[other]);
      }
    }
  }

  lemma SharedGrows(facts: Facts, shared: map<StateKey, ScopeMemo>, key: StateKey, entry: ScopeMemo)
    requires SharedHolds(facts, Some(shared)) && CallMeans(facts, key, entry.value)
    ensures SharedHolds(facts, Some(shared[key := entry]))
  {
  }

  /** What leaving a call remembers, for this run and for others, is the verdict of that call. */
  lemma LeaveKeepsSound(facts: Facts, root: StateKey, solver: Solver, key: StateKey)
    requires solver.cursor.Idle? && SharedHolds(facts, solver.shared)
    requires Complete(solver.limits) ==>
               && Settled(facts, root, solver.nodes, solver.memo, Goals(solver.work) + [Leaving(key)])
               && MemoHolds(facts, solver.nodes, solver.memo, solver.visiting)
    ensures Sound(facts, root, Leave(solver, key))
  {
    var next := Leave(solver, key);
    if Complete(solver.limits) {
      LeftMeans(facts, root, solver.nodes, solver.memo, Goals(solver.work), key);
      LeaveSettles(facts, root, solver.nodes, solver.memo, Goals(solver.work), key);
      var verdict := Eval(solver.nodes, map[], solver.memo[key]);
      MemoAfterLeaving(facts, solver.nodes, solver.memo, solver.visiting, key, verdict);
      LeavePublishes(facts, solver, next, key, verdict);
      PendingIdle(next.work);
    }
  }

  lemma LeavePublishes(facts: Facts, solver: Solver, next: Solver, key: StateKey, verdict: Validation)
    requires next == Leave(solver, key) && key in solver.memo && solver.memo[key] < |solver.nodes| && Acyclic(solver.nodes)
    requires verdict == Eval(solver.nodes, map[], solver.memo[key]) && CallMeans(facts, key, verdict)
    requires SharedHolds(facts, solver.shared)
    ensures next.nodes == solver.nodes[solver.memo[key] := Value(verdict)] && next.memo == solver.memo
    ensures next.visiting == solver.visiting - {key} && next.work == solver.work && next.cursor == solver.cursor
    ensures next.limits == solver.limits && SharedHolds(facts, next.shared)
  {
    if solver.limits == {} && solver.shared.Some? {
      SharedGrows(facts, solver.shared.value, key, ScopeMemo(verdict, {}, solver.conditions, solver.dynamic));
    }
  }

  // ----- Every charge -----

  lemma InstructKeepsSound(facts: Facts, root: StateKey, solver: Solver, cursor: Cursor, instruction: Instruction)
    requires Wellformed(solver) && Sound(facts, root, solver) && solver.cursor == cursor
    requires cursor.Running? && !AtEnd(cursor) && instruction == Instructions(cursor.program, cursor.block)[cursor.index]
    ensures Sound(facts, root, Instruct(facts, solver, cursor.(index := cursor.index + 1), instruction))
  {
    var next := Instruct(facts, solver, cursor.(index := cursor.index + 1), instruction);
    if instruction.Dispatch? && !cursor.uncertain && facts.text(instruction.key, cursor.key.values).Some?
       && facts.candidates(cursor.schema, facts.text(instruction.key, cursor.key.values).value,
                           instruction.operand.BlockOperand?) != [] {
      NamedKeepsSound(facts, root, solver, cursor, instruction);
    } else {
      PlainMeans(facts, cursor, instruction);
      if Complete(next.limits) {
        PlainSettles(facts, root, solver, cursor, instruction);
      }
    }
  }

  lemma NamedKeepsSound(facts: Facts, root: StateKey, solver: Solver, cursor: Cursor, instruction: Instruction)
    requires Wellformed(solver) && Sound(facts, root, solver) && solver.cursor == cursor
    requires cursor.Running? && !AtEnd(cursor) && instruction == Instructions(cursor.program, cursor.block)[cursor.index]
    requires instruction.Dispatch? && !cursor.uncertain && facts.text(instruction.key, cursor.key.values).Some?
    requires facts.candidates(cursor.schema, facts.text(instruction.key, cursor.key.values).value,
                              instruction.operand.BlockOperand?) != []
    ensures Sound(facts, root, Instruct(facts, solver, cursor.(index := cursor.index + 1), instruction))
  {
    var spelling := facts.text(instruction.key, cursor.key.values).value;
    var fields := facts.candidates(cursor.schema, spelling, instruction.operand.BlockOperand?);
    var after := After(facts, cursor, instruction);
    assert after == cursor.(index := cursor.index + 1);
    var next := Instruct(facts, solver, after, instruction);
    FieldsKeepRest(facts, solver.(nodes := Add(solver.nodes, cursor.target, Any([])), cursor := after), after,
                   instruction.operand, spelling, |solver.nodes|, fields);
    if Complete(next.limits) {
      var settled := DispatchSettles(facts, root, solver, cursor, instruction.key, instruction.operand, spelling, fields);
      assert settled == next;
      TopStands(facts, root, solver.nodes, solver.memo, Goals(solver.work), Rest(cursor));
      MemoKept(facts, solver.nodes, solver.memo, solver.visiting, next.nodes, cursor.target);
    }
  }

  lemma {:induction false} FieldsKeepRest(facts: Facts, solver: Solver, cursor: Cursor, operand: Operand, spelling: nat,
                                          alternatives: nat, fields: seq<nat>)
    requires cursor.Running? && alternatives < |solver.nodes|
    ensures var next := FieldSteps(facts, solver, cursor, operand, spelling, alternatives, fields);
            next.shared == solver.shared && solver.limits <= next.limits
    decreases fields
  {
    if fields != [] {
      FieldsKeepRest(facts, FieldStep(facts, solver, cursor, operand, spelling, alternatives, fields[0]), cursor, operand,
                     spelling, alternatives, fields[1..]);
    }
  }

  lemma PlainSettles(facts: Facts, root: StateKey, solver: Solver, cursor: Cursor, instruction: Instruction)
    requires Wellformed(solver) && Sound(facts, root, solver) && Complete(solver.limits) && solver.cursor == cursor
    requires cursor.Running? && !AtEnd(cursor) && instruction == Instructions(cursor.program, cursor.block)[cursor.index]
    requires instruction.Dispatch? ==>
               || cursor.uncertain || facts.text(instruction.key, cursor.key.values).None?
               || facts.candidates(cursor.schema, facts.text(instruction.key, cursor.key.values).value,
                                   instruction.operand.BlockOperand?) == []
    ensures Sound(facts, root, Instruct(facts, solver, cursor.(index := cursor.index + 1), instruction))
  {
    var next := Instruct(facts, solver, cursor.(index := cursor.index + 1), instruction);
    var nodes, memo := solver.nodes, solver.memo;
    assert next.cursor == After(facts, cursor, instruction);
    PendingRuns(solver.work, cursor);
    TopStands(facts, root, nodes, memo, Goals(solver.work), Rest(cursor));
    PlainMeans(facts, cursor, instruction);
    if next.nodes != nodes {
      OpenSettles(facts, root, nodes, memo, solver.work, cursor, instruction);
      MemoKept(facts, nodes, memo, solver.visiting, next.nodes, cursor.target);
    } else if Taken(facts, cursor.key, instruction) {
      TakenSettles(facts, root, nodes, memo, solver.work, cursor, instruction);
    } else {
      assert solver.work + [] == solver.work;
      assert Owed(facts, Goals([]), cursor.target) == Valid;
      SilentSettles(facts, root, nodes, memo, solver.work, cursor, instruction, []);
    }
  }

  lemma PopWellformed(solver: Solver)
    requires Wellformed(solver) && solver.work != [] && solver.remaining > 0
    ensures TaskTarget(solver.nodes, solver.work[|solver.work| - 1])
    ensures Wellformed(solver.(remaining := solver.remaining - 1, work := solver.work[..|solver.work| - 1]))
  {
    var rest := solver.work[..|solver.work| - 1];
    assert forall other :: other in rest ==> other in solver.work;
  }

  lemma PendingPops(work: seq<Task>, task: Task)
    ensures Pending(work + [task], Idle) == Goals(work) + [GoalOf(task)]
    ensures task.Block? ==>
              Pending(work, Running(task.program, task.block, 0, task.schema, task.key, task.target, false))
              == Goals(work) + [GoalOf(task)]
  {
  }

  lemma PerformKeepsSound(facts: Facts, root: StateKey, popped: Solver, task: Task)
    requires Wellformed(popped) && popped.cursor.Idle? && TaskTarget(popped.nodes, task)
    requires Sound(facts, root, popped.(work := popped.work + [task]))
    ensures Sound(facts, root, Perform(facts, popped, task))
  {
    PendingPops(popped.work, task);
    match task
    case Exit(key) => LeaveKeepsSound(facts, root, popped, key);
    case Call(key, target) =>
      if Complete(EnterCall(facts, popped, key, target).limits) {
        CallSound(facts, root, popped, key, target);
      }
    case Block(_, _, _, _, _) =>
  }

  /** Every charge keeps the state sound. */
  lemma NextKeepsSound(facts: Facts, root: StateKey, solver: Solver)
    requires Wellformed(solver) && Sound(facts, root, solver) && solver.remaining > 0
    requires if solver.cursor.Running? then !AtEnd(solver.cursor) else solver.work != []
    ensures Sound(facts, root, Next(facts, solver))
  {
    var charged := solver.(remaining := solver.remaining - 1);
    if solver.cursor.Running? {
      InstructKeepsSound(facts, root, charged, solver.cursor,
                         Instructions(solver.cursor.program, solver.cursor.block)[solver.cursor.index]);
    } else {
      PopWellformed(solver);
      var task := solver.work[|solver.work| - 1];
      var popped := charged.(work := solver.work[..|solver.work| - 1]);
      assert popped.work + [task] == solver.work;
      PerformKeepsSound(facts, root, popped, task);
    }
  }

  /** A block that was read to its end owes nothing more. */
  lemma EndKeepsSound(facts: Facts, root: StateKey, solver: Solver)
    requires Wellformed(solver) && Sound(facts, root, solver) && AtEnd(solver.cursor)
    ensures Sound(facts, root, solver.(cursor := Idle))
  {
    if Complete(solver.limits) {
      var nodes, cursor, below := solver.nodes, solver.cursor, Goals(solver.work);
      PendingRuns(solver.work, cursor);
      TopStands(facts, root, nodes, solver.memo, below, Rest(cursor));
      EndMeans(facts, cursor);
      assert nodes[cursor.target].children + [] == nodes[cursor.target].children;
      assert below + [] == below && Pending(solver.work, Idle) == below;
      assert Worths(facts, nodes, below, []) == {} && Owed(facts, [], cursor.target) == Valid;
      StepSettles(facts, root, nodes, solver.memo, below, Rest(cursor), nodes, solver.memo, [], []);
    }
  }

  lemma {:induction false} DrainKeepsSound(facts: Facts, root: StateKey, solver: Solver)
    requires Wellformed(solver) && Sound(facts, root, solver)
    ensures var end := Drain(facts, solver);
            Sound(facts, root, end) && (Complete(end.limits) ==> end.work == [] && end.cursor.Idle?)
    decreases solver.remaining, if solver.cursor.Running? then 1 else 0
  {
    if AtEnd(solver.cursor) {
      EndKeepsSound(facts, root, solver);
      DrainKeepsSound(facts, root, solver.(cursor := Idle));
    } else if !(solver.cursor.Idle? && solver.work == []) && solver.remaining > 0 {
      NextLowers(facts, solver);
      NextKeepsSound(facts, root, solver);
      DrainKeepsSound(facts, root, Next(facts, solver));
    }
  }

  lemma StartSound(facts: Facts, key: StateKey, allowance: nat, shared: Option<map<StateKey, ScopeMemo>>)
    requires SharedHolds(facts, shared)
    ensures Wellformed(Start(key, allowance, shared)) && Sound(facts, key, Start(key, allowance, shared))
  {
    var start, goal := Start(key, allowance, shared), Callee(key, 0);
    ForwardIsAcyclic(start.nodes);
    assert Pending(start.work, Idle) == [goal];
    WorthOfAll(facts, start.nodes, [goal], 0);
    assert Worths(facts, start.nodes, [goal], []) == {};
    OwedOne(facts, goal, 0);
    if AllDefined(facts, [goal], 0) {
      assert Defined(facts, [goal][0]);
      var verdict :| Means(facts, goal, verdict);
      ShareIs(facts, goal, verdict);
    }
  }

  /** What a run answers: unless it gave something up for the budget or for recursion, its arena folds to
      the verdict of the call, without memo; and whatever happens, a shared memo that was right stays right. */
  lemma RunMeans(facts: Facts, key: StateKey, allowance: nat, shared: Option<map<StateKey, ScopeMemo>>)
    requires SharedHolds(facts, shared)
    ensures Wellformed(Start(key, allowance, shared))
    ensures var end := Drain(facts, Start(key, allowance, shared));
            && SharedHolds(facts, end.shared)
            && (Complete(end.limits) ==> CallMeans(facts, key, VerdictOf(end.nodes, 0)))
            && (end.limits == {} ==> CallMeans(facts, key, Solution(facts, Start(key, allowance, shared))))
  {
    var start := Start(key, allowance, shared);
    StartSound(facts, key, allowance, shared);
    DrainKeepsSound(facts, key, start);
    var end := Drain(facts, start);
    if Complete(end.limits) {
      assert Pending(end.work, end.cursor) == [];
      forall i: nat
        ensures Owed(facts, [], i) == Valid
      {
      }
      PaidUp(facts, end.nodes, [], 0, 0);
    }
  }

  function Start(key: StateKey, allowance: nat, shared: Option<map<StateKey, ScopeMemo>>): Solver {
    Solver([All([])], map[], {}, [Call(key, 0)], Idle, allowance, {}, {}, false, shared)
  }

  // ----- The loops -----

  /** The argument loops of a call: a stack of blocks, each read instruction by instruction. */
  method CollectArguments(facts: Facts, program: Program, key: StateKey, block: nat, allowance: nat) returns (found: Arguments)
    ensures found == Collect(facts, program, key, [block], None, Arguments(map[], {}, allowance, false))
  {
    found := Arguments(map[], {}, allowance, false);
    var pending := [block];
    ghost var goal := Collect(facts, program, key, pending, None, found);
    while pending != []
      invariant Collect(facts, program, key, pending, None, found) == goal
      decreases found.remaining, |pending|
    {
      var top := pending[|pending| - 1];
      pending := pending[..|pending| - 1];
      ghost var allowance', height := found.remaining, |pending|;
      var instructions := Instructions(program, top);
      var index := 0;
      while index < |instructions| && found.remaining > 0
        invariant 0 <= index <= |instructions| && found.remaining <= allowance'
        invariant found.remaining < allowance' || |pending| == height
        invariant Collect(facts, program, key, pending, Some((top, index)), found) == goal
      {
        var instruction := instructions[index];
        found := Argument(facts, key, instruction, found.(remaining := found.remaining - 1));
        if Taken(facts, key, instruction) {
          pending := pending + [instruction.block];
        }
        index := index + 1;
      }
      if index < |instructions| {
        found := found.(cut := true);
      }
    }
  }

  /** The field loop of a dispatch. */
  method RunFields(facts: Facts, started: Solver, cursor: Cursor, operand: Operand, spelling: nat, alternatives: nat,
                   fields: seq<nat>) returns (solver: Solver)
    requires cursor.Running? && alternatives < |started.nodes|
    ensures solver == FieldSteps(facts, started, cursor, operand, spelling, alternatives, fields)
  {
    solver := started;
    for k := 0 to |fields|
      invariant alternatives < |solver.nodes|
      invariant FieldSteps(facts, solver, cursor, operand, spelling, alternatives, fields[k..])
             == FieldSteps(facts, started, cursor, operand, spelling, alternatives, fields)
    {
      var field := fields[k];
      ghost var next := FieldStep(facts, solver, cursor, operand, spelling, alternatives, field);
      assert fields[k..][0] == field && fields[k..][1..] == fields[k + 1..];
      var row := |solver.nodes|;
      var allowed := Allowed(facts, field, cursor.key, spelling);
      solver := solver.(nodes := Add(Add(solver.nodes, alternatives, All([])), row, Value(allowed)));
      if allowed != Invalid {
        var callee := facts.callee(field);
        if callee.Some? {
          var arguments := Arguments(map[], {}, solver.remaining, false);
          if operand.BlockOperand? {
            arguments := CollectArguments(facts, cursor.program, cursor.key, operand.block, solver.remaining);
          }
          var key := StateKey(callee.value, facts.lower(spelling), arguments.values, Some(arguments.present), cursor.key.state);
          solver := solver.(work := solver.work + [Call(key, row)], remaining := arguments.remaining);
          if arguments.cut {
            solver := solver.(limits := solver.limits + {Nodes});
          }
        } else if operand.BlockOperand? && facts.child(field, cursor.schema).Some? && !facts.displayOnly(field) {
          var key := cursor.key.(state := facts.transition(cursor.key.state, field, spelling));
          var child := facts.child(field, cursor.schema).value;
          solver := solver.(work := solver.work + [Block(cursor.program, operand.block, child, key, row)]);
        }
      }
      assert solver == next;
    }
    assert fields[|fields|..] == [];
  }

  method RunInstruction(facts: Facts, before: Solver, cursor: Cursor, instruction: Instruction) returns (solver: Solver)
    requires cursor.Running? && cursor.target < |before.nodes|
    ensures solver == Instruct(facts, before, cursor, instruction)
  {
    if instruction.Dispatch? && !cursor.uncertain && facts.text(instruction.key, cursor.key.values).Some? {
      var spelling := facts.text(instruction.key, cursor.key.values).value;
      var fields := facts.candidates(cursor.schema, spelling, instruction.operand.BlockOperand?);
      if fields == [] {
        return before.(cursor := cursor);
      }
      var started := before.(nodes := Add(before.nodes, cursor.target, Any([])), cursor := cursor);
      solver := RunFields(facts, started, cursor, instruction.operand, spelling, |before.nodes|, fields);
    } else {
      solver := Instruct(facts, before, cursor, instruction);
    }
  }

  /** One charged instruction. */
  method RunNext(facts: Facts, before: Solver) returns (solver: Solver)
    requires Wellformed(before) && before.cursor.Running? && !AtEnd(before.cursor) && before.remaining > 0
    ensures Wellformed(solver) && solver.cursor.Running? && solver.remaining < before.remaining
    ensures Drain(facts, solver) == Drain(facts, before)
  {
    NextLowers(facts, before);
    ghost var next := Next(facts, before);
    var cursor := before.cursor;
    var instruction := Instructions(cursor.program, cursor.block)[cursor.index];
    CursorStays(facts, before.(remaining := before.remaining - 1), cursor.(index := cursor.index + 1), instruction);
    solver := RunInstruction(facts, before.(remaining := before.remaining - 1), cursor.(index := cursor.index + 1), instruction);
    assert solver == next;
  }

  /** The instruction loop of one block; spending the budget abandons the block. */
  method RunBlock(facts: Facts, before: Solver) returns (solver: Solver)
    requires Wellformed(before) && before.cursor.Running?
    ensures Wellformed(solver) && solver.cursor.Idle? && solver.remaining <= before.remaining
    ensures Drain(facts, solver) == Drain(facts, before)
  {
    solver := before;
    while !AtEnd(solver.cursor) && solver.remaining > 0
      invariant Wellformed(solver) && solver.cursor.Running? && solver.remaining <= before.remaining
      invariant Drain(facts, solver) == Drain(facts, before)
      decreases solver.remaining
    {
      solver := RunNext(facts, solver);
    }
    if !AtEnd(solver.cursor) {
      solver := solver.(limits := solver.limits + {Nodes});
    }
    solver := solver.(cursor := Idle);
  }

  lemma {:induction false} FieldsKeepCursor(facts: Facts, solver: Solver, cursor: Cursor, operand: Operand, spelling: nat,
                                            alternatives: nat, fields: seq<nat>)
    requires cursor.Running? && alternatives < |solver.nodes|
    ensures FieldSteps(facts, solver, cursor, operand, spelling, alternatives, fields).cursor == solver.cursor
    decreases fields
  {
    if fields != [] {
      FieldsKeepCursor(facts, FieldStep(facts, solver, cursor, operand, spelling, alternatives, fields[0]),
                       cursor, operand, spelling, alternatives, fields[1..]);
    }
  }

  lemma CursorStays(facts: Facts, solver: Solver, cursor: Cursor, instruction: Instruction)
    requires cursor.Running? && cursor.target < |solver.nodes|
    ensures Instruct(facts, solver, cursor, instruction).cursor.Running?
  {
    if instruction.Dispatch? && !cursor.uncertain && facts.text(instruction.key, cursor.key.values).Some? {
      var spelling := facts.text(instruction.key, cursor.key.values).value;
      FieldsKeepCursor(facts, solver.(nodes := Add(solver.nodes, cursor.target, Any([])), cursor := cursor), cursor,
                       instruction.operand, spelling, |solver.nodes|,
                       facts.candidates(cursor.schema, spelling, instruction.operand.BlockOperand?));
    }
  }

  method RunExit(before: Solver, key: StateKey) returns (solver: Solver)
    requires Wellformed(before)
    ensures solver == Leave(before, key)
  {
    solver := before;
    if key in before.memo {
      var id := before.memo[key];
      ForwardIsAcyclic(before.nodes);
      var verdict := Fold(before.nodes, id);
      solver := solver.(nodes := solver.nodes[id := Value(verdict)]);
      if before.limits == {} && before.shared.Some? {
        var entry := ScopeMemo(verdict, {}, before.conditions, before.dynamic);
        solver := solver.(shared := Some(before.shared.value[key := entry]));
      }
    }
    solver := solver.(visiting := solver.visiting - {key});
  }

  method RunTask(facts: Facts, before: Solver) returns (solver: Solver)
    requires Wellformed(before) && before.cursor.Idle? && before.work != [] && before.remaining > 0
    ensures Wellformed(solver) && solver.cursor.Idle? && solver.remaining < before.remaining
    ensures Drain(facts, solver) == Drain(facts, before)
  {
    NextLowers(facts, before);
    PopWellformed(before);
    var task := before.work[|before.work| - 1];
    solver := PerformTask(facts, before.(remaining := before.remaining - 1, work := before.work[..|before.work| - 1]), task);
    assert solver == Next(facts, before);
    if solver.cursor.Running? {
      solver := RunBlock(facts, solver);
    }
  }

  /** One task off the stack; a block starts to run. */
  method PerformTask(facts: Facts, popped: Solver, task: Task) returns (solver: Solver)
    requires Wellformed(popped) && TaskTarget(popped.nodes, task)
    ensures solver == Perform(facts, popped, task)
  {
    match task
    case Exit(key) => solver := RunExit(popped, key);
    case Call(key, target) => solver := EnterCall(facts, popped, key, target);
    case Block(program, block, schema, key, target) =>
      solver := popped.(cursor := Running(program, block, 0, schema, key, target, false));
  }

  /** Folds the root, after capping it when some limit was recorded. */
  method Conclude(solver: Solver) returns (verdict: Validation)
    requires Wellformed(solver)
    ensures verdict == Answer(solver)
    ensures solver.limits != {} ==> verdict != Valid
  {
    var nodes := solver.nodes;
    ForwardIsAcyclic(nodes);
    if solver.limits != {} {
      CapsAtUnknown(nodes);
      nodes := Add(nodes, 0, Value(Unknown));
    }
    verdict := Fold(nodes, 0);
  }

  /** The task loop is the charged run. With a shared memo that is right, it answers the recursive verdict of
      the call if nothing was recorded, and that verdict capped at Unknown if only missing or recovered
      templates were; what it shares is right again. */
  method Solve(facts: Facts, key: StateKey, allowance: nat, shared: Option<map<StateKey, ScopeMemo>>)
    returns (verdict: Validation, solver: Solver)
    ensures Wellformed(Start(key, allowance, shared))
    ensures solver == Drain(facts, Start(key, allowance, shared))
    ensures verdict == Solution(facts, Start(key, allowance, shared))
    ensures solver.limits != {} ==> verdict != Valid
    ensures SharedHolds(facts, shared) ==> SharedHolds(facts, solver.shared)
    ensures SharedHolds(facts, shared) && solver.limits == {} ==> CallMeans(facts, key, verdict)
    ensures SharedHolds(facts, shared) && Complete(solver.limits) && solver.limits != {} ==>
              exists exact :: CallMeans(facts, key, exact) && verdict == Both(exact, Unknown)
  {
    ghost var start := Start(key, allowance, shared);
    solver := Start(key, allowance, shared);
    while solver.work != [] && solver.remaining > 0
      invariant Wellformed(solver) && Wellformed(start) && solver.cursor.Idle?
      invariant Drain(facts, solver) == Drain(facts, start)
      decreases solver.remaining
    {
      solver := RunTask(facts, solver);
    }
    if solver.work != [] {
      solver := solver.(limits := solver.limits + {Nodes});
    }
    verdict := Conclude(solver);
    if SharedHolds(facts, shared) {
      RunMeans(facts, key, allowance, shared);
    }
  }
}
