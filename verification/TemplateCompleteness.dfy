/** Every call that has a verdict is answered: with enough allowance a run ends, and gives nothing up for
    the budget or for recursion. Each pending task is funded for the charges that working it off can take. */
module TemplateCompleteness {
  import opened Kleene
  import opened Options
  import opened Arena
  import opened TemplateScope
  import opened TemplateMeaning
  import opened TemplateSoundness
  import opened TemplateSolving

  // ----- What a verdict costs -----

  /** The least fuel that gives a call its verdict. */
  function Least(facts: Facts, fuel: nat, key: StateKey): (least: nat)
    requires CallVerdict(facts, fuel, key).Some?
    ensures least <= fuel && CallVerdict(facts, least, key).Some?
    ensures least > 0 ==> CallVerdict(facts, least - 1, key).None?
  {
    if fuel == 0 || CallVerdict(facts, fuel - 1, key).None? then fuel else Least(facts, fuel - 1, key)
  }

  /** A bound on the charges of a call: entering it, its block, and leaving it. */
  function CallCost(facts: Facts, fuel: nat, key: StateKey): nat
    requires CallVerdict(facts, fuel, key).Some?
    decreases fuel, 0, 0, 0
  {
    match facts.definition(key.kind, key.name)
    case None => 1
    case Some(definition) =>
      3 + RestCost(facts, Least(facts, fuel, key) - 1, Beginning(definition.program, 0, definition.schema, key))
  }

  function RestCost(facts: Facts, fuel: nat, cursor: Cursor): nat
    requires cursor.Running? && RestVerdict(facts, fuel, cursor).Some?
    decreases fuel, Ahead(cursor), 0, 0
  {
    if AtEnd(cursor) then 0
    else
      var instruction := Instructions(cursor.program, cursor.block)[cursor.index];
      1 + InstructionCost(facts, fuel, cursor, instruction) + RestCost(facts, fuel, After(facts, cursor, instruction))
  }

  function InstructionCost(facts: Facts, fuel: nat, cursor: Cursor, instruction: Instruction): nat
    requires cursor.Running? && InstructionVerdict(facts, fuel, cursor, instruction).Some?
    decreases fuel, 0, 3, 0
  {
    match instruction
    case When(_, _, block) =>
      if Taken(facts, cursor.key, instruction) then
        1 + RestCost(facts, fuel - 1, Beginning(cursor.program, block, cursor.schema, cursor.key))
      else 0
    case Dispatch(key, operand) =>
      if cursor.uncertain || facts.text(key, cursor.key.values).None? then 0
      else
        var spelling := facts.text(key, cursor.key.values).value;
        var fields := facts.candidates(cursor.schema, spelling, operand.BlockOperand?);
        assert DispatchVerdict(facts, fuel, cursor, operand, spelling).Some?;
        if fields == [] then 0 else FieldsCost(facts, fuel, cursor, operand, spelling, fields)
    case _ => 0
  }

  function FieldsCost(facts: Facts, fuel: nat, cursor: Cursor, operand: Operand, spelling: nat, fields: seq<nat>): nat
    requires cursor.Running? && FieldVerdicts(facts, fuel, cursor, operand, spelling, fields).Some?
    decreases fuel, 0, 1, |fields|
  {
    if fields == [] then 0
    else FieldCost(facts, fuel, cursor, operand, spelling, fields[0])
         + FieldsCost(facts, fuel, cursor, operand, spelling, fields[1..])
  }

  /** Reading the arguments takes no more charges than the fuel that reads them all. */
  function FieldCost(facts: Facts, fuel: nat, cursor: Cursor, operand: Operand, spelling: nat, field: nat): nat
    requires cursor.Running? && FieldVerdict(facts, fuel, cursor, operand, spelling, field).Some?
    decreases fuel, 0, 0, 1
  {
    if Allowed(facts, field, cursor.key, spelling) == Invalid then 0
    else match facts.callee(field)
      case Some(kind) =>
        fuel + CallCost(facts, fuel, CalleeKey(facts, cursor, spelling, kind, CallArguments(facts, cursor, operand, fuel)))
      case None =>
        if EntersChild(facts, cursor, operand, field) then
          1 + RestCost(facts, fuel - 1, ChildCursor(facts, cursor, operand, spelling, field, 0))
        else 0
  }

  // ----- Funded states -----

  function Origin(task: Task): Cursor
    requires task.Block?
  {
    Beginning(task.program, task.block, task.schema, task.key)
  }

  /** The fuel gives the task its verdict. */
  predicate Fuelled(facts: Facts, fuel: nat, task: Task) {
    match task
    case Call(key, _) => CallVerdict(facts, fuel, key).Some?
    case Exit(_) => true
    case Block(_, _, _, _, _) => RestVerdict(facts, fuel, Origin(task)).Some?
  }

  function TaskCost(facts: Facts, fuel: nat, task: Task): (cost: nat)
    requires Fuelled(facts, fuel, task)
    ensures cost > 0
  {
    match task
    case Call(key, _) => CallCost(facts, fuel, key)
    case Exit(_) => 1
    case Block(_, _, _, _, _) => 1 + RestCost(facts, fuel, Origin(task))
  }

  /** Which fuel each pending task runs on. */
  predicate Plans(facts: Facts, plan: seq<nat>, work: seq<Task>) {
    |plan| == |work| && forall k :: 0 <= k < |work| ==> Fuelled(facts, plan[k], work[k])
  }

  function Budget(facts: Facts, plan: seq<nat>, work: seq<Task>): nat
    requires Plans(facts, plan, work)
  {
    if work == [] then 0
    else
      var last := |work| - 1;
      Budget(facts, plan[..last], work[..last]) + TaskCost(facts, plan[last], work[last])
  }

  /** No call that is still open has a verdict on this fuel: what runs on it cannot call any of them. */
  predicate Clear(facts: Facts, work: seq<Task>, fuel: nat) {
    forall task :: task in work && task.Exit? ==> CallVerdict(facts, fuel, task.key).None?
  }

  predicate Safe(facts: Facts, plan: seq<nat>, work: seq<Task>) {
    |plan| == |work| && forall k :: 0 <= k < |work| && !work[k].Exit? ==> Clear(facts, work[..k], plan[k])
  }

  /** Every call being visited is still to be left. */
  predicate Open(work: seq<Task>, visiting: set<StateKey>) {
    forall key :: key in visiting ==> Exit(key) in work
  }

  predicate SharedComplete(shared: Option<map<StateKey, ScopeMemo>>) {
    shared.Some? ==> forall key :: key in shared.value ==> Complete(shared.value[key].limits)
  }

  /** The block at work is fuelled, and cannot call what is open. */
  predicate Runs(facts: Facts, work: seq<Task>, cursor: Cursor, fuel: nat) {
    cursor.Running? ==> RestVerdict(facts, fuel, cursor.(target := 0)).Some? && Clear(facts, work, fuel)
  }

  function CursorCost(facts: Facts, cursor: Cursor, fuel: nat): nat
    requires cursor.Running? ==> RestVerdict(facts, fuel, cursor.(target := 0)).Some?
  {
    if cursor.Running? then RestCost(facts, fuel, cursor.(target := 0)) else 0
  }

  predicate Funded(facts: Facts, s: Solver, plan: seq<nat>, fuel: nat) {
    && Plans(facts, plan, s.work) && Safe(facts, plan, s.work) && Runs(facts, s.work, s.cursor, fuel)
    && Budget(facts, plan, s.work) + CursorCost(facts, s.cursor, fuel) <= s.remaining
    && Open(s.work, s.visiting) && Complete(s.limits) && SharedComplete(s.shared)
  }

  lemma ClearBelow(facts: Facts, work: seq<Task>, fuel: nat, less: nat)
    requires Clear(facts, work, fuel) && less <= fuel
    ensures Clear(facts, work, less)
  {
    forall task | task in work && task.Exit?
      ensures CallVerdict(facts, less, task.key).None?
    {
      if CallVerdict(facts, less, task.key).Some? {
        CallGrows(facts, less, fuel, task.key);
      }
    }
  }

  /** Adding a task on top. */
  lemma PlanMore(facts: Facts, plan: seq<nat>, work: seq<Task>, fuel: nat, task: Task)
    requires Plans(facts, plan, work) && Safe(facts, plan, work) && Fuelled(facts, fuel, task)
    requires !task.Exit? ==> Clear(facts, work, fuel)
    ensures Plans(facts, plan + [fuel], work + [task]) && Safe(facts, plan + [fuel], work + [task])
    ensures Budget(facts, plan + [fuel], work + [task]) == Budget(facts, plan, work) + TaskCost(facts, fuel, task)
  {
    var plan', work' := plan + [fuel], work + [task];
    assert plan'[..|work|] == plan && work'[..|work|] == work;
    forall k | 0 <= k < |work'| && !work'[k].Exit?
      ensures Clear(facts, work'[..k], plan'[k])
    {
      if k < |work| {
        assert work'[..k] == work[..k];
      }
    }
  }

  /** Taking the top task off. */
  lemma PlanLess(facts: Facts, plan: seq<nat>, work: seq<Task>, rest: seq<Task>, task: Task)
    requires Plans(facts, plan, work) && Safe(facts, plan, work) && work == rest + [task]
    ensures var fuels, fuel := plan[..|rest|], plan[|rest|];
            && Plans(facts, fuels, rest) && Safe(facts, fuels, rest) && Fuelled(facts, fuel, task)
            && (!task.Exit? ==> Clear(facts, rest, fuel))
            && Budget(facts, plan, work) == Budget(facts, fuels, rest) + TaskCost(facts, fuel, task)
  {
    assert work[..|rest|] == rest && work[|rest|] == task;
    forall k | 0 <= k < |rest| && !rest[k].Exit?
      ensures Clear(facts, rest[..k], plan[k])
    {
      assert work[..k] == rest[..k] && work[k] == rest[k];
    }
  }

  // ----- Arguments -----

  /** An argument list that was not cut leaves the same more of a larger allowance. */
  lemma {:induction false} CollectSpends(facts: Facts, program: Program, key: StateKey, pending: seq<nat>,
                                         at: Option<(nat, nat)>, poor: Arguments, rich: Arguments)
    requires poor.remaining <= rich.remaining && poor == rich.(remaining := poor.remaining)
    requires !Collect(facts, program, key, pending, at, poor).cut
    ensures var p, r := Collect(facts, program, key, pending, at, poor), Collect(facts, program, key, pending, at, rich);
            r == p.(remaining := p.remaining + (rich.remaining - poor.remaining))
    decreases poor.remaining, |pending|, if at.Some? then 1 else 0
  {
    match at
    case None =>
      if pending != [] {
        CollectSpends(facts, program, key, pending[..|pending| - 1], Some((pending[|pending| - 1], 0)), poor, rich);
      }
    case Some((block, index)) =>
      var instructions := Instructions(program, block);
      if index >= |instructions| {
        CollectSpends(facts, program, key, pending, None, poor, rich);
      } else if poor.remaining == 0 {
        CollectCharges(facts, program, key, pending, None, poor.(cut := true));
      } else {
        var instruction := instructions[index];
        var pending' := if Taken(facts, key, instruction) then pending + [instruction.block] else pending;
        CollectSpends(facts, program, key, pending', Some((block, index + 1)),
                      Argument(facts, key, instruction, poor.(remaining := poor.remaining - 1)),
                      Argument(facts, key, instruction, rich.(remaining := rich.remaining - 1)));
      }
  }

  lemma ArgumentsSpend(facts: Facts, cursor: Cursor, operand: Operand, fuel: nat, allowance: nat)
    requires cursor.Running? && fuel <= allowance && !CallArguments(facts, cursor, operand, fuel).cut
    ensures var a, b := CallArguments(facts, cursor, operand, fuel), CallArguments(facts, cursor, operand, allowance);
            !b.cut && b.values == a.values && b.present == a.present && b.remaining <= allowance <= b.remaining + fuel
  {
    if operand.BlockOperand? {
      var none := Arguments(map[], {}, fuel, false);
      CollectSpends(facts, cursor.program, cursor.key, [operand.block], None, none, none.(remaining := allowance));
      CollectCharges(facts, cursor.program, cursor.key, [operand.block], None, none.(remaining := allowance));
    }
  }

  // ----- Instructions -----

  /** A state in the middle of a dispatch: `owing` is what the rest of the block and of the fields may cost. */
  predicate Covers(facts: Facts, s: Solver, plan: seq<nat>, fuel: nat, owing: nat) {
    && Plans(facts, plan, s.work) && Safe(facts, plan, s.work) && Clear(facts, s.work, fuel)
    && Budget(facts, plan, s.work) + owing <= s.remaining
    && Open(s.work, s.visiting) && Complete(s.limits) && SharedComplete(s.shared)
  }

  lemma OpenMore(work: seq<Task>, visiting: set<StateKey>, task: Task)
    requires Open(work, visiting)
    ensures Open(work + [task], visiting)
  {
  }

  lemma ClearMore(facts: Facts, work: seq<Task>, fuel: nat, task: Task)
    requires Clear(facts, work, fuel) && !task.Exit?
    ensures Clear(facts, work + [task], fuel)
  {
  }

  /** A task pushed by the block at work, paid from what the block may cost. */
  lemma PushCovers(facts: Facts, s: Solver, plan: seq<nat>, fuel: nat, owing: nat, next: Solver, less: nat, task: Task, left: nat)
    requires Covers(facts, s, plan, fuel, owing) && less <= fuel && !task.Exit? && Fuelled(facts, less, task)
    requires next.work == s.work + [task] && next.visiting == s.visiting && next.shared == s.shared && Complete(next.limits)
    requires s.remaining + TaskCost(facts, less, task) + left <= owing + next.remaining
    ensures Covers(facts, next, plan + [less], fuel, left)
  {
    ClearBelow(facts, s.work, fuel, less);
    PlanMore(facts, plan, s.work, less, task);
    OpenMore(s.work, s.visiting, task);
    ClearMore(facts, s.work, fuel, task);
  }

  lemma FieldCovers(facts: Facts, s: Solver, plan: seq<nat>, cursor: Cursor, operand: Operand, spelling: nat,
                    alternatives: nat, field: nat, fuel: nat, left: nat) returns (plan': seq<nat>)
    requires cursor.Running? && alternatives < |s.nodes|
    requires FieldVerdict(facts, fuel, cursor.(target := 0), operand, spelling, field).Some?
    requires Covers(facts, s, plan, fuel, FieldCost(facts, fuel, cursor.(target := 0), operand, spelling, field) + left)
    ensures Covers(facts, FieldStep(facts, s, cursor, operand, spelling, alternatives, field), plan', fuel, left)
  {
    var allowed := Allowed(facts, field, cursor.key, spelling);
    var next := FieldStep(facts, s, cursor, operand, spelling, alternatives, field);
    var owing := FieldCost(facts, fuel, cursor.(target := 0), operand, spelling, field) + left;
    plan' := plan;
    if allowed != Invalid && facts.callee(field).Some? {
      var task := CalleeTask(facts, s, cursor, operand, spelling, alternatives, field, fuel);
      PushCovers(facts, s, plan, fuel, owing, next, fuel, task, left);
      plan' := plan + [fuel];
    } else if allowed != Invalid && EntersChild(facts, cursor, operand, field) {
      var task := ChildTask(facts, s, cursor, operand, spelling, alternatives, field, fuel);
      PushCovers(facts, s, plan, fuel, owing, next, fuel - 1, task, left);
      plan' := plan + [fuel - 1];
    }
  }

  /** A field that calls a template leaves the call, and reading its arguments takes at most the fuel. */
  lemma CalleeTask(facts: Facts, s: Solver, cursor: Cursor, operand: Operand, spelling: nat, alternatives: nat, field: nat,
                   fuel: nat) returns (task: Task)
    requires cursor.Running? && alternatives < |s.nodes| && fuel <= s.remaining
    requires FieldVerdict(facts, fuel, cursor.(target := 0), operand, spelling, field).Some?
    requires Allowed(facts, field, cursor.key, spelling) != Invalid && facts.callee(field).Some?
    ensures task.Call? && Fuelled(facts, fuel, task)
    ensures FieldCost(facts, fuel, cursor.(target := 0), operand, spelling, field) == fuel + TaskCost(facts, fuel, task)
    ensures var next := FieldStep(facts, s, cursor, operand, spelling, alternatives, field);
            && next.work == s.work + [task] && next.visiting == s.visiting && next.shared == s.shared
            && next.limits == s.limits && s.remaining <= next.remaining + fuel
  {
    var at, kind := cursor.(target := 0), facts.callee(field).value;
    ArgumentsSpend(facts, at, operand, fuel, s.remaining);
    assert CallArguments(facts, at, operand, s.remaining) == CallArguments(facts, cursor, operand, s.remaining);
    task := Call(CalleeKey(facts, at, spelling, kind, CallArguments(facts, at, operand, fuel)), |s.nodes|);
  }

  /** A field with a block of its own leaves that block. */
  lemma ChildTask(facts: Facts, s: Solver, cursor: Cursor, operand: Operand, spelling: nat, alternatives: nat, field: nat,
                  fuel: nat) returns (task: Task)
    requires cursor.Running? && alternatives < |s.nodes|
    requires FieldVerdict(facts, fuel, cursor.(target := 0), operand, spelling, field).Some?
    requires Allowed(facts, field, cursor.key, spelling) != Invalid && facts.callee(field).None?
    requires EntersChild(facts, cursor, operand, field)
    ensures fuel > 0 && task.Block? && Fuelled(facts, fuel - 1, task)
    ensures FieldCost(facts, fuel, cursor.(target := 0), operand, spelling, field) == TaskCost(facts, fuel - 1, task)
    ensures var next := FieldStep(facts, s, cursor, operand, spelling, alternatives, field);
            && next.work == s.work + [task] && next.visiting == s.visiting && next.shared == s.shared
            && next.limits == s.limits && s.remaining == next.remaining
  {
    var child := ChildCursor(facts, cursor.(target := 0), operand, spelling, field, 0);
    task := Block(child.program, child.block, child.schema, child.key, |s.nodes|);
    assert Origin(task) == child;
  }

  lemma {:induction false} FieldsCover(facts: Facts, s: Solver, plan: seq<nat>, cursor: Cursor, operand: Operand, spelling: nat,
                                       alternatives: nat, fields: seq<nat>, fuel: nat, left: nat) returns (plan': seq<nat>)
    requires cursor.Running? && alternatives < |s.nodes|
    requires FieldVerdicts(facts, fuel, cursor.(target := 0), operand, spelling, fields).Some?
    requires Covers(facts, s, plan, fuel, FieldsCost(facts, fuel, cursor.(target := 0), operand, spelling, fields) + left)
    ensures Covers(facts, FieldSteps(facts, s, cursor, operand, spelling, alternatives, fields), plan', fuel, left)
    decreases fields
  {
    plan' := plan;
    if fields != [] {
      var others := FieldsCost(facts, fuel, cursor.(target := 0), operand, spelling, fields[1..]);
      plan' := FieldCovers(facts, s, plan, cursor, operand, spelling, alternatives, fields[0], fuel, others + left);
      plan' := FieldsCover(facts, FieldStep(facts, s, cursor, operand, spelling, alternatives, fields[0]), plan', cursor, operand,
                           spelling, alternatives, fields[1..], fuel, left);
    }
  }

  /** What a field costs does not depend on where in the block the property stands. */
  lemma {:induction false} SameFieldsCost(facts: Facts, fuel: nat, cursor: Cursor, after: Cursor, operand: Operand, spelling: nat,
                                          fields: seq<nat>)
    requires cursor.Running? && after.Running? && after == cursor.(index := after.index, uncertain := after.uncertain)
    requires FieldVerdicts(facts, fuel, cursor, operand, spelling, fields).Some?
    ensures FieldVerdicts(facts, fuel, after, operand, spelling, fields).Some?
    ensures FieldsCost(facts, fuel, after, operand, spelling, fields) == FieldsCost(facts, fuel, cursor, operand, spelling, fields)
    decreases fields
  {
    if fields != [] {
      assert FieldVerdict(facts, fuel, after, operand, spelling, fields[0]) == FieldVerdict(facts, fuel, cursor, operand, spelling, fields[0]);
      SameFieldsCost(facts, fuel, cursor, after, operand, spelling, fields[1..]);
    }
  }

  /** The fuel that gives a block its verdict gives one to its first instruction and to the rest. */
  lemma Unrolls(facts: Facts, fuel: nat, cursor: Cursor, instruction: Instruction)
    requires cursor.Running? && !AtEnd(cursor) && instruction == Instructions(cursor.program, cursor.block)[cursor.index]
    requires RestVerdict(facts, fuel, cursor.(target := 0)).Some?
    ensures var at := cursor.(target := 0);
            && InstructionVerdict(facts, fuel, at, instruction).Some?
            && RestVerdict(facts, fuel, After(facts, at, instruction)).Some?
            && After(facts, at, instruction) == After(facts, cursor, instruction).(target := 0)
            && RestCost(facts, fuel, at) ==
               1 + InstructionCost(facts, fuel, at, instruction) + RestCost(facts, fuel, After(facts, at, instruction))
  {
  }

  /** The instruction names fields. */
  predicate Named(facts: Facts, cursor: Cursor, instruction: Instruction)
    requires cursor.Running?
  {
    && instruction.Dispatch? && !cursor.uncertain && facts.text(instruction.key, cursor.key.values).Some?
    && facts.candidates(cursor.schema, facts.text(instruction.key, cursor.key.values).value,
                        instruction.operand.BlockOperand?) != []
  }

  lemma InstructFunded(facts: Facts, s: Solver, plan: seq<nat>, fuel: nat, instruction: Instruction) returns (plan': seq<nat>)
    requires Funded(facts, s, plan, fuel) && s.cursor.Running? && !AtEnd(s.cursor) && s.cursor.target < |s.nodes| && s.remaining > 0
    requires instruction == Instructions(s.cursor.program, s.cursor.block)[s.cursor.index]
    ensures Funded(facts, Instruct(facts, s.(remaining := s.remaining - 1), s.cursor.(index := s.cursor.index + 1), instruction), plan', fuel)
  {
    var cursor, charged := s.cursor, s.(remaining := s.remaining - 1);
    var after := After(facts, cursor, instruction);
    Unrolls(facts, fuel, cursor, instruction);
    var left := RestCost(facts, fuel, after.(target := 0));
    if Named(facts, cursor, instruction) {
      plan' := NamedFunded(facts, charged, plan, fuel, cursor, instruction, after, left);
    } else if Taken(facts, cursor.key, instruction) {
      plan' := TakenFunded(facts, charged, plan, fuel, cursor, instruction, after, left);
    } else {
      plan' := plan;
      PlainFunded(facts, charged, plan, fuel, cursor, instruction, after, left);
    }
  }

  /** An instruction that leaves no task. */
  lemma PlainFunded(facts: Facts, charged: Solver, plan: seq<nat>, fuel: nat, cursor: Cursor, instruction: Instruction,
                    after: Cursor, left: nat)
    requires cursor.Running? && cursor.target < |charged.nodes| && after == After(facts, cursor, instruction) && after.Running?
    requires !Named(facts, cursor, instruction) && !Taken(facts, cursor.key, instruction)
    requires RestVerdict(facts, fuel, after.(target := 0)).Some? && left == RestCost(facts, fuel, after.(target := 0))
    requires Covers(facts, charged, plan, fuel, left)
    ensures Funded(facts, Instruct(facts, charged, cursor.(index := cursor.index + 1), instruction), plan, fuel)
  {
    var next := Instruct(facts, charged, cursor.(index := cursor.index + 1), instruction);
    PlainLeaves(facts, charged, cursor, instruction, after);
    CoversFund(facts, next, plan, fuel, left);
  }

  lemma PlainLeaves(facts: Facts, charged: Solver, cursor: Cursor, instruction: Instruction, after: Cursor)
    requires cursor.Running? && cursor.target < |charged.nodes| && after == After(facts, cursor, instruction) && after.Running?
    requires !Named(facts, cursor, instruction) && !Taken(facts, cursor.key, instruction)
    ensures var next := Instruct(facts, charged, cursor.(index := cursor.index + 1), instruction);
            && next.cursor == after && next.work == charged.work && next.remaining == charged.remaining
            && next.visiting == charged.visiting && next.shared == charged.shared
            && next.limits <= charged.limits + {StructuralRecovery}
  {
  }

  lemma TakenFunded(facts: Facts, charged: Solver, plan: seq<nat>, fuel: nat, cursor: Cursor, instruction: Instruction,
                    after: Cursor, left: nat) returns (plan': seq<nat>)
    requires cursor.Running? && cursor.target < |charged.nodes| && after == After(facts, cursor, instruction) && after.Running?
    requires Taken(facts, cursor.key, instruction) && InstructionVerdict(facts, fuel, cursor.(target := 0), instruction).Some?
    requires RestVerdict(facts, fuel, after.(target := 0)).Some? && left == RestCost(facts, fuel, after.(target := 0))
    requires Covers(facts, charged, plan, fuel, InstructionCost(facts, fuel, cursor.(target := 0), instruction) + left)
    ensures Funded(facts, Instruct(facts, charged, cursor.(index := cursor.index + 1), instruction), plan', fuel)
  {
    var next := Instruct(facts, charged, cursor.(index := cursor.index + 1), instruction);
    var task := TakenTask(facts, fuel, cursor, instruction);
    TakenLeaves(facts, charged, cursor, instruction, task, after);
    PushCovers(facts, charged, plan, fuel, TaskCost(facts, fuel - 1, task) + left, next, fuel - 1, task, left);
    plan' := plan + [fuel - 1];
    CoversFund(facts, next, plan', fuel, left);
  }

  /** The task a taken guard leaves, and what it costs. */
  lemma TakenTask(facts: Facts, fuel: nat, cursor: Cursor, instruction: Instruction) returns (task: Task)
    requires cursor.Running? && Taken(facts, cursor.key, instruction)
    requires InstructionVerdict(facts, fuel, cursor.(target := 0), instruction).Some?
    ensures task == Block(cursor.program, instruction.block, cursor.schema, cursor.key, cursor.target)
    ensures fuel > 0 && Fuelled(facts, fuel - 1, task)
    ensures InstructionCost(facts, fuel, cursor.(target := 0), instruction) == TaskCost(facts, fuel - 1, task)
  {
    task := Block(cursor.program, instruction.block, cursor.schema, cursor.key, cursor.target);
    assert Origin(task) == Beginning(cursor.program, instruction.block, cursor.schema, cursor.key);
  }

  lemma TakenLeaves(facts: Facts, charged: Solver, cursor: Cursor, instruction: Instruction, task: Task, after: Cursor)
    requires cursor.Running? && cursor.target < |charged.nodes| && after == After(facts, cursor, instruction)
    requires Taken(facts, cursor.key, instruction)
    requires task == Block(cursor.program, instruction.block, cursor.schema, cursor.key, cursor.target)
    ensures Instruct(facts, charged, cursor.(index := cursor.index + 1), instruction)
            == charged.(work := charged.work + [task], cursor := after)
  {
  }

  /** Back at work on the block: what is owed is what the block may still cost. */
  lemma CoversFund(facts: Facts, s: Solver, plan: seq<nat>, fuel: nat, left: nat)
    requires Covers(facts, s, plan, fuel, left) && s.cursor.Running?
    requires RestVerdict(facts, fuel, s.cursor.(target := 0)).Some? && left == RestCost(facts, fuel, s.cursor.(target := 0))
    ensures Funded(facts, s, plan, fuel)
  {
  }

  lemma NamedFunded(facts: Facts, charged: Solver, plan: seq<nat>, fuel: nat, cursor: Cursor, instruction: Instruction,
                    after: Cursor, left: nat) returns (plan': seq<nat>)
    requires cursor.Running? && cursor.target < |charged.nodes| && after == After(facts, cursor, instruction) && after.Running?
    requires Named(facts, cursor, instruction) && InstructionVerdict(facts, fuel, cursor.(target := 0), instruction).Some?
    requires RestVerdict(facts, fuel, after.(target := 0)).Some? && left == RestCost(facts, fuel, after.(target := 0))
    requires Covers(facts, charged, plan, fuel, InstructionCost(facts, fuel, cursor.(target := 0), instruction) + left)
    ensures Funded(facts, Instruct(facts, charged, cursor.(index := cursor.index + 1), instruction), plan', fuel)
  {
    var at := cursor.(target := 0);
    assert after == cursor.(index := cursor.index + 1);
    var spelling := facts.text(instruction.key, cursor.key.values).value;
    var fields := facts.candidates(cursor.schema, spelling, instruction.operand.BlockOperand?);
    var started := charged.(nodes := Add(charged.nodes, cursor.target, Any([])), cursor := after);
    SameFieldsCost(facts, fuel, at, after.(target := 0), instruction.operand, spelling, fields);
    plan' := FieldsCover(facts, started, plan, after, instruction.operand, spelling, |charged.nodes|, fields, fuel, left);
    FieldsKeepCursor(facts, started, after, instruction.operand, spelling, |charged.nodes|, fields);
    CoversFund(facts, Instruct(facts, charged, cursor.(index := cursor.index + 1), instruction), plan', fuel, left);
  }

  // ----- Tasks -----

  /** A call cannot be one that is still open. */
  lemma NotVisiting(facts: Facts, s: Solver, rest: seq<Task>, key: StateKey, target: nat, fuel: nat)
    requires Open(s.work, s.visiting) && s.work == rest + [Call(key, target)]
    requires Clear(facts, rest, fuel) && CallVerdict(facts, fuel, key).Some?
    ensures key !in s.visiting
  {
    assert Exit(key) in s.work ==> Exit(key) in rest;
  }

  lemma CallFunded(facts: Facts, s: Solver, plan: seq<nat>, rest: seq<Task>, key: StateKey, target: nat)
    returns (plan': seq<nat>)
    requires Funded(facts, s, plan, 0) && s.cursor.Idle? && s.work == rest + [Call(key, target)] && s.remaining > 0
    requires target < |s.nodes|
    ensures Funded(facts, EnterCall(facts, s.(remaining := s.remaining - 1, work := rest), key, target), plan', 0)
  {
    var popped := s.(remaining := s.remaining - 1, work := rest);
    var fuel := plan[|rest|];
    PlanLess(facts, plan, s.work, rest, Call(key, target));
    NotVisiting(facts, s, rest, key, target, fuel);
    OpenLess(s.work, rest, Call(key, target), s.visiting);
    if key !in s.memo && (s.shared.None? || key !in s.shared.value) && facts.definition(key.kind, key.name).Some? {
      var definition := facts.definition(key.kind, key.name).value;
      var body := Block(definition.program, 0, definition.schema, key, |s.nodes|);
      FreshEntered(facts, popped, key, target, definition, body);
      plan' := FreshFunded(facts, popped, plan[..|rest|], fuel, key, body, EnterCall(facts, popped, key, target));
    } else {
      plan' := plan[..|rest|];
      KnownFunded(facts, popped, plan', key, target);
    }
  }

  lemma KnownFunded(facts: Facts, popped: Solver, plan: seq<nat>, key: StateKey, target: nat)
    requires Funded(facts, popped, plan, 0) && popped.cursor.Idle? && target < |popped.nodes| && key !in popped.visiting
    requires key in popped.memo || (popped.shared.Some? && key in popped.shared.value) || facts.definition(key.kind, key.name).None?
    ensures Funded(facts, EnterCall(facts, popped, key, target), plan, 0)
  {
  }

  lemma FreshFunded(facts: Facts, popped: Solver, plan: seq<nat>, fuel: nat, key: StateKey, body: Task, next: Solver)
    returns (plan': seq<nat>)
    requires Plans(facts, plan, popped.work) && Safe(facts, plan, popped.work) && Clear(facts, popped.work, fuel)
    requires CallVerdict(facts, fuel, key).Some? && facts.definition(key.kind, key.name).Some? && body.Block?
    requires var definition := facts.definition(key.kind, key.name).value;
             Origin(body) == Beginning(definition.program, 0, definition.schema, key)
    requires Budget(facts, plan, popped.work) + CallCost(facts, fuel, key) <= popped.remaining + 1
    requires Open(popped.work, popped.visiting) && Complete(popped.limits) && SharedComplete(popped.shared)
    requires next.work == popped.work + [Exit(key)] + [body] && next.visiting == popped.visiting + {key}
    requires next.limits == popped.limits && next.shared == popped.shared && next.cursor.Idle?
    requires next.remaining == popped.remaining
    ensures Funded(facts, next, plan', 0)
  {
    BodyFunded(facts, plan, popped.work, fuel, key, body);
    plan' := plan + [0] + [Least(facts, fuel, key) - 1];
    OpenBody(popped.work, popped.visiting, key, body);
  }

  lemma OpenBody(rest: seq<Task>, visiting: set<StateKey>, key: StateKey, body: Task)
    requires Open(rest, visiting)
    ensures Open(rest + [Exit(key)] + [body], visiting + {key})
  {
  }

  lemma FreshEntered(facts: Facts, popped: Solver, key: StateKey, target: nat, definition: Definition, body: Task)
    requires target < |popped.nodes| && facts.definition(key.kind, key.name) == Some(definition)
    requires key !in popped.visiting && key !in popped.memo && (popped.shared.None? || key !in popped.shared.value)
    requires body == Block(definition.program, 0, definition.schema, key, |popped.nodes|)
    ensures var next := EnterCall(facts, popped, key, target);
            && next.work == popped.work + [Exit(key)] + [body] && next.visiting == popped.visiting + {key}
            && next.limits == popped.limits && next.shared == popped.shared && next.cursor == popped.cursor
            && next.remaining == popped.remaining
  {
  }

  lemma OpenLess(work: seq<Task>, rest: seq<Task>, task: Task, visiting: set<StateKey>)
    requires Open(work, visiting) && work == rest + [task]
    ensures Open(rest, if task.Exit? then visiting - {task.key} else visiting)
  {
    forall key | key in visiting && (task.Exit? ==> key != task.key)
      ensures Exit(key) in rest
    {
      assert Exit(key) in work;
    }
  }

  /** The body of a new call runs on less than the least fuel of the call, so it cannot call it again. */
  lemma BodyFunded(facts: Facts, plan: seq<nat>, rest: seq<Task>, fuel: nat, key: StateKey, body: Task)
    requires Plans(facts, plan, rest) && Safe(facts, plan, rest) && Clear(facts, rest, fuel)
    requires facts.definition(key.kind, key.name).Some? && CallVerdict(facts, fuel, key).Some? && body.Block?
    requires var definition := facts.definition(key.kind, key.name).value;
             Origin(body) == Beginning(definition.program, 0, definition.schema, key)
    ensures var least := Least(facts, fuel, key);
            && least > 0
            && Plans(facts, plan + [0] + [least - 1], rest + [Exit(key)] + [body])
            && Safe(facts, plan + [0] + [least - 1], rest + [Exit(key)] + [body])
            && Budget(facts, plan + [0] + [least - 1], rest + [Exit(key)] + [body]) + 1
               == Budget(facts, plan, rest) + CallCost(facts, fuel, key)
  {
    var least := Least(facts, fuel, key);
    var exit := Exit(key);
    CallCostIs(facts, fuel, key, body);
    PlanMore(facts, plan, rest, 0, exit);
    ClearBelow(facts, rest, fuel, least - 1);
    ClearExit(facts, rest, least - 1, key);
    PlanMore(facts, plan + [0], rest + [exit], least - 1, body);
  }

  lemma CallCostIs(facts: Facts, fuel: nat, key: StateKey, body: Task)
    requires facts.definition(key.kind, key.name).Some? && CallVerdict(facts, fuel, key).Some? && body.Block?
    requires var definition := facts.definition(key.kind, key.name).value;
             Origin(body) == Beginning(definition.program, 0, definition.schema, key)
    ensures var least := Least(facts, fuel, key);
            && 0 < least <= fuel && CallVerdict(facts, least - 1, key).None? && Fuelled(facts, least - 1, body)
            && CallCost(facts, fuel, key) == 2 + TaskCost(facts, least - 1, body)
  {
  }

  lemma ClearExit(facts: Facts, rest: seq<Task>, fuel: nat, key: StateKey)
    requires Clear(facts, rest, fuel) && CallVerdict(facts, fuel, key).None?
    ensures Clear(facts, rest + [Exit(key)], fuel)
  {
  }

  lemma ExitFunded(facts: Facts, s: Solver, plan: seq<nat>, rest: seq<Task>, key: StateKey)
    requires Funded(facts, s, plan, 0) && s.cursor.Idle? && s.work == rest + [Exit(key)] && s.remaining > 0
    ensures Funded(facts, Leave(s.(remaining := s.remaining - 1, work := rest), key), plan[..|rest|], 0)
  {
    PlanLess(facts, plan, s.work, rest, Exit(key));
    OpenLess(s.work, rest, Exit(key), s.visiting);
  }

  lemma BlockFunded(facts: Facts, s: Solver, plan: seq<nat>, rest: seq<Task>, task: Task)
    requires Funded(facts, s, plan, 0) && s.cursor.Idle? && s.work == rest + [task] && s.remaining > 0 && task.Block?
    ensures var running := Running(task.program, task.block, 0, task.schema, task.key, task.target, false);
            Funded(facts, s.(remaining := s.remaining - 1, work := rest, cursor := running), plan[..|rest|], plan[|rest|])
  {
    PlanLess(facts, plan, s.work, rest, task);
    OpenLess(s.work, rest, task, s.visiting);
  }

  // ----- The run -----

  lemma HasBudget(facts: Facts, s: Solver, plan: seq<nat>, fuel: nat)
    requires Funded(facts, s, plan, fuel) && if s.cursor.Running? then !AtEnd(s.cursor) else s.work != []
    ensures s.remaining > 0
  {
    if s.cursor.Running? {
      Unrolls(facts, fuel, s.cursor, Instructions(s.cursor.program, s.cursor.block)[s.cursor.index]);
    }
  }

  lemma NextFunded(facts: Facts, s: Solver, plan: seq<nat>, fuel: nat) returns (plan': seq<nat>, fuel': nat)
    requires Wellformed(s) && Funded(facts, s, plan, fuel) && s.remaining > 0
    requires if s.cursor.Running? then !AtEnd(s.cursor) else s.work != []
    ensures Funded(facts, Next(facts, s), plan', fuel')
  {
    if s.cursor.Running? {
      plan' := InstructFunded(facts, s, plan, fuel, Instructions(s.cursor.program, s.cursor.block)[s.cursor.index]);
      fuel' := fuel;
    } else {
      var rest, task := s.work[..|s.work| - 1], s.work[|s.work| - 1];
      NextPerforms(facts, s, rest, task);
      plan', fuel' := TaskFunded(facts, s, plan, rest, task);
    }
  }

  lemma NextPerforms(facts: Facts, s: Solver, rest: seq<Task>, task: Task)
    requires Wellformed(s) && s.remaining > 0 && s.cursor.Idle? && s.work != []
    requires rest == s.work[..|s.work| - 1] && task == s.work[|s.work| - 1]
    ensures s.work == rest + [task] && TaskTarget(s.nodes, task)
    ensures Next(facts, s) == Perform(facts, s.(remaining := s.remaining - 1, work := rest), task)
  {
    PopWellformed(s);
  }

  lemma TaskFunded(facts: Facts, s: Solver, plan: seq<nat>, rest: seq<Task>, task: Task) returns (plan': seq<nat>, fuel': nat)
    requires Funded(facts, s, plan, 0) && s.remaining > 0 && s.cursor.Idle? && s.work == rest + [task]
    requires TaskTarget(s.nodes, task)
    ensures Funded(facts, Perform(facts, s.(remaining := s.remaining - 1, work := rest), task), plan', fuel')
  {
    match task
    case Exit(key) =>
      ExitFunded(facts, s, plan, rest, key);
      plan', fuel' := plan[..|rest|], 0;
    case Call(key, target) =>
      plan' := CallFunded(facts, s, plan, rest, key, target);
      fuel' := 0;
    case Block(_, _, _, _, _) =>
      BlockFunded(facts, s, plan, rest, task);
      plan', fuel' := plan[..|rest|], plan[|rest|];
  }

  lemma {:induction false} FundedCompletes(facts: Facts, s: Solver, plan: seq<nat>, fuel: nat)
    requires Wellformed(s) && Funded(facts, s, plan, fuel)
    ensures Complete(Drain(facts, s).limits)
    decreases s.remaining, if s.cursor.Running? then 1 else 0
  {
    if AtEnd(s.cursor) {
      FundedCompletes(facts, s.(cursor := Idle), plan, fuel);
    } else if !(s.cursor.Idle? && s.work == []) {
      HasBudget(facts, s, plan, fuel);
      NextLowers(facts, s);
      var plan', fuel' := NextFunded(facts, s, plan, fuel);
      FundedCompletes(facts, Next(facts, s), plan', fuel');
    }
  }

  /** With enough allowance, every run of a call that has a verdict is complete, and folds to that verdict. */
  lemma VerdictIsReached(facts: Facts, key: StateKey, verdict: Validation, shared: Option<map<StateKey, ScopeMemo>>)
    returns (enough: nat)
    requires CallMeans(facts, key, verdict) && SharedHolds(facts, shared) && SharedComplete(shared)
    ensures forall allowance: nat :: enough <= allowance ==> Decides(facts, key, allowance, shared, verdict)
  {
    var fuel: nat :| CallVerdict(facts, fuel, key) == Some(verdict);
    enough := CallCost(facts, fuel, key);
    forall allowance: nat | enough <= allowance
      ensures Decides(facts, key, allowance, shared, verdict)
    {
      var start := Start(key, allowance, shared);
      StartSound(facts, key, allowance, shared);
      assert start.work[..0] == [];
      assert Budget(facts, [], []) == 0;
      assert Budget(facts, [fuel], start.work) == enough;
      FundedCompletes(facts, start, [fuel], 0);
      RunMeans(facts, key, allowance, shared);
      CallMeansOnce(facts, key, verdict, VerdictOf(Drain(facts, start).nodes, 0));
    }
  }

  /** A complete run whose arena folds to the verdict. */
  ghost predicate Decides(facts: Facts, key: StateKey, allowance: nat, shared: Option<map<StateKey, ScopeMemo>>,
                          verdict: Validation) {
    && Wellformed(Start(key, allowance, shared))
    && var end := Drain(facts, Start(key, allowance, shared));
       Complete(end.limits) && VerdictOf(end.nodes, 0) == verdict
  }

  /** The solver decides exactly the calls that have a verdict, and decides them right. */
  lemma SolverIsExact(facts: Facts, key: StateKey, verdict: Validation, shared: Option<map<StateKey, ScopeMemo>>)
    requires SharedHolds(facts, shared) && SharedComplete(shared)
    ensures CallMeans(facts, key, verdict) <==> exists allowance: nat :: Decides(facts, key, allowance, shared, verdict)
  {
    if CallMeans(facts, key, verdict) {
      var enough := VerdictIsReached(facts, key, verdict, shared);
      assert Decides(facts, key, enough, shared, verdict);
    }
    if allowance: nat :| Decides(facts, key, allowance, shared, verdict) {
      RunMeans(facts, key, allowance, shared);
    }
  }

  /** A rejection is right in every run, however early its budget ended it: the call has no other verdict. */
  lemma RejectionIsRight(facts: Facts, key: StateKey, allowance: nat, shared: Option<map<StateKey, ScopeMemo>>, verdict: Validation)
    requires SharedHolds(facts, shared) && SharedComplete(shared) && Wellformed(Start(key, allowance, shared))
    requires Solution(facts, Start(key, allowance, shared)) == Invalid && CallMeans(facts, key, verdict)
    ensures verdict == Invalid
  {
    var enough := VerdictIsReached(facts, key, verdict, shared);
    var rich := Max(allowance, enough);
    assert Decides(facts, key, rich, shared, verdict);
    TruncationSound(facts, Start(key, allowance, shared), Start(key, rich, shared));
  }
}
