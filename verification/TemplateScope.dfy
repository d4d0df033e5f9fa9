/** Entry-scope solving: one machine step is one charge against the node budget, either popping a task
    or running one instruction of the block at hand. */
module TemplateScope {
  import opened Kleene
  import opened Arena
  import opened Options

  datatype StateKey = StateKey(kind: nat, name: nat, values: map<nat, nat>, present: Option<set<nat>>, state: nat)

  datatype Operand = ScalarOperand(token: nat) | BlockOperand(block: nat)

  datatype Instruction =
    | Recover
    | Consume(token: nat)
    | When(name: nat, negated: bool, block: nat)
    | Dispatch(key: nat, operand: Operand)

  type Program = seq<seq<Instruction>>

  datatype Definition = Definition(program: Program, schema: nat)

  /** Rule data and symbol facts, uninterpreted. */
  datatype Facts = Facts(
    definition: (nat, nat) -> Option<Definition>,
    text: (nat, map<nat, nat>) -> Option<nat>,
    lower: nat -> nat,
    hasItems: nat -> bool,
    candidates: (nat, nat, bool) -> seq<nat>,
    fieldScope: (nat, nat) -> Validation,
    linked: nat -> bool,
    linkVerdict: (nat, nat, nat) -> Validation,
    callee: nat -> Option<nat>,
    child: (nat, nat) -> Option<nat>,
    displayOnly: nat -> bool,
    transition: (nat, nat, nat) -> nat
  )

  datatype Limit = Nodes | RecursiveState | UnavailableTemplate | StructuralRecovery

  datatype ScopeMemo = ScopeMemo(value: Validation, limits: set<Limit>, conditions: set<nat>, dynamic: bool)

  datatype Task =
    | Call(key: StateKey, target: nat)
    | Exit(key: StateKey)
    | Block(program: Program, block: nat, schema: nat, key: StateKey, target: nat)

  /** The block being run: its next instruction and whether earlier ones left the structure uncertain. */
  datatype Cursor = Idle | Running(program: Program, block: nat, index: nat, schema: nat, key: StateKey, target: nat, uncertain: bool)

  datatype Solver = Solver(
    nodes: seq<Node>,
    memo: map<StateKey, nat>,
    visiting: set<StateKey>,
    work: seq<Task>,
    cursor: Cursor,
    remaining: nat,
    limits: set<Limit>,
    conditions: set<nat>,
    dynamic: bool,
    shared: Option<map<StateKey, ScopeMemo>>
  )

  function Instructions(program: Program, block: nat): seq<Instruction> {
    if block < |program| then program[block] else []
  }

  predicate AtEnd(cursor: Cursor) {
    cursor.Running? && cursor.index >= |Instructions(cursor.program, cursor.block)|
  }

  // ----- Call arguments -----

  datatype Arguments = Arguments(values: map<nat, nat>, present: set<nat>, remaining: nat, cut: bool)

  function Argument(facts: Facts, key: StateKey, instruction: Instruction, found: Arguments): Arguments {
    if !instruction.Dispatch? then found
    else match facts.text(instruction.key, key.values)
      case None => found
      case Some(name) =>
        var present := found.present + {facts.lower(name)};
        if instruction.operand.BlockOperand? then found.(present := present)
        else match facts.text(instruction.operand.token, key.values)
          case None => found.(present := present)
          case Some(text) => found.(present := present, values := found.values[facts.lower(name) := text])
  }

  predicate Taken(facts: Facts, key: StateKey, instruction: Instruction) {
    instruction.When? && key.present.Some? &&
    (facts.lower(instruction.name) in key.present.value) != instruction.negated
  }

  /** Collects the arguments of a call block, following the guards that are known to be taken. Each
      instruction is charged; running out abandons the block at hand. */
  function Collect(facts: Facts, program: Program, key: StateKey, pending: seq<nat>, at: Option<(nat, nat)>,
                   found: Arguments): Arguments
    decreases found.remaining, |pending|, if at.Some? then 1 else 0
  {
    match at
    case None =>
      if pending == [] then found
      else Collect(facts, program, key, pending[..|pending| - 1], Some((pending[|pending| - 1], 0)), found)
    case Some((block, index)) =>
      var instructions := Instructions(program, block);
      if index >= |instructions| then Collect(facts, program, key, pending, None, found)
      else if found.remaining == 0 then Collect(facts, program, key, pending, None, found.(cut := true))
      else
        var instruction := instructions[index];
        var charged := Argument(facts, key, instruction, found.(remaining := found.remaining - 1));
        var pending' := if Taken(facts, key, instruction) then pending + [instruction.block] else pending;
        assert charged.remaining == found.remaining - 1;
        Collect(facts, program, key, pending', Some((block, index + 1)), charged)
  }

  function CallArguments(facts: Facts, cursor: Cursor, operand: Operand, remaining: nat): Arguments
    requires cursor.Running?
  {
    var none := Arguments(map[], {}, remaining, false);
    if operand.ScalarOperand? then none
    else Collect(facts, cursor.program, cursor.key, [operand.block], None, none)
  }

  // ----- One instruction -----

  function Allowed(facts: Facts, field: nat, key: StateKey, spelling: nat): Validation {
    var scope := facts.fieldScope(field, key.state);
    if !facts.linked(field) then scope
    else
      var link := facts.linkVerdict(field, spelling, key.state);
      if link == Invalid || scope == Invalid then Invalid
      else if link == Unknown then Unknown
      else scope
  }

  /** One alternative: a row holding whether its scope is allowed, and the task that continues it. */
  function FieldStep(facts: Facts, solver: Solver, cursor: Cursor, operand: Operand, spelling: nat, alternatives: nat,
                     field: nat): Solver
    requires cursor.Running? && alternatives < |solver.nodes|
  {
    var row := |solver.nodes|;
    var allowed := Allowed(facts, field, cursor.key, spelling);
    var next := solver.(nodes := Add(Add(solver.nodes, alternatives, All([])), row, Value(allowed)));
    if allowed == Invalid then next
    else match facts.callee(field)
      case Some(kind) =>
        var arguments := CallArguments(facts, cursor, operand, solver.remaining);
        var callee := StateKey(kind, facts.lower(spelling), arguments.values, Some(arguments.present), cursor.key.state);
        next.(work := solver.work + [Call(callee, row)], remaining := arguments.remaining,
              limits := if arguments.cut then solver.limits + {Nodes} else solver.limits)
      case None =>
        if operand.BlockOperand? && facts.child(field, cursor.schema).Some? && !facts.displayOnly(field) then
          var key := cursor.key.(state := facts.transition(cursor.key.state, field, spelling));
          next.(work := solver.work +
                        [Block(cursor.program, operand.block, facts.child(field, cursor.schema).value, key, row)])
        else next
  }

  function FieldSteps(facts: Facts, solver: Solver, cursor: Cursor, operand: Operand, spelling: nat, alternatives: nat,
                      fields: seq<nat>): Solver
    requires cursor.Running? && alternatives < |solver.nodes|
    decreases fields
  {
    if fields == [] then solver
    else
      FieldSteps(facts, FieldStep(facts, solver, cursor, operand, spelling, alternatives, fields[0]),
                 cursor, operand, spelling, alternatives, fields[1..])
  }

  predicate Structural(instruction: Instruction) {
    instruction.Consume? || instruction.Recover?
  }

  /** Some block of the program holds a structural instruction. */
  predicate Opaque(program: Program) {
    exists block :: block in program && exists instruction :: instruction in block && Structural(instruction)
  }

  /** Runs one instruction whose charge is already paid. */
  function Instruct(facts: Facts, solver: Solver, cursor: Cursor, instruction: Instruction): Solver
    requires cursor.Running? && cursor.target < |solver.nodes|
  {
    var target := cursor.target;
    var unknown := Add(solver.nodes, target, Value(Unknown));
    match instruction
    case Recover =>
      solver.(nodes := unknown, limits := solver.limits + {StructuralRecovery}, cursor := cursor.(uncertain := true))
    case Consume(token) =>
      var next := solver.(cursor := cursor.(uncertain := cursor.uncertain || !facts.hasItems(cursor.schema)));
      if facts.text(token, cursor.key.values).None? then next.(nodes := unknown, dynamic := true) else next
    case When(name, negated, block) =>
      if cursor.key.present.Some? then
        if Taken(facts, cursor.key, instruction) then
          solver.(work := solver.work + [Block(cursor.program, block, cursor.schema, cursor.key, target)], cursor := cursor)
        else solver.(cursor := cursor)
      else
        solver.(conditions := solver.conditions + {name},
                cursor := cursor.(uncertain := cursor.uncertain || Opaque(cursor.program)))
    case Dispatch(key, operand) =>
      if cursor.uncertain then solver.(nodes := unknown, cursor := cursor)
      else match facts.text(key, cursor.key.values)
        case None => solver.(nodes := unknown, dynamic := true, cursor := cursor.(uncertain := true))
        case Some(spelling) =>
          var fields := facts.candidates(cursor.schema, spelling, operand.BlockOperand?);
          if fields == [] then solver.(cursor := cursor)
          else
            var started := solver.(nodes := Add(solver.nodes, target, Any([])), cursor := cursor);
            FieldSteps(facts, started, cursor, operand, spelling, |solver.nodes|, fields)
  }

  // ----- Tasks and the run -----

  /** The verdict the arena gives a node so far. */
  ghost function VerdictOf(nodes: seq<Node>, id: nat): Validation {
    if Acyclic(nodes) && id < |nodes| then Eval(nodes, map[], id) else Unknown
  }

  ghost function Leave(solver: Solver, key: StateKey): Solver {
    var done := solver.(visiting := solver.visiting - {key});
    if key !in solver.memo then done
    else
      var id := solver.memo[key];
      var verdict := VerdictOf(solver.nodes, id);
      var collapsed := done.(nodes := if id < |solver.nodes| then solver.nodes[id := Value(verdict)] else solver.nodes);
      if solver.limits == {} && solver.shared.Some? then
        collapsed.(shared := Some(solver.shared.value[key := ScopeMemo(verdict, {}, solver.conditions, solver.dynamic)]))
      else collapsed
  }

  function EnterCall(facts: Facts, solver: Solver, key: StateKey, target: nat): Solver
    requires target < |solver.nodes|
  {
    var unknown := Add(solver.nodes, target, Value(Unknown));
    if key in solver.visiting then
      solver.(nodes := unknown, limits := solver.limits + {RecursiveState})
    else if key in solver.memo then
      if solver.nodes[target].All? then
        solver.(nodes := solver.nodes[target := All(solver.nodes[target].children + [solver.memo[key]])])
      else solver
    else if solver.shared.Some? && key in solver.shared.value then
      var cached := solver.shared.value[key];
      solver.(nodes := Add(solver.nodes, target, Value(cached.value)), limits := solver.limits + cached.limits,
              conditions := solver.conditions + cached.conditions, dynamic := solver.dynamic || cached.dynamic)
    else match facts.definition(key.kind, key.name)
      case None => solver.(nodes := unknown, limits := solver.limits + {UnavailableTemplate})
      case Some(definition) =>
        var body := |solver.nodes|;
        solver.(nodes := Add(solver.nodes, target, All([])), memo := solver.memo[key := body],
                visiting := solver.visiting + {key},
                work := solver.work + [Exit(key), Block(definition.program, 0, definition.schema, key, body)])
  }

  /** One charged step. */
  ghost function Next(facts: Facts, solver: Solver): (next: Solver)
    requires Wellformed(solver) && solver.remaining > 0
    requires if solver.cursor.Running? then !AtEnd(solver.cursor) else solver.work != []
    ensures next.remaining < solver.remaining
  {
    var charged := solver.(remaining := solver.remaining - 1);
    if solver.cursor.Running? then
      var cursor := solver.cursor;
      var instruction := Instructions(cursor.program, cursor.block)[cursor.index];
      InstructCharges(facts, charged, cursor.(index := cursor.index + 1), instruction);
      Instruct(facts, charged, cursor.(index := cursor.index + 1), instruction)
    else
      var task := solver.work[|solver.work| - 1];
      var popped := charged.(work := solver.work[..|solver.work| - 1]);
      assert task in solver.work && TaskTarget(solver.nodes, task);
      Perform(facts, popped, task)
  }

  /** One task off the stack. */
  ghost function Perform(facts: Facts, popped: Solver, task: Task): Solver
    requires TaskTarget(popped.nodes, task)
  {
    match task
    case Exit(key) => Leave(popped, key)
    case Call(key, target) => EnterCall(facts, popped, key, target)
    case Block(program, block, schema, key, target) =>
      popped.(cursor := Running(program, block, 0, schema, key, target, false))
  }

  predicate TaskTarget(nodes: seq<Node>, task: Task) {
    task.Exit? || (task.target < |nodes| && !nodes[task.target].Any?)
  }

  ghost predicate Wellformed(solver: Solver) {
    && Forward(solver.nodes) && solver.nodes != [] && solver.nodes[0].All?
    && (forall task :: task in solver.work ==> TaskTarget(solver.nodes, task))
    && (solver.cursor.Running? ==> solver.cursor.target < |solver.nodes| && !solver.nodes[solver.cursor.target].Any?)
    && (forall key :: key in solver.memo ==>
          && 0 < solver.memo[key] < |solver.nodes| && !solver.nodes[solver.memo[key]].Any?
          && (key in solver.visiting || solver.nodes[solver.memo[key]].Value?))
  }

  lemma {:induction false} CollectCharges(facts: Facts, program: Program, key: StateKey, pending: seq<nat>,
                                          at: Option<(nat, nat)>, found: Arguments)
    ensures Collect(facts, program, key, pending, at, found).remaining <= found.remaining
    ensures found.cut ==> Collect(facts, program, key, pending, at, found).cut
    decreases found.remaining, |pending|, if at.Some? then 1 else 0
  {
    match at
    case None =>
      if pending != [] {
        CollectCharges(facts, program, key, pending[..|pending| - 1], Some((pending[|pending| - 1], 0)), found);
      }
    case Some((block, index)) =>
      var instructions := Instructions(program, block);
      if index >= |instructions| {
        CollectCharges(facts, program, key, pending, None, found);
      } else if found.remaining == 0 {
        CollectCharges(facts, program, key, pending, None, found.(cut := true));
      } else {
        var instruction := instructions[index];
        var charged := Argument(facts, key, instruction, found.(remaining := found.remaining - 1));
        var pending' := if Taken(facts, key, instruction) then pending + [instruction.block] else pending;
        CollectCharges(facts, program, key, pending', Some((block, index + 1)), charged);
      }
  }

  lemma FieldStepsCharge(facts: Facts, solver: Solver, cursor: Cursor, operand: Operand, spelling: nat, alternatives: nat,
                         fields: seq<nat>)
    requires cursor.Running? && alternatives < |solver.nodes|
    ensures FieldSteps(facts, solver, cursor, operand, spelling, alternatives, fields).remaining <= solver.remaining
    decreases fields
  {
    if fields != [] {
      var next := FieldStep(facts, solver, cursor, operand, spelling, alternatives, fields[0]);
      if operand.BlockOperand? {
        CollectCharges(facts, cursor.program, cursor.key, [operand.block], None, Arguments(map[], {}, solver.remaining, false));
      }
      FieldStepsCharge(facts, next, cursor, operand, spelling, alternatives, fields[1..]);
    }
  }

  lemma InstructCharges(facts: Facts, solver: Solver, cursor: Cursor, instruction: Instruction)
    requires cursor.Running? && cursor.target < |solver.nodes|
    ensures Instruct(facts, solver, cursor, instruction).remaining <= solver.remaining
  {
    match instruction
    case Dispatch(key, operand) =>
      match facts.text(key, cursor.key.values) {
        case None =>
        case Some(spelling) =>
          var fields := facts.candidates(cursor.schema, spelling, operand.BlockOperand?);
          var started := solver.(nodes := Add(solver.nodes, cursor.target, Any([])), cursor := cursor);
          FieldStepsCharge(facts, started, cursor, operand, spelling, |solver.nodes|, fields);
      }
    case _ =>
  }

  // ----- Every step only lowers verdicts -----

  /** The arena grew by new nodes; at most `parent`, an `All`, took new children. */
  ghost predicate Extended(before: seq<Node>, nodes: seq<Node>, parent: nat) {
    && parent < |before| <= |nodes|
    && (forall i: nat :: i < |before| && i != parent ==> nodes[i] == before[i])
    && (nodes[parent] == before[parent]
        || (before[parent].All? && nodes[parent].All? && before[parent].children <= nodes[parent].children))
  }

  lemma ExtendedLowers(before: seq<Node>, nodes: seq<Node>, parent: nat, id: nat)
    requires Forward(before) && Forward(nodes) && Extended(before, nodes, parent) && id < |before|
    ensures Acyclic(before) && Acyclic(nodes)
    ensures Holds(Lower, Eval(nodes, map[], id), Eval(before, map[], id))
  {
    ForwardIsAcyclic(before);
    ForwardIsAcyclic(nodes);
    if nodes[parent] == before[parent] {
      Transfer(Same, before, map[], nodes, map[], {}, id);
    } else {
      var added := nodes[parent].children[|before[parent].children|..];
      assert nodes[parent].children == before[parent].children + added;
      GrowthLowers(before, nodes, parent, added, id);
    }
  }

  /** What a step may do to the arena: verdicts of old nodes move no closer to acceptance. */
  ghost predicate Lowered(before: seq<Node>, nodes: seq<Node>) {
    && Forward(before) && Forward(nodes) && Acyclic(before) && Acyclic(nodes) && |before| <= |nodes|
    && forall id: nat :: id < |before| ==> Holds(Lower, Eval(nodes, map[], id), Eval(before, map[], id))
  }

  lemma ExtensionLowers(before: seq<Node>, nodes: seq<Node>, parent: nat)
    requires Forward(before) && Forward(nodes) && Extended(before, nodes, parent)
    ensures Lowered(before, nodes)
  {
    ForwardIsAcyclic(before);
    ForwardIsAcyclic(nodes);
    forall id: nat | id < |before|
      ensures Holds(Lower, Eval(nodes, map[], id), Eval(before, map[], id))
    {
      ExtendedLowers(before, nodes, parent, id);
    }
  }

  /** A partial dispatch: everything written so far hangs under `alternatives`. */
  ghost predicate Dispatching(before: Solver, solver: Solver, target: nat, alternatives: nat) {
    && Wellformed(solver) && Extended(before.nodes, solver.nodes, target)
    && |before.nodes| <= alternatives < |solver.nodes| && solver.nodes[alternatives].Any?
  }

  /** What one alternative leaves: a row with a leaf under `alternatives`, and at most one task on that row. */
  ghost predicate FieldStepped(solver: Solver, next: Solver, alternatives: nat, leaf: Validation)
    requires alternatives < |solver.nodes|
  {
    var row := |solver.nodes|;
    && next.nodes == Add(Add(solver.nodes, alternatives, All([])), row, Value(leaf))
    && next.cursor == solver.cursor && next.memo == solver.memo && next.visiting == solver.visiting
    && forall task :: task in next.work ==> task in solver.work || (!task.Exit? && task.target == row)
  }

  lemma FieldStepIs(facts: Facts, solver: Solver, cursor: Cursor, operand: Operand, spelling: nat, alternatives: nat,
                    field: nat)
    requires cursor.Running? && alternatives < |solver.nodes|
    ensures FieldStepped(solver, FieldStep(facts, solver, cursor, operand, spelling, alternatives, field), alternatives,
                         Allowed(facts, field, cursor.key, spelling))
  {
  }

  lemma FieldSteppedSound(before: Solver, solver: Solver, next: Solver, target: nat, alternatives: nat, leaf: Validation)
    requires Dispatching(before, solver, target, alternatives) && FieldStepped(solver, next, alternatives, leaf)
    ensures Dispatching(before, next, target, alternatives)
  {
    var row := |solver.nodes|;
    AddKeepsForward(solver.nodes, alternatives, All([]));
    AddKeepsForward(Add(solver.nodes, alternatives, All([])), row, Value(leaf));
    assert forall i: nat :: i < row && i != alternatives ==> next.nodes[i] == solver.nodes[i];
    assert next.nodes[row].All? && next.nodes[alternatives].Any?;
    forall task | task in next.work
      ensures TaskTarget(next.nodes, task)
    {
      if task in solver.work {
        assert TaskTarget(solver.nodes, task);
      }
    }
  }

  lemma FieldStepSound(facts: Facts, before: Solver, solver: Solver, cursor: Cursor, operand: Operand, spelling: nat,
                       target: nat, alternatives: nat, field: nat)
    requires cursor.Running? && Dispatching(before, solver, target, alternatives)
    ensures Dispatching(before, FieldStep(facts, solver, cursor, operand, spelling, alternatives, field), target, alternatives)
  {
    FieldStepIs(facts, solver, cursor, operand, spelling, alternatives, field);
    FieldSteppedSound(before, solver, FieldStep(facts, solver, cursor, operand, spelling, alternatives, field), target,
                      alternatives, Allowed(facts, field, cursor.key, spelling));
  }

  lemma {:induction false} FieldStepsSound(facts: Facts, before: Solver, solver: Solver, cursor: Cursor, operand: Operand,
                                           spelling: nat, target: nat, alternatives: nat, fields: seq<nat>)
    requires cursor.Running? && Dispatching(before, solver, target, alternatives)
    ensures Dispatching(before, FieldSteps(facts, solver, cursor, operand, spelling, alternatives, fields), target, alternatives)
    decreases fields
  {
    if fields != [] {
      FieldStepSound(facts, before, solver, cursor, operand, spelling, target, alternatives, fields[0]);
      FieldStepsSound(facts, before, FieldStep(facts, solver, cursor, operand, spelling, alternatives, fields[0]),
                      cursor, operand, spelling, target, alternatives, fields[1..]);
    }
  }

  lemma AddSound(before: Solver, next: Solver, target: nat, node: Node)
    requires Wellformed(before) && target < |before.nodes| && !before.nodes[target].Any? && Children(node) == []
    requires next.nodes == Add(before.nodes, target, node)
    requires next.work == before.work && next.memo == before.memo && next.visiting == before.visiting
    requires next.cursor.Running? ==> next.cursor.target < |before.nodes| && !before.nodes[next.cursor.target].Any?
    ensures Wellformed(next) && Extended(before.nodes, next.nodes, target)
  {
    AddKeepsForward(before.nodes, target, node);
  }

  lemma InstructSound(facts: Facts, solver: Solver, cursor: Cursor, instruction: Instruction)
    requires cursor.Running? && Wellformed(solver) && cursor.target < |solver.nodes| && !solver.nodes[cursor.target].Any?
    ensures Wellformed(Instruct(facts, solver, cursor, instruction))
    ensures Extended(solver.nodes, Instruct(facts, solver, cursor, instruction).nodes, cursor.target)
  {
    var next := Instruct(facts, solver, cursor, instruction);
    var target := cursor.target;
    match instruction
    case Recover =>
      AddSound(solver, next, target, Value(Unknown));
    case Consume(token) =>
      if facts.text(token, cursor.key.values).None? {
        AddSound(solver, next, target, Value(Unknown));
      }
    case When(_, _, _) =>
      assert forall task :: task in next.work ==> task in solver.work || task.target == target;
    case Dispatch(key, operand) =>
      if cursor.uncertain || facts.text(key, cursor.key.values).None? {
        AddSound(solver, next, target, Value(Unknown));
      } else {
        var spelling := facts.text(key, cursor.key.values).value;
        var fields := facts.candidates(cursor.schema, spelling, operand.BlockOperand?);
        if fields != [] {
          var started := solver.(nodes := Add(solver.nodes, target, Any([])), cursor := cursor);
          AddSound(solver, started, target, Any([]));
          FieldStepsSound(facts, solver, started, cursor, operand, spelling, target, |solver.nodes|, fields);
        }
      }
  }

  lemma EnterCallSound(facts: Facts, solver: Solver, key: StateKey, target: nat)
    requires Wellformed(solver) && solver.cursor.Idle? && target < |solver.nodes| && !solver.nodes[target].Any?
    ensures Wellformed(EnterCall(facts, solver, key, target))
    ensures Extended(solver.nodes, EnterCall(facts, solver, key, target).nodes, target)
  {
    var next := EnterCall(facts, solver, key, target);
    if key in solver.visiting {
      AddSound(solver, next, target, Value(Unknown));
    } else if key in solver.memo {
      forall p: nat, c: nat | Edge(next.nodes, p, c)
        ensures c < |next.nodes| && (p < c || next.nodes[c].Value?)
      {
        assert c == solver.memo[key] || Edge(solver.nodes, p, c);
      }
    } else if solver.shared.Some? && key in solver.shared.value {
      AddSound(solver, next, target, Value(solver.shared.value[key].value));
    } else if facts.definition(key.kind, key.name).None? {
      AddSound(solver, next, target, Value(Unknown));
    } else {
      var definition := facts.definition(key.kind, key.name).value;
      CallBodySound(solver, key, target, Block(definition.program, 0, definition.schema, key, |solver.nodes|));
    }
  }

  /** A call that is neither visited, known nor missing gets a body of its own. */
  lemma CallBodySound(solver: Solver, key: StateKey, target: nat, block: Task)
    requires Wellformed(solver) && solver.cursor.Idle? && target < |solver.nodes| && !solver.nodes[target].Any?
    requires block.Block? && block.target == |solver.nodes|
    ensures var next := solver.(nodes := Add(solver.nodes, target, All([])), memo := solver.memo[key := |solver.nodes|],
                                visiting := solver.visiting + {key}, work := solver.work + [Exit(key), block]);
            Wellformed(next) && Extended(solver.nodes, next.nodes, target)
  {
    var nodes := Add(solver.nodes, target, All([]));
    AddKeepsForward(solver.nodes, target, All([]));
    forall task | task in solver.work + [Exit(key), block]
      ensures TaskTarget(nodes, task)
    {
      if task in solver.work {
        assert TaskTarget(solver.nodes, task);
      }
    }
  }

  lemma LeaveSound(solver: Solver, key: StateKey)
    requires Wellformed(solver)
    ensures Wellformed(Leave(solver, key)) && Lowered(solver.nodes, Leave(solver, key).nodes)
  {
    var next := Leave(solver, key);
    var nodes := solver.nodes;
    ForwardIsAcyclic(nodes);
    if key !in solver.memo {
      ExtensionLowers(nodes, nodes, 0);
    } else {
      var id := solver.memo[key];
      var verdict := VerdictOf(nodes, id);
      assert next.nodes == nodes[id := Value(verdict)];
      forall p: nat, c: nat | Edge(next.nodes, p, c)
        ensures c < |next.nodes| && (p < c || next.nodes[c].Value?)
      {
        assert Edge(nodes, p, c);
      }
      ForwardIsAcyclic(next.nodes);
      forall i: nat | i < |nodes|
        ensures Holds(Lower, Eval(next.nodes, map[], i), Eval(nodes, map[], i))
      {
        CollapseKeeps(nodes, map[], id, i);
      }
      forall task | task in next.work
        ensures TaskTarget(next.nodes, task)
      {
        assert TaskTarget(nodes, task);
      }
    }
  }

  /** At every charge the state stays well formed and no verdict moves closer to acceptance. */
  lemma NextLowers(facts: Facts, solver: Solver)
    requires Wellformed(solver) && solver.remaining > 0
    requires if solver.cursor.Running? then !AtEnd(solver.cursor) else solver.work != []
    ensures Wellformed(Next(facts, solver)) && Lowered(solver.nodes, Next(facts, solver).nodes)
  {
    var charged := solver.(remaining := solver.remaining - 1);
    var next := Next(facts, solver);
    if solver.cursor.Running? {
      var cursor := solver.cursor;
      InstructSound(facts, charged, cursor.(index := cursor.index + 1), Instructions(cursor.program, cursor.block)[cursor.index]);
      ExtensionLowers(solver.nodes, next.nodes, cursor.target);
    } else {
      var task := solver.work[|solver.work| - 1];
      var popped := charged.(work := solver.work[..|solver.work| - 1]);
      assert TaskTarget(solver.nodes, task);
      assert forall other :: other in popped.work ==> other in solver.work;
      match task
      case Exit(key) => LeaveSound(popped, key);
      case Call(key, target) =>
        EnterCallSound(facts, popped, key, target);
        ExtensionLowers(solver.nodes, next.nodes, target);
      case Block(_, _, _, _, target) =>
        ExtensionLowers(solver.nodes, next.nodes, 0);
    }
  }

  lemma LoweredTransitive(a: seq<Node>, b: seq<Node>, c: seq<Node>)
    requires Lowered(a, b) && Lowered(b, c)
    ensures Lowered(a, c)
  {
    forall id: nat | id < |a|
      ensures Holds(Lower, Eval(c, map[], id), Eval(a, map[], id))
    {
      HoldsTransitive(Lower, Eval(c, map[], id), Eval(b, map[], id), Eval(a, map[], id));
    }
  }

  /** The whole run: it stops when nothing is left, or records the node limit when the budget is spent
      while work is left. */
  ghost function Drain(facts: Facts, solver: Solver): Solver
    requires Wellformed(solver)
    decreases solver.remaining, if solver.cursor.Running? then 1 else 0
  {
    if AtEnd(solver.cursor) then Drain(facts, solver.(cursor := Idle))
    else if solver.cursor.Idle? && solver.work == [] then solver
    else if solver.remaining == 0 then solver.(limits := solver.limits + {Nodes}, cursor := Idle)
    else
      NextLowers(facts, solver);
      Drain(facts, Next(facts, solver))
  }

  lemma {:induction false} DrainLowers(facts: Facts, solver: Solver)
    requires Wellformed(solver)
    ensures Wellformed(Drain(facts, solver)) && Lowered(solver.nodes, Drain(facts, solver).nodes)
    decreases solver.remaining, if solver.cursor.Running? then 1 else 0
  {
    if AtEnd(solver.cursor) {
      DrainLowers(facts, solver.(cursor := Idle));
    } else if (solver.cursor.Idle? && solver.work == []) || solver.remaining == 0 {
      ExtensionLowers(solver.nodes, solver.nodes, 0);
    } else {
      NextLowers(facts, solver);
      DrainLowers(facts, Next(facts, solver));
      LoweredTransitive(solver.nodes, Next(facts, solver).nodes, Drain(facts, solver).nodes);
    }
  }

  /** The answer of a stopped run: incomplete coverage caps the root at Unknown. */
  ghost function Answer(solver: Solver): Validation {
    var verdict := VerdictOf(solver.nodes, 0);
    if solver.limits == {} then verdict else Both(verdict, Unknown)
  }

  ghost function Solution(facts: Facts, solver: Solver): Validation
    requires Wellformed(solver)
  {
    Answer(Drain(facts, solver))
  }

  // ----- What a truncated run may conclude -----

  /** Two states that differ at most in how much budget is left. */
  ghost predicate SameButBudget(poor: Solver, rich: Solver) {
    poor.remaining <= rich.remaining && poor == rich.(remaining := poor.remaining)
  }

  /** The poorer run spent its budget inside this step; the arenas still agree. */
  ghost predicate CutShort(poor: Solver, rich: Solver) {
    poor.remaining == 0 && Nodes in poor.limits && poor.nodes == rich.nodes
  }

  lemma {:induction false} CollectAgrees(facts: Facts, program: Program, key: StateKey, pending: seq<nat>, at: Option<(nat, nat)>,
                      poor: Arguments, rich: Arguments)
    requires poor.remaining <= rich.remaining && poor == rich.(remaining := poor.remaining)
    ensures var p, r := Collect(facts, program, key, pending, at, poor), Collect(facts, program, key, pending, at, rich);
            (p.remaining <= r.remaining && p == r.(remaining := p.remaining)) || (p.cut && p.remaining == 0)
    decreases poor.remaining, |pending|, if at.Some? then 1 else 0
  {
    match at
    case None =>
      if pending != [] {
        CollectAgrees(facts, program, key, pending[..|pending| - 1], Some((pending[|pending| - 1], 0)), poor, rich);
      }
    case Some((block, index)) =>
      var instructions := Instructions(program, block);
      if index >= |instructions| {
        CollectAgrees(facts, program, key, pending, None, poor, rich);
      } else if poor.remaining == 0 {
        CollectCharges(facts, program, key, pending, None, poor.(cut := true));
      } else {
        var instruction := instructions[index];
        var pending' := if Taken(facts, key, instruction) then pending + [instruction.block] else pending;
        CollectAgrees(facts, program, key, pending', Some((block, index + 1)),
                      Argument(facts, key, instruction, poor.(remaining := poor.remaining - 1)),
                      Argument(facts, key, instruction, rich.(remaining := rich.remaining - 1)));
      }
  }

  lemma FieldStepAgrees(facts: Facts, poor: Solver, rich: Solver, cursor: Cursor, operand: Operand, spelling: nat,
                        alternatives: nat, field: nat)
    requires cursor.Running? && alternatives < |poor.nodes|
    requires SameButBudget(poor, rich) || CutShort(poor, rich)
    ensures var p := FieldStep(facts, poor, cursor, operand, spelling, alternatives, field);
            var r := FieldStep(facts, rich, cursor, operand, spelling, alternatives, field);
            SameButBudget(p, r) || CutShort(p, r)
  {
    if CutShort(poor, rich) {
      FieldStepStaysShort(facts, poor, rich, cursor, operand, spelling, alternatives, field);
    } else {
      FieldStepFunded(facts, poor, rich, cursor, operand, spelling, alternatives, field);
    }
  }

  lemma FieldStepStaysShort(facts: Facts, poor: Solver, rich: Solver, cursor: Cursor, operand: Operand, spelling: nat,
                            alternatives: nat, field: nat)
    requires cursor.Running? && alternatives < |poor.nodes| && CutShort(poor, rich)
    ensures CutShort(FieldStep(facts, poor, cursor, operand, spelling, alternatives, field),
                     FieldStep(facts, rich, cursor, operand, spelling, alternatives, field))
  {
    if operand.BlockOperand? {
      CollectCharges(facts, cursor.program, cursor.key, [operand.block], None, Arguments(map[], {}, poor.remaining, false));
    }
  }

  lemma FieldStepFunded(facts: Facts, poor: Solver, rich: Solver, cursor: Cursor, operand: Operand, spelling: nat,
                        alternatives: nat, field: nat)
    requires cursor.Running? && alternatives < |poor.nodes| && SameButBudget(poor, rich)
    ensures var p := FieldStep(facts, poor, cursor, operand, spelling, alternatives, field);
            var r := FieldStep(facts, rich, cursor, operand, spelling, alternatives, field);
            SameButBudget(p, r) || CutShort(p, r)
  {
    var none := Arguments(map[], {}, poor.remaining, false);
    if operand.BlockOperand? {
      CollectCharges(facts, cursor.program, cursor.key, [operand.block], None, none);
      CollectAgrees(facts, cursor.program, cursor.key, [operand.block], None, none, none.(remaining := rich.remaining));
    }
  }

  lemma {:induction false} FieldStepsAgree(facts: Facts, poor: Solver, rich: Solver, cursor: Cursor, operand: Operand,
                                           spelling: nat, alternatives: nat, fields: seq<nat>)
    requires cursor.Running? && alternatives < |poor.nodes|
    requires SameButBudget(poor, rich) || CutShort(poor, rich)
    ensures var p := FieldSteps(facts, poor, cursor, operand, spelling, alternatives, fields);
            var r := FieldSteps(facts, rich, cursor, operand, spelling, alternatives, fields);
            SameButBudget(p, r) || CutShort(p, r)
    decreases fields
  {
    if fields != [] {
      FieldStepAgrees(facts, poor, rich, cursor, operand, spelling, alternatives, fields[0]);
      FieldStepsAgree(facts, FieldStep(facts, poor, cursor, operand, spelling, alternatives, fields[0]),
                      FieldStep(facts, rich, cursor, operand, spelling, alternatives, fields[0]),
                      cursor, operand, spelling, alternatives, fields[1..]);
    }
  }

  lemma InstructAgrees(facts: Facts, poor: Solver, rich: Solver, cursor: Cursor, instruction: Instruction)
    requires cursor.Running? && cursor.target < |poor.nodes| && SameButBudget(poor, rich)
    ensures var p, r := Instruct(facts, poor, cursor, instruction), Instruct(facts, rich, cursor, instruction);
            SameButBudget(p, r) || CutShort(p, r)
  {
    if instruction.Dispatch? && !cursor.uncertain && facts.text(instruction.key, cursor.key.values).Some? {
      var spelling := facts.text(instruction.key, cursor.key.values).value;
      var fields := facts.candidates(cursor.schema, spelling, instruction.operand.BlockOperand?);
      var nodes := Add(poor.nodes, cursor.target, Any([]));
      FieldStepsAgree(facts, poor.(nodes := nodes, cursor := cursor), rich.(nodes := nodes, cursor := cursor),
                      cursor, instruction.operand, spelling, |poor.nodes|, fields);
    }
  }

  lemma NextAgrees(facts: Facts, poor: Solver, rich: Solver)
    requires Wellformed(poor) && Wellformed(rich) && SameButBudget(poor, rich) && poor.remaining > 0
    requires if poor.cursor.Running? then !AtEnd(poor.cursor) else poor.work != []
    ensures SameButBudget(Next(facts, poor), Next(facts, rich)) || CutShort(Next(facts, poor), Next(facts, rich))
  {
    var p, r := poor.(remaining := poor.remaining - 1), rich.(remaining := rich.remaining - 1);
    if poor.cursor.Running? {
      var cursor := poor.cursor.(index := poor.cursor.index + 1);
      InstructAgrees(facts, p, r, cursor, Instructions(cursor.program, cursor.block)[poor.cursor.index]);
    } else {
      var work := poor.work[..|poor.work| - 1];
      var popped := r.(work := work);
      assert p.(work := work) == popped.(remaining := poor.remaining - 1);
      var task := poor.work[|poor.work| - 1];
      assert task in poor.work && TaskTarget(poor.nodes, task);
      PerformIgnoresBudget(facts, popped, task, poor.remaining - 1);
      assert poor.work == rich.work && Next(facts, rich) == Perform(facts, popped, task);
      assert Next(facts, poor) == Perform(facts, popped.(remaining := poor.remaining - 1), task);
    }
  }

  lemma PerformIgnoresBudget(facts: Facts, popped: Solver, task: Task, remaining: nat)
    requires TaskTarget(popped.nodes, task)
    ensures Perform(facts, popped.(remaining := remaining), task) == Perform(facts, popped, task).(remaining := remaining)
    ensures Perform(facts, popped, task).remaining == popped.remaining
  {
    match task
    case Exit(key) => LeaveIgnoresBudget(popped, key, remaining);
    case Call(key, target) => EnterCallIgnoresBudget(facts, popped, key, target, remaining);
    case Block(_, _, _, _, _) =>
  }

  lemma LeaveIgnoresBudget(solver: Solver, key: StateKey, remaining: nat)
    ensures Leave(solver.(remaining := remaining), key) == Leave(solver, key).(remaining := remaining)
  {
  }

  lemma EnterCallIgnoresBudget(facts: Facts, solver: Solver, key: StateKey, target: nat, remaining: nat)
    requires target < |solver.nodes|
    ensures EnterCall(facts, solver.(remaining := remaining), key, target) ==
            EnterCall(facts, solver, key, target).(remaining := remaining)
  {
  }

  lemma RejectionStays(before: Solver, after: Solver)
    requires Wellformed(before) && Lowered(before.nodes, after.nodes) && Answer(before) == Invalid
    ensures Answer(after) == Invalid
  {
    assert Holds(Lower, Eval(after.nodes, map[], 0), Eval(before.nodes, map[], 0));
  }

  /** A rejection found before the budget ran out is the answer of every longer run too; a run that did not
      spend its budget is the run of every larger budget; and a run with any limit recorded never accepts. */
  lemma {:induction false} TruncationSound(facts: Facts, poor: Solver, rich: Solver)
    requires Wellformed(poor) && Wellformed(rich) && SameButBudget(poor, rich)
    ensures Solution(facts, poor) == Invalid ==> Solution(facts, rich) == Invalid
    ensures Nodes !in Drain(facts, poor).limits ==> SameButBudget(Drain(facts, poor), Drain(facts, rich))
    ensures Drain(facts, poor).limits != {} ==> Solution(facts, poor) != Valid
    decreases poor.remaining, if poor.cursor.Running? then 1 else 0
  {
    if AtEnd(poor.cursor) {
      TruncationSound(facts, poor.(cursor := Idle), rich.(cursor := Idle));
    } else if poor.cursor.Idle? && poor.work == [] {
      assert Drain(facts, poor) == poor && Drain(facts, rich) == rich;
    } else if poor.remaining == 0 {
      StoppedSound(facts, poor, rich);
    } else {
      NextAgrees(facts, poor, rich);
      NextLowers(facts, poor);
      NextLowers(facts, rich);
      var p, r := Next(facts, poor), Next(facts, rich);
      if SameButBudget(p, r) {
        TruncationSound(facts, p, r);
      } else {
        StoppedSound(facts, p, r);
      }
      assert Drain(facts, poor) == Drain(facts, p) && Drain(facts, rich) == Drain(facts, r);
    }
  }

  /** The poorer run has spent its budget on an arena that the richer run still extends. */
  lemma StoppedSound(facts: Facts, poor: Solver, rich: Solver)
    requires Wellformed(poor) && Wellformed(rich) && poor.remaining == 0 && poor.nodes == rich.nodes
    requires Nodes in poor.limits || !(AtEnd(poor.cursor) || (poor.cursor.Idle? && poor.work == []))
    ensures Nodes in Drain(facts, poor).limits
    ensures Solution(facts, poor) == Invalid ==> Solution(facts, rich) == Invalid
  {
    if Nodes in poor.limits {
      SpentRun(facts, poor);
    }
    DrainLowers(facts, rich);
    if Solution(facts, poor) == Invalid {
      RejectionStays(rich.(limits := Drain(facts, poor).limits), Drain(facts, rich));
    }
  }

  /** A run whose budget is spent writes no more nodes. */
  lemma SpentRun(facts: Facts, solver: Solver)
    requires Wellformed(solver) && solver.remaining == 0 && Nodes in solver.limits
    ensures Drain(facts, solver).nodes == solver.nodes && Nodes in Drain(facts, solver).limits
  {
    if AtEnd(solver.cursor) {
      assert Drain(facts, solver) == Drain(facts, solver.(cursor := Idle));
    }
  }
}
