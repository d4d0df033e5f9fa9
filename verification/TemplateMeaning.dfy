/** What entry-scope solving means: the recursive verdict of a call, without arena, memo or task stack,
    and the proof that a complete run of the machine answers it. */
module TemplateMeaning {
  import opened Kleene
  import opened Arena
  import opened Options
  import opened TemplateScope

  // ----- The recursive verdict -----

  function Meet(a: Option<Validation>, b: Option<Validation>): Option<Validation> {
    if a.Some? && b.Some? then Some(Both(a.value, b.value)) else None
  }

  function Beginning(program: Program, block: nat, schema: nat, key: StateKey): Cursor {
    Running(program, block, 0, schema, key, 0, false)
  }

  /** Whether the structure of a block is uncertain behind an instruction. */
  function Uncertain(facts: Facts, cursor: Cursor, instruction: Instruction): bool
    requires cursor.Running?
  {
    match instruction
    case Recover => true
    case Consume(_) => cursor.uncertain || !facts.hasItems(cursor.schema)
    case When(_, _, _) => cursor.uncertain || (cursor.key.present.None? && Opaque(cursor.program))
    case Dispatch(key, _) => cursor.uncertain || facts.text(key, cursor.key.values).None?
  }

  function After(facts: Facts, cursor: Cursor, instruction: Instruction): Cursor
    requires cursor.Running?
  {
    cursor.(index := cursor.index + 1, uncertain := Uncertain(facts, cursor, instruction))
  }

  function Ahead(cursor: Cursor): nat
    requires cursor.Running?
  {
    if AtEnd(cursor) then 0 else |Instructions(cursor.program, cursor.block)| - cursor.index
  }

  /** The verdict of a call. It is defined when some `fuel` reaches the leaves of every template, block and
      argument list below it; a template that is not there leaves the call open. */
  function CallVerdict(facts: Facts, fuel: nat, key: StateKey): Option<Validation>
    decreases fuel, 0, 0, 0
  {
    match facts.definition(key.kind, key.name)
    case None => Some(Unknown)
    case Some(definition) =>
      if fuel == 0 then None
      else RestVerdict(facts, fuel - 1, Beginning(definition.program, 0, definition.schema, key))
  }

  /** The verdict of a block from the cursor on. */
  function RestVerdict(facts: Facts, fuel: nat, cursor: Cursor): Option<Validation>
    requires cursor.Running?
    decreases fuel, Ahead(cursor), 0, 0
  {
    if AtEnd(cursor) then Some(Valid)
    else
      var instruction := Instructions(cursor.program, cursor.block)[cursor.index];
      Meet(InstructionVerdict(facts, fuel, cursor, instruction), RestVerdict(facts, fuel, After(facts, cursor, instruction)))
  }

  function InstructionVerdict(facts: Facts, fuel: nat, cursor: Cursor, instruction: Instruction): Option<Validation>
    requires cursor.Running?
    decreases fuel, 0, 3, 0
  {
    match instruction
    case Recover => Some(Unknown)
    case Consume(token) => Some(if facts.text(token, cursor.key.values).None? then Unknown else Valid)
    case When(_, _, block) =>
      if !Taken(facts, cursor.key, instruction) then Some(Valid)
      else if fuel == 0 then None
      else RestVerdict(facts, fuel - 1, Beginning(cursor.program, block, cursor.schema, cursor.key))
    case Dispatch(key, operand) =>
      if cursor.uncertain || facts.text(key, cursor.key.values).None? then Some(Unknown)
      else DispatchVerdict(facts, fuel, cursor, operand, facts.text(key, cursor.key.values).value)
  }

  /** A property holds if one of the fields it may name holds; a property that names none is no scope goal. */
  function DispatchVerdict(facts: Facts, fuel: nat, cursor: Cursor, operand: Operand, spelling: nat): Option<Validation>
    requires cursor.Running?
    decreases fuel, 0, 2, 1
  {
    var fields := facts.candidates(cursor.schema, spelling, operand.BlockOperand?);
    if fields == [] then Some(Valid)
    else match FieldVerdicts(facts, fuel, cursor, operand, spelling, fields)
      case None => None
      case Some(verdicts) => Some(Disj(verdicts))
  }

  function FieldVerdicts(facts: Facts, fuel: nat, cursor: Cursor, operand: Operand, spelling: nat, fields: seq<nat>):
    Option<set<Validation>>
    requires cursor.Running?
    decreases fuel, 0, 1, |fields|
  {
    if fields == [] then Some({})
    else
      var first := FieldVerdict(facts, fuel, cursor, operand, spelling, fields[0]);
      var others := FieldVerdicts(facts, fuel, cursor, operand, spelling, fields[1..]);
      if first.Some? && others.Some? then Some({first.value} + others.value) else None
  }

  /** The call that a field makes, with the arguments its block passes. */
  function CalleeKey(facts: Facts, cursor: Cursor, spelling: nat, kind: nat, arguments: Arguments): StateKey
    requires cursor.Running?
  {
    StateKey(kind, facts.lower(spelling), arguments.values, Some(arguments.present), cursor.key.state)
  }

  predicate EntersChild(facts: Facts, cursor: Cursor, operand: Operand, field: nat)
    requires cursor.Running?
  {
    operand.BlockOperand? && facts.child(field, cursor.schema).Some? && !facts.displayOnly(field)
  }

  function FieldVerdict(facts: Facts, fuel: nat, cursor: Cursor, operand: Operand, spelling: nat, field: nat): Option<Validation>
    requires cursor.Running?
    decreases fuel, 0, 0, 1
  {
    var allowed := Allowed(facts, field, cursor.key, spelling);
    if allowed == Invalid then Some(Invalid)
    else match facts.callee(field)
      case Some(kind) =>
        var arguments := CallArguments(facts, cursor, operand, fuel);
        if arguments.cut then None
        else Meet(Some(allowed), CallVerdict(facts, fuel, CalleeKey(facts, cursor, spelling, kind, arguments)))
      case None =>
        if !EntersChild(facts, cursor, operand, field) then Some(allowed)
        else if fuel == 0 then None
        else Meet(Some(allowed), RestVerdict(facts, fuel - 1, ChildCursor(facts, cursor, operand, spelling, field, 0)))
  }

  /** The block of a field, as a cursor that writes to `row`. */
  function ChildCursor(facts: Facts, cursor: Cursor, operand: Operand, spelling: nat, field: nat, row: nat): (child: Cursor)
    requires cursor.Running? && EntersChild(facts, cursor, operand, field)
    ensures child.Running?
  {
    Running(cursor.program, operand.block, 0, facts.child(field, cursor.schema).value,
            cursor.key.(state := facts.transition(cursor.key.state, field, spelling)), row, false)
  }

  // ----- More fuel changes no verdict -----

  lemma {:induction false} CallGrows(facts: Facts, fuel: nat, more: nat, key: StateKey)
    requires fuel <= more && CallVerdict(facts, fuel, key).Some?
    ensures CallVerdict(facts, more, key) == CallVerdict(facts, fuel, key)
    decreases fuel, 0, 0, 0
  {
    if facts.definition(key.kind, key.name).Some? {
      var definition := facts.definition(key.kind, key.name).value;
      RestGrows(facts, fuel - 1, more - 1, Beginning(definition.program, 0, definition.schema, key));
    }
  }

  lemma {:induction false} RestGrows(facts: Facts, fuel: nat, more: nat, cursor: Cursor)
    requires fuel <= more && cursor.Running? && RestVerdict(facts, fuel, cursor).Some?
    ensures RestVerdict(facts, more, cursor) == RestVerdict(facts, fuel, cursor)
    decreases fuel, Ahead(cursor), 0, 0
  {
    if !AtEnd(cursor) {
      var instruction := Instructions(cursor.program, cursor.block)[cursor.index];
      InstructionGrows(facts, fuel, more, cursor, instruction);
      RestGrows(facts, fuel, more, After(facts, cursor, instruction));
    }
  }

  lemma {:induction false} InstructionGrows(facts: Facts, fuel: nat, more: nat, cursor: Cursor, instruction: Instruction)
    requires fuel <= more && cursor.Running? && InstructionVerdict(facts, fuel, cursor, instruction).Some?
    ensures InstructionVerdict(facts, more, cursor, instruction) == InstructionVerdict(facts, fuel, cursor, instruction)
    decreases fuel, 0, 3, 0
  {
    match instruction
    case When(_, _, block) =>
      if Taken(facts, cursor.key, instruction) {
        RestGrows(facts, fuel - 1, more - 1, Beginning(cursor.program, block, cursor.schema, cursor.key));
      }
    case Dispatch(key, operand) =>
      if !cursor.uncertain && facts.text(key, cursor.key.values).Some? {
        var spelling := facts.text(key, cursor.key.values).value;
        var fields := facts.candidates(cursor.schema, spelling, operand.BlockOperand?);
        if fields != [] {
          FieldsGrow(facts, fuel, more, cursor, operand, spelling, fields);
        }
      }
    case _ =>
  }

  lemma {:induction false} FieldsGrow(facts: Facts, fuel: nat, more: nat, cursor: Cursor, operand: Operand, spelling: nat,
                                      fields: seq<nat>)
    requires fuel <= more && cursor.Running? && FieldVerdicts(facts, fuel, cursor, operand, spelling, fields).Some?
    ensures FieldVerdicts(facts, more, cursor, operand, spelling, fields)
         == FieldVerdicts(facts, fuel, cursor, operand, spelling, fields)
    decreases fuel, 0, 1, |fields|
  {
    if fields != [] {
      FieldGrows(facts, fuel, more, cursor, operand, spelling, fields[0]);
      FieldsGrow(facts, fuel, more, cursor, operand, spelling, fields[1..]);
    }
  }

  lemma {:induction false} FieldGrows(facts: Facts, fuel: nat, more: nat, cursor: Cursor, operand: Operand, spelling: nat,
                                      field: nat)
    requires fuel <= more && cursor.Running? && FieldVerdict(facts, fuel, cursor, operand, spelling, field).Some?
    ensures FieldVerdict(facts, more, cursor, operand, spelling, field) == FieldVerdict(facts, fuel, cursor, operand, spelling, field)
    decreases fuel, 0, 0, 1
  {
    if Allowed(facts, field, cursor.key, spelling) != Invalid {
      match facts.callee(field)
      case Some(kind) =>
        ArgumentsGrow(facts, cursor, operand, fuel, more);
        CallGrows(facts, fuel, more, CalleeKey(facts, cursor, spelling, kind, CallArguments(facts, cursor, operand, fuel)));
      case None =>
        if EntersChild(facts, cursor, operand, field) {
          RestGrows(facts, fuel - 1, more - 1, ChildCursor(facts, cursor, operand, spelling, field, 0));
        }
    }
  }

  /** An argument list that was not cut is the same for every larger allowance. */
  lemma ArgumentsGrow(facts: Facts, cursor: Cursor, operand: Operand, allowance: nat, more: nat)
    requires cursor.Running? && allowance <= more && !CallArguments(facts, cursor, operand, allowance).cut
    ensures var a, b := CallArguments(facts, cursor, operand, allowance), CallArguments(facts, cursor, operand, more);
            !b.cut && a.values == b.values && a.present == b.present
  {
    if operand.BlockOperand? {
      var none := Arguments(map[], {}, allowance, false);
      CollectAgrees(facts, cursor.program, cursor.key, [operand.block], None, none, none.(remaining := more));
    }
  }

  // ----- Verdicts without fuel -----

  ghost predicate CallMeans(facts: Facts, key: StateKey, verdict: Validation) {
    exists fuel: nat :: CallVerdict(facts, fuel, key) == Some(verdict)
  }

  ghost predicate RestMeans(facts: Facts, cursor: Cursor, verdict: Validation)
    requires cursor.Running?
  {
    exists fuel: nat :: RestVerdict(facts, fuel, cursor.(target := 0)) == Some(verdict)
  }

  ghost predicate InstructionMeans(facts: Facts, cursor: Cursor, instruction: Instruction, verdict: Validation)
    requires cursor.Running?
  {
    exists fuel: nat :: InstructionVerdict(facts, fuel, cursor.(target := 0), instruction) == Some(verdict)
  }

  ghost predicate FieldMeans(facts: Facts, cursor: Cursor, operand: Operand, spelling: nat, field: nat, verdict: Validation)
    requires cursor.Running?
  {
    exists fuel: nat :: FieldVerdict(facts, fuel, cursor.(target := 0), operand, spelling, field) == Some(verdict)
  }

  ghost predicate FieldsMean(facts: Facts, cursor: Cursor, operand: Operand, spelling: nat, fields: seq<nat>,
                             verdicts: set<Validation>)
    requires cursor.Running?
  {
    exists fuel: nat :: FieldVerdicts(facts, fuel, cursor.(target := 0), operand, spelling, fields) == Some(verdicts)
  }

  function Max(a: nat, b: nat): nat {
    if a < b then b else a
  }

  /** A call has at most one verdict. */
  lemma CallMeansOnce(facts: Facts, key: StateKey, v: Validation, w: Validation)
    requires CallMeans(facts, key, v) && CallMeans(facts, key, w)
    ensures v == w
  {
    var a: nat :| CallVerdict(facts, a, key) == Some(v);
    var b: nat :| CallVerdict(facts, b, key) == Some(w);
    CallGrows(facts, a, Max(a, b), key);
    CallGrows(facts, b, Max(a, b), key);
  }

  lemma RestMeansOnce(facts: Facts, cursor: Cursor, v: Validation, w: Validation)
    requires cursor.Running? && RestMeans(facts, cursor, v) && RestMeans(facts, cursor, w)
    ensures v == w
  {
    var at := cursor.(target := 0);
    var a: nat :| RestVerdict(facts, a, at) == Some(v);
    var b: nat :| RestVerdict(facts, b, at) == Some(w);
    RestGrows(facts, a, Max(a, b), at);
    RestGrows(facts, b, Max(a, b), at);
  }

  lemma CallIsItsBody(facts: Facts, key: StateKey, definition: Definition, target: nat, verdict: Validation)
    requires facts.definition(key.kind, key.name) == Some(definition)
    requires RestMeans(facts, Running(definition.program, 0, 0, definition.schema, key, target, false), verdict)
    ensures CallMeans(facts, key, verdict)
  {
    var fuel: nat :| RestVerdict(facts, fuel, Beginning(definition.program, 0, definition.schema, key)) == Some(verdict);
    assert CallVerdict(facts, fuel + 1, key) == Some(verdict);
  }

  lemma MissingIsOpen(facts: Facts, key: StateKey)
    requires facts.definition(key.kind, key.name) == None
    ensures CallMeans(facts, key, Unknown)
  {
    assert CallVerdict(facts, 0, key) == Some(Unknown);
  }

  lemma EndMeans(facts: Facts, cursor: Cursor)
    requires AtEnd(cursor)
    ensures RestMeans(facts, cursor, Valid)
  {
    assert RestVerdict(facts, 0, cursor.(target := 0)) == Some(Valid);
  }

  lemma StepMeans(facts: Facts, cursor: Cursor, instruction: Instruction, v: Validation, w: Validation)
    requires cursor.Running? && !AtEnd(cursor) && instruction == Instructions(cursor.program, cursor.block)[cursor.index]
    requires InstructionMeans(facts, cursor, instruction, v) && RestMeans(facts, After(facts, cursor, instruction), w)
    ensures RestMeans(facts, cursor, Both(v, w))
  {
    var at := cursor.(target := 0);
    var next := After(facts, at, instruction);
    assert next == After(facts, cursor, instruction).(target := 0);
    var a: nat :| InstructionVerdict(facts, a, at, instruction) == Some(v);
    var b: nat :| RestVerdict(facts, b, next) == Some(w);
    InstructionGrows(facts, a, Max(a, b), at, instruction);
    RestGrows(facts, b, Max(a, b), next);
    assert RestVerdict(facts, Max(a, b), at) == Some(Both(v, w));
  }

  lemma TakenMeans(facts: Facts, cursor: Cursor, instruction: Instruction, verdict: Validation)
    requires cursor.Running? && Taken(facts, cursor.key, instruction)
    requires RestMeans(facts, Running(cursor.program, instruction.block, 0, cursor.schema, cursor.key, cursor.target, false), verdict)
    ensures InstructionMeans(facts, cursor, instruction, verdict)
  {
    var fuel: nat :| RestVerdict(facts, fuel, Beginning(cursor.program, instruction.block, cursor.schema, cursor.key)) == Some(verdict);
    assert InstructionVerdict(facts, fuel + 1, cursor.(target := 0), instruction) == Some(verdict);
  }

  lemma DispatchMeans(facts: Facts, cursor: Cursor, key: nat, operand: Operand, spelling: nat, fields: seq<nat>,
                      verdicts: set<Validation>)
    requires cursor.Running? && !cursor.uncertain && facts.text(key, cursor.key.values) == Some(spelling)
    requires fields == facts.candidates(cursor.schema, spelling, operand.BlockOperand?) && fields != []
    requires FieldsMean(facts, cursor, operand, spelling, fields, verdicts)
    ensures InstructionMeans(facts, cursor, Dispatch(key, operand), Disj(verdicts))
  {
    var fuel: nat :| FieldVerdicts(facts, fuel, cursor.(target := 0), operand, spelling, fields) == Some(verdicts);
    assert InstructionVerdict(facts, fuel, cursor.(target := 0), Dispatch(key, operand)) == Some(Disj(verdicts));
  }

  lemma NoFieldsMean(facts: Facts, cursor: Cursor, operand: Operand, spelling: nat)
    requires cursor.Running?
    ensures FieldsMean(facts, cursor, operand, spelling, [], {})
  {
    assert FieldVerdicts(facts, 0, cursor.(target := 0), operand, spelling, []) == Some({});
  }

  lemma FieldsMeanCons(facts: Facts, cursor: Cursor, operand: Operand, spelling: nat, fields: seq<nat>, first: Validation,
                       others: set<Validation>)
    requires cursor.Running? && fields != [] && FieldMeans(facts, cursor, operand, spelling, fields[0], first)
    requires FieldsMean(facts, cursor, operand, spelling, fields[1..], others)
    ensures FieldsMean(facts, cursor, operand, spelling, fields, {first} + others)
  {
    var at := cursor.(target := 0);
    var a: nat :| FieldVerdict(facts, a, at, operand, spelling, fields[0]) == Some(first);
    var b: nat :| FieldVerdicts(facts, b, at, operand, spelling, fields[1..]) == Some(others);
    FieldGrows(facts, a, Max(a, b), at, operand, spelling, fields[0]);
    FieldsGrow(facts, b, Max(a, b), at, operand, spelling, fields[1..]);
    assert FieldVerdicts(facts, Max(a, b), at, operand, spelling, fields) == Some({first} + others);
  }

  lemma CalleeMeans(facts: Facts, cursor: Cursor, operand: Operand, spelling: nat, field: nat, kind: nat, allowance: nat,
                    verdict: Validation)
    requires cursor.Running? && Allowed(facts, field, cursor.key, spelling) != Invalid && facts.callee(field) == Some(kind)
    requires !CallArguments(facts, cursor, operand, allowance).cut
    requires CallMeans(facts, CalleeKey(facts, cursor, spelling, kind, CallArguments(facts, cursor, operand, allowance)), verdict)
    ensures FieldMeans(facts, cursor, operand, spelling, field, Both(Allowed(facts, field, cursor.key, spelling), verdict))
  {
    var at := cursor.(target := 0);
    assert CallArguments(facts, at, operand, allowance) == CallArguments(facts, cursor, operand, allowance);
    var key := CalleeKey(facts, at, spelling, kind, CallArguments(facts, at, operand, allowance));
    var a: nat :| CallVerdict(facts, a, key) == Some(verdict);
    var fuel := Max(a, allowance);
    CallGrows(facts, a, fuel, key);
    ArgumentsGrow(facts, at, operand, allowance, fuel);
    assert FieldVerdict(facts, fuel, at, operand, spelling, field) == Some(Both(Allowed(facts, field, cursor.key, spelling), verdict));
  }

  lemma ChildMeans(facts: Facts, cursor: Cursor, operand: Operand, spelling: nat, field: nat, row: nat, verdict: Validation)
    requires cursor.Running? && Allowed(facts, field, cursor.key, spelling) != Invalid && facts.callee(field) == None
    requires EntersChild(facts, cursor, operand, field)
    requires RestMeans(facts, ChildCursor(facts, cursor, operand, spelling, field, row), verdict)
    ensures FieldMeans(facts, cursor, operand, spelling, field, Both(Allowed(facts, field, cursor.key, spelling), verdict))
  {
    var at := cursor.(target := 0);
    var child := ChildCursor(facts, at, operand, spelling, field, 0);
    assert child == ChildCursor(facts, cursor, operand, spelling, field, row).(target := 0);
    var fuel: nat :| RestVerdict(facts, fuel, child) == Some(verdict);
    assert FieldVerdict(facts, fuel + 1, at, operand, spelling, field) == Some(Both(Allowed(facts, field, cursor.key, spelling), verdict));
  }
}
