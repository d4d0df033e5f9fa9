/** What the verdict of a template is, construct by construct, in terms of the rule data alone: when a guard is
    taken, what leaves a block uncertain, which fields decide a property, and what a call is given. */
module TemplateLaws {
  import opened Kleene
  import Arena
  import opened Options
  import opened TemplateScope
  import opened TemplateMeaning

  /** The worse of two verdicts. */
  function Worse(a: Validation, b: Validation): Validation {
    if a == Invalid || b == Invalid then Invalid else if a == Unknown || b == Unknown then Unknown else Valid
  }

  /** The block runs this instruction next. */
  predicate At(cursor: Cursor, instruction: Instruction) {
    && cursor.Running? && cursor.block < |cursor.program| && cursor.index < |cursor.program[cursor.block]|
    && cursor.program[cursor.block][cursor.index] == instruction
  }

  function Behind(cursor: Cursor, uncertain: bool): Cursor
    requires cursor.Running?
  {
    cursor.(index := cursor.index + 1, uncertain := uncertain)
  }

  /** What is left of a block has the worse of a verdict and that of what follows. */
  ghost predicate WorseThanRest(facts: Facts, first: Validation, rest: Cursor, verdict: Validation)
    requires rest.Running?
  {
    exists w :: RestMeans(facts, rest, w) && verdict == Worse(first, w)
  }

  lemma {:induction false} Unrolls(facts: Facts, cursor: Cursor, instruction: Instruction, rest: Cursor, verdict: Validation)
    requires At(cursor, instruction) && rest == After(facts, cursor, instruction)
    ensures RestMeans(facts, cursor, verdict) <==>
            exists v :: InstructionMeans(facts, cursor, instruction, v) && WorseThanRest(facts, v, rest, verdict)
  {
    var at := cursor.(target := 0);
    assert After(facts, at, instruction) == rest.(target := 0);
    if RestMeans(facts, cursor, verdict) {
      var fuel: nat :| RestVerdict(facts, fuel, at) == Some(verdict);
      var v, w := InstructionVerdict(facts, fuel, at, instruction).value, RestVerdict(facts, fuel, rest.(target := 0)).value;
      assert InstructionMeans(facts, cursor, instruction, v) && RestMeans(facts, rest, w) && verdict == Worse(v, w);
    }
    if v :| InstructionMeans(facts, cursor, instruction, v) && WorseThanRest(facts, v, rest, verdict) {
      var w :| RestMeans(facts, rest, w) && verdict == Worse(v, w);
      StepMeans(facts, cursor, instruction, v, w);
    }
  }

  /** An instruction whose own verdict is known. */
  lemma {:induction false} UnrollsKnown(facts: Facts, cursor: Cursor, instruction: Instruction, rest: Cursor, first: Validation, verdict: Validation)
    requires At(cursor, instruction) && rest == After(facts, cursor, instruction)
    requires forall v :: InstructionMeans(facts, cursor, instruction, v) <==> v == first
    ensures RestMeans(facts, cursor, verdict) <==> WorseThanRest(facts, first, rest, verdict)
  {
    Unrolls(facts, cursor, instruction, rest, verdict);
    assert InstructionMeans(facts, cursor, instruction, first);
  }

  lemma {:induction false} ValidAddsNothing(facts: Facts, rest: Cursor, verdict: Validation)
    requires rest.Running?
    ensures WorseThanRest(facts, Valid, rest, verdict) <==> RestMeans(facts, rest, verdict)
  {
    assert Worse(Valid, verdict) == verdict;
  }

  // ----- Instructions -----

  /** Behind the last instruction nothing is left to fail. */
  lemma {:induction false} EndLaw(facts: Facts, cursor: Cursor, verdict: Validation)
    requires cursor.Running? && (cursor.block < |cursor.program| ==> cursor.index >= |cursor.program[cursor.block]|)
    ensures RestMeans(facts, cursor, verdict) <==> verdict == Valid
  {
    assert RestVerdict(facts, 0, cursor.(target := 0)) == Some(Valid);
    assert forall fuel: nat :: RestVerdict(facts, fuel, cursor.(target := 0)) == Some(Valid);
  }

  /** Recovered text is unknown, and leaves the rest of its block uncertain. */
  lemma {:induction false} RecoverLaw(facts: Facts, cursor: Cursor, verdict: Validation)
    requires At(cursor, Recover)
    ensures RestMeans(facts, cursor, verdict) <==> WorseThanRest(facts, Unknown, Behind(cursor, true), verdict)
  {
    assert InstructionVerdict(facts, 0, cursor.(target := 0), Recover) == Some(Unknown);
    UnrollsKnown(facts, cursor, Recover, Behind(cursor, true), Unknown, verdict);
  }

  /** A bare token is unknown if its text is, and leaves the block uncertain if its schema has no items. */
  lemma {:induction false} ConsumeLaw(facts: Facts, cursor: Cursor, token: nat, verdict: Validation)
    requires At(cursor, Consume(token))
    ensures var rest := Behind(cursor, cursor.uncertain || !facts.hasItems(cursor.schema));
            RestMeans(facts, cursor, verdict) <==>
              if facts.text(token, cursor.key.values) == None then WorseThanRest(facts, Unknown, rest, verdict)
              else RestMeans(facts, rest, verdict)
  {
    var rest := Behind(cursor, cursor.uncertain || !facts.hasItems(cursor.schema));
    var first := if facts.text(token, cursor.key.values) == None then Unknown else Valid;
    assert InstructionVerdict(facts, 0, cursor.(target := 0), Consume(token)) == Some(first);
    UnrollsKnown(facts, cursor, Consume(token), rest, first, verdict);
    ValidAddsNothing(facts, rest, verdict);
  }

  /** The first block of a template, or a block below it, from its start. */
  function Entered(program: Program, block: nat, schema: nat, key: StateKey): Cursor {
    Running(program, block, 0, schema, key, 0, false)
  }

  /** Where it is known which arguments are present: a guard whose name is present, or absent if it is negated, has
      its block checked; any other guard is passed over. */
  lemma {:induction false} GuardLaw(facts: Facts, cursor: Cursor, name: nat, negated: bool, block: nat, present: set<nat>, verdict: Validation)
    requires At(cursor, When(name, negated, block)) && cursor.key.present == Some(present)
    ensures RestMeans(facts, cursor, verdict) <==>
            if (facts.lower(name) in present) != negated then
              exists v :: RestMeans(facts, Entered(cursor.program, block, cursor.schema, cursor.key), v)
                          && WorseThanRest(facts, v, Behind(cursor, cursor.uncertain), verdict)
            else RestMeans(facts, Behind(cursor, cursor.uncertain), verdict)
  {
    var guard, rest := When(name, negated, block), Behind(cursor, cursor.uncertain);
    var body := Entered(cursor.program, block, cursor.schema, cursor.key);
    if (facts.lower(name) in present) != negated {
      forall v
        ensures InstructionMeans(facts, cursor, guard, v) <==> RestMeans(facts, body, v)
      {
        TakenGuard(facts, cursor, guard, body, v);
      }
      Unrolls(facts, cursor, guard, rest, verdict);
    } else {
      PassedGuard(facts, cursor, guard, rest, verdict);
    }
  }

  lemma {:induction false} TakenGuard(facts: Facts, cursor: Cursor, guard: Instruction, body: Cursor, verdict: Validation)
    requires cursor.Running? && guard.When? && cursor.key.present.Some?
    requires (facts.lower(guard.name) in cursor.key.present.value) != guard.negated
    requires body == Entered(cursor.program, guard.block, cursor.schema, cursor.key)
    ensures InstructionMeans(facts, cursor, guard, verdict) <==> RestMeans(facts, body, verdict)
  {
    if RestMeans(facts, body, verdict) {
      TakenMeans(facts, cursor.(target := 0), guard, verdict);
    }
    if InstructionMeans(facts, cursor, guard, verdict) {
      var fuel: nat :| InstructionVerdict(facts, fuel, cursor.(target := 0), guard) == Some(verdict);
      assert RestVerdict(facts, fuel - 1, body) == Some(verdict);
    }
  }

  lemma {:induction false} PassedGuard(facts: Facts, cursor: Cursor, guard: Instruction, rest: Cursor, verdict: Validation)
    requires At(cursor, guard) && guard.When? && rest == After(facts, cursor, guard)
    requires cursor.key.present.Some? ==> (facts.lower(guard.name) in cursor.key.present.value) == guard.negated
    ensures RestMeans(facts, cursor, verdict) <==> RestMeans(facts, rest, verdict)
  {
    assert InstructionVerdict(facts, 0, cursor.(target := 0), guard) == Some(Valid);
    UnrollsKnown(facts, cursor, guard, rest, Valid, verdict);
    ValidAddsNothing(facts, rest, verdict);
  }

  /** Where it is not known, a guard is passed over; it leaves the block uncertain if some block of the template
      holds a bare token or recovered text. */
  lemma {:induction false} OpenGuardLaw(facts: Facts, cursor: Cursor, name: nat, negated: bool, block: nat, verdict: Validation)
    requires At(cursor, When(name, negated, block)) && cursor.key.present == None
    ensures var structural := exists b, i :: 0 <= b < |cursor.program| && 0 <= i < |cursor.program[b]|
                                && (cursor.program[b][i].Recover? || cursor.program[b][i].Consume?);
            RestMeans(facts, cursor, verdict) <==> RestMeans(facts, Behind(cursor, cursor.uncertain || structural), verdict)
  {
    var structural := exists b, i :: 0 <= b < |cursor.program| && 0 <= i < |cursor.program[b]|
                        && (cursor.program[b][i].Recover? || cursor.program[b][i].Consume?);
    OpaqueIsStructural(cursor.program);
    PassedGuard(facts, cursor, When(name, negated, block), Behind(cursor, cursor.uncertain || structural), verdict);
  }

  lemma {:induction false} OpaqueIsStructural(program: Program)
    ensures Opaque(program) <==> exists b, i :: 0 <= b < |program| && 0 <= i < |program[b]|
                                   && (program[b][i].Recover? || program[b][i].Consume?)
  {
    if Opaque(program) {
      var block :| block in program && exists instruction :: instruction in block && Structural(instruction);
      var instruction :| instruction in block && Structural(instruction);
      var b :| 0 <= b < |program| && program[b] == block;
      var i :| 0 <= i < |block| && block[i] == instruction;
      assert program[b][i].Recover? || program[b][i].Consume?;
    }
    if b, i :| 0 <= b < |program| && 0 <= i < |program[b]| && (program[b][i].Recover? || program[b][i].Consume?) {
      assert program[b] in program && program[b][i] in program[b] && Structural(program[b][i]);
    }
  }

  /** A property in an uncertain block is unknown; one whose key is not known is too, and leaves the block
      uncertain. */
  lemma {:induction false} UncertainLaw(facts: Facts, cursor: Cursor, key: nat, operand: Operand, verdict: Validation)
    requires At(cursor, Dispatch(key, operand)) && (cursor.uncertain || facts.text(key, cursor.key.values) == None)
    ensures RestMeans(facts, cursor, verdict) <==> WorseThanRest(facts, Unknown, Behind(cursor, true), verdict)
  {
    assert InstructionVerdict(facts, 0, cursor.(target := 0), Dispatch(key, operand)) == Some(Unknown);
    UnrollsKnown(facts, cursor, Dispatch(key, operand), Behind(cursor, true), Unknown, verdict);
  }

  /** These are the verdicts of the fields. */
  ghost predicate FieldVerdictsAre(facts: Facts, cursor: Cursor, operand: Operand, spelling: nat, fields: seq<nat>,
                                   verdicts: seq<Validation>)
    requires cursor.Running?
  {
    |verdicts| == |fields| && forall k :: 0 <= k < |fields| ==> FieldMeans(facts, cursor, operand, spelling, fields[k], verdicts[k])
  }

  /** A proof wins, then missing knowledge. */
  predicate IsBest(best: Validation, verdicts: seq<Validation>) {
    (best == Valid <==> Valid in verdicts) && (best == Invalid <==> forall k :: 0 <= k < |verdicts| ==> verdicts[k] == Invalid)
  }

  /** Every field has a verdict, and the best of them is this one. */
  ghost predicate BestField(facts: Facts, cursor: Cursor, operand: Operand, spelling: nat, fields: seq<nat>, best: Validation)
    requires cursor.Running?
  {
    exists verdicts :: FieldVerdictsAre(facts, cursor, operand, spelling, fields, verdicts) && IsBest(best, verdicts)
  }

  /** A property with a known key has the best verdict of the fields it may name; one that names none is no matter
      of scope. */
  lemma {:induction false} DispatchLaw(facts: Facts, cursor: Cursor, key: nat, operand: Operand, spelling: nat, verdict: Validation)
    requires At(cursor, Dispatch(key, operand)) && !cursor.uncertain && facts.text(key, cursor.key.values) == Some(spelling)
    ensures var fields, rest := facts.candidates(cursor.schema, spelling, operand.BlockOperand?), Behind(cursor, false);
            RestMeans(facts, cursor, verdict) <==>
              if fields == [] then RestMeans(facts, rest, verdict)
              else exists best :: BestField(facts, cursor, operand, spelling, fields, best)
                                  && WorseThanRest(facts, best, rest, verdict)
  {
    var fields, rest := facts.candidates(cursor.schema, spelling, operand.BlockOperand?), Behind(cursor, false);
    var dispatch := Dispatch(key, operand);
    if fields == [] {
      assert forall fuel: nat :: InstructionVerdict(facts, fuel, cursor.(target := 0), dispatch)
                                 == DispatchVerdict(facts, fuel, cursor.(target := 0), operand, spelling) == Some(Valid);
      assert InstructionVerdict(facts, 0, cursor.(target := 0), dispatch) == Some(Valid);
      UnrollsKnown(facts, cursor, dispatch, rest, Valid, verdict);
      ValidAddsNothing(facts, rest, verdict);
    } else {
      forall v
        ensures InstructionMeans(facts, cursor, dispatch, v) <==> BestField(facts, cursor, operand, spelling, fields, v)
      {
        DispatchIsBest(facts, cursor, key, operand, spelling, fields, v);
      }
      Unrolls(facts, cursor, dispatch, rest, verdict);
    }
  }

  lemma {:induction false} DispatchIsBest(facts: Facts, cursor: Cursor, key: nat, operand: Operand, spelling: nat, fields: seq<nat>, v: Validation)
    requires cursor.Running? && !cursor.uncertain && facts.text(key, cursor.key.values) == Some(spelling)
    requires fields == facts.candidates(cursor.schema, spelling, operand.BlockOperand?) && fields != []
    ensures InstructionMeans(facts, cursor, Dispatch(key, operand), v) <==> BestField(facts, cursor, operand, spelling, fields, v)
  {
    var at, dispatch := cursor.(target := 0), Dispatch(key, operand);
    if InstructionMeans(facts, cursor, dispatch, v) {
      var fuel: nat :| InstructionVerdict(facts, fuel, at, dispatch) == Some(v);
      assert DispatchVerdict(facts, fuel, at, operand, spelling) == Some(v);
      var verdicts := FieldVerdicts(facts, fuel, at, operand, spelling, fields).value;
      var listed := ListedVerdicts(facts, cursor, fuel, operand, spelling, fields, verdicts);
      BestOfListed(v, verdicts, listed);
    }
    if BestField(facts, cursor, operand, spelling, fields, v) {
      var listed :| FieldVerdictsAre(facts, cursor, operand, spelling, fields, listed) && IsBest(v, listed);
      var verdicts := set k | 0 <= k < |listed| :: listed[k];
      TogetherMean(facts, cursor, operand, spelling, fields, listed, verdicts);
      BestOfListed(Disj(verdicts), verdicts, listed);
      DispatchMeans(facts, cursor, key, operand, spelling, fields, verdicts);
    }
  }

  lemma {:induction false} BestOfListed(best: Validation, verdicts: set<Validation>, listed: seq<Validation>)
    requires best == Disj(verdicts) && listed != [] && forall v :: v in verdicts <==> v in listed
    ensures IsBest(best, listed)
    ensures forall other :: IsBest(other, listed) ==> other == best
  {
    assert listed[0] in listed;
  }

  lemma {:induction false} ListedVerdicts(facts: Facts, cursor: Cursor, fuel: nat, operand: Operand, spelling: nat,
                                          fields: seq<nat>, verdicts: set<Validation>) returns (listed: seq<Validation>)
    requires cursor.Running? && FieldVerdicts(facts, fuel, cursor.(target := 0), operand, spelling, fields) == Some(verdicts)
    ensures FieldVerdictsAre(facts, cursor, operand, spelling, fields, listed)
    ensures forall v :: v in verdicts <==> v in listed
    decreases fields
  {
    listed := [];
    if fields != [] {
      var at := cursor.(target := 0);
      var first := FieldVerdict(facts, fuel, at, operand, spelling, fields[0]).value;
      var others := FieldVerdicts(facts, fuel, at, operand, spelling, fields[1..]).value;
      var rest := ListedVerdicts(facts, cursor, fuel, operand, spelling, fields[1..], others);
      assert FieldMeans(facts, cursor, operand, spelling, fields[0], first);
      listed := [first] + rest;
    }
  }

  lemma {:induction false} TogetherMean(facts: Facts, cursor: Cursor, operand: Operand, spelling: nat, fields: seq<nat>,
                                        listed: seq<Validation>, verdicts: set<Validation>)
    requires cursor.Running? && FieldVerdictsAre(facts, cursor, operand, spelling, fields, listed)
    requires forall v :: v in verdicts <==> v in listed
    ensures FieldsMean(facts, cursor, operand, spelling, fields, verdicts)
    decreases fields
  {
    if fields == [] {
      NoFieldsMean(facts, cursor, operand, spelling);
      assert verdicts == {};
    } else {
      var others := set k | 0 <= k < |listed[1..]| :: listed[1..][k];
      TogetherMean(facts, cursor, operand, spelling, fields[1..], listed[1..], others);
      FieldsMeanCons(facts, cursor, operand, spelling, fields, listed[0], others);
      assert listed == [listed[0]] + listed[1..];
      assert verdicts == {listed[0]} + others;
    }
  }

  // ----- The arguments of a call -----

  /** The blocks of the guards that are known to be taken, in order. */
  function Guarded(facts: Facts, key: StateKey, instructions: seq<Instruction>): seq<nat> {
    if instructions == [] then []
    else
      var first := instructions[0];
      (if first.When? && key.present.Some? && (facts.lower(first.name) in key.present.value) != first.negated
       then [first.block] else [])
      + Guarded(facts, key, instructions[1..])
  }

  /** The instructions of some blocks, in the order they are read: the last block first, and before the others the
      blocks of its guards. Defined where `fuel` blocks are enough. */
  function Reading(facts: Facts, program: Program, key: StateKey, fuel: nat, pending: seq<nat>): Option<seq<Instruction>> {
    if pending == [] then Some([])
    else if fuel == 0 then None
    else
      var last := pending[|pending| - 1];
      var own := if last < |program| then program[last] else [];
      match Reading(facts, program, key, fuel - 1, pending[..|pending| - 1] + Guarded(facts, key, own))
      case None => None
      case Some(rest) => Some(own + rest)
  }

  /** The instruction names an argument. */
  predicate Names(facts: Facts, key: StateKey, instruction: Instruction, name: nat) {
    && instruction.Dispatch? && facts.text(instruction.key, key.values).Some?
    && facts.lower(facts.text(instruction.key, key.values).value) == name
  }

  /** The instruction names an argument and gives it a text. */
  predicate Gives(facts: Facts, key: StateKey, instruction: Instruction, name: nat, text: nat) {
    && Names(facts, key, instruction, name) && instruction.operand.ScalarOperand?
    && facts.text(instruction.operand.token, key.values) == Some(text)
  }

  predicate GivesSome(facts: Facts, key: StateKey, instruction: Instruction, name: nat) {
    && Names(facts, key, instruction, name) && instruction.operand.ScalarOperand?
    && facts.text(instruction.operand.token, key.values).Some?
  }

  /** The last text that is given to the argument. */
  ghost predicate GivenLast(facts: Facts, key: StateKey, read: seq<Instruction>, name: nat, text: nat) {
    exists i :: 0 <= i < |read| && Gives(facts, key, read[i], name, text)
                && forall j :: i < j < |read| ==> !GivesSome(facts, key, read[j], name)
  }

  /** Present is what is named, and an argument has the last text it is given. */
  ghost predicate Passes(facts: Facts, key: StateKey, read: seq<Instruction>, values: map<nat, nat>, present: set<nat>) {
    && (forall name :: name in present <==> exists i :: 0 <= i < |read| && Names(facts, key, read[i], name))
    && (forall name :: name in values <==> exists i :: 0 <= i < |read| && GivesSome(facts, key, read[i], name))
    && (forall name :: name in values ==> GivenLast(facts, key, read, name, values[name]))
  }

  /** What a call is given: nothing by a scalar, what its block reads otherwise. */
  ghost predicate Given(facts: Facts, program: Program, key: StateKey, operand: Operand, values: map<nat, nat>, present: set<nat>) {
    match operand
    case ScalarOperand(_) => values == map[] && present == {}
    case BlockOperand(block) =>
      exists fuel: nat :: Reading(facts, program, key, fuel, [block]).Some?
        && Passes(facts, key, Reading(facts, program, key, fuel, [block]).value, values, present)
  }

  /** Reading instructions one by one into an argument list. */
  function Bound(facts: Facts, key: StateKey, read: seq<Instruction>, found: Arguments): Arguments
    requires |read| <= found.remaining
    decreases |read|
  {
    if read == [] then found
    else Bound(facts, key, read[1..], Argument(facts, key, read[0], found.(remaining := found.remaining - 1)))
  }

  lemma {:induction false} CollectIsBound(facts: Facts, program: Program, key: StateKey, fuel: nat, pending: seq<nat>,
                                          read: seq<Instruction>, found: Arguments)
    requires Reading(facts, program, key, fuel, pending) == Some(read) && |read| <= found.remaining
    ensures Collect(facts, program, key, pending, None, found) == Bound(facts, key, read, found)
    decreases fuel, 1, 0
  {
    if pending != [] {
      var front, last := pending[..|pending| - 1], pending[|pending| - 1];
      var own := Instructions(program, last);
      assert own[0..] == own;
      BlockIsBound(facts, program, key, fuel - 1, front, last, 0,
                   Reading(facts, program, key, fuel - 1, front + Guarded(facts, key, own)).value, found);
    }
  }

  /** The blocks waiting behind an instruction. */
  function Waiting(facts: Facts, key: StateKey, pending: seq<nat>, instruction: Instruction): seq<nat> {
    if Taken(facts, key, instruction) then pending + [instruction.block] else pending
  }

  lemma {:induction false} GuardedNext(facts: Facts, key: StateKey, pending: seq<nat>, own: seq<Instruction>, index: nat)
    requires index < |own|
    ensures Waiting(facts, key, pending, own[index]) + Guarded(facts, key, own[index + 1..])
            == pending + Guarded(facts, key, own[index..])
  {
    assert own[index..][0] == own[index] && own[index..][1..] == own[index + 1..];
  }

  lemma {:induction false} BoundNext(facts: Facts, key: StateKey, own: seq<Instruction>, index: nat, others: seq<Instruction>, found: Arguments)
    requires index < |own| && |own| - index + |others| <= found.remaining
    ensures Bound(facts, key, own[index..] + others, found)
            == Bound(facts, key, own[index + 1..] + others,
                     Argument(facts, key, own[index], found.(remaining := found.remaining - 1)))
  {
    var read := own[index..] + others;
    assert read[0] == own[index] && read[1..] == own[index + 1..] + others;
  }

  lemma {:induction false} BlockIsBound(facts: Facts, program: Program, key: StateKey, fuel: nat, pending: seq<nat>, block: nat,
                                        index: nat, others: seq<Instruction>, found: Arguments)
    requires index <= |Instructions(program, block)|
    requires Reading(facts, program, key, fuel, pending + Guarded(facts, key, Instructions(program, block)[index..])) == Some(others)
    requires |Instructions(program, block)| - index + |others| <= found.remaining
    ensures Collect(facts, program, key, pending, Some((block, index)), found)
            == Bound(facts, key, Instructions(program, block)[index..] + others, found)
    decreases fuel + 1, 0, |Instructions(program, block)| - index
  {
    var own := Instructions(program, block);
    if index == |own| {
      assert own[index..] == [] && pending + [] == pending && [] + others == others;
      CollectIsBound(facts, program, key, fuel, pending, others, found);
    } else {
      GuardedNext(facts, key, pending, own, index);
      BoundNext(facts, key, own, index, others, found);
      CollectNext(facts, program, key, pending, block, index, found);
      BlockIsBound(facts, program, key, fuel, Waiting(facts, key, pending, own[index]), block, index + 1, others,
                   Argument(facts, key, own[index], found.(remaining := found.remaining - 1)));
    }
  }

  lemma {:induction false} CollectNext(facts: Facts, program: Program, key: StateKey, pending: seq<nat>, block: nat, index: nat,
                                       found: Arguments)
    requires index < |Instructions(program, block)| && found.remaining > 0
    ensures var instruction := Instructions(program, block)[index];
            Collect(facts, program, key, pending, Some((block, index)), found)
            == Collect(facts, program, key, Waiting(facts, key, pending, instruction), Some((block, index + 1)),
                       Argument(facts, key, instruction, found.(remaining := found.remaining - 1)))
  {
  }

  /** An argument list that was not cut has read its blocks to the end. */
  lemma {:induction false} UncutIsRead(facts: Facts, program: Program, key: StateKey, pending: seq<nat>, found: Arguments)
    returns (fuel: nat)
    requires !Collect(facts, program, key, pending, None, found).cut
    ensures var read := Reading(facts, program, key, fuel, pending); read.Some? && |read.value| <= found.remaining
    decreases found.remaining, |pending|, 0
  {
    fuel := 0;
    if pending != [] {
      var front, last := pending[..|pending| - 1], pending[|pending| - 1];
      var own := Instructions(program, last);
      assert own[0..] == own;
      fuel := UncutBlockIsRead(facts, program, key, front, last, 0, own, found);
      fuel := fuel + 1;
    }
  }

  lemma {:induction false} UncutBlockIsRead(facts: Facts, program: Program, key: StateKey, pending: seq<nat>, block: nat,
                                            index: nat, rest: seq<Instruction>, found: Arguments) returns (fuel: nat)
    requires index <= |Instructions(program, block)| && rest == Instructions(program, block)[index..]
    requires !Collect(facts, program, key, pending, Some((block, index)), found).cut
    ensures var read := Reading(facts, program, key, fuel, pending + Guarded(facts, key, rest));
            read.Some? && |rest| + |read.value| <= found.remaining
    decreases found.remaining, |pending|, 1
  {
    var own := Instructions(program, block);
    fuel := 0;
    if index == |own| {
      assert pending + Guarded(facts, key, rest) == pending;
      fuel := UncutIsRead(facts, program, key, pending, found);
    } else if found.remaining == 0 {
      CollectCharges(facts, program, key, pending, None, found.(cut := true));
    } else {
      GuardedNext(facts, key, pending, own, index);
      fuel := UncutBlockIsRead(facts, program, key, Waiting(facts, key, pending, own[index]), block, index + 1, own[index + 1..],
                               Argument(facts, key, own[index], found.(remaining := found.remaining - 1)));
    }
  }

  lemma {:induction false} BoundPasses(facts: Facts, key: StateKey, before: seq<Instruction>, read: seq<Instruction>, found: Arguments)
    requires |read| <= found.remaining && Passes(facts, key, before, found.values, found.present)
    ensures var bound := Bound(facts, key, read, found);
            Passes(facts, key, before + read, bound.values, bound.present) && bound.cut == found.cut
    decreases |read|
  {
    if read == [] {
      assert before + read == before;
    } else {
      var next := Argument(facts, key, read[0], found.(remaining := found.remaining - 1));
      ArgumentPasses(facts, key, before, read[0], found.(remaining := found.remaining - 1));
      assert before + read == (before + [read[0]]) + read[1..];
      BoundPasses(facts, key, before + [read[0]], read[1..], next);
    }
  }

  lemma {:induction false} ArgumentPasses(facts: Facts, key: StateKey, before: seq<Instruction>, instruction: Instruction, found: Arguments)
    requires Passes(facts, key, before, found.values, found.present)
    ensures var next := Argument(facts, key, instruction, found);
            Passes(facts, key, before + [instruction], next.values, next.present) && next.cut == found.cut
  {
    var read, next := before + [instruction], Argument(facts, key, instruction, found);
    assert read[|before|] == instruction && forall i :: 0 <= i < |before| ==> read[i] == before[i];
    forall name
      ensures name in next.present <==> exists i :: 0 <= i < |read| && Names(facts, key, read[i], name)
    {
      PresentNext(facts, key, before, instruction, found, name);
    }
    forall name
      ensures name in next.values <==> exists i :: 0 <= i < |read| && GivesSome(facts, key, read[i], name)
      ensures name in next.values ==> GivenLast(facts, key, read, name, next.values[name])
    {
      ValueNext(facts, key, before, instruction, found, name);
    }
  }

  lemma {:induction false} PresentNext(facts: Facts, key: StateKey, before: seq<Instruction>, instruction: Instruction, found: Arguments, name: nat)
    requires name in found.present <==> exists i :: 0 <= i < |before| && Names(facts, key, before[i], name)
    ensures var read := before + [instruction];
            name in Argument(facts, key, instruction, found).present <==> exists i :: 0 <= i < |read| && Names(facts, key, read[i], name)
  {
    var read := before + [instruction];
    assert read[|before|] == instruction && forall i :: 0 <= i < |before| ==> read[i] == before[i];
    if i :| 0 <= i < |before| && Names(facts, key, before[i], name) {
      assert Names(facts, key, read[i], name);
    }
  }

  lemma {:induction false} ValueNext(facts: Facts, key: StateKey, before: seq<Instruction>, instruction: Instruction, found: Arguments, name: nat)
    requires name in found.values <==> exists i :: 0 <= i < |before| && GivesSome(facts, key, before[i], name)
    requires name in found.values ==> GivenLast(facts, key, before, name, found.values[name])
    ensures var read, next := before + [instruction], Argument(facts, key, instruction, found);
            && (name in next.values <==> exists i :: 0 <= i < |read| && GivesSome(facts, key, read[i], name))
            && (name in next.values ==> GivenLast(facts, key, read, name, next.values[name]))
  {
    var read, next := before + [instruction], Argument(facts, key, instruction, found);
    assert read[|before|] == instruction && forall i :: 0 <= i < |before| ==> read[i] == before[i];
    if GivesSome(facts, key, instruction, name) {
      assert GivesSome(facts, key, read[|before|], name) && Gives(facts, key, read[|before|], name, next.values[name]);
    } else if name in found.values {
      var i :| 0 <= i < |before| && Gives(facts, key, before[i], name, found.values[name])
               && forall j :: i < j < |before| ==> !GivesSome(facts, key, before[j], name);
      assert Gives(facts, key, read[i], name, found.values[name]) && GivesSome(facts, key, read[i], name);
      forall j | i < j < |read|
        ensures !GivesSome(facts, key, read[j], name)
      {
      }
    }
  }

  /** The arguments that are collected, if the allowance is enough, are those the call is given; and for some
      allowance it is enough, if the reading ends. */
  lemma {:induction false} ArgumentsLaw(facts: Facts, cursor: Cursor, operand: Operand, allowance: nat)
    requires cursor.Running?
    ensures var found := CallArguments(facts, cursor, operand, allowance);
            !found.cut ==> Given(facts, cursor.program, cursor.key, operand, found.values, found.present)
  {
    var found, program, key := CallArguments(facts, cursor, operand, allowance), cursor.program, cursor.key;
    if operand.BlockOperand? && !found.cut {
      var none := Arguments(map[], {}, allowance, false);
      var fuel := UncutIsRead(facts, program, key, [operand.block], none);
      var read := Reading(facts, program, key, fuel, [operand.block]).value;
      CollectIsBound(facts, program, key, fuel, [operand.block], read, none);
      BoundPasses(facts, key, [], read, none);
      assert [] + read == read;
    }
  }

  lemma {:induction false} GivenIsCollected(facts: Facts, cursor: Cursor, operand: Operand, values: map<nat, nat>, present: set<nat>)
    returns (allowance: nat)
    requires cursor.Running? && Given(facts, cursor.program, cursor.key, operand, values, present)
    ensures var found := CallArguments(facts, cursor, operand, allowance);
            !found.cut && found.values == values && found.present == present
  {
    allowance := 0;
    if operand.BlockOperand? {
      var program, key := cursor.program, cursor.key;
      var fuel: nat :| Reading(facts, program, key, fuel, [operand.block]).Some?
        && Passes(facts, key, Reading(facts, program, key, fuel, [operand.block]).value, values, present);
      var read := Reading(facts, program, key, fuel, [operand.block]).value;
      allowance := |read|;
      var none := Arguments(map[], {}, allowance, false);
      CollectIsBound(facts, program, key, fuel, [operand.block], read, none);
      BoundPasses(facts, key, [], read, none);
      assert [] + read == read;
      var found := Bound(facts, key, read, none);
      PassesOnce(facts, key, read, values, present, found.values, found.present);
    }
  }

  /** What is read determines what is given. */
  lemma {:induction false} PassesOnce(facts: Facts, key: StateKey, read: seq<Instruction>, values: map<nat, nat>, present: set<nat>,
                   others: map<nat, nat>, named: set<nat>)
    requires Passes(facts, key, read, values, present) && Passes(facts, key, read, others, named)
    ensures values == others && present == named
  {
    PresentOnce(facts, key, read, values, present, others, named);
    forall name | name in values
      ensures values[name] == others[name]
    {
      LastOnce(facts, key, read, name, values[name], others[name]);
    }
  }

  lemma {:induction false} PresentOnce(facts: Facts, key: StateKey, read: seq<Instruction>, values: map<nat, nat>, present: set<nat>,
                                       others: map<nat, nat>, named: set<nat>)
    requires Passes(facts, key, read, values, present) && Passes(facts, key, read, others, named)
    ensures values.Keys == others.Keys && present == named
    ensures forall name :: name in values ==>
              GivenLast(facts, key, read, name, values[name]) && GivenLast(facts, key, read, name, others[name])
  {
    assert forall name :: name in values <==> name in others;
    assert forall name :: name in present <==> name in named;
  }

  lemma {:induction false} LastOnce(facts: Facts, key: StateKey, read: seq<Instruction>, name: nat, text: nat, other: nat)
    requires GivenLast(facts, key, read, name, text) && GivenLast(facts, key, read, name, other)
    ensures text == other
  {
    var i :| 0 <= i < |read| && Gives(facts, key, read[i], name, text)
             && forall j :: i < j < |read| ==> !GivesSome(facts, key, read[j], name);
    var k :| 0 <= k < |read| && Gives(facts, key, read[k], name, other)
             && forall j :: k < j < |read| ==> !GivesSome(facts, key, read[j], name);
    assert GivesSome(facts, key, read[i], name) && GivesSome(facts, key, read[k], name);
  }

  // ----- Fields and calls -----

  /** A call of a template that is not there is open; any other has the verdict of its first block. */
  lemma {:induction false} CallLaw(facts: Facts, key: StateKey, verdict: Validation)
    ensures CallMeans(facts, key, verdict) <==>
            match facts.definition(key.kind, key.name)
            case None => verdict == Unknown
            case Some(definition) => RestMeans(facts, Entered(definition.program, 0, definition.schema, key), verdict)
  {
    match facts.definition(key.kind, key.name)
    case None =>
      MissingIsOpen(facts, key);
      if CallMeans(facts, key, verdict) {
        CallMeansOnce(facts, key, verdict, Unknown);
      }
    case Some(definition) =>
      var body := Entered(definition.program, 0, definition.schema, key);
      if RestMeans(facts, body, verdict) {
        CallIsItsBody(facts, key, definition, 0, verdict);
      }
      if CallMeans(facts, key, verdict) {
        var fuel: nat :| CallVerdict(facts, fuel, key) == Some(verdict);
        assert RestVerdict(facts, fuel - 1, body) == Some(verdict);
      }
  }

  /** The field is out of scope, or its link is. */
  predicate OutOfScope(facts: Facts, field: nat, spelling: nat, state: nat) {
    facts.fieldScope(field, state) == Invalid || (facts.linked(field) && facts.linkVerdict(field, spelling, state) == Invalid)
  }

  predicate ScopeUnknown(facts: Facts, field: nat, spelling: nat, state: nat) {
    facts.fieldScope(field, state) == Unknown || (facts.linked(field) && facts.linkVerdict(field, spelling, state) == Unknown)
  }

  /** A field is rejected out of scope; otherwise it has the worse of its scope's verdict and that of the template
      it calls with what it is given, or of the block it opens. */
  lemma {:induction false} FieldLaw(facts: Facts, cursor: Cursor, operand: Operand, spelling: nat, field: nat, verdict: Validation)
    requires cursor.Running?
    ensures var key := cursor.key;
            var allowed := if ScopeUnknown(facts, field, spelling, key.state) then Unknown else Valid;
            FieldMeans(facts, cursor, operand, spelling, field, verdict) <==>
              if OutOfScope(facts, field, spelling, key.state) then verdict == Invalid
              else if facts.callee(field).Some? then
                exists values, present, v ::
                  && Given(facts, cursor.program, key, operand, values, present)
                  && CallMeans(facts, StateKey(facts.callee(field).value, facts.lower(spelling), values, Some(present), key.state), v)
                  && verdict == Worse(allowed, v)
              else if operand.BlockOperand? && facts.child(field, cursor.schema).Some? && !facts.displayOnly(field) then
                WorseThanRest(facts, allowed,
                              Entered(cursor.program, operand.block, facts.child(field, cursor.schema).value,
                                      key.(state := facts.transition(key.state, field, spelling))), verdict)
              else verdict == allowed
  {
    var at, key := cursor.(target := 0), cursor.key;
    var allowed := if ScopeUnknown(facts, field, spelling, key.state) then Unknown else Valid;
    if OutOfScope(facts, field, spelling, key.state) {
      assert Allowed(facts, field, key, spelling) == Invalid;
      assert FieldVerdict(facts, 0, at, operand, spelling, field) == Some(Invalid);
    } else {
      assert Allowed(facts, field, key, spelling) == allowed;
      if facts.callee(field).Some? {
        CalleeLaw(facts, cursor, operand, spelling, field, facts.callee(field).value, allowed, verdict);
      } else if operand.BlockOperand? && facts.child(field, cursor.schema).Some? && !facts.displayOnly(field) {
        ChildLaw(facts, cursor, operand, spelling, field, allowed, verdict);
      } else {
        assert FieldVerdict(facts, 0, at, operand, spelling, field) == Some(allowed);
      }
    }
  }

  lemma {:induction false} CalleeLaw(facts: Facts, cursor: Cursor, operand: Operand, spelling: nat, field: nat, kind: nat, allowed: Validation,
                  verdict: Validation)
    requires cursor.Running? && facts.callee(field) == Some(kind)
    requires allowed == Allowed(facts, field, cursor.key, spelling) && allowed != Invalid
    ensures FieldMeans(facts, cursor, operand, spelling, field, verdict) <==>
            exists values, present, v ::
              && Given(facts, cursor.program, cursor.key, operand, values, present)
              && CallMeans(facts, StateKey(kind, facts.lower(spelling), values, Some(present), cursor.key.state), v)
              && verdict == Worse(allowed, v)
  {
    var at := cursor.(target := 0);
    if FieldMeans(facts, cursor, operand, spelling, field, verdict) {
      var fuel: nat :| FieldVerdict(facts, fuel, at, operand, spelling, field) == Some(verdict);
      var found := CallArguments(facts, at, operand, fuel);
      ArgumentsLaw(facts, at, operand, fuel);
      var callee := StateKey(kind, facts.lower(spelling), found.values, Some(found.present), cursor.key.state);
      assert callee == CalleeKey(facts, at, spelling, kind, found);
      var v := CallVerdict(facts, fuel, callee).value;
      assert CallMeans(facts, callee, v) && verdict == Worse(allowed, v);
    }
    if values, present, v :|
        && Given(facts, cursor.program, cursor.key, operand, values, present)
        && CallMeans(facts, StateKey(kind, facts.lower(spelling), values, Some(present), cursor.key.state), v)
        && verdict == Worse(allowed, v) {
      var allowance := GivenIsCollected(facts, cursor, operand, values, present);
      CalleeMeans(facts, cursor, operand, spelling, field, kind, allowance, v);
    }
  }

  lemma {:induction false} ChildLaw(facts: Facts, cursor: Cursor, operand: Operand, spelling: nat, field: nat, allowed: Validation, verdict: Validation)
    requires cursor.Running? && facts.callee(field) == None && operand.BlockOperand?
    requires facts.child(field, cursor.schema).Some? && !facts.displayOnly(field)
    requires allowed == Allowed(facts, field, cursor.key, spelling) && allowed != Invalid
    ensures FieldMeans(facts, cursor, operand, spelling, field, verdict) <==>
            WorseThanRest(facts, allowed,
                          Entered(cursor.program, operand.block, facts.child(field, cursor.schema).value,
                                  cursor.key.(state := facts.transition(cursor.key.state, field, spelling))), verdict)
  {
    var at := cursor.(target := 0);
    var child := Entered(cursor.program, operand.block, facts.child(field, cursor.schema).value,
                         cursor.key.(state := facts.transition(cursor.key.state, field, spelling)));
    assert child == ChildCursor(facts, at, operand, spelling, field, 0);
    if FieldMeans(facts, cursor, operand, spelling, field, verdict) {
      var fuel: nat :| FieldVerdict(facts, fuel, at, operand, spelling, field) == Some(verdict);
      var v := RestVerdict(facts, fuel - 1, child).value;
      assert RestMeans(facts, child, v) && verdict == Worse(allowed, v);
    }
    if v :| RestMeans(facts, child, v) && verdict == Worse(allowed, v) {
      ChildMeans(facts, cursor, operand, spelling, field, 0, v);
    }
  }

  // ----- What else a run reports -----

  lemma {:induction false} FieldStepsReport(facts: Facts, solver: Solver, cursor: Cursor, operand: Operand, spelling: nat,
                                            alternatives: nat, fields: seq<nat>)
    requires cursor.Running? && alternatives < |solver.nodes|
    ensures var after := FieldSteps(facts, solver, cursor, operand, spelling, alternatives, fields);
            && after.conditions == solver.conditions && after.dynamic == solver.dynamic
            && (after.limits == solver.limits || after.limits == solver.limits + {Nodes})
    decreases fields
  {
    if fields != [] {
      FieldStepsReport(facts, FieldStep(facts, solver, cursor, operand, spelling, alternatives, fields[0]),
                       cursor, operand, spelling, alternatives, fields[1..]);
    }
  }

  /** A run reports the names of the guards it could not decide, and that it was dynamic where a token it had to read
      has no text; recovered text is a limit, and so is an argument list that was cut. */
  lemma {:induction false} ReportLaw(facts: Facts, solver: Solver, cursor: Cursor, instruction: Instruction)
    requires cursor.Running? && cursor.target < |solver.nodes|
    ensures var after, values := Instruct(facts, solver, cursor, instruction), cursor.key.values;
            match instruction
            case Recover =>
              after.conditions == solver.conditions && after.dynamic == solver.dynamic
              && after.limits == solver.limits + {StructuralRecovery}
            case Consume(token) =>
              after.conditions == solver.conditions && after.limits == solver.limits
              && after.dynamic == (solver.dynamic || facts.text(token, values) == None)
            case When(name, _, _) =>
              after.dynamic == solver.dynamic && after.limits == solver.limits
              && after.conditions == (if cursor.key.present == None then solver.conditions + {name} else solver.conditions)
            case Dispatch(key, _) =>
              after.conditions == solver.conditions
              && after.dynamic == (solver.dynamic || (!cursor.uncertain && facts.text(key, values) == None))
              && (after.limits == solver.limits || after.limits == solver.limits + {Nodes})
  {
    if instruction.Dispatch? && !cursor.uncertain && facts.text(instruction.key, cursor.key.values).Some? {
      var spelling := facts.text(instruction.key, cursor.key.values).value;
      var fields := facts.candidates(cursor.schema, spelling, instruction.operand.BlockOperand?);
      if fields != [] {
        var started := solver.(nodes := Arena.Add(solver.nodes, cursor.target, Arena.Any([])), cursor := cursor);
        FieldStepsReport(facts, started, cursor, instruction.operand, spelling, |solver.nodes|, fields);
      }
    }
  }
}
