/** Whole-container overload checking: a LIFO task stack grows an And/Or arena, collapses finished
    rows and memoises contexts. Rule data, scope transitions and scalar matching are uninterpreted
    functions of their inputs. */
module BlockChecking {
  import opened Kleene
  import opened Arena
  import opened Options

  datatype Context = Context(schema: nat, range: nat, state: nat, indices: seq<nat>, branchSelf: Option<nat>)

  datatype Task = Enter(context: Context, target: nat) | Finish(context: Context, target: nat)

  datatype FieldValue = ScalarValue | SelfBlock | ChildBlock

  datatype Rules = Rules(
    children: seq<seq<nat>>,                      // direct child properties of each property
    valueRange: nat -> nat,
    deferred: nat -> bool,                        // the key is a hole or an unbound template token
    incomplete: nat -> bool,                      // no value range or no operator
    scalar: nat -> bool,
    scalarDeferred: nat -> bool,                  // the scalar is a hole or an unbound template token
    open: nat -> bool,
    candidates: (Context, nat) -> seq<nat>,
    keyKnown: (Context, nat, nat) -> bool,
    keyLimited: (Context, nat, nat) -> bool,
    fieldScope: (nat, nat) -> Validation,
    fieldValue: nat -> FieldValue,
    scalarVerdict: (Context, nat, nat) -> Validation,
    scalarLimited: (Context, nat, nat) -> bool,
    displayOnly: nat -> bool,
    rebindsSelf: nat -> bool,                     // weighted, chance and switch blocks
    child: (nat, nat) -> Option<nat>,
    transition: (nat, nat, nat) -> nat,
    hole: nat -> bool,
    breaches: (Context, seq<(nat, nat)>, bool) -> nat  // violated forms and family quotas
  ) {
    predicate ValidIndices(indices: seq<nat>) {
      forall i: nat :: i in indices ==> i < |children|
    }

    /** Children come after their property in source order. */
    predicate Valid() {
      forall p: nat, c: nat :: p < |children| && c in children[p] ==> p < c < |children|
    }
  }

  /** How much of the property list lies at or after the earliest of `indices`. */
  function Span(count: nat, indices: seq<nat>): (span: nat)
    requires forall i: nat :: i in indices ==> i < count
    ensures forall i: nat :: i in indices ==> count - i <= span
    ensures indices == [] ==> span == 0
    ensures indices != [] ==> exists i: nat :: i in indices && span == count - i
  {
    if indices == [] then 0
    else
      assert indices == [indices[0]] + indices[1..];
      assert forall i: nat :: i in indices[1..] ==> i in indices;
      var rest := Span(count, indices[1..]);
      assert indices[0] in indices;
      if count - indices[0] < rest then rest else count - indices[0]
  }

  ghost predicate ValidContext(rules: Rules, context: Context) {
    rules.Valid() && rules.ValidIndices(context.indices)
  }

  function Size(rules: Rules, context: Context): nat
    requires ValidContext(rules, context)
  {
    Span(|rules.children|, context.indices)
  }

  function ValueVerdict(rules: Rules, context: Context, index: nat, field: nat): Validation {
    match (rules.fieldValue(field), rules.scalar(index))
    case (ScalarValue, true) =>
      if rules.scalarDeferred(index) then Unknown else rules.scalarVerdict(context, index, field)
    case (ScalarValue, false) => Invalid
    case (_, true) => Invalid
    case (_, false) => Valid
  }

  function KeyVerdict(rules: Rules, context: Context, index: nat, field: nat): Validation {
    if rules.keyKnown(context, index, field) then Valid else Unknown
  }

  /** The field is neither out of scope nor of the wrong value. */
  predicate Admitted(rules: Rules, context: Context, index: nat, field: nat) {
    rules.fieldScope(field, context.state) != Invalid && ValueVerdict(rules, context, index, field) != Invalid
  }

  /** The block that must be checked inside a row, if the row gets that far. */
  function Nested(rules: Rules, context: Context, index: nat, field: nat): Option<Context>
    requires index < |rules.children|
  {
    if !Admitted(rules, context, index, field) || rules.scalar(index) || rules.displayOnly(field) then None
    else
      var schema: Option<nat> :=
        if rules.fieldValue(field) == SelfBlock then
          Some(if context.branchSelf.Some? then context.branchSelf.value else context.schema)
        else rules.child(field, context.schema);
      if schema.None? then None
      else Some(Context(schema.value, rules.valueRange(index),
                        rules.transition(context.state, field, index), rules.children[index],
                        if rules.rebindsSelf(field) then Some(context.schema) else None))
  }

  /** The verdicts written directly under a row. */
  function RowLeaves(rules: Rules, context: Context, index: nat, field: nat): set<Validation> {
    var scope := rules.fieldScope(field, context.state);
    {KeyVerdict(rules, context, index, field), scope} +
    if scope == Invalid then {} else {ValueVerdict(rules, context, index, field)}
  }

  predicate IsLeafItem(rules: Rules, context: Context, index: nat) {
    rules.deferred(index) || rules.candidates(context, index) == []
  }

  function LeafVerdict(rules: Rules, context: Context, index: nat): Validation {
    if rules.deferred(index) || rules.incomplete(index) then Unknown
    else if rules.open(context.schema) then Valid
    else Invalid
  }

  /** Rows whose key, item or container is not fully known suspend the lower quotas. */
  predicate PartialItem(rules: Rules, context: Context, index: nat) {
    || rules.deferred(index)
    || (rules.candidates(context, index) == [] && rules.incomplete(index))
    || UnknownKey(rules, context, index, rules.candidates(context, index))
  }

  predicate UnknownKey(rules: Rules, context: Context, index: nat, fields: seq<nat>) {
    exists field :: field in fields && !rules.keyKnown(context, index, field)
  }

  /** The property's first admitted field, as counted by the quotas. */
  function SelectedIn(rules: Rules, context: Context, index: nat, fields: seq<nat>): seq<(nat, nat)> {
    if fields == [] then []
    else if Admitted(rules, context, index, fields[0]) then [(fields[0], index)]
    else SelectedIn(rules, context, index, fields[1..])
  }

  function Selected(rules: Rules, context: Context, indices: seq<nat>): seq<(nat, nat)> {
    if indices == [] then []
    else
      var last := indices[|indices| - 1];
      Selected(rules, context, indices[..|indices| - 1]) +
      if rules.deferred(last) then [] else SelectedIn(rules, context, last, rules.candidates(context, last))
  }

  ghost predicate Partial(rules: Rules, context: Context, indices: seq<nat>) {
    rules.hole(context.range) || exists index :: index in indices && PartialItem(rules, context, index)
  }

  ghost function QuotaVerdicts(rules: Rules, context: Context): set<Validation> {
    if rules.breaches(context, Selected(rules, context, context.indices),
                      Partial(rules, context, context.indices)) > 0 then {Invalid} else {}
  }

  lemma NestedIsSmaller(rules: Rules, context: Context, index: nat, field: nat)
    requires ValidContext(rules, context) && index in context.indices
    requires Nested(rules, context, index, field).Some?
    ensures ValidContext(rules, Nested(rules, context, index, field).value)
    ensures Size(rules, Nested(rules, context, index, field).value) < Size(rules, context)
  {
    var nested := Nested(rules, context, index, field).value;
    assert forall c :: c in nested.indices ==> index < c < |rules.children|;
  }

  /** The memo-free recursive check of one container. */
  ghost function Verdict(rules: Rules, context: Context): Validation
    requires ValidContext(rules, context)
    decreases Size(rules, context), 5
  {
    Conj(ItemVerdicts(rules, context, context.indices) + QuotaVerdicts(rules, context))
  }

  ghost function ItemVerdicts(rules: Rules, context: Context, indices: seq<nat>): set<Validation>
    requires ValidContext(rules, context) && forall i :: i in indices ==> i in context.indices
    decreases Size(rules, context), 4
  {
    set index | index in indices :: ItemVerdict(rules, context, index)
  }

  ghost function ItemVerdict(rules: Rules, context: Context, index: nat): Validation
    requires ValidContext(rules, context) && index in context.indices
    decreases Size(rules, context), 3
  {
    if IsLeafItem(rules, context, index) then LeafVerdict(rules, context, index)
    else Disj(RowVerdicts(rules, context, index, rules.candidates(context, index)))
  }

  ghost function RowVerdicts(rules: Rules, context: Context, index: nat, fields: seq<nat>): set<Validation>
    requires ValidContext(rules, context) && index in context.indices
    decreases Size(rules, context), 2
  {
    set field | field in fields :: RowVerdict(rules, context, index, field)
  }

  ghost function RowVerdict(rules: Rules, context: Context, index: nat, field: nat): Validation
    requires ValidContext(rules, context) && index in context.indices
    decreases Size(rules, context), 1
  {
    Conj(RowLeaves(rules, context, index, field) + NestedVerdicts(rules, context, index, field))
  }

  ghost function NestedVerdicts(rules: Rules, context: Context, index: nat, field: nat): set<Validation>
    requires ValidContext(rules, context) && index in context.indices
    decreases Size(rules, context), 0
  {
    match Nested(rules, context, index, field)
    case None => {}
    case Some(nested) =>
      NestedIsSmaller(rules, context, index, field);
      {Verdict(rules, nested)}
  }

  // ----- The blocks that a check enters -----

  /** The blocks that the fields of a property enter, in order. */
  function NestedOf(rules: Rules, context: Context, index: nat, fields: seq<nat>): seq<Context>
    requires index < |rules.children|
  {
    if fields == [] then []
    else
      var last := fields[|fields| - 1];
      NestedOf(rules, context, index, fields[..|fields| - 1]) +
      match Nested(rules, context, index, last)
      case None => []
      case Some(nested) => [nested]
  }

  function ItemNested(rules: Rules, context: Context, index: nat): seq<Context>
    requires index < |rules.children|
  {
    if rules.deferred(index) then [] else NestedOf(rules, context, index, rules.candidates(context, index))
  }

  /** The blocks that the first properties of a container enter. */
  function NestedBelow(rules: Rules, context: Context, count: nat): seq<Context>
    requires rules.ValidIndices(context.indices) && count <= |context.indices|
  {
    if count == 0 then []
    else
      assert context.indices[count - 1] in context.indices;
      NestedBelow(rules, context, count - 1) + ItemNested(rules, context, context.indices[count - 1])
  }

  function Blocks(rules: Rules, context: Context): seq<Context>
    requires rules.ValidIndices(context.indices)
  {
    NestedBelow(rules, context, |context.indices|)
  }

  /** The field is one that the property may name. */
  predicate Offered(rules: Rules, context: Context, index: nat, field: nat) {
    index in context.indices && !rules.deferred(index) && field in rules.candidates(context, index)
  }

  lemma {:induction false} NestedOfMember(rules: Rules, context: Context, index: nat, fields: seq<nat>, nested: Context)
    requires index < |rules.children| && nested in NestedOf(rules, context, index, fields)
    ensures exists field :: field in fields && Nested(rules, context, index, field) == Some(nested)
    decreases fields
  {
    var front, last := fields[..|fields| - 1], fields[|fields| - 1];
    if nested in NestedOf(rules, context, index, front) {
      NestedOfMember(rules, context, index, front, nested);
      var field :| field in front && Nested(rules, context, index, field) == Some(nested);
      assert field in fields;
    } else {
      assert last in fields;
    }
  }

  lemma {:induction false} NestedBelowMember(rules: Rules, context: Context, count: nat, nested: Context)
    requires rules.ValidIndices(context.indices) && count <= |context.indices| && nested in NestedBelow(rules, context, count)
    ensures exists index: nat, field: nat :: Offered(rules, context, index, field) && index < |rules.children|
              && Nested(rules, context, index, field) == Some(nested)
    decreases count
  {
    if nested in NestedBelow(rules, context, count - 1) {
      NestedBelowMember(rules, context, count - 1, nested);
    } else {
      var last := context.indices[count - 1];
      assert last in context.indices;
      NestedOfMember(rules, context, last, rules.candidates(context, last), nested);
      var field :| field in rules.candidates(context, last) && Nested(rules, context, last, field) == Some(nested);
      assert Offered(rules, context, last, field);
    }
  }

  lemma BelowIsSmaller(rules: Rules, context: Context, nested: Context)
    requires ValidContext(rules, context) && nested in Blocks(rules, context)
    ensures ValidContext(rules, nested) && Size(rules, nested) < Size(rules, context)
  {
    NestedBelowMember(rules, context, |context.indices|, nested);
    var index: nat, field: nat :| Offered(rules, context, index, field) && index < |rules.children|
      && Nested(rules, context, index, field) == Some(nested);
    NestedIsSmaller(rules, context, index, field);
  }

  // ----- Limited searches, lost proofs and charges -----

  /** Checking the field meets a search that was cut short. */
  predicate FieldLimits(rules: Rules, context: Context, index: nat, field: nat) {
    || rules.keyLimited(context, index, field)
    || (rules.fieldScope(field, context.state) != Invalid && rules.fieldValue(field).ScalarValue? && rules.scalar(index)
        && !rules.scalarDeferred(index) && rules.scalarLimited(context, index, field))
  }

  predicate LimitsOf(rules: Rules, context: Context, index: nat, fields: seq<nat>) {
    exists field :: field in fields && FieldLimits(rules, context, index, field)
  }

  predicate ItemLimits(rules: Rules, context: Context, index: nat) {
    !rules.deferred(index) && LimitsOf(rules, context, index, rules.candidates(context, index))
  }

  predicate LimitsAmong(rules: Rules, context: Context, count: nat)
    requires count <= |context.indices|
  {
    exists j: nat :: j < count && ItemLimits(rules, context, context.indices[j])
  }

  predicate LimitsHere(rules: Rules, context: Context) {
    LimitsAmong(rules, context, |context.indices|)
  }

  /** Some container that the check enters meets a limited search. */
  ghost predicate Limits(rules: Rules, context: Context)
    requires ValidContext(rules, context)
    decreases Size(rules, context)
  {
    || LimitsHere(rules, context)
    || exists nested :: nested in Blocks(rules, context)
         && (BelowIsSmaller(rules, context, nested); Limits(rules, nested))
  }

  /** No row that waits for a block holds an unknown of its own. */
  ghost predicate Clear(rules: Rules, context: Context)
    requires ValidContext(rules, context)
  {
    forall index, field :: Offered(rules, context, index, field) && Nested(rules, context, index, field).Some? ==>
      Unknown !in RowLeaves(rules, context, index, field)
  }

  /** Nor does one in any block below: what is remembered for a context is then that context's own verdict. */
  ghost predicate Certain(rules: Rules, context: Context)
    requires ValidContext(rules, context)
    decreases Size(rules, context)
  {
    && Clear(rules, context)
    && forall nested :: nested in Blocks(rules, context) ==>
         (BelowIsSmaller(rules, context, nested); Certain(rules, nested))
  }

  /** The charges of a check without memo: entering and finishing, each property, each block below. */
  function Cost(rules: Rules, context: Context): (cost: nat)
    requires rules.Valid() && rules.ValidIndices(context.indices)
    ensures cost >= 2
    decreases Size(rules, context), 1, 0
  {
    2 + |context.indices| + CostOf(rules, context, Blocks(rules, context))
  }

  function CostOf(rules: Rules, context: Context, blocks: seq<Context>): nat
    requires rules.Valid() && rules.ValidIndices(context.indices)
    requires forall nested :: nested in blocks ==> nested in Blocks(rules, context)
    decreases Size(rules, context), 0, |blocks|
  {
    if blocks == [] then 0
    else
      var last := blocks[|blocks| - 1];
      assert last in blocks && forall nested :: nested in blocks[..|blocks| - 1] ==> nested in blocks;
      BelowIsSmaller(rules, context, last);
      CostOf(rules, context, blocks[..|blocks| - 1]) + Cost(rules, last)
  }

  // ----- The arena written for one container -----

  /** The verdicts that entered tasks still owe to their target rows. */
  ghost predicate Owes(rules: Rules, work: seq<Task>, owed: map<nat, Validation>) {
    && (forall k :: 0 <= k < |work| && work[k].Enter? ==>
          && ValidContext(rules, work[k].context)
          && work[k].target in owed && owed[work[k].target] == Verdict(rules, work[k].context))
    && (forall t :: t in owed ==> exists k :: 0 <= k < |work| && work[k].Enter? && work[k].target == t)
  }

  ghost predicate DistinctTargets(work: seq<Task>) {
    forall j, k :: 0 <= j < k < |work| ==> work[j].target != work[k].target
  }

  /** A row holds exactly its leaf verdicts, and is owed the verdict of its nested block. */
  ghost predicate RowShape(rules: Rules, context: Context, index: nat, field: nat,
                           nodes: seq<Node>, owed: map<nat, Validation>, row: nat, hi: nat)
    requires ValidContext(rules, context) && index in context.indices
  {
    && row < hi <= |nodes|
    && nodes[row].All?
    && (forall c :: c in nodes[row].children ==> row < c < hi && nodes[c].Value?)
    && (set c | c in nodes[row].children && c < |nodes| && nodes[c].Value? :: nodes[c].value)
       == RowLeaves(rules, context, index, field)
    && DueAt(owed, row) == NestedVerdicts(rules, context, index, field)
  }

  /** A property is one leaf, or an `Any` over one row for each candidate field. */
  ghost predicate RowsShape(rules: Rules, context: Context, index: nat, fields: seq<nat>,
                            nodes: seq<Node>, owed: map<nat, Validation>, item: nat, hi: nat)
    requires ValidContext(rules, context) && index in context.indices
  {
    && item < hi <= |nodes|
    && nodes[item].Any?
    && |nodes[item].children| == |fields|
    && forall m :: 0 <= m < |fields| ==>
         item < nodes[item].children[m] && RowShape(rules, context, index, fields[m], nodes, owed, nodes[item].children[m], hi)
  }

  ghost predicate ItemShape(rules: Rules, context: Context, index: nat,
                            nodes: seq<Node>, owed: map<nat, Validation>, item: nat, hi: nat)
    requires ValidContext(rules, context) && index in context.indices
  {
    if IsLeafItem(rules, context, index) then
      item < hi <= |nodes| && nodes[item] == Value(LeafVerdict(rules, context, index))
    else RowsShape(rules, context, index, rules.candidates(context, index), nodes, owed, item, hi)
  }

  lemma ShapeFrame(rules: Rules, context: Context, index: nat, fields: seq<nat>, item: nat, hi: nat,
                   nodes: seq<Node>, owed: map<nat, Validation>, nodes': seq<Node>, owed': map<nat, Validation>)
    requires ValidContext(rules, context) && index in context.indices
    requires hi <= |nodes| <= |nodes'|
    requires forall i: nat :: item <= i < hi ==> nodes'[i] == nodes[i] && DueAt(owed', i) == DueAt(owed, i)
    ensures RowsShape(rules, context, index, fields, nodes, owed, item, hi) ==>
              forall hi' :: hi <= hi' <= |nodes'| ==> RowsShape(rules, context, index, fields, nodes', owed', item, hi')
    ensures ItemShape(rules, context, index, nodes, owed, item, hi) ==>
              forall hi' :: hi <= hi' <= |nodes'| ==> ItemShape(rules, context, index, nodes', owed', item, hi')
  {
    if RowsShape(rules, context, index, fields, nodes, owed, item, hi) {
      RowsFrame(rules, context, index, fields, item, hi, nodes, owed, nodes', owed');
    }
    if ItemShape(rules, context, index, nodes, owed, item, hi) && !IsLeafItem(rules, context, index) {
      RowsFrame(rules, context, index, rules.candidates(context, index), item, hi, nodes, owed, nodes', owed');
    }
  }

  lemma RowFrame(rules: Rules, context: Context, index: nat, field: nat, row: nat, hi: nat, hi': nat,
                 nodes: seq<Node>, owed: map<nat, Validation>, nodes': seq<Node>, owed': map<nat, Validation>)
    requires ValidContext(rules, context) && index in context.indices
    requires RowShape(rules, context, index, field, nodes, owed, row, hi)
    requires hi <= hi' <= |nodes'| && |nodes| <= |nodes'|
    requires forall i: nat :: row <= i < hi ==> nodes'[i] == nodes[i]
    requires DueAt(owed', row) == DueAt(owed, row)
    ensures RowShape(rules, context, index, field, nodes', owed', row, hi')
  {
    var before := set c | c in nodes[row].children && c < |nodes| && nodes[c].Value? :: nodes[c].value;
    var after := set c | c in nodes'[row].children && c < |nodes'| && nodes'[c].Value? :: nodes'[c].value;
    forall v | v in before
      ensures v in after
    {
      var c :| c in nodes[row].children && c < |nodes| && nodes[c].Value? && nodes[c].value == v;
      assert nodes'[c] == nodes[c];
    }
    forall v | v in after
      ensures v in before
    {
      var c :| c in nodes'[row].children && c < |nodes'| && nodes'[c].Value? && nodes'[c].value == v;
      assert nodes'[c] == nodes[c];
    }
    assert before == after;
  }

  lemma RowsFrame(rules: Rules, context: Context, index: nat, fields: seq<nat>, item: nat, hi: nat,
                  nodes: seq<Node>, owed: map<nat, Validation>, nodes': seq<Node>, owed': map<nat, Validation>)
    requires ValidContext(rules, context) && index in context.indices
    requires hi <= |nodes| <= |nodes'|
    requires forall i: nat :: item <= i < hi ==> nodes'[i] == nodes[i] && DueAt(owed', i) == DueAt(owed, i)
    requires RowsShape(rules, context, index, fields, nodes, owed, item, hi)
    ensures forall hi' :: hi <= hi' <= |nodes'| ==> RowsShape(rules, context, index, fields, nodes', owed', item, hi')
  {
    forall hi', m | hi <= hi' <= |nodes'| && 0 <= m < |fields|
      ensures RowShape(rules, context, index, fields[m], nodes', owed', nodes[item].children[m], hi')
    {
      RowFrame(rules, context, index, fields[m], nodes[item].children[m], hi, hi', nodes, owed, nodes', owed');
    }
  }

  lemma RowMeaning(rules: Rules, context: Context, index: nat, field: nat,
                   nodes: seq<Node>, owed: map<nat, Validation>, row: nat, hi: nat)
    requires ValidContext(rules, context) && index in context.indices && Acyclic(nodes)
    requires RowShape(rules, context, index, field, nodes, owed, row, hi)
    ensures Eval(nodes, owed, row) == RowVerdict(rules, context, index, field)
  {
    EvalNode(nodes, owed, row);
    var children := nodes[row].children;
    forall c | c in children
      ensures Eval(nodes, owed, c) == nodes[c].value
    {
      EvalNode(nodes, owed, c);
    }
    var values := set c | c in children && c < |nodes| && nodes[c].Value? :: nodes[c].value;
    assert values == Outcomes(nodes, owed, children);
  }

  lemma OutcomesOf(nodes: seq<Node>, owed: map<nat, Validation>, ids: seq<nat>, verdicts: seq<Validation>)
    requires Acyclic(nodes) && |ids| == |verdicts|
    requires forall m :: 0 <= m < |ids| ==> ids[m] < |nodes| && Eval(nodes, owed, ids[m]) == verdicts[m]
    ensures Outcomes(nodes, owed, ids) == set v | v in verdicts
  {
    var outcomes := Outcomes(nodes, owed, ids);
    forall v | v in verdicts
      ensures v in outcomes
    {
      var m :| 0 <= m < |verdicts| && verdicts[m] == v;
      assert ids[m] in ids;
    }
    forall v | v in outcomes
      ensures v in verdicts
    {
      var m :| 0 <= m < |ids| && Eval(nodes, owed, ids[m]) == v;
      assert verdicts[m] == v;
    }
  }

  lemma RowsMeaning(rules: Rules, context: Context, index: nat, fields: seq<nat>,
                    nodes: seq<Node>, owed: map<nat, Validation>, item: nat, hi: nat)
    requires ValidContext(rules, context) && index in context.indices && Acyclic(nodes)
    requires RowsShape(rules, context, index, fields, nodes, owed, item, hi)
    ensures Eval(nodes, owed, item) == Disj(RowVerdicts(rules, context, index, fields))
  {
    EvalNode(nodes, owed, item);
    var rows := nodes[item].children;
    var verdicts := seq(|fields|, m requires 0 <= m < |fields| => RowVerdict(rules, context, index, fields[m]));
    forall m | 0 <= m < |fields|
      ensures rows[m] < |nodes| && Eval(nodes, owed, rows[m]) == verdicts[m]
    {
      RowMeaning(rules, context, index, fields[m], nodes, owed, rows[m], hi);
    }
    OutcomesOf(nodes, owed, rows, verdicts);
    VerdictsOf(rules, context, index, fields, verdicts);
  }

  lemma VerdictsOf(rules: Rules, context: Context, index: nat, fields: seq<nat>, verdicts: seq<Validation>)
    requires ValidContext(rules, context) && index in context.indices && |verdicts| == |fields|
    requires forall m :: 0 <= m < |fields| ==> verdicts[m] == RowVerdict(rules, context, index, fields[m])
    ensures (set v | v in verdicts) == RowVerdicts(rules, context, index, fields)
  {
    forall field | field in fields
      ensures RowVerdict(rules, context, index, field) in verdicts
    {
      var m :| 0 <= m < |fields| && fields[m] == field;
      assert verdicts[m] in verdicts;
    }
  }

  lemma ItemMeaning(rules: Rules, context: Context, index: nat,
                    nodes: seq<Node>, owed: map<nat, Validation>, item: nat, hi: nat)
    requires ValidContext(rules, context) && index in context.indices && Acyclic(nodes)
    requires ItemShape(rules, context, index, nodes, owed, item, hi)
    ensures Eval(nodes, owed, item) == ItemVerdict(rules, context, index)
  {
    EvalNode(nodes, owed, item);
    if !IsLeafItem(rules, context, index) {
      RowsMeaning(rules, context, index, rules.candidates(context, index), nodes, owed, item, hi);
    }
  }

  // ----- Writing one container -----

  function NestedTasks(nested: Option<Context>, row: nat): seq<Task> {
    if nested.None? then [] else [Enter(nested.value, row)]
  }

  /** A row waiting for its nested block holds only values, none of them a rejection; if `sure`, all of them proofs. */
  ghost predicate Ready(nodes: seq<Node>, row: nat, sure: bool) {
    && row < |nodes| && nodes[row].All?
    && forall c :: c in nodes[row].children ==>
         c < |nodes| && nodes[c].Value? && nodes[c].value != Invalid && (sure ==> nodes[c].value != Unknown)
  }

  ghost predicate AllReady(nodes: seq<Node>, entered: seq<Task>, from: nat, sure: bool) {
    && DistinctTargets(entered)
    && forall k :: 0 <= k < |entered| ==>
         entered[k].Enter? && from <= entered[k].target && Ready(nodes, entered[k].target, sure)
  }

  /** The arena after one row with its leaf verdicts was written under `alternatives`. */
  function WithRow(before: seq<Node>, alternatives: nat, leaves: seq<Validation>): seq<Node>
    requires alternatives < |before|
  {
    before[alternatives := Attach(before[alternatives], |before|)]
    + [All(seq(|leaves|, k requires 0 <= k < |leaves| => |before| + 1 + k))]
    + seq(|leaves|, k requires 0 <= k < |leaves| => Value(leaves[k]))
  }

  /** What stands where after a row was written. */
  lemma RowNodes(before: seq<Node>, alternatives: nat, leaves: seq<Validation>)
    requires alternatives < |before|
    ensures var nodes, row := WithRow(before, alternatives, leaves), |before|;
            && |nodes| == row + 1 + |leaves|
            && nodes[row].All? && |nodes[row].children| == |leaves|
            && (forall k :: 0 <= k < |leaves| ==> nodes[row].children[k] == row + 1 + k)
            && (forall k :: 0 <= k < |leaves| ==> nodes[row + 1 + k] == Value(leaves[k]))
            && (forall i :: 0 <= i < row && i != alternatives ==> nodes[i] == before[i])
            && nodes[alternatives] == Attach(before[alternatives], row)
  {
  }

  lemma RowGrows(before: seq<Node>, alternatives: nat, leaves: seq<Validation>)
    requires Forward(before) && alternatives < |before| && before[alternatives].Any?
    ensures var nodes := WithRow(before, alternatives, leaves);
            Forward(nodes) && Grown(before, nodes, alternatives, [|before|])
  {
    var nodes, row := WithRow(before, alternatives, leaves), |before|;
    RowNodes(before, alternatives, leaves);
    forall p: nat, c: nat | Edge(nodes, p, c)
      ensures c < |nodes| && (p < c || nodes[c].Value?)
    {
      if p < row && c != row {
        assert Edge(before, p, c);
      }
    }
  }

  /** The children of a row are its leaves. */
  ghost predicate RowHolds(nodes: seq<Node>, row: nat, leaves: seq<Validation>) {
    && row < |nodes| && nodes[row].All?
    && (forall c :: c in nodes[row].children ==> row < c < |nodes| && nodes[c].Value? && nodes[c].value in leaves)
    && (forall v :: v in leaves ==> exists c :: c in nodes[row].children && c < |nodes| && nodes[c] == Value(v))
  }

  lemma RowIsHeld(before: seq<Node>, alternatives: nat, leaves: seq<Validation>)
    requires alternatives < |before|
    ensures RowHolds(WithRow(before, alternatives, leaves), |before|, leaves)
  {
    var nodes, row := WithRow(before, alternatives, leaves), |before|;
    RowNodes(before, alternatives, leaves);
    forall c | c in nodes[row].children
      ensures row < c < |nodes| && nodes[c].Value? && nodes[c].value in leaves
    {
      var k :| 0 <= k < |leaves| && nodes[row].children[k] == c;
      assert nodes[row + 1 + k] == Value(leaves[k]);
    }
    forall v | v in leaves
      ensures exists c :: c in nodes[row].children && c < |nodes| && nodes[c] == Value(v)
    {
      var k :| 0 <= k < |leaves| && leaves[k] == v;
      assert nodes[row].children[k] in nodes[row].children;
      assert nodes[row + 1 + k] == Value(v);
    }
  }

  lemma HeldRowValues(nodes: seq<Node>, row: nat, leaves: seq<Validation>, sure: bool)
    requires RowHolds(nodes, row, leaves)
    ensures (set c | c in nodes[row].children && c < |nodes| && nodes[c].Value? :: nodes[c].value) == (set v | v in leaves)
    ensures Invalid !in leaves && (sure ==> Unknown !in leaves) ==> Ready(nodes, row, sure)
  {
    var values := set c | c in nodes[row].children && c < |nodes| && nodes[c].Value? :: nodes[c].value;
    forall v | v in leaves
      ensures v in values
    {
      var c :| c in nodes[row].children && c < |nodes| && nodes[c] == Value(v);
    }
  }

  lemma AddLeaf(before: seq<Node>, alternatives: nat, leaves: seq<Validation>, leaf: Validation)
    requires alternatives < |before|
    ensures Add(WithRow(before, alternatives, leaves), |before|, Value(leaf)) == WithRow(before, alternatives, leaves + [leaf])
  {
    var a := Add(WithRow(before, alternatives, leaves), |before|, Value(leaf));
    var b := WithRow(before, alternatives, leaves + [leaf]);
    assert |a| == |b|;
    forall k | 0 <= k < |a|
      ensures a[k] == b[k]
    {
    }
  }

  ghost function NestedOwed(rules: Rules, context: Context, index: nat, field: nat, row: nat): map<nat, Validation>
    requires ValidContext(rules, context) && index in context.indices
  {
    match Nested(rules, context, index, field)
    case None => map[]
    case Some(nested) =>
      NestedIsSmaller(rules, context, index, field);
      map[row := Verdict(rules, nested)]
  }

  lemma FieldWritten(rules: Rules, context: Context, index: nat, field: nat, before: seq<Node>, alternatives: nat,
                     leaves: seq<Validation>)
    requires ValidContext(rules, context) && Offered(rules, context, index, field)
    requires Forward(before) && alternatives < |before| && before[alternatives].Any?
    requires (set v | v in leaves) == RowLeaves(rules, context, index, field)
    ensures var nodes, row := WithRow(before, alternatives, leaves), |before|;
            var entered := NestedTasks(Nested(rules, context, index, field), row);
            var owed := NestedOwed(rules, context, index, field, row);
            && Forward(nodes) && Grown(before, nodes, alternatives, [row])
            && RowShape(rules, context, index, field, nodes, owed, row, |nodes|)
            && Owes(rules, entered, owed) && AllReady(nodes, entered, row, Clear(rules, context))
  {
    RowGrows(before, alternatives, leaves);
    RowIsHeld(before, alternatives, leaves);
    HeldRowIsShape(rules, context, index, field, WithRow(before, alternatives, leaves), |before|, leaves);
  }

  lemma HeldRowIsShape(rules: Rules, context: Context, index: nat, field: nat, nodes: seq<Node>, row: nat,
                       leaves: seq<Validation>)
    requires ValidContext(rules, context) && Offered(rules, context, index, field)
    requires RowHolds(nodes, row, leaves) && (set v | v in leaves) == RowLeaves(rules, context, index, field)
    ensures var entered := NestedTasks(Nested(rules, context, index, field), row);
            var owed := NestedOwed(rules, context, index, field, row);
            && RowShape(rules, context, index, field, nodes, owed, row, |nodes|)
            && Owes(rules, entered, owed) && AllReady(nodes, entered, row, Clear(rules, context))
  {
    HeldRowValues(nodes, row, leaves, Clear(rules, context));
    NestedIsOwed(rules, context, index, field, row);
    NestedIsReady(rules, context, index, field, nodes, row, leaves);
  }

  lemma NestedIsReady(rules: Rules, context: Context, index: nat, field: nat, nodes: seq<Node>, row: nat,
                      leaves: seq<Validation>)
    requires ValidContext(rules, context) && Offered(rules, context, index, field)
    requires Invalid !in leaves && (Clear(rules, context) ==> Unknown !in leaves) ==> Ready(nodes, row, Clear(rules, context))
    requires (set v | v in leaves) == RowLeaves(rules, context, index, field)
    ensures AllReady(nodes, NestedTasks(Nested(rules, context, index, field), row), row, Clear(rules, context))
  {
    if Nested(rules, context, index, field).Some? {
      assert Admitted(rules, context, index, field);
      assert Invalid !in RowLeaves(rules, context, index, field);
      assert Invalid in leaves ==> Invalid in (set v | v in leaves);
      assert Unknown in leaves ==> Unknown in (set v | v in leaves);
    }
  }

  lemma NestedIsOwed(rules: Rules, context: Context, index: nat, field: nat, row: nat)
    requires ValidContext(rules, context) && index in context.indices
    ensures var owed := NestedOwed(rules, context, index, field, row);
            && DueAt(owed, row) == NestedVerdicts(rules, context, index, field)
            && Owes(rules, NestedTasks(Nested(rules, context, index, field), row), owed)
  {
    var entered := NestedTasks(Nested(rules, context, index, field), row);
    if Nested(rules, context, index, field).Some? {
      NestedIsSmaller(rules, context, index, field);
      assert entered[0].target == row;
    }
  }

  method ExpandField(rules: Rules, context: Context, index: nat, field: nat, before: seq<Node>, alternatives: nat)
    returns (nodes: seq<Node>, entered: seq<Task>, limited: bool, ghost leaves: seq<Validation>)
    requires ValidContext(rules, context) && index in context.indices
    requires alternatives < |before|
    ensures nodes == WithRow(before, alternatives, leaves)
    ensures (set v | v in leaves) == RowLeaves(rules, context, index, field)
    ensures entered == NestedTasks(Nested(rules, context, index, field), |before|)
    ensures limited == FieldLimits(rules, context, index, field)
  {
    var row := |before|;
    nodes := Add(before, alternatives, All([]));
    assert WithRow(before, alternatives, [])[row].children == [];
    assert nodes == WithRow(before, alternatives, []);
    entered := [];
    limited := rules.keyLimited(context, index, field);
    var key := KeyVerdict(rules, context, index, field);
    AddLeaf(before, alternatives, [], key);
    nodes := Add(nodes, row, Value(key));
    var scope := rules.fieldScope(field, context.state);
    AddLeaf(before, alternatives, [key], scope);
    assert [key] + [scope] == [key, scope] && [] + [key] == [key];
    nodes := Add(nodes, row, Value(scope));
    leaves := [key, scope];
    if scope == Invalid {
      return;
    }
    limited := limited || (rules.fieldValue(field).ScalarValue? && rules.scalar(index) && !rules.scalarDeferred(index) &&
                           rules.scalarLimited(context, index, field));
    var result := ValueVerdict(rules, context, index, field);
    AddLeaf(before, alternatives, [key, scope], result);
    assert [key, scope] + [result] == [key, scope, result];
    nodes := Add(nodes, row, Value(result));
    leaves := [key, scope, result];
    if result == Invalid {
      return;
    }
    var nested := Nested(rules, context, index, field);
    if nested.Some? {
      entered := [Enter(nested.value, row)];
    }
  }

  lemma TargetsAfter(entered: seq<Task>, more: seq<Task>, from: nat, between: nat, nodes: seq<Node>, nodes': seq<Node>, sure: bool)
    requires AllReady(nodes, entered, from, sure) && AllReady(nodes', more, between, sure)
    requires from <= between <= |nodes'| && |nodes| <= |nodes'|
    requires forall k :: 0 <= k < |entered| ==> entered[k].target < between
    requires forall i: nat :: i < |nodes| && (nodes[i].Value? || (from <= i && nodes[i].All?)) ==> nodes'[i] == nodes[i]
    ensures AllReady(nodes', entered + more, from, sure)
  {
    var all := entered + more;
    forall k | 0 <= k < |all|
      ensures all[k].Enter? && from <= all[k].target && Ready(nodes', all[k].target, sure)
    {
      if k < |entered| {
        assert all[k] == entered[k];
        var row := all[k].target;
        assert Ready(nodes, row, sure) && nodes'[row] == nodes[row];
      } else {
        assert all[k] == more[k - |entered|];
      }
    }
    forall j, k | 0 <= j < k < |all|
      ensures all[j].target != all[k].target
    {
      if j < |entered| <= k {
        assert all[j] == entered[j] && all[k] == more[k - |entered|];
      } else if k < |entered| {
        assert all[j] == entered[j] && all[k] == entered[k];
      } else {
        assert all[j] == more[j - |entered|] && all[k] == more[k - |entered|];
      }
    }
  }

  lemma OwesBoth(rules: Rules, first: seq<Task>, owed: map<nat, Validation>, second: seq<Task>, more: map<nat, Validation>)
    requires Owes(rules, first, owed) && Owes(rules, second, more) && owed.Keys !! more.Keys
    ensures Owes(rules, first + second, owed + more)
  {
    var work := first + second;
    forall t | t in owed + more
      ensures exists k :: 0 <= k < |work| && work[k].Enter? && work[k].target == t
    {
      if t in more {
        var k :| 0 <= k < |second| && second[k].Enter? && second[k].target == t;
        assert work[|first| + k] == second[k];
      } else {
        var k :| 0 <= k < |first| && first[k].Enter? && first[k].target == t;
        assert work[k] == first[k];
      }
    }
  }

  /** Everything known after some fields of one property were written. */
  ghost predicate FieldsWritten(rules: Rules, context: Context, index: nat, fields: seq<nat>, before: seq<Node>, target: nat,
                                nodes: seq<Node>, entered: seq<Task>, owed: map<nat, Validation>)
    requires ValidContext(rules, context) && index in context.indices
  {
    && Forward(nodes) && Grown(before, nodes, target, [|before|])
    && RowsShape(rules, context, index, fields, nodes, owed, |before|, |nodes|)
    && Owes(rules, entered, owed) && AllReady(nodes, entered, |before|, Clear(rules, context))
    && forall k :: 0 <= k < |entered| ==> entered[k].target < |nodes|
  }

  lemma RowsGrow(rules: Rules, context: Context, index: nat, fields: seq<nat>, field: nat, item: nat,
                 nodes: seq<Node>, owed: map<nat, Validation>, nodes': seq<Node>, extra: map<nat, Validation>)
    requires ValidContext(rules, context) && index in context.indices
    requires RowsShape(rules, context, index, fields, nodes, owed, item, |nodes|)
    requires Grown(nodes, nodes', item, [|nodes|])
    requires RowShape(rules, context, index, field, nodes', extra, |nodes|, |nodes'|)
    requires (forall t :: t in owed ==> t < |nodes|) && (forall t :: t in extra ==> |nodes| <= t)
    ensures RowsShape(rules, context, index, fields + [field], nodes', owed + extra, item, |nodes'|)
  {
    forall m | 0 <= m < |fields| + 1
      ensures item < nodes'[item].children[m]
      ensures RowShape(rules, context, index, (fields + [field])[m], nodes', owed + extra, nodes'[item].children[m], |nodes'|)
    {
      if m < |fields| {
        var row := nodes[item].children[m];
        assert nodes'[item].children[m] == row;
        RowFrame(rules, context, index, fields[m], row, |nodes|, |nodes'|, nodes, owed, nodes', owed + extra);
      } else {
        RowFrame(rules, context, index, field, |nodes|, |nodes'|, |nodes'|, nodes', extra, nodes', owed + extra);
      }
    }
  }

  lemma FieldKeeps(rules: Rules, context: Context, index: nat, fields: seq<nat>, field: nat, before: seq<Node>, target: nat,
                   nodes: seq<Node>, entered: seq<Task>, owed: map<nat, Validation>, leaves: seq<Validation>)
    requires ValidContext(rules, context) && Offered(rules, context, index, field)
    requires FieldsWritten(rules, context, index, fields, before, target, nodes, entered, owed)
    requires (set v | v in leaves) == RowLeaves(rules, context, index, field)
    ensures FieldsWritten(rules, context, index, fields + [field], before, target, WithRow(nodes, |before|, leaves),
                          entered + NestedTasks(Nested(rules, context, index, field), |nodes|),
                          owed + NestedOwed(rules, context, index, field, |nodes|))
  {
    var item := |before|;
    var nodes' := WithRow(nodes, item, leaves);
    var more := NestedTasks(Nested(rules, context, index, field), |nodes|);
    var extra := NestedOwed(rules, context, index, field, |nodes|);
    FieldWritten(rules, context, index, field, nodes, item, leaves);
    assert forall t :: t in owed ==> t < |nodes|;
    assert forall t :: t in extra ==> t == |nodes|;
    OwesBoth(rules, entered, owed, more, extra);
    TargetsAfter(entered, more, item, |nodes|, nodes, nodes', Clear(rules, context));
    RowsGrow(rules, context, index, fields, field, item, nodes, owed, nodes', extra);
  }

  /** Everything known after some properties of one container were written. */
  ghost predicate ItemsWritten(rules: Rules, context: Context, indices: seq<nat>, before: seq<Node>, target: nat,
                               items: seq<nat>, nodes: seq<Node>, entered: seq<Task>, owed: map<nat, Validation>)
    requires ValidContext(rules, context) && forall i :: i in indices ==> i in context.indices
  {
    && Forward(nodes) && Grown(before, nodes, target, items) && |items| == |indices|
    && (forall j :: 0 <= j < |indices| ==>
          |before| <= items[j] && ItemShape(rules, context, indices[j], nodes, owed, items[j], |nodes|))
    && Owes(rules, entered, owed) && AllReady(nodes, entered, |before|, Clear(rules, context))
    && forall k :: 0 <= k < |entered| ==> entered[k].target < |nodes|
  }

  lemma LeafItemWritten(rules: Rules, context: Context, index: nat, before: seq<Node>, target: nat)
    requires ValidContext(rules, context) && index in context.indices && IsLeafItem(rules, context, index)
    requires Forward(before) && target < |before| && before[target].All?
    ensures ItemsWritten(rules, context, [index], before, target, [|before|],
                         Add(before, target, Value(LeafVerdict(rules, context, index))), [], map[])
  {
    AddKeepsForward(before, target, Value(LeafVerdict(rules, context, index)));
  }

  lemma AlternativesWritten(rules: Rules, context: Context, index: nat, before: seq<Node>, target: nat,
                            nodes: seq<Node>, entered: seq<Task>, owed: map<nat, Validation>)
    requires ValidContext(rules, context) && index in context.indices && !IsLeafItem(rules, context, index)
    requires FieldsWritten(rules, context, index, rules.candidates(context, index), before, target, nodes, entered, owed)
    ensures ItemsWritten(rules, context, [index], before, target, [|before|], nodes, entered, owed)
  {
  }

  method ExpandFields(rules: Rules, context: Context, index: nat, fields: seq<nat>, before: seq<Node>, target: nat)
    returns (nodes: seq<Node>, entered: seq<Task>, ghost owed: map<nat, Validation>, selected: seq<(nat, nat)>,
             partial: bool, limited: bool)
    requires ValidContext(rules, context) && index in context.indices
    requires forall field :: field in fields ==> Offered(rules, context, index, field)
    requires Forward(before) && target < |before| && before[target].All?
    ensures FieldsWritten(rules, context, index, fields, before, target, nodes, entered, owed)
    ensures ContextsOf(entered) == NestedOf(rules, context, index, fields) && limited == LimitsOf(rules, context, index, fields)
    ensures partial == UnknownKey(rules, context, index, fields)
    ensures selected == SelectedIn(rules, context, index, fields)
  {
    entered, owed, selected, partial, limited := [], map[], [], false, false;
    AddKeepsForward(before, target, Any([]));
    nodes := Add(before, target, Any([]));
    for m := 0 to |fields|
      invariant FieldsWritten(rules, context, index, fields[..m], before, target, nodes, entered, owed)
      invariant FieldsCounted(rules, context, index, fields[..m], entered, selected, partial, limited)
    {
      var field := fields[m];
      assert field in fields;
      CountedNext(rules, context, index, fields, m, entered, |nodes|, selected, partial, limited);
      ghost var grown := nodes;
      var more, unfinished;
      ghost var leaves;
      nodes, more, unfinished, leaves := ExpandField(rules, context, index, field, nodes, |before|);
      FieldKeeps(rules, context, index, fields[..m], field, before, target, grown, entered, owed, leaves);
      entered := entered + more;
      owed := owed + NestedOwed(rules, context, index, field, |grown|);
      partial := partial || !rules.keyKnown(context, index, field);
      limited := limited || unfinished;
      if selected == [] && Admitted(rules, context, index, field) {
        selected := [(field, index)];
      }
    }
    assert fields[..|fields|] == fields;
  }

  /** What the loop over fields keeps besides the arena. */
  ghost predicate FieldsCounted(rules: Rules, context: Context, index: nat, fields: seq<nat>, entered: seq<Task>,
                                selected: seq<(nat, nat)>, partial: bool, limited: bool)
    requires index < |rules.children|
  {
    && partial == UnknownKey(rules, context, index, fields) && selected == SelectedIn(rules, context, index, fields)
    && ContextsOf(entered) == NestedOf(rules, context, index, fields) && limited == LimitsOf(rules, context, index, fields)
  }

  lemma CountedNext(rules: Rules, context: Context, index: nat, fields: seq<nat>, m: nat, entered: seq<Task>, row: nat,
                    selected: seq<(nat, nat)>, partial: bool, limited: bool)
    requires index < |rules.children| && m < |fields|
    requires FieldsCounted(rules, context, index, fields[..m], entered, selected, partial, limited)
    ensures fields[..m + 1] == fields[..m] + [fields[m]]
    ensures FieldsCounted(rules, context, index, fields[..m + 1],
                          entered + NestedTasks(Nested(rules, context, index, fields[m]), row),
                          if selected == [] && Admitted(rules, context, index, fields[m]) then [(fields[m], index)] else selected,
                          partial || !rules.keyKnown(context, index, fields[m]),
                          limited || FieldLimits(rules, context, index, fields[m]))
  {
    EntersNext(rules, context, index, fields, m, entered, row);
    SelectedNext(rules, context, index, fields, m);
  }

  lemma EntersNext(rules: Rules, context: Context, index: nat, fields: seq<nat>, m: nat, entered: seq<Task>, row: nat)
    requires index < |rules.children| && m < |fields| && ContextsOf(entered) == NestedOf(rules, context, index, fields[..m])
    ensures ContextsOf(entered + NestedTasks(Nested(rules, context, index, fields[m]), row))
         == NestedOf(rules, context, index, fields[..m + 1])
    ensures LimitsOf(rules, context, index, fields[..m + 1]) ==
            (LimitsOf(rules, context, index, fields[..m]) || FieldLimits(rules, context, index, fields[m]))
  {
    assert fields[..m + 1][..m] == fields[..m] && fields[..m + 1] == fields[..m] + [fields[m]];
    assert fields[m] in fields[..m + 1];
  }

  lemma SelectedNext(rules: Rules, context: Context, index: nat, fields: seq<nat>, m: nat)
    requires m < |fields|
    ensures fields[..m + 1] == fields[..m] + [fields[m]]
    ensures SelectedIn(rules, context, index, fields[..m + 1]) ==
            if SelectedIn(rules, context, index, fields[..m]) == [] && Admitted(rules, context, index, fields[m])
            then [(fields[m], index)]
            else SelectedIn(rules, context, index, fields[..m])
    ensures UnknownKey(rules, context, index, fields[..m + 1]) ==
            (UnknownKey(rules, context, index, fields[..m]) || !rules.keyKnown(context, index, fields[m]))
  {
    assert fields[m] in fields[..m + 1];
    SelectedAppend(rules, context, index, fields[..m], fields[m]);
  }

  lemma SelectedAppend(rules: Rules, context: Context, index: nat, fields: seq<nat>, field: nat)
    ensures SelectedIn(rules, context, index, fields + [field]) ==
            if SelectedIn(rules, context, index, fields) == [] && Admitted(rules, context, index, field) then [(field, index)]
            else SelectedIn(rules, context, index, fields)
  {
    if fields != [] {
      assert (fields + [field])[1..] == fields[1..] + [field];
      SelectedAppend(rules, context, index, fields[1..], field);
    } else {
      assert (fields + [field])[1..] == [];
    }
  }

  method ExpandItem(rules: Rules, context: Context, index: nat, before: seq<Node>, target: nat)
    returns (nodes: seq<Node>, entered: seq<Task>, ghost owed: map<nat, Validation>, selected: seq<(nat, nat)>,
             partial: bool, limited: bool)
    requires ValidContext(rules, context) && index in context.indices
    requires Forward(before) && target < |before| && before[target].All?
    ensures ItemsWritten(rules, context, [index], before, target, [|before|], nodes, entered, owed)
    ensures partial == PartialItem(rules, context, index)
    ensures ContextsOf(entered) == ItemNested(rules, context, index) && limited == ItemLimits(rules, context, index)
    ensures selected == if rules.deferred(index) then [] else SelectedIn(rules, context, index, rules.candidates(context, index))
  {
    var fields := rules.candidates(context, index);
    if rules.deferred(index) || fields == [] {
      LeafItemWritten(rules, context, index, before, target);
      var result :=
        if rules.deferred(index) || rules.incomplete(index) then Unknown
        else if rules.open(context.schema) then Valid
        else Invalid;
      nodes := Add(before, target, Value(result));
      entered, owed, selected, partial, limited := [], map[], [], rules.deferred(index) || rules.incomplete(index), false;
    } else {
      nodes, entered, owed, selected, partial, limited := ExpandFields(rules, context, index, fields, before, target);
      AlternativesWritten(rules, context, index, before, target, nodes, entered, owed);
    }
  }

  lemma ItemsGrow(rules: Rules, context: Context, indices: seq<nat>, index: nat, items: seq<nat>, item: nat,
                  nodes: seq<Node>, owed: map<nat, Validation>, nodes': seq<Node>, extra: map<nat, Validation>)
    requires ValidContext(rules, context) && index in context.indices && forall i :: i in indices ==> i in context.indices
    requires |items| == |indices| && |nodes| <= |nodes'|
    requires forall j :: 0 <= j < |indices| ==> ItemShape(rules, context, indices[j], nodes, owed, items[j], |nodes|)
    requires ItemShape(rules, context, index, nodes', extra, item, |nodes'|)
    requires forall j, i: nat :: 0 <= j < |indices| && items[j] <= i < |nodes| ==> nodes'[i] == nodes[i]
    requires (forall t :: t in owed ==> t < |nodes|) && (forall t :: t in extra ==> |nodes| <= t) && |nodes| <= item
    ensures forall j :: 0 <= j < |indices| + 1 ==>
              ItemShape(rules, context, (indices + [index])[j], nodes', owed + extra, (items + [item])[j], |nodes'|)
  {
    forall j | 0 <= j < |indices| + 1
      ensures ItemShape(rules, context, (indices + [index])[j], nodes', owed + extra, (items + [item])[j], |nodes'|)
    {
      if j < |indices| {
        ShapeFrame(rules, context, indices[j], [], items[j], |nodes|, nodes, owed, nodes', owed + extra);
      } else {
        ShapeFrame(rules, context, index, [], item, |nodes'|, nodes', extra, nodes', owed + extra);
      }
    }
  }

  lemma ItemKeeps(rules: Rules, context: Context, indices: seq<nat>, index: nat, before: seq<Node>, target: nat, items: seq<nat>,
                  nodes: seq<Node>, entered: seq<Task>, owed: map<nat, Validation>,
                  nodes': seq<Node>, more: seq<Task>, extra: map<nat, Validation>)
    requires ValidContext(rules, context) && index in context.indices && forall i :: i in indices ==> i in context.indices
    requires target < |before| && before[target].All?
    requires ItemsWritten(rules, context, indices, before, target, items, nodes, entered, owed)
    requires ItemsWritten(rules, context, [index], nodes, target, [|nodes|], nodes', more, extra)
    ensures ItemsWritten(rules, context, indices + [index], before, target, items + [|nodes|], nodes', entered + more, owed + extra)
  {
    assert forall t :: t in owed ==> t < |nodes|;
    assert forall t :: t in extra ==> |nodes| <= t;
    OwesBoth(rules, entered, owed, more, extra);
    TargetsAfter(entered, more, |before|, |nodes|, nodes, nodes', Clear(rules, context));
    assert ItemShape(rules, context, [index][0], nodes', extra, [|nodes|][0], |nodes'|);
    ItemsGrow(rules, context, indices, index, items, |nodes|, nodes, owed, nodes', extra);
  }

  /** Everything known after a container's properties and some of its quota rejections were written. */
  ghost predicate ContainerWritten(rules: Rules, context: Context, indices: seq<nat>, before: seq<Node>, target: nat,
                                   items: seq<nat>, quotas: seq<nat>, nodes: seq<Node>, entered: seq<Task>,
                                   owed: map<nat, Validation>)
    requires ValidContext(rules, context) && forall i :: i in indices ==> i in context.indices
  {
    && Forward(nodes) && Grown(before, nodes, target, items + quotas) && |items| == |indices|
    && (forall j :: 0 <= j < |indices| ==>
          |before| <= items[j] && ItemShape(rules, context, indices[j], nodes, owed, items[j], |nodes|))
    && (forall j :: 0 <= j < |quotas| ==> |before| <= quotas[j] < |nodes| && nodes[quotas[j]] == Value(Invalid))
    && Owes(rules, entered, owed) && AllReady(nodes, entered, |before|, Clear(rules, context))
    && forall k :: 0 <= k < |entered| ==> entered[k].target < |nodes|
  }

  lemma QuotaKeeps(rules: Rules, context: Context, indices: seq<nat>, before: seq<Node>, target: nat, items: seq<nat>,
                   quotas: seq<nat>, nodes: seq<Node>, entered: seq<Task>, owed: map<nat, Validation>)
    requires ValidContext(rules, context) && forall i :: i in indices ==> i in context.indices
    requires target < |before| && before[target].All?
    requires ContainerWritten(rules, context, indices, before, target, items, quotas, nodes, entered, owed)
    ensures ContainerWritten(rules, context, indices, before, target, items, quotas + [|nodes|],
                             Add(nodes, target, Value(Invalid)), entered, owed)
  {
    var nodes' := Add(nodes, target, Value(Invalid));
    AddKeepsForward(nodes, target, Value(Invalid));
    assert items + (quotas + [|nodes|]) == items + quotas + [|nodes|];
    forall j | 0 <= j < |indices|
      ensures ItemShape(rules, context, indices[j], nodes', owed, items[j], |nodes'|)
    {
      ShapeFrame(rules, context, indices[j], [], items[j], |nodes|, nodes, owed, nodes', owed);
    }
    assert entered + [] == entered;
    TargetsAfter(entered, [], |before|, |nodes'|, nodes, nodes', Clear(rules, context));
  }

  lemma CountsNext(rules: Rules, context: Context, indices: seq<nat>, k: nat)
    requires k < |indices|
    ensures indices[..k + 1] == indices[..k] + [indices[k]]
    ensures Selected(rules, context, indices[..k + 1]) == Selected(rules, context, indices[..k]) +
            if rules.deferred(indices[k]) then [] else SelectedIn(rules, context, indices[k], rules.candidates(context, indices[k]))
    ensures Partial(rules, context, indices[..k + 1]) ==
            (Partial(rules, context, indices[..k]) || PartialItem(rules, context, indices[k]))
  {
    assert indices[..k + 1][..k] == indices[..k];
    if PartialItem(rules, context, indices[k]) {
      assert indices[k] in indices[..k + 1];
    }
  }

  /** The first properties of a container are written and counted. */
  ghost predicate Expanded(rules: Rules, context: Context, k: nat, before: seq<Node>, target: nat, items: seq<nat>,
                           nodes: seq<Node>, entered: seq<Task>, owed: map<nat, Validation>, counts: seq<(nat, nat)>,
                           partial: bool)
    requires ValidContext(rules, context) && k <= |context.indices|
  {
    var written := context.indices[..k];
    && ItemsWritten(rules, context, written, before, target, items, nodes, entered, owed)
    && counts == Selected(rules, context, written) && partial == Partial(rules, context, written)
  }

  /** The tasks and limited searches of the first properties. */
  ghost predicate EntersTo(rules: Rules, context: Context, k: nat, entered: seq<Task>, limited: bool)
    requires rules.ValidIndices(context.indices) && k <= |context.indices|
  {
    ContextsOf(entered) == NestedBelow(rules, context, k) && limited == LimitsAmong(rules, context, k)
  }

  lemma EntersMore(rules: Rules, context: Context, k: nat, entered: seq<Task>, limited: bool, more: seq<Task>, unfinished: bool)
    requires rules.ValidIndices(context.indices) && k < |context.indices| && context.indices[k] < |rules.children|
    requires EntersTo(rules, context, k, entered, limited)
    requires ContextsOf(more) == ItemNested(rules, context, context.indices[k])
    requires unfinished == ItemLimits(rules, context, context.indices[k])
    ensures EntersTo(rules, context, k + 1, entered + more, limited || unfinished)
  {
  }

  lemma ExpandedNext(rules: Rules, context: Context, k: nat, before: seq<Node>, target: nat, items: seq<nat>, grown: seq<Node>,
                     entered: seq<Task>, owed: map<nat, Validation>, counts: seq<(nat, nat)>, partial: bool,
                     nodes: seq<Node>, more: seq<Task>, extra: map<nat, Validation>, selected: seq<(nat, nat)>, unknown: bool)
    requires ValidContext(rules, context) && k < |context.indices|
    requires target < |before| && before[target].All?
    requires Expanded(rules, context, k, before, target, items, grown, entered, owed, counts, partial)
    requires ItemsWritten(rules, context, [context.indices[k]], grown, target, [|grown|], nodes, more, extra)
    requires unknown == PartialItem(rules, context, context.indices[k])
    requires selected == if rules.deferred(context.indices[k]) then []
                         else SelectedIn(rules, context, context.indices[k], rules.candidates(context, context.indices[k]))
    ensures Expanded(rules, context, k + 1, before, target, items + [|grown|], nodes, entered + more, owed + extra,
                     counts + selected, partial || unknown)
  {
    CountsNext(rules, context, context.indices, k);
    ItemKeeps(rules, context, context.indices[..k], context.indices[k], before, target, items, grown, entered, owed, nodes, more,
              extra);
  }

  /** Writes one more property. */
  method ExpandNext(rules: Rules, context: Context, k: nat, ghost before: seq<Node>, target: nat, ghost items: seq<nat>,
                    grown: seq<Node>, written: seq<Task>, ghost owing: map<nat, Validation>, counted: seq<(nat, nat)>, open: bool,
                    met: bool)
    returns (nodes: seq<Node>, entered: seq<Task>, ghost owed: map<nat, Validation>, ghost items': seq<nat>,
             counts: seq<(nat, nat)>, partial: bool, limited: bool)
    requires ValidContext(rules, context) && k < |context.indices|
    requires target < |before| && before[target].All?
    requires Expanded(rules, context, k, before, target, items, grown, written, owing, counted, open)
    requires EntersTo(rules, context, k, written, met)
    ensures Expanded(rules, context, k + 1, before, target, items', nodes, entered, owed, counts, partial)
    ensures EntersTo(rules, context, k + 1, entered, limited)
  {
    var more, selected, unknown, unfinished;
    ghost var extra;
    nodes, more, extra, selected, unknown, unfinished := ExpandItem(rules, context, context.indices[k], grown, target);
    EntersMore(rules, context, k, written, met, more, unfinished);
    ExpandedNext(rules, context, k, before, target, items, grown, written, owing, counted, open, nodes, more, extra, selected, unknown);
    entered, owed, items' := written + more, owing + extra, items + [|grown|];
    counts, partial, limited := counted + selected, open || unknown, met || unfinished;
  }

  /** Writes the properties of a container; running out of allowance stops the loop. */
  method ExpandItems(rules: Rules, context: Context, before: seq<Node>, target: nat, allowance: nat)
    returns (nodes: seq<Node>, entered: seq<Task>, ghost owed: map<nat, Validation>, ghost items: seq<nat>, ghost done: nat,
             counts: seq<(nat, nat)>, partial: bool, remaining: nat, exhausted: bool, limited: bool)
    requires ValidContext(rules, context)
    requires Forward(before) && target < |before| && before[target].All?
    ensures remaining <= allowance && (exhausted ==> remaining == 0)
    ensures done <= |context.indices| && (!exhausted ==> done == |context.indices|)
    ensures ItemsWritten(rules, context, context.indices[..done], before, target, items, nodes, entered, owed)
    ensures counts == Selected(rules, context, context.indices[..done])
    ensures partial == Partial(rules, context, context.indices[..done])
    ensures !exhausted ==> remaining == allowance - |context.indices|
    ensures |context.indices| <= allowance ==> !exhausted
    ensures !exhausted ==> ContextsOf(entered) == Blocks(rules, context)
    ensures !exhausted ==> limited == LimitsHere(rules, context)
  {
    nodes, entered, owed, items, remaining, exhausted, limited := before, [], map[], [], allowance, false, false;
    var indices := context.indices;
    partial := rules.hole(context.range);
    counts := [];
    var k: nat := 0;
    while k < |indices|
      invariant k <= |indices| && remaining <= allowance
      invariant Expanded(rules, context, k, before, target, items, nodes, entered, owed, counts, partial)
      invariant remaining == allowance - k
      invariant EntersTo(rules, context, k, entered, limited)
    {
      if remaining == 0 {
        return nodes, entered, owed, items, k, counts, partial, remaining, true, limited;
      }
      remaining := remaining - 1;
      nodes, entered, owed, items, counts, partial, limited :=
        ExpandNext(rules, context, k, before, target, items, nodes, entered, owed, counts, partial, limited);
      k := k + 1;
    }
    done := k;
  }

  lemma NoQuotaYet(rules: Rules, context: Context, indices: seq<nat>, before: seq<Node>, target: nat, items: seq<nat>,
                   nodes: seq<Node>, entered: seq<Task>, owed: map<nat, Validation>)
    requires ValidContext(rules, context) && forall i :: i in indices ==> i in context.indices
    requires ItemsWritten(rules, context, indices, before, target, items, nodes, entered, owed)
    ensures ContainerWritten(rules, context, indices, before, target, items, [], nodes, entered, owed)
  {
    assert items + [] == items;
  }

  /** Writes a container under `target`: its properties, then one rejection for each violated quota. */
  method ExpandContainer(rules: Rules, context: Context, before: seq<Node>, target: nat, allowance: nat)
    returns (nodes: seq<Node>, entered: seq<Task>, ghost owed: map<nat, Validation>, ghost items: seq<nat>,
             ghost quotas: seq<nat>, remaining: nat, exhausted: bool, limited: bool)
    requires ValidContext(rules, context)
    requires Forward(before) && target < |before| && before[target].All?
    ensures remaining <= allowance && (exhausted ==> remaining == 0)
    ensures Forward(nodes) && Grown(before, nodes, target, items + quotas)
    ensures !exhausted ==>
              && ContainerWritten(rules, context, context.indices, before, target, items, quotas, nodes, entered, owed)
              && (quotas != [] <==> QuotaVerdicts(rules, context) != {})
              && remaining == allowance - |context.indices|
              && ContextsOf(entered) == Blocks(rules, context)
              && limited == LimitsHere(rules, context)
    ensures |context.indices| <= allowance ==> !exhausted
  {
    var counts, partial;
    ghost var done;
    nodes, entered, owed, items, done, counts, partial, remaining, exhausted, limited :=
      ExpandItems(rules, context, before, target, allowance);
    assert context.indices[..|context.indices|] == context.indices;
    quotas := [];
    NoQuotaYet(rules, context, context.indices[..done], before, target, items, nodes, entered, owed);
    var breaches := rules.breaches(context, counts, partial);
    for q := 0 to breaches
      invariant ContainerWritten(rules, context, context.indices[..done], before, target, items, quotas, nodes, entered, owed)
      invariant |quotas| == q
    {
      QuotaKeeps(rules, context, context.indices[..done], before, target, items, quotas, nodes, entered, owed);
      quotas := quotas + [|nodes|];
      nodes := Add(nodes, target, Value(Invalid));
    }
  }

  // ----- The task loop -----

  /** A pending task's row stands for its context's verdict, up to a lost proof. A finishing task
      remembers in `mark` where the nodes of its container begin. */
  ghost predicate TaskSound(rules: Rules, rel: Relation, nodes: seq<Node>, owed: map<nat, Validation>, task: Task, mark: nat) {
    && Acyclic(nodes) && ValidContext(rules, task.context) && (rel.Same? ==> Certain(rules, task.context))
    && task.target < |nodes| && nodes[task.target].All?
    && Holds(rel, Eval(nodes, owed, task.target), Verdict(rules, task.context))
    && (task.Enter? ==> forall c :: c in nodes[task.target].children ==> c < |nodes| && nodes[c].Value?)
    && (task.Finish? ==>
          && task.target < mark <= |nodes|
          && forall c :: c in nodes[task.target].children ==> c < |nodes| && (nodes[c].Value? || mark <= c))
  }

  /** Tasks above a finishing task belong to its container; tasks below do not. */
  ghost predicate Nesting(work: seq<Task>, marks: seq<nat>) {
    && |marks| == |work| && DistinctTargets(work)
    && (forall j, k :: 0 <= j < k < |work| && work[j].Finish? ==> marks[j] <= work[k].target)
    && (forall j, k :: 0 <= j < k < |work| && work[k].Finish? ==> work[j].target < marks[k])
  }

  ghost predicate MemoSound(rules: Rules, rel: Relation, memo: map<Context, Validation>) {
    forall context :: context in memo ==>
      ValidContext(rules, context) && Holds(rel, memo[context], Verdict(rules, context))
  }

  ghost predicate Settled(rules: Rules, rel: Relation, root: Context, nodes: seq<Node>, memo: map<Context, Validation>,
                          work: seq<Task>, marks: seq<nat>, owed: map<nat, Validation>) {
    && Forward(nodes) && Acyclic(nodes) && nodes != [] && ValidContext(rules, root) && (rel.Same? || rel.Degraded?)
    && Nesting(work, marks)
    && (forall k :: 0 <= k < |work| ==> TaskSound(rules, rel, nodes, owed, work[k], marks[k]))
    && Owes(rules, work, owed) && MemoSound(rules, rel, memo)
    && Holds(rel, Eval(nodes, owed, 0), Verdict(rules, root))
    && (work != [] ==> work[0].target == 0)
  }

  /** Only the row `t` changed among the old nodes, and its verdict only lost a proof. */
  ghost predicate RowChanged(rel: Relation, nodes: seq<Node>, owed: map<nat, Validation>,
                             nodes': seq<Node>, owed': map<nat, Validation>, t: nat) {
    && Forward(nodes) && Acyclic(nodes) && Forward(nodes') && Acyclic(nodes')
    && t < |nodes| <= |nodes'| && nodes[t].All?
    && (forall i: nat :: i < |nodes| && i != t ==> nodes'[i] == nodes[i] && DueAt(owed', i) == DueAt(owed, i))
    && Holds(rel, Eval(nodes', owed', t), Eval(nodes, owed, t))
  }

  lemma OtherTaskKeeps(rules: Rules, rel: Relation, nodes: seq<Node>, owed: map<nat, Validation>,
                       nodes': seq<Node>, owed': map<nat, Validation>, t: nat, task: Task, mark: nat)
    requires RowChanged(rel, nodes, owed, nodes', owed', t)
    requires TaskSound(rules, rel, nodes, owed, task, mark) && task.target != t
    ensures TaskSound(rules, rel, nodes', owed', task, mark)
  {
    Transfer(rel, nodes, owed, nodes', owed', {t}, task.target);
  }

  lemma OwesWithout(rules: Rules, rest: seq<Task>, task: Task, owed: map<nat, Validation>)
    requires Owes(rules, rest + [task], owed) && DistinctTargets(rest + [task])
    ensures task.Enter? ==> Owes(rules, rest, owed - {task.target})
    ensures task.Finish? ==> Owes(rules, rest, owed)
    ensures task.Finish? ==> task.target !in owed
  {
    var work := rest + [task];
    forall k | 0 <= k < |rest|
      ensures rest[k] == work[k] && rest[k].target != task.target
    {
      assert work[|rest|] == task;
    }
    forall t | t in owed && (task.Finish? || t != task.target)
      ensures exists k :: 0 <= k < |rest| && rest[k].Enter? && rest[k].target == t
    {
      var k :| 0 <= k < |work| && work[k].Enter? && work[k].target == t;
      assert rest[k] == work[k];
    }
  }

  /** Dropping the top task and changing only its row keeps the whole state sound. */
  lemma TopDone(rules: Rules, rel: Relation, root: Context, nodes: seq<Node>, memo: map<Context, Validation>, rest: seq<Task>, task: Task,
                marks: seq<nat>, owed: map<nat, Validation>,
                nodes': seq<Node>, memo': map<Context, Validation>, owed': map<nat, Validation>)
    requires Settled(rules, rel, root, nodes, memo, rest + [task], marks, owed)
    requires RowChanged(rel, nodes, owed, nodes', owed', task.target)
    requires owed' == if task.Enter? then owed - {task.target} else owed
    requires MemoSound(rules, rel, memo')
    ensures Settled(rules, rel, root, nodes', memo', rest, marks[..|rest|], owed')
  {
    var work := rest + [task];
    OwesWithout(rules, rest, task, owed);
    forall k | 0 <= k < |rest|
      ensures TaskSound(rules, rel, nodes', owed', rest[k], marks[k])
    {
      assert work[k] == rest[k] && work[|rest|] == task;
      OtherTaskKeeps(rules, rel, nodes, owed, nodes', owed', task.target, rest[k], marks[k]);
    }
    Transfer(rel, nodes, owed, nodes', owed', {task.target}, 0);
    assert forall k :: 0 <= k < |rest| ==> work[k] == rest[k];
  }

  lemma HitDegrades(rel: Relation, prior: set<Validation>, hit: Validation, exact: Validation)
    requires Holds(rel, hit, exact)
    ensures Holds(rel, Conj(prior + {hit}), Conj(prior + {exact}))
  {
    assert Matches(rel, {hit}, {exact});
    MatchesWith(rel, {hit}, {exact}, prior);
    assert prior + {hit} == {hit} + prior && prior + {exact} == {exact} + prior;
    CombinedHolds(rel, prior + {hit}, prior + {exact});
  }

  lemma HitRow(rel: Relation, nodes: seq<Node>, owed: map<nat, Validation>, target: nat, hit: Validation)
    requires Forward(nodes) && Acyclic(nodes) && target < |nodes| && nodes[target].All?
    requires forall c :: c in nodes[target].children ==> c < |nodes| && nodes[c].Value?
    requires target in owed && Holds(rel, hit, owed[target])
    requires forall t :: t in owed ==> t < |nodes|
    ensures RowChanged(rel, nodes, owed, Add(nodes, target, Value(hit)), owed - {target}, target)
  {
    var nodes', owed' := Add(nodes, target, Value(hit)), owed - {target};
    AddKeepsForward(nodes, target, Value(hit));
    ForwardIsAcyclic(nodes');
    EvalNode(nodes, owed, target);
    EvalNode(nodes', owed', target);
    EvalNode(nodes', owed', |nodes|);
    var children := nodes[target].children;
    forall c | c in children
      ensures Eval(nodes, owed, c) == Eval(nodes', owed', c)
    {
      EvalNode(nodes, owed, c);
      EvalNode(nodes', owed', c);
    }
    var prior := Outcomes(nodes, owed, children);
    assert Outcomes(nodes', owed', children + [|nodes|]) == prior + {hit};
    HitDegrades(rel, prior, hit, owed[target]);
    assert prior + {hit} + {} == prior + {hit};
  }

  /** A memo hit writes the remembered verdict in place of the one still owed. */
  lemma HitKeeps(rules: Rules, rel: Relation, root: Context, nodes: seq<Node>, memo: map<Context, Validation>, rest: seq<Task>,
                 context: Context, target: nat, marks: seq<nat>, owed: map<nat, Validation>)
    requires Settled(rules, rel, root, nodes, memo, rest + [Enter(context, target)], marks, owed) && context in memo
    ensures target < |nodes|
    ensures Settled(rules, rel, root, Add(nodes, target, Value(memo[context])), memo, rest, marks[..|rest|], owed - {target})
  {
    var task := Enter(context, target);
    var work := rest + [task];
    assert work[|rest|] == task;
    assert TaskSound(rules, rel, nodes, owed, task, marks[|rest|]);
    OwedTargets(rules, rel, nodes, work, marks, owed);
    HitRow(rel, nodes, owed, target, memo[context]);
    TopDone(rules, rel, root, nodes, memo, rest, task, marks, owed, Add(nodes, target, Value(memo[context])), memo, owed - {target});
  }

  lemma OwedTargets(rules: Rules, rel: Relation, nodes: seq<Node>, work: seq<Task>, marks: seq<nat>, owed: map<nat, Validation>)
    requires Owes(rules, work, owed) && |marks| == |work|
    requires forall k :: 0 <= k < |work| ==> TaskSound(rules, rel, nodes, owed, work[k], marks[k])
    ensures forall t :: t in owed ==> t < |nodes| && nodes[t].All?
  {
    forall t | t in owed
      ensures t < |nodes| && nodes[t].All?
    {
      var k :| 0 <= k < |work| && work[k].Enter? && work[k].target == t;
      assert TaskSound(rules, rel, nodes, owed, work[k], marks[k]);
    }
  }

  lemma FinishRow(rel: Relation, nodes: seq<Node>, owed: map<nat, Validation>, target: nat, mark: nat, value: Validation)
    requires Forward(nodes) && Acyclic(nodes) && target < |nodes| && nodes[target].All?
    requires forall c :: c in nodes[target].children ==> c < |nodes| && (nodes[c].Value? || mark <= c)
    requires forall t :: t in owed ==> t < |nodes| && nodes[t].All? && t < mark && t != target
    requires value == Eval(nodes, map[], target)
    ensures value == Eval(nodes, owed, target)
    ensures RowChanged(rel, nodes, owed, nodes[target := Value(value)], owed, target)
  {
    EvalNode(nodes, owed, target);
    EvalNode(nodes, map[], target);
    var children := nodes[target].children;
    forall c | c in children
      ensures Eval(nodes, owed, c) == Eval(nodes, map[], c)
    {
      YoungerOnly(nodes, owed, nodes, map[], mark, c);
    }
    assert Outcomes(nodes, owed, children) == Outcomes(nodes, map[], children);
    var nodes' := nodes[target := Value(value)];
    forall p: nat, c: nat | Edge(nodes', p, c)
      ensures c < |nodes'| && (p < c || nodes'[c].Value?)
    {
      assert Edge(nodes, p, c);
    }
    ForwardIsAcyclic(nodes');
    CollapseKeeps(nodes, owed, target, target);
  }

  /** When its finishing task is on top, nothing is owed inside a row any more: the fold of the arena
      is its final verdict, which may be remembered and may replace the row. */
  lemma FinishKeeps(rules: Rules, rel: Relation, root: Context, nodes: seq<Node>, memo: map<Context, Validation>, rest: seq<Task>,
                    context: Context, target: nat, marks: seq<nat>, owed: map<nat, Validation>, value: Validation)
    requires Settled(rules, rel, root, nodes, memo, rest + [Finish(context, target)], marks, owed)
    requires target < |nodes| && value == Eval(nodes, map[], target)
    ensures Settled(rules, rel, root, nodes[target := Value(value)], memo[context := value], rest, marks[..|rest|], owed)
    ensures Holds(rel, value, Verdict(rules, context))
  {
    var task := Finish(context, target);
    var work := rest + [task];
    var mark := marks[|rest|];
    assert work[|rest|] == task;
    assert TaskSound(rules, rel, nodes, owed, task, mark);
    OwedBelow(rules, rel, nodes, rest, task, marks, owed);
    FinishRow(rel, nodes, owed, target, mark, value);
    MemoGrows(rules, rel, memo, context, value);
    TopDone(rules, rel, root, nodes, memo, rest, task, marks, owed, nodes[target := Value(value)], memo[context := value], owed);
  }

  lemma MemoGrows(rules: Rules, rel: Relation, memo: map<Context, Validation>, context: Context, value: Validation)
    requires MemoSound(rules, rel, memo) && ValidContext(rules, context) && Holds(rel, value, Verdict(rules, context))
    ensures MemoSound(rules, rel, memo[context := value])
  {
  }

  lemma OwedBelow(rules: Rules, rel: Relation, nodes: seq<Node>, rest: seq<Task>, task: Task, marks: seq<nat>, owed: map<nat, Validation>)
    requires Owes(rules, rest + [task], owed) && Nesting(rest + [task], marks) && task.Finish?
    requires forall k :: 0 <= k < |rest| + 1 ==> TaskSound(rules, rel, nodes, owed, (rest + [task])[k], marks[k])
    ensures forall t :: t in owed ==> t < |nodes| && nodes[t].All? && t < marks[|rest|] && t != task.target
  {
    var work := rest + [task];
    assert work[|rest|] == task;
    OwesWithout(rules, rest, task, owed);
    OwedTargets(rules, rel, nodes, work, marks, owed);
    forall t | t in owed
      ensures t < marks[|rest|] && t != task.target
    {
      var k :| 0 <= k < |rest| && rest[k].Enter? && rest[k].target == t;
      assert work[k] == rest[k];
    }
  }

  lemma ItemsMeaning(rules: Rules, context: Context, indices: seq<nat>, items: seq<nat>,
                     nodes: seq<Node>, owed: map<nat, Validation>)
    requires ValidContext(rules, context) && Acyclic(nodes) && forall i :: i in indices ==> i in context.indices
    requires |items| == |indices|
    requires forall j :: 0 <= j < |indices| ==> items[j] < |nodes| && ItemShape(rules, context, indices[j], nodes, owed, items[j], |nodes|)
    ensures forall c :: c in items ==> c < |nodes|
    ensures Outcomes(nodes, owed, items) == ItemVerdicts(rules, context, indices)
  {
    var verdicts := seq(|indices|, j requires 0 <= j < |indices| => ItemVerdict(rules, context, indices[j]));
    forall j | 0 <= j < |indices|
      ensures items[j] < |nodes| && Eval(nodes, owed, items[j]) == verdicts[j]
    {
      ItemMeaning(rules, context, indices[j], nodes, owed, items[j], |nodes|);
    }
    OutcomesOf(nodes, owed, items, verdicts);
    forall index | index in indices
      ensures ItemVerdict(rules, context, index) in verdicts
    {
      var j :| 0 <= j < |indices| && indices[j] == index;
      assert verdicts[j] in verdicts;
    }
    assert (set v | v in verdicts) == ItemVerdicts(rules, context, indices);
  }

  lemma RejectionsMeaning(nodes: seq<Node>, owed: map<nat, Validation>, quotas: seq<nat>)
    requires Acyclic(nodes) && forall j :: 0 <= j < |quotas| ==> quotas[j] < |nodes| && nodes[quotas[j]] == Value(Invalid)
    ensures forall c :: c in quotas ==> c < |nodes|
    ensures Outcomes(nodes, owed, quotas) == if quotas == [] then {} else {Invalid}
  {
    forall c | c in quotas
      ensures c < |nodes| && Eval(nodes, owed, c) == Invalid
    {
      EvalNode(nodes, owed, c);
    }
    if quotas != [] {
      assert quotas[0] in quotas;
    }
  }

  /** The written container means the verdict it was entered for. */
  lemma ContainerMeaning(rules: Rules, context: Context, before: seq<Node>, target: nat, items: seq<nat>, quotas: seq<nat>,
                         nodes: seq<Node>, entered: seq<Task>, owed: map<nat, Validation>)
    requires ValidContext(rules, context) && Acyclic(nodes)
    requires ContainerWritten(rules, context, context.indices, before, target, items, quotas, nodes, entered, owed)
    requires quotas != [] <==> QuotaVerdicts(rules, context) != {}
    ensures forall c :: c in items + quotas ==> |before| <= c < |nodes|
    ensures Conj(Outcomes(nodes, owed, items + quotas)) == Verdict(rules, context)
  {
    assert forall j :: 0 <= j < |items| ==> ItemShape(rules, context, context.indices[j], nodes, owed, items[j], |nodes|);
    ItemsMeaning(rules, context, context.indices, items, nodes, owed);
    RejectionsMeaning(nodes, owed, quotas);
    OutcomesOfBoth(nodes, owed, items, quotas);
  }

  lemma OutcomesOfBoth(nodes: seq<Node>, owed: map<nat, Validation>, a: seq<nat>, b: seq<nat>)
    requires Acyclic(nodes) && forall c :: c in a + b ==> c < |nodes|
    ensures (forall c :: c in a ==> c < |nodes|) && forall c :: c in b ==> c < |nodes|
    ensures Outcomes(nodes, owed, a + b) == Outcomes(nodes, owed, a) + Outcomes(nodes, owed, b)
  {
    assert forall c :: c in a + b <==> c in a || c in b;
  }

  /** Writing the container in place of the verdict that was owed leaves the row's verdict as it was. */
  lemma FreshRow(rel: Relation, nodes: seq<Node>, owed: map<nat, Validation>, target: nat, added: seq<nat>,
                 nodes': seq<Node>, more: map<nat, Validation>)
    requires Forward(nodes) && Acyclic(nodes) && Forward(nodes') && Acyclic(nodes')
    requires target < |nodes| && nodes[target].All? && Grown(nodes, nodes', target, added)
    requires forall c :: c in nodes[target].children ==> c < |nodes| && nodes[c].Value?
    requires target in owed && (forall t :: t in owed ==> t < |nodes| && nodes[t].All?)
    requires forall t :: t in more ==> |nodes| <= t
    requires forall c :: c in added ==> |nodes| <= c < |nodes'|
    requires Conj(Outcomes(nodes', more, added)) == owed[target]
    ensures RowChanged(rel, nodes, owed, nodes', owed - {target} + more, target)
  {
    var owed' := owed - {target} + more;
    forall c | c in added
      ensures Eval(nodes', more, c) == Eval(nodes', owed', c)
    {
      YoungerOnly(nodes', more, nodes', owed', |nodes|, c);
    }
    assert Outcomes(nodes', more, added) == Outcomes(nodes', owed', added);
    EvalNode(nodes, owed, target);
    EvalNode(nodes', owed', target);
    var children := nodes[target].children;
    forall c | c in children
      ensures Eval(nodes, owed, c) == Eval(nodes', owed', c)
    {
      EvalNode(nodes, owed, c);
      EvalNode(nodes', owed', c);
    }
    var prior := Outcomes(nodes, owed, children);
    assert Outcomes(nodes', owed', children + added) == prior + Outcomes(nodes', owed', added);
    ConjNested(prior, Outcomes(nodes', owed', added));
    assert prior + Outcomes(nodes', owed', added) + {} == prior + Outcomes(nodes', owed', added);
  }

  lemma ReadySound(rules: Rules, rel: Relation, nodes: seq<Node>, owed: map<nat, Validation>, task: Task)
    requires Acyclic(nodes) && task.Enter? && ValidContext(rules, task.context) && Ready(nodes, task.target, rel.Same?)
    requires (rel.Same? && Certain(rules, task.context)) || rel.Degraded?
    requires task.target in owed && owed[task.target] == Verdict(rules, task.context)
    ensures TaskSound(rules, rel, nodes, owed, task, 0)
  {
    EvalNode(nodes, owed, task.target);
    var children := nodes[task.target].children;
    forall c | c in children
      ensures Eval(nodes, owed, c) != Invalid && (rel.Same? ==> Eval(nodes, owed, c) != Unknown)
    {
      EvalNode(nodes, owed, c);
    }
    assert Invalid !in Outcomes(nodes, owed, children) && (rel.Same? ==> Unknown !in Outcomes(nodes, owed, children));
  }

  lemma NestingGrows(rest: seq<Task>, marks: seq<nat>, context: Context, target: nat, entered: seq<Task>, size: nat)
    requires Nesting(rest + [Enter(context, target)], marks) && target < size && DistinctTargets(entered)
    requires forall k :: 0 <= k < |rest| ==> rest[k].target < size && (rest[k].Finish? ==> marks[k] <= size)
    requires forall k :: 0 <= k < |entered| ==> entered[k].Enter? && size <= entered[k].target
    ensures Nesting(rest + [Finish(context, target)] + entered,
                    Marks(marks, |rest|, size, entered))
  {
    var was := rest + [Enter(context, target)];
    var work := rest + [Finish(context, target)] + entered;
    var marks' := Marks(marks, |rest|, size, entered);
    var n := |rest|;
    assert forall k :: 0 <= k < n ==> work[k] == rest[k] == was[k] && marks'[k] == marks[k];
    assert work[n] == Finish(context, target) && was[n].target == target;
    assert forall k :: n < k < |work| ==> work[k] == entered[k - n - 1];
  }

  lemma OwesFinish(rules: Rules, rest: seq<Task>, task: Task, owed: map<nat, Validation>)
    requires Owes(rules, rest, owed) && task.Finish?
    ensures Owes(rules, rest + [task], owed)
  {
    var work := rest + [task];
    forall t | t in owed
      ensures exists k :: 0 <= k < |work| && work[k].Enter? && work[k].target == t
    {
      var k :| 0 <= k < |rest| && rest[k].Enter? && rest[k].target == t;
      assert work[k] == rest[k];
    }
  }

  lemma FreshOwes(rules: Rules, rest: seq<Task>, context: Context, target: nat, owed: map<nat, Validation>,
                  entered: seq<Task>, more: map<nat, Validation>, size: nat)
    requires Owes(rules, rest + [Enter(context, target)], owed) && DistinctTargets(rest + [Enter(context, target)])
    requires Owes(rules, entered, more) && (forall t :: t in owed ==> t < size)
    requires forall k :: 0 <= k < |entered| ==> size <= entered[k].target
    ensures forall t :: t in more ==> size <= t
    ensures Owes(rules, rest + [Finish(context, target)] + entered, owed - {target} + more)
  {
    OwesWithout(rules, rest, Enter(context, target), owed);
    OwesFinish(rules, rest, Finish(context, target), owed - {target});
    OwesBoth(rules, rest + [Finish(context, target)], owed - {target}, entered, more);
  }

  lemma FinishSound(rules: Rules, rel: Relation, nodes: seq<Node>, owed: map<nat, Validation>, context: Context, target: nat, mark: nat,
                    nodes': seq<Node>, owed': map<nat, Validation>, added: seq<nat>)
    requires RowChanged(rel, nodes, owed, nodes', owed', target) && Grown(nodes, nodes', target, added)
    requires TaskSound(rules, rel, nodes, owed, Enter(context, target), mark)
    requires forall c :: c in added ==> |nodes| <= c < |nodes'|
    ensures TaskSound(rules, rel, nodes', owed', Finish(context, target), |nodes|)
  {
  }

  /** The stack marks after a container was entered. */
  function Marks(marks: seq<nat>, depth: nat, size: nat, entered: seq<Task>): seq<nat>
    requires depth <= |marks|
  {
    marks[..depth] + [size] + seq(|entered|, _ => 0)
  }

  /** What stands where on the stack after a container was entered. */
  lemma FreshAt(marks: seq<nat>, rest: seq<Task>, task: Task, size: nat, entered: seq<Task>, k: nat)
    requires |rest| <= |marks| && k < |rest| + 1 + |entered|
    ensures var work, marks' := rest + [task] + entered, Marks(marks, |rest|, size, entered);
            if k < |rest| then work[k] == rest[k] && marks'[k] == marks[k]
            else if k == |rest| then work[k] == task && marks'[k] == size
            else work[k] == entered[k - |rest| - 1] && marks'[k] == 0
  {
  }

  lemma FreshTasks(rules: Rules, rel: Relation, nodes: seq<Node>, owed: map<nat, Validation>, rest: seq<Task>, marks: seq<nat>,
                   context: Context, target: nat, nodes': seq<Node>, owed': map<nat, Validation>, entered: seq<Task>)
    requires RowChanged(rel, nodes, owed, nodes', owed', target) && |marks| == |rest| + 1
    requires forall k :: 0 <= k < |rest| ==> rest[k].target != target && TaskSound(rules, rel, nodes, owed, rest[k], marks[k])
    requires TaskSound(rules, rel, nodes', owed', Finish(context, target), |nodes|)
    requires AllReady(nodes', entered, |nodes|, rel.Same?) && (rel.Same? || rel.Degraded?)
    requires forall k :: 0 <= k < |entered| ==>
               && ValidContext(rules, entered[k].context) && (rel.Same? ==> Certain(rules, entered[k].context))
               && entered[k].target in owed' && owed'[entered[k].target] == Verdict(rules, entered[k].context)
    ensures var work := rest + [Finish(context, target)] + entered;
            forall k :: 0 <= k < |work| ==> TaskSound(rules, rel, nodes', owed', work[k], Marks(marks, |rest|, |nodes|, entered)[k])
  {
    var work := rest + [Finish(context, target)] + entered;
    var marks' := Marks(marks, |rest|, |nodes|, entered);
    forall k | 0 <= k < |work|
      ensures TaskSound(rules, rel, nodes', owed', work[k], marks'[k])
    {
      FreshAt(marks, rest, Finish(context, target), |nodes|, entered, k);
      if k < |rest| {
        OtherTaskKeeps(rules, rel, nodes, owed, nodes', owed', target, rest[k], marks[k]);
      } else if k > |rest| {
        ReadySound(rules, rel, nodes', owed', entered[k - |rest| - 1]);
      }
    }
  }

  lemma SettledTop(rules: Rules, rel: Relation, root: Context, nodes: seq<Node>, memo: map<Context, Validation>, rest: seq<Task>, task: Task,
                   marks: seq<nat>, owed: map<nat, Validation>)
    requires Settled(rules, rel, root, nodes, memo, rest + [task], marks, owed)
    ensures |marks| == |rest| + 1 && TaskSound(rules, rel, nodes, owed, task, marks[|rest|])
    ensures forall k :: 0 <= k < |rest| ==> rest[k].target != task.target && TaskSound(rules, rel, nodes, owed, rest[k], marks[k])
    ensures forall t :: t in owed ==> t < |nodes| && nodes[t].All?
    ensures task.Enter? ==> task.target in owed && owed[task.target] == Verdict(rules, task.context)
  {
    var work := rest + [task];
    assert work[|rest|] == task;
    forall k | 0 <= k < |rest|
      ensures rest[k].target != task.target && TaskSound(rules, rel, nodes, owed, rest[k], marks[k])
    {
      assert work[k] == rest[k];
    }
    OwedTargets(rules, rel, nodes, work, marks, owed);
  }

  lemma FreshChange(rules: Rules, rel: Relation, nodes: seq<Node>, context: Context, target: nat, owed: map<nat, Validation>, mark: nat,
                    items: seq<nat>, quotas: seq<nat>, nodes': seq<Node>, entered: seq<Task>, more: map<nat, Validation>)
    requires Forward(nodes) && TaskSound(rules, rel, nodes, owed, Enter(context, target), mark)
    requires ContainerWritten(rules, context, context.indices, nodes, target, items, quotas, nodes', entered, more)
    requires quotas != [] <==> QuotaVerdicts(rules, context) != {}
    requires target in owed && owed[target] == Verdict(rules, context)
    requires forall t :: t in owed ==> t < |nodes| && nodes[t].All?
    ensures Acyclic(nodes')
    ensures RowChanged(rel, nodes, owed, nodes', owed - {target} + more, target)
    ensures TaskSound(rules, rel, nodes', owed - {target} + more, Finish(context, target), |nodes|)
  {
    ForwardIsAcyclic(nodes');
    assert forall t :: t in more ==> exists k :: 0 <= k < |entered| && entered[k].target == t;
    ContainerMeaning(rules, context, nodes, target, items, quotas, nodes', entered, more);
    FreshRow(rel, nodes, owed, target, items + quotas, nodes', more);
    FinishSound(rules, rel, nodes, owed, context, target, mark, nodes', owed - {target} + more, items + quotas);
  }

  lemma SettledAfter(rules: Rules, rel: Relation, root: Context, nodes: seq<Node>, owed: map<nat, Validation>, memo: map<Context, Validation>,
                     nodes': seq<Node>, work': seq<Task>, marks': seq<nat>, owed': map<nat, Validation>, t: nat)
    requires ValidContext(rules, root) && (rel.Same? || rel.Degraded?) && MemoSound(rules, rel, memo) && RowChanged(rel, nodes, owed, nodes', owed', t)
    requires Holds(rel, Eval(nodes, owed, 0), Verdict(rules, root))
    requires Nesting(work', marks') && Owes(rules, work', owed') && (work' != [] ==> work'[0].target == 0)
    requires forall k :: 0 <= k < |work'| ==> TaskSound(rules, rel, nodes', owed', work'[k], marks'[k])
    ensures Settled(rules, rel, root, nodes', memo, work', marks', owed')
  {
    Transfer(rel, nodes, owed, nodes', owed', {t}, 0);
  }

  lemma FreshOwed(rules: Rules, owed: map<nat, Validation>, target: nat, entered: seq<Task>, more: map<nat, Validation>)
    requires Owes(rules, entered, more)
    ensures var owed' := owed - {target} + more;
            forall k :: 0 <= k < |entered| && entered[k].Enter? ==>
              && ValidContext(rules, entered[k].context)
              && entered[k].target in owed' && owed'[entered[k].target] == Verdict(rules, entered[k].context)
  {
  }

  lemma FreshKeeps(rules: Rules, rel: Relation, root: Context, nodes: seq<Node>, memo: map<Context, Validation>, rest: seq<Task>,
                   context: Context, target: nat, marks: seq<nat>, owed: map<nat, Validation>,
                   items: seq<nat>, quotas: seq<nat>, nodes': seq<Node>, entered: seq<Task>, more: map<nat, Validation>)
    requires Settled(rules, rel, root, nodes, memo, rest + [Enter(context, target)], marks, owed) && ValidContext(rules, context)
    requires ContainerWritten(rules, context, context.indices, nodes, target, items, quotas, nodes', entered, more)
    requires quotas != [] <==> QuotaVerdicts(rules, context) != {}
    requires ContextsOf(entered) == Blocks(rules, context)
    ensures Settled(rules, rel, root, nodes', memo, rest + [Finish(context, target)] + entered,
                    Marks(marks, |rest|, |nodes|, entered), owed - {target} + more)
  {
    var owed' := owed - {target} + more;
    SettledTop(rules, rel, root, nodes, memo, rest, Enter(context, target), marks, owed);
    FreshChange(rules, rel, nodes, context, target, owed, marks[|rest|], items, quotas, nodes', entered, more);
    ReadyBelow(nodes', entered, |nodes|, Clear(rules, context), rel.Same?);
    if rel.Same? {
      CertainBelow(rules, context, entered);
    }
    FreshStack(rules, rel, root, nodes, memo, rest, context, target, marks, owed, nodes', entered, more);
  }

  function ContextsOf(tasks: seq<Task>): seq<Context> {
    seq(|tasks|, k requires 0 <= k < |tasks| => tasks[k].context)
  }

  lemma ReadyBelow(nodes: seq<Node>, entered: seq<Task>, from: nat, sure: bool, less: bool)
    requires AllReady(nodes, entered, from, sure) && (less ==> sure)
    ensures AllReady(nodes, entered, from, less)
  {
  }

  lemma CertainBelow(rules: Rules, context: Context, entered: seq<Task>)
    requires ValidContext(rules, context) && Certain(rules, context)
    requires ContextsOf(entered) == Blocks(rules, context)
    ensures forall k :: 0 <= k < |entered| ==> ValidContext(rules, entered[k].context) && Certain(rules, entered[k].context)
  {
    forall k | 0 <= k < |entered|
      ensures ValidContext(rules, entered[k].context) && Certain(rules, entered[k].context)
    {
      assert ContextsOf(entered)[k] == entered[k].context;
      BelowIsSmaller(rules, context, entered[k].context);
    }
  }

  lemma FreshStack(rules: Rules, rel: Relation, root: Context, nodes: seq<Node>, memo: map<Context, Validation>, rest: seq<Task>,
                   context: Context, target: nat, marks: seq<nat>, owed: map<nat, Validation>,
                   nodes': seq<Node>, entered: seq<Task>, more: map<nat, Validation>)
    requires Settled(rules, rel, root, nodes, memo, rest + [Enter(context, target)], marks, owed)
    requires forall t :: t in owed ==> t < |nodes|
    requires forall k :: 0 <= k < |rest| ==> rest[k].target != target && TaskSound(rules, rel, nodes, owed, rest[k], marks[k])
    requires RowChanged(rel, nodes, owed, nodes', owed - {target} + more, target)
    requires TaskSound(rules, rel, nodes', owed - {target} + more, Finish(context, target), |nodes|)
    requires Owes(rules, entered, more) && AllReady(nodes', entered, |nodes|, rel.Same?)
    requires rel.Same? ==> forall k :: 0 <= k < |entered| ==> ValidContext(rules, entered[k].context) && Certain(rules, entered[k].context)
    ensures Settled(rules, rel, root, nodes', memo, rest + [Finish(context, target)] + entered,
                    Marks(marks, |rest|, |nodes|, entered), owed - {target} + more)
  {
    var owed' := owed - {target} + more;
    var was, work := rest + [Enter(context, target)], rest + [Finish(context, target)] + entered;
    var marks' := Marks(marks, |rest|, |nodes|, entered);
    FreshOwes(rules, rest, context, target, owed, entered, more, |nodes|);
    FreshOwed(rules, owed, target, entered, more);
    assert Nesting(work, marks') by {
      NestingGrows(rest, marks, context, target, entered, |nodes|);
    }
    FreshTasks(rules, rel, nodes, owed, rest, marks, context, target, nodes', owed', entered);
    assert was[0].target == work[0].target;
    SettledAfter(rules, rel, root, nodes, owed, memo, nodes', work, marks', owed', target);
  }

  /** The tasks that entering a context leaves: its blocks, in order. */
  ghost predicate Launches(rules: Rules, context: Context, entered: seq<Task>)
    requires ValidContext(rules, context)
  {
    && ContextsOf(entered) == Blocks(rules, context)
    && forall k :: 0 <= k < |entered| ==> entered[k].Enter?
  }

  lemma LaunchesBlocks(rules: Rules, context: Context, nodes: seq<Node>, entered: seq<Task>, from: nat, sure: bool)
    requires ValidContext(rules, context) && ContextsOf(entered) == Blocks(rules, context)
    requires AllReady(nodes, entered, from, sure)
    ensures Launches(rules, context, entered)
  {
  }

  /** Enters one context: a memo hit is written as a value, a miss writes the container. */
  method EnterContext(rules: Rules, ghost rel: Relation, ghost root: Context, before: seq<Node>, memo: map<Context, Validation>, rest: seq<Task>,
                      context: Context, target: nat, allowance: nat, ghost marks: seq<nat>, ghost owed: map<nat, Validation>)
    returns (nodes: seq<Node>, work: seq<Task>, remaining: nat, exhausted: bool, limited: bool,
             ghost marks': seq<nat>, ghost owed': map<nat, Validation>, ghost launched: seq<Task>)
    requires Settled(rules, rel, root, before, memo, rest + [Enter(context, target)], marks, owed)
    requires before[0].All? && ValidContext(rules, context)
    ensures remaining <= allowance && (exhausted ==> remaining == 0)
    ensures Forward(nodes) && nodes != [] && nodes[0].All?
    ensures exhausted || Settled(rules, rel, root, nodes, memo, work, marks', owed')
    ensures context in memo ==> work == rest && !limited && !exhausted && remaining == allowance
    ensures context !in memo ==> work == rest + [Finish(context, target)] + launched
    ensures context !in memo && |context.indices| <= allowance ==> !exhausted
    ensures context !in memo && !exhausted ==>
              && remaining == allowance - |context.indices| && limited == LimitsHere(rules, context)
              && Launches(rules, context, launched)
  {
    SettledTop(rules, rel, root, before, memo, rest, Enter(context, target), marks, owed);
    if context in memo {
      HitKeeps(rules, rel, root, before, memo, rest, context, target, marks, owed);
      nodes := Add(before, target, Value(memo[context]));
      work, remaining, exhausted, limited := rest, allowance, false, false;
      marks', owed', launched := marks[..|rest|], owed - {target}, [];
      return;
    }
    work := rest + [Finish(context, target)];
    var entered;
    ghost var more, items, quotas;
    nodes, entered, more, items, quotas, remaining, exhausted, limited :=
      ExpandContainer(rules, context, before, target, allowance);
    work, launched := work + entered, entered;
    marks', owed' := Marks(marks, |rest|, |before|, entered), owed - {target} + more;
    if !exhausted {
      LaunchesBlocks(rules, context, nodes, entered, |before|, Clear(rules, context));
      FreshKeeps(rules, rel, root, before, memo, rest, context, target, marks, owed, items, quotas, nodes, entered, more);
    }
  }

  /** Collapses a finished row into its folded verdict and remembers it for the context. */
  method FinishContext(rules: Rules, ghost rel: Relation, ghost root: Context, before: seq<Node>, memo: map<Context, Validation>, ghost rest: seq<Task>,
                       context: Context, target: nat, ghost marks: seq<nat>, ghost owed: map<nat, Validation>)
    returns (nodes: seq<Node>, memo': map<Context, Validation>)
    requires Settled(rules, rel, root, before, memo, rest + [Finish(context, target)], marks, owed)
    ensures Settled(rules, rel, root, nodes, memo', rest, marks[..|rest|], owed)
    ensures !before[0].Any? ==> !nodes[0].Any?
    ensures target < |nodes| && nodes[target].Value? && context in memo' && memo' == memo[context := memo'[context]]
  {
    SettledTop(rules, rel, root, before, memo, rest, Finish(context, target), marks, owed);
    var verdict := Fold(before, target);
    FinishKeeps(rules, rel, root, before, memo, rest, context, target, marks, owed, verdict);
    nodes := before[target := Value(verdict)];
    memo' := memo[context := verdict];
  }

  /** The guard written when coverage is incomplete: it turns an unfinished root into at most Unknown,
      and is ignored by a root that was already collapsed. */
  lemma GuardDegrades(nodes: seq<Node>)
    requires Forward(nodes) && Acyclic(nodes) && nodes != [] && !nodes[0].Any?
    ensures var guarded := Add(nodes, 0, Value(Unknown));
            && Forward(guarded) && Acyclic(guarded)
            && (nodes[0].All? ==> Eval(guarded, map[], 0) == Both(Eval(nodes, map[], 0), Unknown))
            && (nodes[0].Value? ==> Eval(guarded, map[], 0) == Eval(nodes, map[], 0))
  {
    AddKeepsForward(nodes, 0, Value(Unknown));
    ForwardIsAcyclic(Add(nodes, 0, Value(Unknown)));
    if nodes[0].All? {
      CapsAtUnknown(nodes);
    } else {
      EvalNode(nodes, map[], 0);
      EvalNode(Add(nodes, 0, Value(Unknown)), map[], 0);
    }
  }

  lemma RootRow(rules: Rules, rel: Relation, root: Context, nodes: seq<Node>, memo: map<Context, Validation>, work: seq<Task>,
                marks: seq<nat>, owed: map<nat, Validation>)
    requires Settled(rules, rel, root, nodes, memo, work, marks, owed) && work != []
    ensures nodes[0].All?
  {
    assert TaskSound(rules, rel, nodes, owed, work[0], marks[0]);
  }

  /** The root is entered first, with nothing remembered, and finished last. */
  ghost predicate RootLast(work: seq<Task>, memo: map<Context, Validation>) {
    work != [] ==> work[0].Finish? || (|work| == 1 && memo == map[])
  }

  // ----- What is still to be met, and to be paid -----

  ghost predicate Meets(rules: Rules, task: Task) {
    task.Enter? && ValidContext(rules, task.context) && Limits(rules, task.context)
  }

  /** A task from `from` on will meet a limited search. */
  ghost predicate Awaits(rules: Rules, work: seq<Task>, from: nat) {
    exists k :: from <= k < |work| && Meets(rules, work[k])
  }

  ghost predicate NotedTask(rules: Rules, root: Context, work: seq<Task>, limited: bool, k: nat)
    requires ValidContext(rules, root) && k < |work|
  {
    && ValidContext(rules, work[k].context) && (Limits(rules, work[k].context) ==> Limits(rules, root))
    && (work[k].Finish? && Limits(rules, work[k].context) && !limited ==> Awaits(rules, work, k + 1))
  }

  /** A limited search that the check of the root meets has been met, or is still ahead. */
  ghost predicate Noted(rules: Rules, root: Context, memo: map<Context, Validation>, work: seq<Task>, limited: bool)
    requires ValidContext(rules, root)
  {
    && (forall k :: 0 <= k < |work| ==> NotedTask(rules, root, work, limited, k))
    && (limited ==> Limits(rules, root)) && (Limits(rules, root) ==> limited || Awaits(rules, work, 0))
    && MemoNoted(rules, memo, limited)
  }

  ghost predicate MemoNoted(rules: Rules, memo: map<Context, Validation>, limited: bool) {
    forall context :: context in memo ==> ValidContext(rules, context) && (Limits(rules, context) ==> limited)
  }

  lemma AwaitsAbove(rules: Rules, rest: seq<Task>, more: seq<Task>, from: nat)
    requires from <= |rest|
    ensures Awaits(rules, rest + more, from) <==> Awaits(rules, rest, from) || Awaits(rules, more, 0)
  {
    var all := rest + more;
    if Awaits(rules, all, from) {
      var k :| from <= k < |all| && Meets(rules, all[k]);
      assert if k < |rest| then Meets(rules, rest[k]) else Meets(rules, more[k - |rest|]);
    }
    if Awaits(rules, rest, from) {
      var k :| from <= k < |rest| && Meets(rules, rest[k]);
      assert Meets(rules, all[k]);
    }
    if Awaits(rules, more, 0) {
      var k :| 0 <= k < |more| && Meets(rules, more[k]);
      assert Meets(rules, all[|rest| + k]);
    }
  }

  lemma AwaitsOne(rules: Rules, task: Task)
    ensures Awaits(rules, [task], 0) <==> Meets(rules, task)
  {
    assert [task][0] == task;
  }

  /** Replacing the top task by tasks that meet what it met, unless that was met on the way. */
  lemma StillAhead(rules: Rules, rest: seq<Task>, task: Task, more: seq<Task>, limited: bool, from: nat)
    requires from <= |rest| && Awaits(rules, rest + [task], from)
    requires Meets(rules, task) ==> limited || Awaits(rules, more, 0)
    ensures limited || Awaits(rules, rest + more, from)
  {
    AwaitsAbove(rules, rest, [task], from);
    AwaitsOne(rules, task);
    AwaitsAbove(rules, rest, more, from);
  }

  lemma NotedBelow(rules: Rules, root: Context, rest: seq<Task>, task: Task, more: seq<Task>, limited: bool, limited': bool, k: nat)
    requires ValidContext(rules, root) && k < |rest| && NotedTask(rules, root, rest + [task], limited, k)
    requires (limited ==> limited') && (Meets(rules, task) ==> limited' || Awaits(rules, more, 0))
    ensures NotedTask(rules, root, rest + more, limited', k)
  {
    assert (rest + [task])[k] == rest[k] == (rest + more)[k];
    if Awaits(rules, rest + [task], k + 1) {
      StillAhead(rules, rest, task, more, limited', k + 1);
    }
  }

  lemma NotedStep(rules: Rules, root: Context, memo: map<Context, Validation>, rest: seq<Task>, task: Task, more: seq<Task>,
                  limited: bool, memo': map<Context, Validation>, limited': bool, work': seq<Task>)
    requires ValidContext(rules, root) && Noted(rules, root, memo, rest + [task], limited) && work' == rest + more
    requires (limited ==> limited') && (limited' ==> Limits(rules, root))
    requires Meets(rules, task) ==> limited' || Awaits(rules, more, 0)
    requires forall k :: |rest| <= k < |work'| ==> NotedTask(rules, root, work', limited', k)
    requires MemoNoted(rules, memo', limited')
    ensures Noted(rules, root, memo', work', limited')
  {
    if Awaits(rules, rest + [task], 0) {
      StillAhead(rules, rest, task, more, limited', 0);
    }
    forall k | 0 <= k < |work'|
      ensures NotedTask(rules, root, work', limited', k)
    {
      if k < |rest| {
        assert NotedTask(rules, root, rest + [task], limited, k);
        NotedBelow(rules, root, rest, task, more, limited, limited', k);
      }
    }
  }

  /** What a container meets, it meets itself or in the blocks it leaves. */
  lemma LaunchedMeet(rules: Rules, context: Context, entered: seq<Task>)
    requires ValidContext(rules, context) && Launches(rules, context, entered)
    ensures Limits(rules, context) <==> LimitsHere(rules, context) || Awaits(rules, entered, 0)
    ensures forall k :: 0 <= k < |entered| ==>
              ValidContext(rules, entered[k].context) && (Limits(rules, entered[k].context) ==> Limits(rules, context))
  {
    forall k | 0 <= k < |entered|
      ensures ValidContext(rules, entered[k].context) && (Limits(rules, entered[k].context) ==> Limits(rules, context))
    {
      assert ContextsOf(entered)[k] == entered[k].context;
      BelowIsSmaller(rules, context, entered[k].context);
    }
    if Awaits(rules, entered, 0) {
      var k :| 0 <= k < |entered| && Meets(rules, entered[k]);
    }
    if Limits(rules, context) && !LimitsHere(rules, context) {
      var nested :| nested in Blocks(rules, context)
        && (BelowIsSmaller(rules, context, nested); Limits(rules, nested));
      var k :| 0 <= k < |entered| && ContextsOf(entered)[k] == nested;
      assert Meets(rules, entered[k]);
    }
  }

  lemma FreshNotedAt(rules: Rules, root: Context, rest: seq<Task>, context: Context, target: nat, entered: seq<Task>,
                     limited: bool, work': seq<Task>, k: nat)
    requires ValidContext(rules, root) && ValidContext(rules, context) && (Limits(rules, context) ==> Limits(rules, root))
    requires forall j :: 0 <= j < |entered| ==>
               entered[j].Enter? && ValidContext(rules, entered[j].context) && (Limits(rules, entered[j].context) ==> Limits(rules, context))
    requires Limits(rules, context) ==> limited || Awaits(rules, entered, 0)
    requires work' == rest + [Finish(context, target)] + entered && |rest| <= k < |work'|
    ensures NotedTask(rules, root, work', limited, k)
  {
    assert work'[k] == if k == |rest| then Finish(context, target) else entered[k - |rest| - 1];
    AwaitsAbove(rules, rest + [Finish(context, target)], entered, |rest| + 1);
  }

  lemma FreshIsNoted(rules: Rules, root: Context, memo: map<Context, Validation>, rest: seq<Task>, context: Context, target: nat,
                     entered: seq<Task>, limited: bool, work': seq<Task>)
    requires ValidContext(rules, root) && Noted(rules, root, memo, rest + [Enter(context, target)], limited)
    requires ValidContext(rules, context) && Launches(rules, context, entered)
    requires work' == rest + [Finish(context, target)] + entered
    ensures Noted(rules, root, memo, work', limited || LimitsHere(rules, context))
  {
    var task, more := Enter(context, target), [Finish(context, target)] + entered;
    var limited' := limited || LimitsHere(rules, context);
    assert work' == rest + more;
    assert (rest + [task])[|rest|] == task && NotedTask(rules, root, rest + [task], limited, |rest|);
    LaunchedMeet(rules, context, entered);
    AwaitsAbove(rules, [Finish(context, target)], entered, 0);
    forall k | |rest| <= k < |work'|
      ensures NotedTask(rules, root, work', limited', k)
    {
      FreshNotedAt(rules, root, rest, context, target, entered, limited', work', k);
    }
    NotedStep(rules, root, memo, rest, task, more, limited, memo, limited', work');
  }

  lemma HitIsNoted(rules: Rules, root: Context, memo: map<Context, Validation>, rest: seq<Task>, context: Context, target: nat,
                   limited: bool)
    requires ValidContext(rules, root) && Noted(rules, root, memo, rest + [Enter(context, target)], limited) && context in memo
    ensures Noted(rules, root, memo, rest, limited)
  {
    assert rest + [] == rest;
    NotedStep(rules, root, memo, rest, Enter(context, target), [], limited, memo, limited, rest);
  }

  lemma FinishIsNoted(rules: Rules, root: Context, memo: map<Context, Validation>, rest: seq<Task>, context: Context, target: nat,
                      limited: bool, value: Validation)
    requires ValidContext(rules, root) && Noted(rules, root, memo, rest + [Finish(context, target)], limited)
    ensures Noted(rules, root, memo[context := value], rest, limited)
  {
    var work := rest + [Finish(context, target)];
    assert rest + [] == rest;
    assert work[|rest|] == Finish(context, target) && NotedTask(rules, root, work, limited, |rest|);
    assert !Awaits(rules, work, |rest| + 1);
    NotedStep(rules, root, memo, rest, Finish(context, target), [], limited, memo[context := value], limited, rest);
  }

  function Price(rules: Rules, task: Task): (price: nat)
    requires rules.Valid() && rules.ValidIndices(task.context.indices)
    ensures price > 0
  {
    if task.Enter? then Cost(rules, task.context) else 1
  }

  ghost predicate AllValid(rules: Rules, work: seq<Task>) {
    forall k :: 0 <= k < |work| ==> ValidContext(rules, work[k].context)
  }

  /** What working off the tasks takes at most. */
  ghost function Total(rules: Rules, work: seq<Task>): nat
    requires AllValid(rules, work)
  {
    if work == [] then 0
    else Total(rules, work[..|work| - 1]) + Price(rules, work[|work| - 1])
  }

  lemma {:induction false} TotalSplits(rules: Rules, work: seq<Task>, more: seq<Task>)
    requires AllValid(rules, work) && AllValid(rules, more)
    ensures AllValid(rules, work + more) && Total(rules, work + more) == Total(rules, work) + Total(rules, more)
    decreases more
  {
    if more == [] {
      assert work + more == work;
    } else {
      var all := work + more;
      assert all[..|all| - 1] == work + more[..|more| - 1] && all[|all| - 1] == more[|more| - 1];
      TotalSplits(rules, work, more[..|more| - 1]);
    }
  }

  lemma {:induction false} LaunchedCost(rules: Rules, context: Context, entered: seq<Task>, blocks: seq<Context>)
    requires ValidContext(rules, context) && blocks == ContextsOf(entered) && forall k :: 0 <= k < |entered| ==> entered[k].Enter?
    requires forall nested :: nested in blocks ==> nested in Blocks(rules, context)
    ensures AllValid(rules, entered) && Total(rules, entered) == CostOf(rules, context, blocks)
    decreases entered
  {
    forall k | 0 <= k < |entered|
      ensures ValidContext(rules, entered[k].context)
    {
      assert blocks[k] in blocks;
      BelowIsSmaller(rules, context, blocks[k]);
    }
    if entered != [] {
      var last := |entered| - 1;
      assert blocks[..last] == ContextsOf(entered[..last]) && blocks[last] in blocks;
      assert forall nested :: nested in blocks[..last] ==> nested in blocks;
      LaunchedCost(rules, context, entered[..last], blocks[..last]);
    }
  }

  /** The blocks a container leaves, and finishing it, are paid by what entering it may cost. */
  lemma FreshIsPaid(rules: Rules, rest: seq<Task>, context: Context, target: nat, entered: seq<Task>)
    requires AllValid(rules, rest) && ValidContext(rules, context) && Launches(rules, context, entered)
    ensures var work, work' := rest + [Enter(context, target)], rest + [Finish(context, target)] + entered;
            && AllValid(rules, work) && AllValid(rules, work')
            && Total(rules, work') + 1 + |context.indices| == Total(rules, work)
  {
    var enter, finish := [Enter(context, target)], [Finish(context, target)];
    TotalSplits(rules, rest, enter);
    TotalSplits(rules, rest, finish);
    LaunchedCost(rules, context, entered, Blocks(rules, context));
    TotalSplits(rules, rest + finish, entered);
    assert enter[..0] == [] && finish[..0] == [];
    assert Total(rules, []) == 0;
  }

  /** The bookkeeping of a run: `funded` if it began with allowance for everything. */
  ghost predicate Tracked(rules: Rules, root: Context, memo: map<Context, Validation>, work: seq<Task>, limited: bool,
                          funded: bool, remaining: nat)
    requires ValidContext(rules, root)
  {
    Noted(rules, root, memo, work, limited) && AllValid(rules, work) && (funded ==> Total(rules, work) <= remaining)
  }

  lemma TrackedTop(rules: Rules, root: Context, memo: map<Context, Validation>, rest: seq<Task>, task: Task, limited: bool,
                   funded: bool, remaining: nat)
    requires ValidContext(rules, root) && Tracked(rules, root, memo, rest + [task], limited, funded, remaining)
    ensures ValidContext(rules, task.context) && AllValid(rules, rest)
    ensures Total(rules, rest + [task]) == Total(rules, rest) + Price(rules, task)
  {
    var work := rest + [task];
    assert work[|rest|] == task && work[..|rest|] == rest;
    assert forall k :: 0 <= k < |rest| ==> rest[k] == work[k];
  }

  lemma HitIsTracked(rules: Rules, root: Context, memo: map<Context, Validation>, rest: seq<Task>, context: Context, target: nat,
                     met: bool, funded: bool, allowance: nat)
    requires ValidContext(rules, root) && context in memo
    requires Tracked(rules, root, memo, rest + [Enter(context, target)], met, funded, allowance + 1)
    ensures Tracked(rules, root, memo, rest, met, funded, allowance)
  {
    TrackedTop(rules, root, memo, rest, Enter(context, target), met, funded, allowance + 1);
    HitIsNoted(rules, root, memo, rest, context, target, met);
  }

  lemma FinishIsTracked(rules: Rules, root: Context, memo: map<Context, Validation>, rest: seq<Task>, context: Context, target: nat,
                        met: bool, value: Validation, funded: bool, allowance: nat)
    requires ValidContext(rules, root)
    requires Tracked(rules, root, memo, rest + [Finish(context, target)], met, funded, allowance + 1)
    ensures Tracked(rules, root, memo[context := value], rest, met, funded, allowance)
  {
    TrackedTop(rules, root, memo, rest, Finish(context, target), met, funded, allowance + 1);
    FinishIsNoted(rules, root, memo, rest, context, target, met, value);
  }

  lemma FreshIsTracked(rules: Rules, root: Context, memo: map<Context, Validation>, rest: seq<Task>, context: Context, target: nat,
                       entered: seq<Task>, met: bool, funded: bool, allowance: nat)
    requires ValidContext(rules, root) && ValidContext(rules, context) && Launches(rules, context, entered)
    requires Tracked(rules, root, memo, rest + [Enter(context, target)], met, funded, allowance + 1)
    ensures |context.indices| <= allowance ==>
              Tracked(rules, root, memo, rest + [Finish(context, target)] + entered, met || LimitsHere(rules, context), funded,
                      allowance - |context.indices|)
  {
    TrackedTop(rules, root, memo, rest, Enter(context, target), met, funded, allowance + 1);
    FreshIsNoted(rules, root, memo, rest, context, target, entered, met, rest + [Finish(context, target)] + entered);
    FreshIsPaid(rules, rest, context, target, entered);
  }

  /** Pops one task and runs it. */
  method RunTask(rules: Rules, ghost rel: Relation, ghost root: Context, before: seq<Node>, memo: map<Context, Validation>, work: seq<Task>,
                 allowance: nat, ghost marks: seq<nat>, ghost owed: map<nat, Validation>, ghost met: bool, ghost funded: bool)
    returns (nodes: seq<Node>, memo': map<Context, Validation>, work': seq<Task>, remaining: nat,
             exhausted: bool, limited: bool, ghost marks': seq<nat>, ghost owed': map<nat, Validation>)
    requires Settled(rules, rel, root, before, memo, work, marks, owed) && work != [] && RootLast(work, memo)
    requires Tracked(rules, root, memo, work, met, funded, allowance + 1)
    ensures exhausted || Tracked(rules, root, memo', work', met || limited, funded, remaining)
    ensures funded ==> !exhausted
    ensures remaining <= allowance && (exhausted ==> remaining == 0)
    ensures Forward(nodes) && nodes != [] && !nodes[0].Any? && (exhausted ==> nodes[0].All?)
    ensures exhausted || Settled(rules, rel, root, nodes, memo', work', marks', owed')
    ensures exhausted || (RootLast(work', memo') && (work' == [] ==> nodes[0].Value?))
  {
    RootRow(rules, rel, root, before, memo, work, marks, owed);
    var task := work[|work| - 1];
    var rest := work[..|work| - 1];
    assert work == rest + [task];
    TrackedTop(rules, root, memo, rest, task, met, funded, allowance + 1);
    match task
    case Finish(context, target) =>
      nodes, memo', marks' := FinishTask(rules, rel, root, before, memo, rest, context, target, allowance, marks, owed, met, funded);
      work', remaining, exhausted, limited, owed' := rest, allowance, false, false, owed;
    case Enter(context, target) =>
      memo' := memo;
      nodes, work', remaining, exhausted, limited, marks', owed' :=
        EnterTask(rules, rel, root, before, memo, rest, context, target, allowance, marks, owed, met, funded);
  }

  method FinishTask(rules: Rules, ghost rel: Relation, ghost root: Context, before: seq<Node>, memo: map<Context, Validation>,
                    ghost rest: seq<Task>, context: Context, target: nat, ghost allowance: nat, ghost marks: seq<nat>,
                    ghost owed: map<nat, Validation>, ghost met: bool, ghost funded: bool)
    returns (nodes: seq<Node>, memo': map<Context, Validation>, ghost marks': seq<nat>)
    requires Settled(rules, rel, root, before, memo, rest + [Finish(context, target)], marks, owed)
    requires RootLast(rest + [Finish(context, target)], memo) && before[0].All?
    requires Tracked(rules, root, memo, rest + [Finish(context, target)], met, funded, allowance + 1)
    ensures Settled(rules, rel, root, nodes, memo', rest, marks', owed)
    ensures Tracked(rules, root, memo', rest, met, funded, allowance)
    ensures !nodes[0].Any? && RootLast(rest, memo') && (rest == [] ==> nodes[0].Value?)
  {
    nodes, memo' := FinishContext(rules, rel, root, before, memo, rest, context, target, marks, owed);
    marks' := marks[..|rest|];
    FinishIsTracked(rules, root, memo, rest, context, target, met, memo'[context], funded, allowance);
    RootStays(rest, Finish(context, target), memo);
    assert (rest + [Finish(context, target)])[0].target == 0;
  }

  method EnterTask(rules: Rules, ghost rel: Relation, ghost root: Context, before: seq<Node>, memo: map<Context, Validation>,
                   rest: seq<Task>, context: Context, target: nat, allowance: nat, ghost marks: seq<nat>,
                   ghost owed: map<nat, Validation>, ghost met: bool, ghost funded: bool)
    returns (nodes: seq<Node>, work: seq<Task>, remaining: nat, exhausted: bool, limited: bool,
             ghost marks': seq<nat>, ghost owed': map<nat, Validation>)
    requires Settled(rules, rel, root, before, memo, rest + [Enter(context, target)], marks, owed)
    requires RootLast(rest + [Enter(context, target)], memo) && before[0].All? && ValidContext(rules, context)
    requires Tracked(rules, root, memo, rest + [Enter(context, target)], met, funded, allowance + 1)
    requires funded ==> Cost(rules, context) <= allowance + 1
    ensures exhausted || Tracked(rules, root, memo, work, met || limited, funded, remaining)
    ensures funded ==> !exhausted
    ensures remaining <= allowance && (exhausted ==> remaining == 0)
    ensures Forward(nodes) && nodes != [] && nodes[0].All?
    ensures exhausted || Settled(rules, rel, root, nodes, memo, work, marks', owed')
    ensures exhausted || (RootLast(work, memo) && work != [])
  {
    ghost var launched;
    nodes, work, remaining, exhausted, limited, marks', owed', launched :=
      EnterContext(rules, rel, root, before, memo, rest, context, target, allowance, marks, owed);
    RootStays(rest, Enter(context, target), memo);
    if context in memo {
      HitIsTracked(rules, root, memo, rest, context, target, met, funded, allowance);
    } else if !exhausted {
      FreshIsTracked(rules, root, memo, rest, context, target, launched, met, funded, allowance);
    }
  }

  /** The bottom of the stack is the root's finishing task, except at the very start. */
  lemma RootStays(rest: seq<Task>, task: Task, memo: map<Context, Validation>)
    requires RootLast(rest + [task], memo)
    ensures rest != [] ==> rest[0].Finish?
    ensures rest == [] ==> task.Finish? || memo == map[]
  {
    assert (rest + [task])[0] == if rest == [] then task else rest[0];
  }

  lemma Start(rules: Rules, rel: Relation, root: Context)
    requires ValidContext(rules, root) && ((rel.Same? && Certain(rules, root)) || rel.Degraded?)
    ensures Settled(rules, rel, root, [All([])], map[], [Enter(root, 0)], [0], map[0 := Verdict(rules, root)])
  {
    var nodes, owed := [All([])], map[0 := Verdict(rules, root)];
    var work := [Enter(root, 0)];
    ForwardIsAcyclic(nodes);
    assert Ready(nodes, 0, rel.Same?);
    ReadySound(rules, rel, nodes, owed, work[0]);
    assert Owes(rules, work, owed) by {
      assert work[0].target == 0;
    }
  }

  lemma StartTracked(rules: Rules, root: Context, funded: bool, allowance: nat)
    requires ValidContext(rules, root) && (funded ==> Cost(rules, root) <= allowance)
    ensures Tracked(rules, root, map[], [Enter(root, 0)], false, funded, allowance)
  {
    var work := [Enter(root, 0)];
    assert work[..0] == [];
    assert Total(rules, []) == 0;
    assert Limits(rules, root) ==> Meets(rules, work[0]);
  }

  /** Overload checking of one container. A run within its allowance answers the memo-free recursive
      verdict, or Unknown where that verdict is a proof; an exhausted run never answers Valid. The cap for
      incomplete coverage takes effect in exhausted runs only: otherwise the root of the arena is a value by
      then, and the answer is that value whether or not a pattern search was limited. Where no row that waits
      for a block holds an unknown of its own, the memo loses no proof, and the answer is exact. */
  method Check(rules: Rules, root: Context, allowance: nat)
    returns (value: Validation, remaining: nat, exhausted: bool, limited: bool, ghost arena: seq<Node>)
    requires ValidContext(rules, root)
    ensures remaining <= allowance
    ensures Acyclic(arena) && arena != []
    ensures value == if exhausted then Both(Eval(arena, map[], 0), Unknown) else Eval(arena, map[], 0)
    ensures !exhausted ==> Holds(Degraded, value, Verdict(rules, root))
    ensures !exhausted && Certain(rules, root) ==> value == Verdict(rules, root)
    ensures !exhausted ==> (limited <==> Limits(rules, root))
    ensures Cost(rules, root) <= allowance ==> !exhausted
    ensures exhausted ==> value != Valid && remaining == 0
  {
    ghost var rel := if Certain(rules, root) then Same else Degraded;
    ghost var funded := Cost(rules, root) <= allowance;
    var nodes: seq<Node> := [All([])];
    var memo: map<Context, Validation> := map[];
    var work := [Enter(root, 0)];
    remaining, exhausted, limited := allowance, false, false;
    ghost var owed, marks := map[0 := Verdict(rules, root)], [0];
    Start(rules, rel, root);
    StartTracked(rules, root, funded, allowance);
    while work != [] && remaining > 0
      invariant remaining <= allowance && (exhausted ==> remaining == 0)
      invariant Forward(nodes) && nodes != [] && !nodes[0].Any? && (exhausted ==> nodes[0].All?)
      invariant exhausted || Settled(rules, rel, root, nodes, memo, work, marks, owed)
      invariant exhausted || (RootLast(work, memo) && (work == [] ==> nodes[0].Value?))
      invariant exhausted || Tracked(rules, root, memo, work, limited, funded, remaining)
      invariant funded ==> !exhausted
      decreases remaining
    {
      var unfinished;
      nodes, memo, work, remaining, exhausted, unfinished, marks, owed :=
        RunTask(rules, rel, root, nodes, memo, work, remaining - 1, marks, owed, limited, funded);
      limited := limited || unfinished;
    }
    if work != [] && !exhausted {
      exhausted := true;
      RootRow(rules, rel, root, nodes, memo, work, marks, owed);
    }
    ForwardIsAcyclic(nodes);
    GuardDegrades(nodes);
    arena := nodes;
    assert !exhausted ==> owed == map[];
    if exhausted || limited {
      nodes := Add(nodes, 0, Value(Unknown));
    }
    value := Fold(nodes, 0);
  }

  // ----- Selecting among overloads -----

  /** The block of property `index` as one field interprets it. */
  function CandidateContext(rules: Rules, schema: nat, state: nat, index: nat, field: nat): Option<Context>
    requires index < |rules.children|
  {
    match rules.child(field, schema)
    case None => None
    case Some(child) =>
      Some(Context(child, rules.valueRange(index), rules.transition(state, field, index), rules.children[index], None))
  }

  /** The memo-free verdict of one overload; fields without a child schema take no part. */
  ghost predicate Judged(rules: Rules, schema: nat, state: nat, index: nat, field: nat, verdict: Validation)
    requires rules.Valid() && index < |rules.children|
  {
    match CandidateContext(rules, schema, state, index, field)
    case None => false
    case Some(context) => ValidContext(rules, context) && Verdict(rules, context) == verdict
  }

  ghost predicate Takes(rules: Rules, schema: nat, field: nat) {
    rules.child(field, schema).Some?
  }

  /** The fields that take part, in their order. */
  function Taking(rules: Rules, schema: nat, fields: seq<nat>): seq<nat> {
    if fields == [] then []
    else
      var last := fields[|fields| - 1];
      Taking(rules, schema, fields[..|fields| - 1]) + if rules.child(last, schema).Some? then [last] else []
  }

  function FieldsOf(answers: seq<(nat, Validation)>): seq<nat> {
    seq(|answers|, k requires 0 <= k < |answers| => answers[k].0)
  }

  /** The answer for one candidate: an acceptance is a proof; without exhaustion the answer is the verdict, up to
      a proof that the memo lost. */
  ghost predicate Answered(rules: Rules, schema: nat, state: nat, index: nat, answer: (nat, Validation), exhausted: bool)
    requires rules.Valid() && index < |rules.children|
  {
    match CandidateContext(rules, schema, state, index, answer.0)
    case None => false
    case Some(context) =>
      && ValidContext(rules, context)
      && (answer.1 == Valid ==> Verdict(rules, context) == Valid)
      && (!exhausted ==> Holds(Degraded, answer.1, Verdict(rules, context)))
      && (!exhausted && Certain(rules, context) ==> answer.1 == Verdict(rules, context))
  }

  ghost predicate AllAnswered(rules: Rules, schema: nat, state: nat, index: nat, fields: seq<nat>,
                              answers: seq<(nat, Validation)>, exhausted: bool)
    requires rules.Valid() && index < |rules.children|
  {
    && FieldsOf(answers) == Taking(rules, schema, fields)
    && forall k :: 0 <= k < |answers| ==> Answered(rules, schema, state, index, answers[k], exhausted)
  }

  /** The candidate meets a limited search. */
  ghost predicate CandidateLimits(rules: Rules, schema: nat, state: nat, index: nat, field: nat)
    requires rules.Valid() && index < |rules.children|
  {
    match CandidateContext(rules, schema, state, index, field)
    case None => false
    case Some(context) => ValidContext(rules, context) && Limits(rules, context)
  }

  ghost predicate SomeLimits(rules: Rules, schema: nat, state: nat, index: nat, fields: seq<nat>)
    requires rules.Valid() && index < |rules.children|
  {
    exists field :: field in fields && CandidateLimits(rules, schema, state, index, field)
  }

  method CheckCandidates(rules: Rules, schema: nat, state: nat, index: nat, fields: seq<nat>, allowance: nat)
    returns (answers: seq<(nat, Validation)>, exhausted: bool, limited: bool)
    requires rules.Valid() && index < |rules.children|
    ensures AllAnswered(rules, schema, state, index, fields, answers, exhausted)
    ensures !exhausted ==> (limited <==> SomeLimits(rules, schema, state, index, fields))
  {
    var remaining := allowance;
    answers, exhausted, limited := [], false, false;
    for k := 0 to |fields|
      invariant AllAnswered(rules, schema, state, index, fields[..k], answers, exhausted)
      invariant !exhausted ==> (limited <==> SomeLimits(rules, schema, state, index, fields[..k]))
    {
      var field := fields[k];
      assert fields[..k + 1] == fields[..k] + [field];
      var context := CandidateContext(rules, schema, state, index, field);
      SomeLimitsMore(rules, schema, state, index, fields[..k], field);
      if context.None? {
        AnsweredNone(rules, schema, state, index, fields[..k], answers, exhausted, field);
      } else {
        assert ValidContext(rules, context.value);
        var value, stopped, unfinished;
        ghost var arena;
        value, remaining, stopped, unfinished, arena := Check(rules, context.value, remaining);
        AnsweredMore(rules, schema, state, index, fields[..k], answers, exhausted, field, value, stopped);
        exhausted, limited := exhausted || stopped, limited || unfinished;
        answers := answers + [(field, value)];
      }
    }
    assert fields[..|fields|] == fields;
  }

  lemma SomeLimitsMore(rules: Rules, schema: nat, state: nat, index: nat, fields: seq<nat>, field: nat)
    requires rules.Valid() && index < |rules.children|
    ensures SomeLimits(rules, schema, state, index, fields + [field]) <==>
            SomeLimits(rules, schema, state, index, fields) || CandidateLimits(rules, schema, state, index, field)
  {
    assert field in fields + [field];
  }

  lemma AnsweredNone(rules: Rules, schema: nat, state: nat, index: nat, fields: seq<nat>, answers: seq<(nat, Validation)>,
                     exhausted: bool, field: nat)
    requires rules.Valid() && index < |rules.children| && rules.child(field, schema).None?
    requires AllAnswered(rules, schema, state, index, fields, answers, exhausted)
    ensures AllAnswered(rules, schema, state, index, fields + [field], answers, exhausted)
  {
    assert (fields + [field])[..|fields|] == fields;
  }

  lemma AnsweredMore(rules: Rules, schema: nat, state: nat, index: nat, fields: seq<nat>, answers: seq<(nat, Validation)>,
                     exhausted: bool, field: nat, value: Validation, stopped: bool)
    requires rules.Valid() && index < |rules.children|
    requires AllAnswered(rules, schema, state, index, fields, answers, exhausted)
    requires Answered(rules, schema, state, index, (field, value), stopped)
    ensures AllAnswered(rules, schema, state, index, fields + [field], answers + [(field, value)], exhausted || stopped)
  {
    var all := answers + [(field, value)];
    assert (fields + [field])[..|fields|] == fields;
    assert FieldsOf(all) == FieldsOf(answers) + [field];
    forall k | 0 <= k < |all|
      ensures Answered(rules, schema, state, index, all[k], exhausted || stopped)
    {
      assert k < |answers| ==> Answered(rules, schema, state, index, answers[k], exhausted);
    }
  }

  lemma {:induction false} TakingMembers(rules: Rules, schema: nat, fields: seq<nat>)
    ensures forall field :: field in Taking(rules, schema, fields) <==> field in fields && Takes(rules, schema, field)
    decreases fields
  {
    if fields != [] {
      TakingMembers(rules, schema, fields[..|fields| - 1]);
      assert fields == fields[..|fields| - 1] + [fields[|fields| - 1]];
    }
  }

  /** The answers by field: each candidate has one, and a rejection is exact. */
  lemma AnswersAreExact(rules: Rules, schema: nat, state: nat, index: nat, fields: seq<nat>, answers: seq<(nat, Validation)>)
    requires rules.Valid() && index < |rules.children| && AllAnswered(rules, schema, state, index, fields, answers, false)
    ensures forall field :: field in fields && Takes(rules, schema, field) ==> exists k :: 0 <= k < |answers| && answers[k].0 == field
    ensures forall k :: 0 <= k < |answers| ==>
              && answers[k].0 in fields && Takes(rules, schema, answers[k].0)
              && (answers[k].1 == Invalid <==> Judged(rules, schema, state, index, answers[k].0, Invalid))
  {
    TakingMembers(rules, schema, fields);
    forall field | field in fields && Takes(rules, schema, field)
      ensures exists k :: 0 <= k < |answers| && answers[k].0 == field
    {
      var k :| 0 <= k < |FieldsOf(answers)| && FieldsOf(answers)[k] == field;
      assert answers[k].0 == field;
    }
    forall k | 0 <= k < |answers|
      ensures answers[k].0 in fields && Takes(rules, schema, answers[k].0)
      ensures answers[k].1 == Invalid <==> Judged(rules, schema, state, index, answers[k].0, Invalid)
    {
      assert FieldsOf(answers)[k] == answers[k].0 && Answered(rules, schema, state, index, answers[k], false);
    }
  }

  /** Checks every alternative against the same whole block, in the order of the fields. The first one accepted is
      selected, and its acceptance is a proof; without exhaustion, a rejection is exact, and an unresolved answer
      keeps exactly the fields that the memo-free check does not reject. */
  method SelectOverloads(rules: Rules, schema: nat, state: nat, index: nat, fields: seq<nat>, allowance: nat)
    returns (validation: Validation, possible: seq<nat>, exhausted: bool, limited: bool, ghost answers: seq<(nat, Validation)>)
    requires rules.Valid() && index < |rules.children|
    ensures AllAnswered(rules, schema, state, index, fields, answers, exhausted)
    ensures if validation == Valid then exists k: nat :: Accepts(answers, k) && possible == [answers[k].0]
            else forall k :: 0 <= k < |answers| ==> answers[k].1 != Valid
    ensures validation == Valid ==>
              |possible| == 1 && possible[0] in fields && Judged(rules, schema, state, index, possible[0], Valid)
    ensures !exhausted ==>
              (validation == Invalid <==>
                forall field :: field in fields && Takes(rules, schema, field) ==> Judged(rules, schema, state, index, field, Invalid))
    ensures validation == Invalid ==> possible == fields
    ensures !exhausted && validation == Unknown ==>
              forall field :: field in possible <==>
                field in fields && Takes(rules, schema, field) && !Judged(rules, schema, state, index, field, Invalid)
    ensures validation == Unknown ==> possible == UndecidedIn(answers) && possible != []
    ensures !exhausted ==> (limited <==> SomeLimits(rules, schema, state, index, fields))
  {
    var checked;
    checked, exhausted, limited := CheckCandidates(rules, schema, state, index, fields, allowance);
    answers := checked;
    TakingMembers(rules, schema, fields);
    if !exhausted {
      AnswersAreExact(rules, schema, state, index, fields, checked);
    }
    var k := FirstAccepted(checked);
    if k < |checked| {
      assert FieldsOf(checked)[k] == checked[k].0 && Answered(rules, schema, state, index, checked[k], exhausted);
      return Valid, [checked[k].0], exhausted, limited, checked;
    }
    var unknown := Undecided(checked);
    UndecidedMembers(checked);
    if unknown != [] {
      assert unknown[0] in unknown && (unknown[0], Unknown) in checked;
      validation, possible := Unknown, unknown;
    } else {
      validation, possible := Invalid, fields;
      forall k | 0 <= k < |checked|
        ensures checked[k].1 == Invalid
      {
        assert checked[k] in checked && checked[k] == (checked[k].0, checked[k].1) && checked[k].0 !in unknown;
      }
    }
  }

  /** The first answer that accepts. */
  predicate Accepts(answers: seq<(nat, Validation)>, k: nat) {
    k < |answers| && answers[k].1 == Valid && forall j :: 0 <= j < k ==> answers[j].1 != Valid
  }

  method FirstAccepted(answers: seq<(nat, Validation)>) returns (k: nat)
    ensures k < |answers| ==> Accepts(answers, k)
    ensures k >= |answers| ==> forall j :: 0 <= j < |answers| ==> answers[j].1 != Valid
  {
    for i := 0 to |answers|
      invariant forall j :: 0 <= j < i ==> answers[j].1 != Valid
    {
      if answers[i].1 == Valid {
        return i;
      }
    }
    k := |answers|;
  }

  /** The undecided fields, in the order of the answers. */
  function UndecidedIn(answers: seq<(nat, Validation)>): seq<nat> {
    if answers == [] then []
    else
      var last := answers[|answers| - 1];
      UndecidedIn(answers[..|answers| - 1]) + if last.1 == Unknown then [last.0] else []
  }

  lemma {:induction false} UndecidedMembers(answers: seq<(nat, Validation)>)
    ensures forall field :: field in UndecidedIn(answers) <==> (field, Unknown) in answers
    decreases |answers|
  {
    if answers != [] {
      var front, last := answers[..|answers| - 1], answers[|answers| - 1];
      assert answers == front + [last];
      UndecidedMembers(front);
    }
  }

  method Undecided(checked: seq<(nat, Validation)>) returns (unknown: seq<nat>)
    ensures unknown == UndecidedIn(checked)
  {
    unknown := [];
    for k := 0 to |checked|
      invariant unknown == UndecidedIn(checked[..k])
    {
      assert checked[..k + 1][..k] == checked[..k];
      if checked[k].1 == Unknown {
        unknown := unknown + [checked[k].0];
      }
    }
    assert checked[..|checked|] == checked;
  }
}
