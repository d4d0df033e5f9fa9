/** What the verdict of a block is in terms of the rules alone: when it is rejected, when it is proved, which
    properties its quotas count, and when they are suspended. */
module BlockLaws {
  import opened Kleene
  import opened Options
  import opened BlockChecking
  import Positions

  // ----- Rejection and proof -----

  /** The value cannot be one of the field: a block for a scalar field, a scalar for a block field, or a scalar that
      does not match. */
  predicate WrongValue(rules: Rules, context: Context, index: nat, field: nat) {
    if rules.scalar(index) then
      || !rules.fieldValue(field).ScalarValue?
      || (!rules.scalarDeferred(index) && rules.scalarVerdict(context, index, field) == Invalid)
    else rules.fieldValue(field).ScalarValue?
  }

  /** The value is known to be one of the field, as far as that can be seen without looking into a block. */
  predicate RightValue(rules: Rules, context: Context, index: nat, field: nat) {
    if rules.scalar(index) then
      && rules.fieldValue(field).ScalarValue? && !rules.scalarDeferred(index)
      && rules.scalarVerdict(context, index, field) == Valid
    else !rules.fieldValue(field).ScalarValue?
  }

  /** The schema of the block that a field opens: its own again, that of the branch around it, or a child's. */
  function SchemaBelow(rules: Rules, context: Context, field: nat): Option<nat> {
    match rules.fieldValue(field)
    case SelfBlock => Some(match context.branchSelf case None => context.schema case Some(schema) => schema)
    case _ => rules.child(field, context.schema)
  }

  /** The field has the property's block checked. */
  predicate Opens(rules: Rules, context: Context, index: nat, field: nat) {
    !rules.scalar(index) && !rules.displayOnly(field) && SchemaBelow(rules, context, field).Some?
  }

  function Below(rules: Rules, context: Context, index: nat, field: nat): Context
    requires index < |rules.children| && SchemaBelow(rules, context, field).Some?
  {
    Context(SchemaBelow(rules, context, field).value, rules.valueRange(index),
            rules.transition(context.state, field, index), rules.children[index],
            if rules.rebindsSelf(field) then Some(context.schema) else None)
  }

  lemma {:induction false} BelowIsValid(rules: Rules, context: Context, index: nat, field: nat)
    requires ValidContext(rules, context) && index in context.indices && SchemaBelow(rules, context, field).Some?
    ensures ValidContext(rules, Below(rules, context, index, field))
  {
    assert forall c :: c in rules.children[index] ==> index < c < |rules.children|;
  }

  /** The field is out: of scope, of the wrong value, or its block is rejected. */
  ghost predicate FieldRejects(rules: Rules, context: Context, index: nat, field: nat)
    requires ValidContext(rules, context) && index in context.indices
  {
    || rules.fieldScope(field, context.state) == Invalid
    || WrongValue(rules, context, index, field)
    || (Opens(rules, context, index, field)
        && (BelowIsValid(rules, context, index, field); Verdict(rules, Below(rules, context, index, field)) == Invalid))
  }

  /** The field proves the property: key, scope and value are known to be right, and its block is proved. */
  ghost predicate FieldProves(rules: Rules, context: Context, index: nat, field: nat)
    requires ValidContext(rules, context) && index in context.indices
  {
    && rules.keyKnown(context, index, field)
    && rules.fieldScope(field, context.state) == Valid
    && RightValue(rules, context, index, field)
    && (Opens(rules, context, index, field) ==>
          (BelowIsValid(rules, context, index, field); Verdict(rules, Below(rules, context, index, field)) == Valid))
  }

  /** What a property of the block may be. */
  ghost predicate Rejects(rules: Rules, context: Context, index: nat)
    requires ValidContext(rules, context) && index in context.indices
  {
    && !rules.deferred(index)
    && (rules.candidates(context, index) == [] ==> !rules.incomplete(index) && !rules.open(context.schema))
    && forall field :: field in rules.candidates(context, index) ==> FieldRejects(rules, context, index, field)
  }

  ghost predicate Proves(rules: Rules, context: Context, index: nat)
    requires ValidContext(rules, context) && index in context.indices
  {
    && !rules.deferred(index)
    && if rules.candidates(context, index) == [] then !rules.incomplete(index) && rules.open(context.schema)
       else exists field :: field in rules.candidates(context, index) && FieldProves(rules, context, index, field)
  }

  /** A quota of the block is breached by what it counts. */
  ghost predicate Breached(rules: Rules, context: Context) {
    rules.breaches(context, Selected(rules, context, context.indices), Partial(rules, context, context.indices)) > 0
  }

  lemma {:induction false} NestedIsBelow(rules: Rules, context: Context, index: nat, field: nat)
    requires ValidContext(rules, context) && index in context.indices
    ensures Nested(rules, context, index, field) ==
            if rules.fieldScope(field, context.state) != Invalid && !WrongValue(rules, context, index, field)
               && Opens(rules, context, index, field)
            then Some(Below(rules, context, index, field)) else None
  {
  }

  lemma {:induction false} RowLaw(rules: Rules, context: Context, index: nat, field: nat)
    requires ValidContext(rules, context) && index in context.indices
    ensures RowVerdict(rules, context, index, field) == Invalid <==> FieldRejects(rules, context, index, field)
    ensures RowVerdict(rules, context, index, field) == Valid <==> FieldProves(rules, context, index, field)
  {
    NestedIsBelow(rules, context, index, field);
  }

  lemma {:induction false} ItemLaw(rules: Rules, context: Context, index: nat)
    requires ValidContext(rules, context) && index in context.indices
    ensures ItemVerdict(rules, context, index) == Invalid <==> Rejects(rules, context, index)
    ensures ItemVerdict(rules, context, index) == Valid <==> Proves(rules, context, index)
  {
    var fields := rules.candidates(context, index);
    forall field | field in fields
      ensures RowVerdict(rules, context, index, field) == Invalid <==> FieldRejects(rules, context, index, field)
      ensures RowVerdict(rules, context, index, field) == Valid <==> FieldProves(rules, context, index, field)
    {
      RowLaw(rules, context, index, field);
    }
    if !rules.deferred(index) && fields != [] {
      var verdicts := RowVerdicts(rules, context, index, fields);
      assert fields[0] in fields && RowVerdict(rules, context, index, fields[0]) in verdicts;
      assert forall field :: field in fields ==> RowVerdict(rules, context, index, field) in verdicts;
    }
  }

  /** A block is rejected exactly if one of its properties is or a quota is breached, and proved exactly if all its
      properties are and none is. */
  lemma {:induction false} VerdictLaw(rules: Rules, context: Context)
    requires ValidContext(rules, context)
    ensures Verdict(rules, context) == Invalid <==>
            Breached(rules, context) || exists index :: index in context.indices && Rejects(rules, context, index)
    ensures Verdict(rules, context) == Valid <==>
            !Breached(rules, context) && forall index :: index in context.indices ==> Proves(rules, context, index)
  {
    var items := ItemVerdicts(rules, context, context.indices);
    forall index | index in context.indices
      ensures ItemVerdict(rules, context, index) in items
      ensures ItemVerdict(rules, context, index) == Invalid <==> Rejects(rules, context, index)
      ensures ItemVerdict(rules, context, index) == Valid <==> Proves(rules, context, index)
    {
      ItemLaw(rules, context, index);
    }
    assert forall v :: v in items ==> exists index :: index in context.indices && v == ItemVerdict(rules, context, index);
  }

  // ----- What follows -----

  /** An unknown key is rejected in a closed block. */
  lemma {:induction false} UnknownKeyIsRejected(rules: Rules, context: Context, index: nat)
    requires ValidContext(rules, context) && index in context.indices
    requires !rules.deferred(index) && !rules.incomplete(index) && rules.candidates(context, index) == []
    requires !rules.open(context.schema)
    ensures Verdict(rules, context) == Invalid
  {
    VerdictLaw(rules, context);
    assert Rejects(rules, context, index);
  }

  /** In an open block it changes nothing that the quotas do not see. */
  lemma {:induction false} UnknownKeyIsIgnored(rules: Rules, context: Context, index: nat, others: seq<nat>)
    requires ValidContext(rules, context) && index in context.indices && rules.open(context.schema)
    requires !rules.deferred(index) && !rules.incomplete(index)
    requires forall i: nat :: i in context.indices <==> i in others || i == index
    requires SameBlock(rules, context, context.(indices := others)) && rules.candidates(context, index) == []
    requires Breached(rules, context) <==> Breached(rules, context.(indices := others))
    ensures ValidContext(rules, context.(indices := others))
    ensures Verdict(rules, context.(indices := others)) == Verdict(rules, context)
  {
    var rest := context.(indices := others);
    assert ValidContext(rules, rest);
    VerdictLaw(rules, context);
    VerdictLaw(rules, rest);
    forall i | i in others
      ensures Rejects(rules, rest, i) <==> Rejects(rules, context, i)
      ensures Proves(rules, rest, i) <==> Proves(rules, context, i)
    {
      SamePropertyLaw(rules, context, rest, i);
    }
    assert Proves(rules, context, index) && !Rejects(rules, context, index);
  }

  /** The matching of the properties of one block does not see the rest of the block. */
  ghost predicate SameBlock(rules: Rules, context: Context, rest: Context)
    requires rest == context.(indices := rest.indices)
  {
    && (forall index :: rules.candidates(rest, index) == rules.candidates(context, index))
    && (forall index, field :: rules.keyKnown(rest, index, field) == rules.keyKnown(context, index, field))
    && (forall index, field :: rules.scalarVerdict(rest, index, field) == rules.scalarVerdict(context, index, field))
  }

  lemma {:induction false} SamePropertyLaw(rules: Rules, context: Context, rest: Context, index: nat)
    requires ValidContext(rules, context) && ValidContext(rules, rest) && rest == context.(indices := rest.indices)
    requires SameBlock(rules, context, rest) && index in context.indices && index in rest.indices
    ensures Rejects(rules, rest, index) <==> Rejects(rules, context, index)
    ensures Proves(rules, rest, index) <==> Proves(rules, context, index)
  {
    forall field: nat
      ensures FieldRejects(rules, rest, index, field) <==> FieldRejects(rules, context, index, field)
      ensures FieldProves(rules, rest, index, field) <==> FieldProves(rules, context, index, field)
    {
    }
    assert rules.candidates(rest, index) == rules.candidates(context, index);
  }

  /** A property whose key is deferred, or that names no field and lacks its value or operator, keeps a block from
      being proved. */
  lemma {:induction false} UnfinishedIsNotProved(rules: Rules, context: Context, index: nat)
    requires ValidContext(rules, context) && index in context.indices
    requires rules.deferred(index) || (rules.candidates(context, index) == [] && rules.incomplete(index))
    ensures Verdict(rules, context) != Valid
  {
    VerdictLaw(rules, context);
    assert !Proves(rules, context, index);
  }

  /** One unfinished property that names a field whose block is not checked. */
  const Unfinished := Rules(
    [[]], (_: nat) => 0, (_: nat) => false, (_: nat) => true, (_: nat) => false, (_: nat) => false, (_: nat) => false,
    (_: Context, _: nat) => [0], (_: Context, _: nat, _: nat) => true, (_: Context, _: nat, _: nat) => false,
    (_: nat, _: nat) => Valid, (_: nat) => ChildBlock, (_: Context, _: nat, _: nat) => Valid, (_: Context, _: nat, _: nat) => false,
    (_: nat) => true, (_: nat) => false, (_: nat, _: nat) => None, (_: nat, _: nat, _: nat) => 0, (_: nat) => false,
    (_: Context, _: seq<(nat, nat)>, _: bool) => 0)

  /** One that names a field may still be proved: value and operator are not asked for then. */
  lemma {:induction false} UnfinishedMayBeProved()
    ensures var block := Context(0, 0, 0, [0], None);
            && Unfinished.incomplete(0) && !Unfinished.deferred(0) && Unfinished.candidates(block, 0) != []
            && ValidContext(Unfinished, block) && Verdict(Unfinished, block) == Valid
  {
    var block := Context(0, 0, 0, [0], None);
    UnfinishedProves(block);
    assert !Breached(Unfinished, block);
    VerdictLaw(Unfinished, block);
  }

  lemma {:induction false} UnfinishedProves(block: Context)
    requires block == Context(0, 0, 0, [0], None)
    ensures ValidContext(Unfinished, block) && Proves(Unfinished, block, 0)
  {
    assert Unfinished.candidates(block, 0) == [0] && 0 in [0];
    assert FieldProves(Unfinished, block, 0, 0);
  }

  /** A block for scalar fields only, or a scalar for block fields only, is rejected. */
  lemma {:induction false} WrongShapeIsRejected(rules: Rules, context: Context, index: nat)
    requires ValidContext(rules, context) && index in context.indices
    requires !rules.deferred(index) && rules.candidates(context, index) != []
    requires forall field :: field in rules.candidates(context, index) ==>
               (rules.fieldValue(field).ScalarValue? <==> !rules.scalar(index))
    ensures Verdict(rules, context) == Invalid
  {
    VerdictLaw(rules, context);
    assert Rejects(rules, context, index);
  }

  /** A breached quota rejects the block. */
  lemma {:induction false} BreachIsRejected(rules: Rules, context: Context)
    requires ValidContext(rules, context)
    requires rules.breaches(context, Selected(rules, context, context.indices), Partial(rules, context, context.indices)) > 0
    ensures Verdict(rules, context) == Invalid
  {
    VerdictLaw(rules, context);
  }

  // ----- What the quotas count -----

  /** The field is in scope and the value may be one of it. */
  predicate Fits(rules: Rules, context: Context, index: nat, field: nat) {
    rules.fieldScope(field, context.state) != Invalid && !WrongValue(rules, context, index, field)
  }

  /** The field a property counts for: the first that fits. */
  ghost predicate CountsFor(rules: Rules, context: Context, index: nat, field: nat) {
    && !rules.deferred(index)
    && exists k :: 0 <= k < |rules.candidates(context, index)| && rules.candidates(context, index)[k] == field
         && Fits(rules, context, index, field)
         && forall j :: 0 <= j < k ==> !Fits(rules, context, index, rules.candidates(context, index)[j])
  }

  lemma {:induction false} FirstFit(rules: Rules, context: Context, index: nat, fields: seq<nat>)
    ensures var counted := SelectedIn(rules, context, index, fields);
            if forall k :: 0 <= k < |fields| ==> !Fits(rules, context, index, fields[k]) then counted == []
            else exists k :: 0 <= k < |fields| && counted == [(fields[k], index)] && Fits(rules, context, index, fields[k])
                   && forall j :: 0 <= j < k ==> !Fits(rules, context, index, fields[j])
    decreases fields
  {
    if fields != [] && !Admitted(rules, context, index, fields[0]) {
      assert !Fits(rules, context, index, fields[0]);
      var rest := fields[1..];
      assert forall k :: 0 <= k < |rest| ==> rest[k] == fields[k + 1];
      assert forall k :: 0 < k < |fields| ==> fields[k] == rest[k - 1];
      FirstFit(rules, context, index, rest);
      if k :| 0 <= k < |rest| && SelectedIn(rules, context, index, rest) == [(rest[k], index)]
              && Fits(rules, context, index, rest[k]) && forall j :: 0 <= j < k ==> !Fits(rules, context, index, rest[j]) {
        assert Fits(rules, context, index, fields[k + 1]);
      }
    } else if fields != [] {
      assert Fits(rules, context, index, fields[0]);
    }
  }

  /** One more property is counted once, for the first field that fits, or not at all. */
  lemma {:induction false} CountLaw(rules: Rules, context: Context, before: seq<nat>, index: nat)
    ensures Selected(rules, context, []) == []
    ensures var all, counted := Selected(rules, context, before + [index]), Selected(rules, context, before);
            if exists field :: CountsFor(rules, context, index, field) then
              exists field :: CountsFor(rules, context, index, field) && all == counted + [(field, index)]
            else all == counted
  {
    var fields := rules.candidates(context, index);
    assert (before + [index])[..|before|] == before;
    FirstFit(rules, context, index, fields);
    if !rules.deferred(index) {
      if k :| 0 <= k < |fields| && SelectedIn(rules, context, index, fields) == [(fields[k], index)]
              && Fits(rules, context, index, fields[k]) && forall j :: 0 <= j < k ==> !Fits(rules, context, index, fields[j]) {
        assert CountsFor(rules, context, index, fields[k]);
      }
    }
  }

  /** The lower quotas are suspended exactly if the block or one of its properties is not fully known. */
  lemma {:induction false} PartialLaw(rules: Rules, context: Context)
    ensures Partial(rules, context, context.indices) <==>
            || rules.hole(context.range)
            || exists index :: index in context.indices &&
                 (|| rules.deferred(index)
                  || (rules.candidates(context, index) == [] && rules.incomplete(index))
                  || exists field :: field in rules.candidates(context, index) && !rules.keyKnown(context, index, field))
  {
    forall index
      ensures PartialItem(rules, context, index) <==>
              (|| rules.deferred(index)
               || (rules.candidates(context, index) == [] && rules.incomplete(index))
               || exists field :: field in rules.candidates(context, index) && !rules.keyKnown(context, index, field))
    {
    }
  }

  // ----- Limited searches -----

  /** Matching the key or the value of the property against the field was cut short. */
  predicate CutShort(rules: Rules, context: Context, index: nat, field: nat) {
    || rules.keyLimited(context, index, field)
    || (rules.fieldScope(field, context.state) != Invalid && rules.scalar(index) && rules.fieldValue(field).ScalarValue?
        && !rules.scalarDeferred(index) && rules.scalarLimited(context, index, field))
  }

  ghost predicate LimitedBelow(rules: Rules, context: Context, index: nat, field: nat)
    requires ValidContext(rules, context) && index in context.indices
  {
    && Fits(rules, context, index, field) && Opens(rules, context, index, field)
    && (BelowIsValid(rules, context, index, field); Limits(rules, Below(rules, context, index, field)))
  }

  ghost predicate LimitedAt(rules: Rules, context: Context, index: nat, field: nat)
    requires ValidContext(rules, context)
  {
    && index in context.indices && !rules.deferred(index) && field in rules.candidates(context, index)
    && (CutShort(rules, context, index, field) || LimitedBelow(rules, context, index, field))
  }

  /** The coverage of a block is limited exactly if matching one of its properties is, or that of a block that one of
      their fields opens. */
  lemma {:induction false} LimitLaw(rules: Rules, context: Context)
    requires ValidContext(rules, context)
    ensures Limits(rules, context) <==>
            exists index, field :: LimitedAt(rules, context, index, field)
  {
    if LimitsHere(rules, context) {
      var j: nat :| j < |context.indices| && ItemLimits(rules, context, context.indices[j]);
      var field :| field in rules.candidates(context, context.indices[j]) && FieldLimits(rules, context, context.indices[j], field);
      assert LimitedAt(rules, context, context.indices[j], field);
    } else if Limits(rules, context) {
      var nested :| nested in Blocks(rules, context) && (BelowIsSmaller(rules, context, nested); Limits(rules, nested));
      NestedBelowMember(rules, context, |context.indices|, nested);
      var index: nat, field: nat :| Offered(rules, context, index, field) && index < |rules.children|
        && Nested(rules, context, index, field) == Some(nested);
      NestedIsBelow(rules, context, index, field);
      assert LimitedAt(rules, context, index, field);
    }
    if index, field :| LimitedAt(rules, context, index, field) {
      LimitIsSeen(rules, context, index, field);
    }
  }

  lemma {:induction false} LimitIsSeen(rules: Rules, context: Context, index: nat, field: nat)
    requires ValidContext(rules, context) && LimitedAt(rules, context, index, field)
    ensures Limits(rules, context)
  {
    var j :| 0 <= j < |context.indices| && context.indices[j] == index;
    if CutShort(rules, context, index, field) {
      assert FieldLimits(rules, context, index, field) && ItemLimits(rules, context, context.indices[j]);
    } else {
      NestedIsBelow(rules, context, index, field);
      var nested := Below(rules, context, index, field);
      OpenedIsBlock(rules, context, j, field, nested);
      BelowIsSmaller(rules, context, nested);
      assert nested in Blocks(rules, context) && Limits(rules, nested);
    }
  }

  lemma {:induction false} OpenedIsNested(rules: Rules, context: Context, index: nat, fields: seq<nat>, field: nat, nested: Context)
    requires index < |rules.children| && field in fields && Nested(rules, context, index, field) == Some(nested)
    ensures nested in NestedOf(rules, context, index, fields)
    decreases fields
  {
    var front, last := fields[..|fields| - 1], fields[|fields| - 1];
    if field != last {
      assert field in front;
      OpenedIsNested(rules, context, index, front, field, nested);
    }
  }

  lemma {:induction false} NestedStays(rules: Rules, context: Context, some: nat, count: nat, nested: Context)
    requires rules.ValidIndices(context.indices) && some <= count <= |context.indices|
    requires nested in NestedBelow(rules, context, some)
    ensures nested in NestedBelow(rules, context, count)
    decreases count - some
  {
    if some < count {
      NestedMore(rules, context, some, nested);
      NestedStays(rules, context, some + 1, count, nested);
    }
  }

  lemma {:induction false} NestedMore(rules: Rules, context: Context, some: nat, nested: Context)
    requires rules.ValidIndices(context.indices) && some < |context.indices|
    requires nested in NestedBelow(rules, context, some)
    ensures nested in NestedBelow(rules, context, some + 1)
  {
    NestedNext(rules, context, some + 1, nested);
  }

  lemma {:induction false} NestedNext(rules: Rules, context: Context, count: nat, nested: Context)
    requires rules.ValidIndices(context.indices) && 0 < count <= |context.indices|
    ensures context.indices[count - 1] in context.indices
    ensures nested in NestedBelow(rules, context, count) <==>
            nested in NestedBelow(rules, context, count - 1) || nested in ItemNested(rules, context, context.indices[count - 1])
  {
  }

  lemma {:induction false} OpenedIsBlock(rules: Rules, context: Context, j: nat, field: nat, nested: Context)
    requires ValidContext(rules, context) && j < |context.indices| && context.indices[j] in context.indices
    requires !rules.deferred(context.indices[j]) && field in rules.candidates(context, context.indices[j])
    requires Nested(rules, context, context.indices[j], field) == Some(nested)
    ensures nested in Blocks(rules, context)
  {
    OpenedIsNested(rules, context, context.indices[j], rules.candidates(context, context.indices[j]), field, nested);
    NestedNext(rules, context, j + 1, nested);
    NestedStays(rules, context, j + 1, |context.indices|, nested);
  }

  // ----- Proofs that are kept -----

  /** The memo loses no proof below a block as long as each field that has a block checked is known by its key and
      known to be in scope, in this block and in those below. */
  lemma {:induction false} CertainLaw(rules: Rules, context: Context)
    requires ValidContext(rules, context)
    ensures Certain(rules, context) <==>
            forall index, field :: Offered(rules, context, index, field) ==> KeepsProof(rules, context, index, field)
  {
    forall index, field | Offered(rules, context, index, field)
      ensures Nested(rules, context, index, field).Some? <==> Fits(rules, context, index, field) && Opens(rules, context, index, field)
    {
      NestedIsBelow(rules, context, index, field);
    }
    if Certain(rules, context) {
      forall index, field | Offered(rules, context, index, field)
        ensures KeepsProof(rules, context, index, field)
      {
        CertainField(rules, context, index, field);
      }
    }
    if forall index, field :: Offered(rules, context, index, field) ==> KeepsProof(rules, context, index, field) {
      forall nested | nested in Blocks(rules, context)
        ensures ValidContext(rules, nested) && Size(rules, nested) < Size(rules, context) && Certain(rules, nested)
      {
        BelowIsSmaller(rules, context, nested);
        NestedBelowMember(rules, context, |context.indices|, nested);
        var index: nat, field: nat :| Offered(rules, context, index, field) && index < |rules.children|
          && Nested(rules, context, index, field) == Some(nested);
        assert KeepsProof(rules, context, index, field);
        NestedIsBelow(rules, context, index, field);
      }
    }
  }

  ghost predicate KeepsProof(rules: Rules, context: Context, index: nat, field: nat)
    requires ValidContext(rules, context) && index in context.indices
  {
    Fits(rules, context, index, field) && Opens(rules, context, index, field) ==>
      && rules.keyKnown(context, index, field) && rules.fieldScope(field, context.state) == Valid
      && (BelowIsValid(rules, context, index, field); Certain(rules, Below(rules, context, index, field)))
  }

  lemma {:induction false} CertainField(rules: Rules, context: Context, index: nat, field: nat)
    requires ValidContext(rules, context) && Certain(rules, context) && Offered(rules, context, index, field)
    ensures KeepsProof(rules, context, index, field)
  {
    NestedIsBelow(rules, context, index, field);
    if Fits(rules, context, index, field) && Opens(rules, context, index, field) {
      var j: nat :| j < |context.indices| && context.indices[j] == index;
      OpenedIsBlock(rules, context, j, field, Below(rules, context, index, field));
      assert Unknown !in RowLeaves(rules, context, index, field);
    }
  }

  // ----- Overloads -----

  /** One overload is judged by the verdict of the block as its child schema interprets it. */
  lemma {:induction false} OverloadLaw(rules: Rules, schema: nat, state: nat, index: nat, field: nat, verdict: Validation)
    requires rules.Valid() && index < |rules.children|
    ensures Judged(rules, schema, state, index, field, verdict) <==>
            && rules.child(field, schema).Some?
            && var block := Context(rules.child(field, schema).value, rules.valueRange(index),
                                    rules.transition(state, field, index), rules.children[index], None);
               ValidContext(rules, block) && Verdict(rules, block) == verdict
  {
  }

  /** The overloads that are answered are the fields with a child schema, in their order. */
  lemma {:induction false} TakingLaw(rules: Rules, schema: nat, fields: seq<nat>) returns (places: seq<nat>)
    ensures Positions.Stand(fields, (field: nat) => rules.child(field, schema).Some?, Taking(rules, schema, fields), places)
  {
    var keep := (field: nat) => rules.child(field, schema).Some?;
    TakingIsKept(rules, schema, fields, keep);
    places := Positions.KeptLaw(fields, keep);
  }

  lemma {:induction false} TakingIsKept(rules: Rules, schema: nat, fields: seq<nat>, keep: nat -> bool)
    requires forall field :: keep(field) <==> rules.child(field, schema).Some?
    ensures Taking(rules, schema, fields) == Positions.Kept(fields, keep)
    decreases |fields|
  {
    if fields != [] {
      var front, last := fields[..|fields| - 1], fields[|fields| - 1];
      assert fields == front + [last];
      TakingIsKept(rules, schema, front, keep);
      Positions.KeptSnoc(front, last, keep);
    }
  }

  /** What stays possible are the fields of the unknown answers, each where its answer stands. */
  lemma {:induction false} UndecidedLaw(answers: seq<(nat, Validation)>) returns (places: seq<nat>)
    ensures |places| == |UndecidedIn(answers)|
    ensures forall i :: 0 <= i < |places| ==> places[i] < |answers| && answers[places[i]] == (UndecidedIn(answers)[i], Unknown)
    ensures forall i, j :: 0 <= i < j < |places| ==> places[i] < places[j]
    ensures forall k :: 0 <= k < |answers| && answers[k].1 == Unknown ==> k in places
    decreases |answers|
  {
    places := [];
    if answers != [] {
      var front, last := answers[..|answers| - 1], |answers| - 1;
      var before := UndecidedLaw(front);
      places := before + if answers[last].1 == Unknown then [last] else [];
      forall k | 0 <= k < |answers| && answers[k].1 == Unknown
        ensures k in places
      {
        assert k < last ==> front[k] == answers[k] && k in before;
      }
    }
  }
}
