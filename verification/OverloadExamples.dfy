/** Two inputs of overload checking: a limited search does not keep a check from accepting, and a remembered row
    can lose a proof. */
module OverloadExamples {
  import opened Kleene
  import opened Options
  import opened BlockChecking

  // ----- A limited search, and an acceptance -----

  /** One scalar property with two candidate fields: the key search of field 0 is limited and finds nothing, field 1
      matches. */
  const Limiting := Rules(
    [[]], (_: nat) => 0, (_: nat) => false, (_: nat) => false, (_: nat) => true, (_: nat) => false, (_: nat) => false,
    (_: Context, _: nat) => [0, 1], (_: Context, _: nat, field: nat) => field == 1, (_: Context, _: nat, field: nat) => field == 0,
    (_: nat, _: nat) => Valid, (_: nat) => ScalarValue, (_: Context, _: nat, _: nat) => Valid, (_: Context, _: nat, _: nat) => false,
    (_: nat) => false, (_: nat) => false, (_: nat, _: nat) => None, (_: nat, _: nat, _: nat) => 0, (_: nat) => false,
    (_: Context, _: seq<(nat, nat)>, _: bool) => 0)

  const LimitingRoot := Context(0, 0, 0, [0], None)

  lemma LimitingIsValid()
    ensures ValidContext(Limiting, LimitingRoot) && Verdict(Limiting, LimitingRoot) == Valid
    ensures Certain(Limiting, LimitingRoot) && Limits(Limiting, LimitingRoot) && Cost(Limiting, LimitingRoot) == 3
  {
    var fields := [0, 1];
    assert Limiting.candidates(LimitingRoot, 0) == fields;
    assert fields[..1] == [0] && fields[..1][..0] == [];
    assert NestedOf(Limiting, LimitingRoot, 0, []) == [];
    assert NestedOf(Limiting, LimitingRoot, 0, [0]) == [];
    assert ItemNested(Limiting, LimitingRoot, 0) == [] && NestedBelow(Limiting, LimitingRoot, 0) == [];
    assert Blocks(Limiting, LimitingRoot) == [];
    assert 0 in fields && FieldLimits(Limiting, LimitingRoot, 0, 0);
    assert ItemLimits(Limiting, LimitingRoot, LimitingRoot.indices[0]);
    assert RowVerdict(Limiting, LimitingRoot, 0, 1) == Valid && 1 in fields;
    assert Valid in RowVerdicts(Limiting, LimitingRoot, 0, fields);
    assert ItemVerdict(Limiting, LimitingRoot, 0) == Valid;
    assert LimitingRoot.indices == [0];
    assert ItemVerdicts(Limiting, LimitingRoot, LimitingRoot.indices) == {Valid};
    assert QuotaVerdicts(Limiting, LimitingRoot) == {};
  }

  /** The run meets the limited search, and accepts. */
  method LimitedYetValid(allowance: nat) returns (value: Validation, limited: bool)
    requires 3 <= allowance
    ensures limited && value == Valid
  {
    LimitingIsValid();
    var remaining, exhausted;
    ghost var arena;
    value, remaining, exhausted, limited, arena := Check(Limiting, LimitingRoot, allowance);
  }

  // ----- A remembered row, and a lost proof -----

  /** One property with a block, and two candidate fields that interpret the block alike; the key of field 1 is
      unknown. The block holds one scalar that matches. */
  const Forgetting := Rules(
    [[1], []], (_: nat) => 0, (_: nat) => false, (_: nat) => false, (index: nat) => index == 1, (_: nat) => false, (_: nat) => false,
    (_: Context, index: nat) => if index == 0 then [0, 1] else [2], (_: Context, _: nat, field: nat) => field != 1,
    (_: Context, _: nat, _: nat) => false, (_: nat, _: nat) => Valid, (field: nat) => if field == 2 then ScalarValue else ChildBlock,
    (_: Context, _: nat, _: nat) => Valid, (_: Context, _: nat, _: nat) => false, (_: nat) => false, (_: nat) => false,
    (_: nat, _: nat) => Some(1), (_: nat, _: nat, _: nat) => 0, (_: nat) => false,
    (_: Context, _: seq<(nat, nat)>, _: bool) => 0)

  const ForgettingRoot := Context(0, 0, 0, [0], None)
  const SharedBlock := Context(1, 0, 0, [1], None)

  lemma SharedBlockIsValid()
    ensures ValidContext(Forgetting, SharedBlock) && Verdict(Forgetting, SharedBlock) == Valid
  {
    assert Forgetting.candidates(SharedBlock, 1) == [2];
    assert Nested(Forgetting, SharedBlock, 1, 2) == None;
    assert RowVerdict(Forgetting, SharedBlock, 1, 2) == Valid && 2 in [2];
    assert Valid in RowVerdicts(Forgetting, SharedBlock, 1, [2]);
    assert ItemVerdict(Forgetting, SharedBlock, 1) == Valid;
    assert SharedBlock.indices == [1];
    assert ItemVerdicts(Forgetting, SharedBlock, SharedBlock.indices) == {Valid};
    assert QuotaVerdicts(Forgetting, SharedBlock) == {};
  }

  lemma BothEnterTheBlock()
    ensures ValidContext(Forgetting, ForgettingRoot)
    ensures Nested(Forgetting, ForgettingRoot, 0, 0) == Nested(Forgetting, ForgettingRoot, 0, 1) == Some(SharedBlock)
    ensures NestedVerdicts(Forgetting, ForgettingRoot, 0, 0) == NestedVerdicts(Forgetting, ForgettingRoot, 0, 1) == {Valid}
  {
    SharedBlockIsValid();
  }

  lemma KnownRowIsValid()
    ensures ValidContext(Forgetting, ForgettingRoot)
    ensures RowLeaves(Forgetting, ForgettingRoot, 0, 0) == {Valid} && RowVerdict(Forgetting, ForgettingRoot, 0, 0) == Valid
  {
    BothEnterTheBlock();
  }

  lemma UnknownRowIsUnknown()
    ensures ValidContext(Forgetting, ForgettingRoot)
    ensures RowVerdict(Forgetting, ForgettingRoot, 0, 1) == Unknown
  {
    BothEnterTheBlock();
    assert Unknown in RowLeaves(Forgetting, ForgettingRoot, 0, 1) && Invalid !in RowLeaves(Forgetting, ForgettingRoot, 0, 1);
  }

  lemma ForgettingIsValid()
    ensures ValidContext(Forgetting, ForgettingRoot) && Verdict(Forgetting, ForgettingRoot) == Valid
  {
    var fields := [0, 1];
    KnownRowIsValid();
    assert Forgetting.candidates(ForgettingRoot, 0) == fields && 0 in fields;
    assert Valid in RowVerdicts(Forgetting, ForgettingRoot, 0, fields);
    assert ItemVerdict(Forgetting, ForgettingRoot, 0) == Valid;
    assert ForgettingRoot.indices == [0];
    assert ItemVerdicts(Forgetting, ForgettingRoot, ForgettingRoot.indices) == {Valid};
    assert QuotaVerdicts(Forgetting, ForgettingRoot) == {};
  }

  lemma ForgettingIsUncertain()
    ensures ValidContext(Forgetting, ForgettingRoot) && !Certain(Forgetting, ForgettingRoot)
  {
    var fields := [0, 1];
    BothEnterTheBlock();
    assert Forgetting.candidates(ForgettingRoot, 0) == fields && 1 in fields;
    assert Offered(Forgetting, ForgettingRoot, 0, 1);
  }

  /** Both fields enter the same block. Its verdict is Valid, but the row of field 1 is Unknown, and that is what is
      remembered for the block when that row is finished first. Field 0 proves the property; with the remembered
      verdict in place of the block's own it does not. */
  lemma RowLosesProof()
    ensures ValidContext(Forgetting, ForgettingRoot) && !Certain(Forgetting, ForgettingRoot)
    ensures Nested(Forgetting, ForgettingRoot, 0, 0) == Nested(Forgetting, ForgettingRoot, 0, 1) == Some(SharedBlock)
    ensures ValidContext(Forgetting, SharedBlock) && Verdict(Forgetting, SharedBlock) == Valid
    ensures RowVerdict(Forgetting, ForgettingRoot, 0, 1) == Unknown && RowVerdict(Forgetting, ForgettingRoot, 0, 0) == Valid
    ensures Conj(RowLeaves(Forgetting, ForgettingRoot, 0, 0) + {RowVerdict(Forgetting, ForgettingRoot, 0, 1)}) == Unknown
    ensures Verdict(Forgetting, ForgettingRoot) == Valid
  {
    SharedBlockIsValid();
    BothEnterTheBlock();
    KnownRowIsValid();
    UnknownRowIsUnknown();
    ForgettingIsValid();
    ForgettingIsUncertain();
  }
}
