/** Which references and parameters a file has, told from its tokens, conditions and definitions alone. */
module ParameterLaws {
  import opened Options
  import opened Ranges
  import opened CharSize
  import opened Sorting
  import opened Bisection
  import Positions
  import opened Parameters

  // ----- Delimited names -----

  /** How many delimiters stand before a place. */
  function Count(raw: string, delimiter: char, k: nat): nat
    requires k <= |raw|
  {
    if k == 0 then 0 else Count(raw, delimiter, k - 1) + if raw[k - 1] == delimiter then 1 else 0
  }

  /** A name stands between an opening delimiter and the next one: every other delimiter opens, and a name is not
      empty. */
  predicate NamedAt(raw: string, delimiter: char, i: nat, j: nat) {
    && i + 1 < j < |raw| && raw[i] == delimiter && raw[j] == delimiter && Count(raw, delimiter, i) % 2 == 0
    && forall k :: i < k < j ==> raw[k] != delimiter
  }

  ghost predicate Named(raw: string, delimiter: char, o: Occurrence) {
    exists i: nat, j: nat :: NamedAt(raw, delimiter, i, j) && o == Between(raw, i, j)
  }

  /** A name that is still to be found behind a place. */
  ghost predicate NamedBehind(raw: string, delimiter: char, at: nat, opening: Option<nat>, o: Occurrence) {
    exists i: nat, j: nat :: NamedAt(raw, delimiter, i, j) && o == Between(raw, i, j) && at <= j && (i >= at || opening == Some(i))
  }

  /** The scanner's state: an odd number of delimiters passed, and the last one opens. */
  predicate Scanning(raw: string, delimiter: char, at: nat, opening: Option<nat>) {
    && at <= |raw| && Count(raw, delimiter, at) % 2 == (if opening.Some? then 1 else 0)
    && (opening.Some? ==>
          && opening.value < at && raw[opening.value] == delimiter && Count(raw, delimiter, opening.value) % 2 == 0
          && forall k :: opening.value < k < at ==> raw[k] != delimiter)
  }

  /** The scan finds exactly the names between an opening delimiter and the next. */
  lemma {:induction false} DelimitedLaw(raw: string, delimiter: char, at: nat, opening: Option<nat>, o: Occurrence)
    requires Scanning(raw, delimiter, at, opening)
    ensures o in Delimited(raw, delimiter, at, opening) <==> NamedBehind(raw, delimiter, at, opening, o)
    decreases |raw| - at
  {
    if at < |raw| {
      if raw[at] != delimiter {
        DelimitedLaw(raw, delimiter, at + 1, opening, o);
        PlainStep(raw, delimiter, at, opening, o);
      } else if opening.None? {
        DelimitedLaw(raw, delimiter, at + 1, Some(at), o);
        OpeningStep(raw, delimiter, at, o);
      } else {
        DelimitedLaw(raw, delimiter, at + 1, None, o);
        ClosingStep(raw, delimiter, at, opening.value, o);
      }
    }
  }

  lemma {:induction false} PlainStep(raw: string, delimiter: char, at: nat, opening: Option<nat>, o: Occurrence)
    requires Scanning(raw, delimiter, at, opening) && at < |raw| && raw[at] != delimiter
    ensures NamedBehind(raw, delimiter, at, opening, o) <==> NamedBehind(raw, delimiter, at + 1, opening, o)
  {
  }

  lemma {:induction false} OpeningStep(raw: string, delimiter: char, at: nat, o: Occurrence)
    requires Scanning(raw, delimiter, at, None) && at < |raw| && raw[at] == delimiter
    ensures NamedBehind(raw, delimiter, at, None, o) <==> NamedBehind(raw, delimiter, at + 1, Some(at), o)
  {
  }

  lemma {:induction false} ClosingStep(raw: string, delimiter: char, at: nat, opening: nat, o: Occurrence)
    requires Scanning(raw, delimiter, at, Some(opening)) && at < |raw| && raw[at] == delimiter
    ensures NamedBehind(raw, delimiter, at, Some(opening), o) <==>
            (opening + 1 < at && o == Between(raw, opening, at)) || NamedBehind(raw, delimiter, at + 1, None, o)
  {
    if opening + 1 < at && o == Between(raw, opening, at) {
      assert NamedAt(raw, delimiter, opening, at);
    }
    if NamedBehind(raw, delimiter, at, Some(opening), o) {
      var i: nat, j: nat :| NamedAt(raw, delimiter, i, j) && o == Between(raw, i, j) && at <= j && (i >= at || opening == i);
      if i == at {
        assert Count(raw, delimiter, at) % 2 == 1;
      } else if i == opening {
        assert j == at;
      }
    }
  }

  lemma {:induction false} NamesLaw(raw: string, delimiter: char, o: Occurrence)
    ensures o in Delimited(raw, delimiter, 0, None) <==> Named(raw, delimiter, o)
  {
    DelimitedLaw(raw, delimiter, 0, None, o);
    if Named(raw, delimiter, o) {
      var i: nat, j: nat :| NamedAt(raw, delimiter, i, j) && o == Between(raw, i, j);
      assert NamedBehind(raw, delimiter, 0, None, o);
    }
  }

  // ----- Owners -----

  /** The k-th definition is the first of the shortest around the range. */
  predicate ShortestAround(definitions: seq<Range>, range: Range, k: nat) {
    && k < |definitions| && definitions[k].start <= range.start && range.end <= definitions[k].end
    && (forall j :: 0 <= j < |definitions| && definitions[j].start <= range.start && range.end <= definitions[j].end ==>
          definitions[k].end - definitions[k].start <= definitions[j].end - definitions[j].start
          && (j < k ==> definitions[k].end - definitions[k].start < definitions[j].end - definitions[j].start))
  }

  ghost predicate IsShortest(definitions: seq<Range>, range: Range, owner: Range) {
    exists k: nat :: ShortestAround(definitions, range, k) && owner == definitions[k]
  }

  lemma {:induction false} InnermostLaw(definitions: seq<Range>, range: Range)
    ensures match Innermost(definitions, range)
            case Some(owner) => IsShortest(definitions, range, owner)
            case None => forall j :: 0 <= j < |definitions| ==> !(definitions[j].start <= range.start && range.end <= definitions[j].end)
    decreases |definitions|
  {
    if definitions != [] {
      var front, last := definitions[..|definitions| - 1], definitions[|definitions| - 1];
      InnermostLaw(front, range);
      assert definitions == front + [last];
      match Innermost(front, range)
      case Some(best) => ShortestNext(front, last, range, best);
      case None =>
        if Within(range, last) {
          assert ShortestAround(definitions, range, |front|);
        }
    }
  }

  lemma {:induction false} ShortestNext(front: seq<Range>, last: Range, range: Range, best: Range)
    requires IsShortest(front, range, best)
    ensures IsShortest(front + [last], range, if Within(range, last) && Length(last) < Length(best) then last else best)
  {
    var k: nat :| ShortestAround(front, range, k) && best == front[k];
    var all := front + [last];
    if Within(range, last) && Length(last) < Length(best) {
      assert ShortestAround(all, range, |front|);
    } else {
      assert all[k] == front[k] && ShortestAround(all, range, k);
    }
  }

  /** The k-th property is the first at the top around the range. */
  predicate FirstTopAround(items: seq<Item>, range: Range, k: nat) {
    && k < |items| && items[k].topLevel && items[k].range.start <= range.start && range.end <= items[k].range.end
    && forall j :: 0 <= j < k ==> !(items[j].topLevel && items[j].range.start <= range.start && range.end <= items[j].range.end)
  }

  lemma {:induction false} TopLevelLaw(items: seq<Item>, range: Range)
    ensures match TopLevelOwner(items, range)
            case Some(owner) => exists k: nat :: FirstTopAround(items, range, k) && owner == items[k].range
            case None =>
              forall j :: 0 <= j < |items| ==> !(items[j].topLevel && items[j].range.start <= range.start && range.end <= items[j].range.end)
  {
    if items != [] {
      TopLevelLaw(items[1..], range);
      if items[0].topLevel && Within(range, items[0].range) {
        assert FirstTopAround(items, range, 0);
      } else if TopLevelOwner(items[1..], range).Some? {
        var k: nat :| FirstTopAround(items[1..], range, k) && TopLevelOwner(items[1..], range).value == items[1..][k].range;
        assert FirstTopAround(items, range, k + 1);
      } else {
        assert forall j :: 0 < j < |items| ==> items[j] == items[1..][j - 1];
      }
    }
  }

  /** Whose parameter an occurrence is: the shortest definition around it where the definitions are known, and the
      first top-level property around it otherwise. */
  ghost predicate OwnedBy(file: File, range: Range, owner: Range) {
    match file.definitions
    case Some(definitions) => exists k: nat :: ShortestAround(definitions, range, k) && owner == definitions[k]
    case None => exists k: nat :: FirstTopAround(file.items, range, k) && owner == file.items[k].range
  }

  lemma {:induction false} OwnerLaw(file: File, range: Range, owner: Range)
    ensures Owner(file, range) == Some(owner) <==> OwnedBy(file, range, owner)
  {
    match file.definitions
    case Some(definitions) =>
      InnermostLaw(definitions, range);
      forall j: nat, k: nat | ShortestAround(definitions, range, j) && ShortestAround(definitions, range, k)
        ensures j == k
      {
      }
    case None =>
      TopLevelLaw(file.items, range);
      forall j: nat, k: nat | FirstTopAround(file.items, range, j) && FirstTopAround(file.items, range, k)
        ensures j == k
      {
      }
  }

  // ----- References -----

  /** What kind of use an occurrence is: opaque in quotes, a key substitution inside a key, and plain otherwise. */
  ghost predicate OfKind(file: File, range: Range, quoted: bool, kind: Kind) {
    if quoted then kind == OpaqueTextSubstitution
    else if exists i :: 0 <= i < |file.items| && file.items[i].keyRange.start <= range.start && range.end <= file.items[i].keyRange.end
    then kind == KeySubstitution
    else kind == Substitution
  }

  /** The reference of the name between two delimiters of a token. */
  ghost predicate ReferenceOf(file: File, delimiter: char, token: Token, i: nat, j: nat, r: Reference) {
    && (token.kind.Bare? || token.kind.Quoted?) && NamedAt(token.text, delimiter, i, j)
    && r.name == token.text[i + 1..j]
    && r.range == Bounds(token.range.start + At(token.text, i), token.range.start + At(token.text, j + 1))
    && r.nameRange == Bounds(token.range.start + At(token.text, i + 1), token.range.start + At(token.text, j))
    && OwnedBy(file, r.range, r.owner) && OfKind(file, r.range, token.kind.Quoted?, r.kind)
    && forall c :: 0 <= c < |file.conditionals| ==>
         !(r.range.start < file.conditionals[c].condition.end && file.conditionals[c].condition.start < r.range.end)
  }

  ghost predicate TokenHas(file: File, delimiter: char, token: Token, r: Reference) {
    exists i: nat, j: nat :: ReferenceOf(file, delimiter, token, i, j, r)
  }

  lemma {:induction false} OneOfReferences(file: File, token: Token, occurrences: seq<Occurrence>, count: nat, r: Reference)
    requires AllRanged(occurrences) && count <= |occurrences|
    ensures r in TokenReferences(file, token, occurrences, count) <==>
            exists k :: 0 <= k < count && r in OccurrenceReference(file, token, occurrences[k])
  {
    if count > 0 {
      OneOfReferences(file, token, occurrences, count - 1, r);
    }
  }

  lemma {:induction false} OccurrenceLaw(file: File, delimiter: char, token: Token, i: nat, j: nat, r: Reference)
    requires !token.kind.OtherToken? && NamedAt(token.text, delimiter, i, j)
    ensures Ranged(Between(token.text, i, j))
    ensures r in OccurrenceReference(file, token, Between(token.text, i, j)) <==> ReferenceOf(file, delimiter, token, i, j, r)
  {
    BetweenIsRanged(token.text, i, j);
    var o := Between(token.text, i, j);
    OwnerLaw(file, Parameters.Place(token, o.start, o.end), r.owner);
  }

  /** The references of a token are those of its delimited names, and no others. */
  lemma {:induction false} TokenLaw(file: File, delimiter: char, token: Token, r: Reference)
    ensures r in ReferencesIn(file, delimiter, token) <==> TokenHas(file, delimiter, token, r)
  {
    if !token.kind.OtherToken? {
      var occurrences := Delimited(token.text, delimiter, 0, None);
      DelimitedAreRanged(token.text, delimiter);
      OneOfReferences(file, token, occurrences, |occurrences|, r);
      if r in ReferencesIn(file, delimiter, token) {
        var k :| 0 <= k < |occurrences| && r in OccurrenceReference(file, token, occurrences[k]);
        NamesLaw(token.text, delimiter, occurrences[k]);
        var i: nat, j: nat :| NamedAt(token.text, delimiter, i, j) && occurrences[k] == Between(token.text, i, j);
        OccurrenceLaw(file, delimiter, token, i, j, r);
      }
      if TokenHas(file, delimiter, token, r) {
        var i: nat, j: nat :| ReferenceOf(file, delimiter, token, i, j, r);
        NamesLaw(token.text, delimiter, Between(token.text, i, j));
        OccurrenceLaw(file, delimiter, token, i, j, r);
        assert Named(token.text, delimiter, Between(token.text, i, j));
        var k :| 0 <= k < |occurrences| && occurrences[k] == Between(token.text, i, j);
      }
    }
  }

  ghost predicate ReferenceIn(file: File, delimiter: char, count: nat, r: Reference)
    requires count <= |file.tokens|
  {
    exists t :: 0 <= t < count && TokenHas(file, delimiter, file.tokens[t], r)
  }

  lemma {:induction false} TokensLaw(file: File, delimiter: char, count: nat, r: Reference)
    requires count <= |file.tokens|
    ensures r in DelimitedReferences(file, delimiter, count) <==> ReferenceIn(file, delimiter, count, r)
  {
    if count > 0 {
      TokensLaw(file, delimiter, count - 1, r);
      TokenLaw(file, delimiter, file.tokens[count - 1], r);
      TokensNext(file, delimiter, count, r);
    }
  }

  lemma {:induction false} TokensNext(file: File, delimiter: char, count: nat, r: Reference)
    requires 0 < count <= |file.tokens|
    ensures r in DelimitedReferences(file, delimiter, count) <==>
            r in DelimitedReferences(file, delimiter, count - 1) || r in ReferencesIn(file, delimiter, file.tokens[count - 1])
    ensures ReferenceIn(file, delimiter, count, r) <==>
            ReferenceIn(file, delimiter, count - 1, r) || TokenHas(file, delimiter, file.tokens[count - 1], r)
  {
  }

  /** The reference of a condition head: owned where the whole conditional is. */
  ghost predicate ConditionOf(file: File, c: nat, r: Reference) {
    && c < |file.conditionals|
    && var conditional := file.conditionals[c];
       && r.name == conditional.name && r.range == conditional.condition && r.nameRange == conditional.nameRange
       && OwnedBy(file, conditional.range, r.owner) && r.kind == ConditionalUse
  }

  lemma {:induction false} ConditionsLaw(file: File, count: nat, r: Reference)
    requires count <= |file.conditionals|
    ensures r in ConditionalReferences(file, count) <==> exists c: nat :: c < count && ConditionOf(file, c, r)
  {
    if count > 0 {
      ConditionsLaw(file, count - 1, r);
      ConditionNext(file, count, r);
    }
  }

  lemma {:induction false} ConditionNext(file: File, count: nat, r: Reference)
    requires 0 < count <= |file.conditionals|
    ensures r in ConditionalReferences(file, count) <==>
            r in ConditionalReferences(file, count - 1) || ConditionOf(file, count - 1, r)
  {
    var conditional := file.conditionals[count - 1];
    OwnerLaw(file, conditional.range, r.owner);
    assert ConditionOf(file, count - 1, r) <==>
           Owner(file, conditional.range).Some?
           && r == Reference(conditional.name, conditional.condition, conditional.nameRange,
                             Owner(file, conditional.range).value, ConditionalUse);
  }

  lemma {:induction false} DelimitersLaw(file: File, delimiters: seq<char>, r: Reference)
    ensures r in AllDelimited(file, delimiters) <==>
            exists d :: d in delimiters && ReferenceIn(file, d, |file.tokens|, r)
    decreases |delimiters|
  {
    if delimiters != [] {
      var front, last := delimiters[..|delimiters| - 1], delimiters[|delimiters| - 1];
      assert delimiters == front + [last];
      DelimitersLaw(file, front, r);
      TokensLaw(file, last, |file.tokens|, r);
    }
  }

  /** The references of a file, from the file alone: one for each delimited name of a bare or quoted token that is
      inside a definition and outside all condition heads, and one for each condition head inside a definition. */
  lemma {:induction false} LoweredLaw(file: File, delimiters: seq<char>, r: Reference)
    ensures r in Lowered(file, delimiters) <==>
            || (exists d :: d in delimiters && ReferenceIn(file, d, |file.tokens|, r))
            || exists c: nat :: c < |file.conditionals| && ConditionOf(file, c, r)
  {
    SortMembers(Earlier, AllDelimited(file, delimiters) + ConditionalReferences(file, |file.conditionals|));
    DelimitersLaw(file, delimiters, r);
    ConditionsLaw(file, |file.conditionals|, r);
  }

  /** And they are in the order of their starts. */
  lemma {:induction false} LoweredOrderLaw(file: File, delimiters: seq<char>)
    ensures var references := Lowered(file, delimiters);
            forall i, j :: 0 <= i < j < |references| ==> references[i].range.start <= references[j].range.start
  {
    var all := AllDelimited(file, delimiters) + ConditionalReferences(file, |file.conditionals|);
    SortKeeps(Earlier, all);
    forall i, j | 0 <= i < j < |Lowered(file, delimiters)|
      ensures Lowered(file, delimiters)[i].range.start <= Lowered(file, delimiters)[j].range.start
    {
      assert !Earlier(Lowered(file, delimiters)[j], Lowered(file, delimiters)[i]);
    }
  }

  // ----- Inferred parameters -----

  /** The uses of parameters: each reference with the delimiter it was found by; condition heads with the usual one. */
  lemma {:induction false} UsesLaw(file: File, delimiters: seq<char>, use: Use)
    ensures use in Uses(file, delimiters) <==>
            || (use.1 in delimiters && ReferenceIn(file, use.1, |file.tokens|, use.0))
            || (use.1 == (if delimiters == [] then '$' else delimiters[0])
                && exists c: nat :: c < |file.conditionals| && ConditionOf(file, c, use.0))
  {
    DelimitedUsesLaw(file, delimiters, use);
    ConditionsLaw(file, |file.conditionals|, use.0);
    TaggedMembers(ConditionalReferences(file, |file.conditionals|), Usual(delimiters), use);
  }

  lemma {:induction false} TaggedMembers(references: seq<Reference>, delimiter: char, use: Use)
    ensures use in Tagged(references, delimiter) <==> use.1 == delimiter && use.0 in references
  {
    if use.1 == delimiter && use.0 in references {
      var i :| 0 <= i < |references| && references[i] == use.0;
      assert Tagged(references, delimiter)[i] == use;
    }
  }

  lemma {:induction false} DelimitedUsesLaw(file: File, delimiters: seq<char>, use: Use)
    ensures use in DelimitedUses(file, delimiters) <==> use.1 in delimiters && ReferenceIn(file, use.1, |file.tokens|, use.0)
    decreases |delimiters|
  {
    if delimiters != [] {
      var front, last := delimiters[..|delimiters| - 1], delimiters[|delimiters| - 1];
      assert delimiters == front + [last];
      DelimitedUsesLaw(file, front, use);
      TaggedMembers(DelimitedReferences(file, last, |file.tokens|), last, use);
      TokensLaw(file, last, |file.tokens|, use.0);
    }
  }

  predicate SameName(a: string, b: string) {
    |a| == |b| && forall i :: 0 <= i < |a| ==>
      var x, y := a[i] as int, b[i] as int; x == y || (65 <= x <= 90 && x + 32 == y) || (65 <= y <= 90 && y + 32 == x)
  }

  /** The definition is that of its parameter's first use. */
  predicate FirstUse(uses: seq<Use>, k: nat, d: Definition) {
    && k < |uses| && d == Definition(uses[k].0.name, uses[k].0.range, uses[k].0.nameRange, uses[k].0.owner, uses[k].1)
    && forall j :: 0 <= j < k ==>
         !(uses[j].0.owner == d.owner && uses[j].1 == d.delimiter && LowerName(uses[j].0.name) == LowerName(d.name))
  }

  function LowerName(name: string): string {
    Ascii.LowerText(name)
  }

  lemma {:induction false} LowerChars(a: char, b: char)
    ensures Ascii.LowerChar(a) == Ascii.LowerChar(b) <==>
            a == b || (65 <= a as int <= 90 && a as int + 32 == b as int) || (65 <= b as int <= 90 && b as int + 32 == a as int)
  {
    assert Ascii.LowerChar(a) as int == if 65 <= a as int <= 90 then a as int + 32 else a as int;
    assert Ascii.LowerChar(b) as int == if 65 <= b as int <= 90 then b as int + 32 else b as int;
  }

  /** Names agree up to ASCII case. */
  lemma {:induction false} LowerNameLaw(a: string, b: string)
    ensures LowerName(a) == LowerName(b) <==> SameName(a, b)
  {
    forall i | 0 <= i < |a| && |a| == |b|
      ensures LowerName(a)[i] == LowerName(b)[i] <==>
              var x, y := a[i] as int, b[i] as int; x == y || (65 <= x <= 90 && x + 32 == y) || (65 <= y <= 90 && y + 32 == x)
    {
      LowerChars(a[i], b[i]);
    }
    if LowerName(a) == LowerName(b) {
      assert |LowerName(a)| == |a| && |LowerName(b)| == |b|;
    }
  }

  lemma {:induction false} InferredLaw(uses: seq<Use>, d: Definition)
    ensures d in Inferred(uses) <==> exists k: nat :: FirstUse(uses, k, d)
    decreases |uses|
  {
    if uses != [] {
      var front, use := uses[..|uses| - 1], uses[|uses| - 1];
      assert uses == front + [use];
      InferredLaw(front, d);
      FirstUseStays(front, use, d);
      NewDefinition(front, use);
      KnownIsDefined(Inferred(front), use, |Inferred(front)|);
    }
  }

  lemma {:induction false} FirstUseStays(front: seq<Use>, use: Use, d: Definition)
    ensures (exists k: nat :: FirstUse(front + [use], k, d)) <==>
            (exists k: nat :: FirstUse(front, k, d)) || FirstUse(front + [use], |front|, d)
  {
    var uses := front + [use];
    if k: nat :| FirstUse(uses, k, d) {
      assert forall j :: 0 <= j < |front| ==> uses[j] == front[j];
      if k < |front| {
        assert FirstUse(front, k, d);
      }
    }
    if k: nat :| FirstUse(front, k, d) {
      assert forall j :: 0 <= j < |front| ==> uses[j] == front[j];
      assert FirstUse(uses, k, d);
    }
  }

  /** The last use is the first of its parameter exactly if no definition gives it yet. */
  lemma {:induction false} NewDefinition(front: seq<Use>, use: Use)
    ensures FirstUse(front + [use], |front|, DefinitionOf(use)) <==>
            !exists i :: 0 <= i < |Inferred(front)| && Defines(Inferred(front)[i], use)
    ensures forall d :: FirstUse(front + [use], |front|, d) ==> d == DefinitionOf(use)
  {
    InferredDefinesAll(front);
    if FirstUse(front + [use], |front|, DefinitionOf(use)) {
      forall i | 0 <= i < |Inferred(front)|
        ensures !Defines(Inferred(front)[i], use)
      {
        NotDefinedBefore(front, use, i);
      }
    } else {
      DefinedBefore(front, use);
    }
  }

  lemma {:induction false} NotDefinedBefore(front: seq<Use>, use: Use, i: nat)
    requires FirstUse(front + [use], |front|, DefinitionOf(use)) && i < |Inferred(front)|
    requires forall d :: d in Inferred(front) ==> HasUse(front, d)
    ensures !Defines(Inferred(front)[i], use)
  {
    var d := Inferred(front)[i];
    assert d in Inferred(front);
    var u :| u in front && d == DefinitionOf(u);
    var j :| 0 <= j < |front| && front[j] == u;
    assert (front + [use])[j] == u && (front + [use])[|front|] == use;
  }

  lemma {:induction false} DefinedBefore(front: seq<Use>, use: Use)
    requires !FirstUse(front + [use], |front|, DefinitionOf(use))
    requires forall u :: u in front ==> IsDefined(Inferred(front), u)
    ensures exists i :: 0 <= i < |Inferred(front)| && Defines(Inferred(front)[i], use)
  {
    var uses, inferred := front + [use], Inferred(front);
    assert uses[|front|] == use;
    var j :| 0 <= j < |front| && uses[j].0.owner == use.0.owner && uses[j].1 == use.1
             && LowerName(uses[j].0.name) == LowerName(use.0.name);
    assert uses[j] == front[j] && front[j] in front && IsDefined(inferred, front[j]);
    var d :| d in inferred && Defines(d, front[j]);
    var i :| 0 <= i < |inferred| && inferred[i] == d;
    assert Defines(inferred[i], use);
  }

  /** The inferred parameters: the first use of each. */
  lemma {:induction false} DefinitionsLaw(file: File, delimiters: seq<char>, d: Definition)
    ensures d in LoweredDefinitions(file, delimiters) <==> exists k: nat :: FirstUse(Uses(file, delimiters), k, d)
  {
    InferredLaw(Uses(file, delimiters), d);
    SortMembers(DefinedEarlier, Inferred(Uses(file, delimiters)));
  }

  // ----- Searches -----

  /** The k-th reference holds the position, and all before it end by it. */
  predicate FirstPast(references: seq<Reference>, position: nat, k: nat) {
    && k < |references| && references[k].range.start <= position < references[k].range.end
    && forall j :: 0 <= j < k ==> references[j].range.end <= position
  }

  /** The search by position answers the first reference that does not end by it, if that one holds it. */
  lemma {:induction false} ReferenceAtLaw(references: seq<Reference>, position: nat)
    ensures match ReferenceAt(references, position)
            case Some(r) => exists k: nat :: FirstPast(references, position, k) && r == references[k]
            case None => forall k: nat :: !FirstPast(references, position, k)
  {
    var first := Prefix(references, EndsBy(position));
    forall k: nat | FirstPast(references, position, k)
      ensures k == first
    {
      NotPast(references, position, first, k);
    }
    if first < |references| {
      assert forall j :: 0 <= j < first ==> EndsBy(position)(references[j]);
    }
  }

  lemma {:induction false} NotPast(references: seq<Reference>, position: nat, first: nat, k: nat)
    requires first == Prefix(references, EndsBy(position)) && FirstPast(references, position, k)
    ensures first == k
  {
    assert !EndsBy(position)(references[k]);
    assert first < |references| ==> !EndsBy(position)(references[first]);
  }

  /** In a list in order the search by owner answers exactly the references of the owner, in order. */
  lemma {:induction false} OwnedLaw(references: seq<Reference>, owner: Range) returns (places: seq<nat>)
    requires InOrder(references)
    ensures Positions.Stand(references, (r: Reference) => r.owner == owner, ReferencesForOwner(references, owner), places)
  {
    var keep := (r: Reference) => r.owner == owner;
    OwnerSearchIsExact(references, owner);
    OwnedIsKept(references, owner, keep);
    places := Positions.KeptLaw(references, keep);
  }

  lemma {:induction false} OwnedIsKept(references: seq<Reference>, owner: Range, keep: Reference -> bool)
    requires forall r :: keep(r) <==> r.owner == owner
    ensures Parameters.OwnedBy(references, owner) == Positions.Kept(references, keep)
  {
    if references != [] {
      OwnedIsKept(references[1..], owner, keep);
    }
  }
}
