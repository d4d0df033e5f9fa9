/** Parameter occurrences of scripted definitions: found between delimiters, attributed to their definition,
    and kept in an order that a binary search can rely on; and the parameters inferred from them. Positions count
    UTF-8 bytes. */
module Parameters {
  import opened Options
  import opened Ranges
  import opened Ascii
  import opened CharSize
  import opened Sorting
  import opened Bisection

  predicate Overlap(a: Range, b: Range) {
    a.start < b.end && b.start < a.end
  }

  // ----- Delimited names -----

  /** A name between two delimiters, relative to its token. */
  datatype Occurrence = Occurrence(name: string, start: nat, nameStart: nat, nameEnd: nat, end: nat)

  /** The name between the delimiters at two places. */
  function Between(raw: string, opening: nat, at: nat): Occurrence
    requires opening < at < |raw|
  {
    Occurrence(raw[opening + 1..at], At(raw, opening), At(raw, opening + 1), At(raw, at), At(raw, at + 1))
  }

  function Delimited(raw: string, delimiter: char, at: nat, opening: Option<nat>): seq<Occurrence>
    requires at <= |raw| && (opening.Some? ==> opening.value < at)
    decreases |raw| - at
  {
    if at == |raw| then []
    else if raw[at] != delimiter then Delimited(raw, delimiter, at + 1, opening)
    else if opening.None? then Delimited(raw, delimiter, at + 1, Some(at))
    else if opening.value + 1 >= at then Delimited(raw, delimiter, at + 1, None)
    else [Between(raw, opening.value, at)] + Delimited(raw, delimiter, at + 1, None)
  }

  /** The name and both its delimiters are there. */
  predicate Ranged(o: Occurrence) {
    o.start < o.nameStart < o.nameEnd < o.end
  }

  predicate AllRanged(occurrences: seq<Occurrence>) {
    forall i :: 0 <= i < |occurrences| ==> Ranged(occurrences[i])
  }

  /** A delimited name: not empty, between two delimiters, with none inside. */
  ghost predicate Spans(raw: string, delimiter: char, o: Occurrence) {
    exists i: nat, j: nat :: SpansAt(raw, delimiter, o, i, j)
  }

  predicate SpansAt(raw: string, delimiter: char, o: Occurrence, i: nat, j: nat) {
    && i + 1 < j < |raw| && raw[i] == delimiter && raw[j] == delimiter
    && o == Between(raw, i, j) && delimiter !in o.name
  }

  ghost predicate AllSpan(raw: string, delimiter: char, occurrences: seq<Occurrence>) {
    forall i :: 0 <= i < |occurrences| ==> Spans(raw, delimiter, occurrences[i]) && occurrences[i].end <= Size(raw)
  }

  ghost predicate OccurrencesInOrder(occurrences: seq<Occurrence>, from: nat) {
    && (forall i :: 0 <= i < |occurrences| ==> from <= occurrences[i].start)
    && (forall i, j :: 0 <= i < j < |occurrences| ==> occurrences[i].end <= occurrences[j].start)
  }

  lemma BetweenIsRanged(raw: string, opening: nat, at: nat)
    requires opening + 1 < at < |raw|
    ensures Ranged(Between(raw, opening, at)) && Between(raw, opening, at).end <= Size(raw)
  {
    AtGrows(raw, opening, opening + 1);
    AtGrows(raw, opening + 1, at);
    AtGrows(raw, at, at + 1);
    AtGrows(raw, at + 1, |raw|);
    AtEnd(raw);
  }

  /** The scan yields disjoint delimited names in order. */
  lemma {:induction false} DelimitedInOrder(raw: string, delimiter: char, at: nat, opening: Option<nat>)
    requires at <= |raw| && (opening.Some? ==> opening.value < at && raw[opening.value] == delimiter
                                               && delimiter !in raw[opening.value + 1..at])
    ensures var found := Delimited(raw, delimiter, at, opening);
            && OccurrencesInOrder(found, At(raw, if opening.Some? then opening.value else at))
            && AllRanged(found) && AllSpan(raw, delimiter, found)
    decreases |raw| - at
  {
    if at < |raw| {
      AtGrows(raw, at, at + 1);
      if raw[at] != delimiter {
        if opening.Some? {
          assert raw[opening.value + 1..at + 1] == raw[opening.value + 1..at] + [raw[at]];
        }
        DelimitedInOrder(raw, delimiter, at + 1, opening);
      } else if opening.None? {
        DelimitedInOrder(raw, delimiter, at + 1, Some(at));
      } else {
        var others := Delimited(raw, delimiter, at + 1, None);
        DelimitedInOrder(raw, delimiter, at + 1, None);
        if opening.value + 1 >= at {
          AtGrows(raw, opening.value, at + 1);
        } else {
          NameInOrder(raw, delimiter, at, opening.value, Between(raw, opening.value, at), others, Delimited(raw, delimiter, at, opening));
        }
      }
    }
  }

  lemma DelimitedAreRanged(raw: string, delimiter: char)
    ensures AllRanged(Delimited(raw, delimiter, 0, None))
  {
    DelimitedInOrder(raw, delimiter, 0, None);
  }

  /** One more name in front. */
  lemma NameInOrder(raw: string, delimiter: char, at: nat, opening: nat, o: Occurrence, others: seq<Occurrence>,
                    found: seq<Occurrence>)
    requires opening + 1 < at < |raw| && SpansAt(raw, delimiter, o, opening, at) && found == [o] + others
    requires OccurrencesInOrder(others, At(raw, at + 1)) && AllRanged(others) && AllSpan(raw, delimiter, others)
    ensures OccurrencesInOrder(found, o.start) && AllRanged(found) && AllSpan(raw, delimiter, found)
  {
    BetweenIsRanged(raw, opening, at);
    OneMoreInOrder(raw, delimiter, o, others, found);
  }

  lemma OneMoreInOrder(raw: string, delimiter: char, o: Occurrence, others: seq<Occurrence>, all: seq<Occurrence>)
    requires Spans(raw, delimiter, o) && Ranged(o) && o.end <= Size(raw) && all == [o] + others
    requires OccurrencesInOrder(others, o.end) && AllRanged(others) && AllSpan(raw, delimiter, others)
    ensures OccurrencesInOrder(all, o.start) && AllRanged(all) && AllSpan(raw, delimiter, all)
  {
    assert forall i :: 0 < i < |all| ==> all[i] == others[i - 1];
  }

  /** Scans a token, keeping the byte position of the character at hand and of an open delimiter. */
  method DelimitedParameters(raw: string, delimiter: char) returns (found: seq<Occurrence>)
    ensures found == Delimited(raw, delimiter, 0, None)
  {
    found := [];
    var opening: Option<nat>, openedAt, offset := None, 0, 0;
    ghost var whole := Delimited(raw, delimiter, 0, None);
    for at := 0 to |raw|
      invariant opening.Some? ==> opening.value < at && raw[opening.value] == delimiter && openedAt == At(raw, opening.value)
      invariant offset == At(raw, at) && whole == found + Delimited(raw, delimiter, at, opening)
    {
      if raw[at] == delimiter {
        match opening {
          case Some(start) =>
            NameIsBetween(raw, delimiter, start, at);
            opening := None;
            if openedAt + Width(delimiter) < offset {
              found := found + [Occurrence(raw[start + 1..at], openedAt, openedAt + Width(delimiter), offset, offset + Width(delimiter))];
            }
          case None => opening, openedAt := Some(at), offset;
        }
      }
      offset := offset + Width(raw[at]);
    }
  }

  /** The byte test for an empty name is the test on characters. */
  lemma NameIsBetween(raw: string, delimiter: char, start: nat, at: nat)
    requires start < at < |raw| && raw[start] == delimiter == raw[at]
    ensures At(raw, start) + Width(delimiter) < At(raw, at) <==> start + 1 < at
    ensures Between(raw, start, at) == Occurrence(raw[start + 1..at], At(raw, start), At(raw, start) + Width(delimiter), At(raw, at),
                                                  At(raw, at) + Width(delimiter))
  {
    AtGrows(raw, start + 1, at);
  }

  // ----- References -----

  datatype TokenKind = Bare | Quoted | OtherToken

  datatype Token = Token(kind: TokenKind, range: Range, text: string)

  datatype Conditional = Conditional(name: string, range: Range, condition: Range, nameRange: Range)

  datatype Kind = OpaqueTextSubstitution | KeySubstitution | Substitution | ConditionalUse

  datatype Reference = Reference(name: string, range: Range, nameRange: Range, owner: Range, kind: Kind)

  datatype Item = Item(keyRange: Range, range: Range, topLevel: bool)

  /** A file: its tokens, properties, conditionals, and the ranges of its definitions when rules know them. */
  datatype File = File(tokens: seq<Token>, items: seq<Item>, conditionals: seq<Conditional>,
                       definitions: Option<seq<Range>>)

  /** The first shortest definition around an occurrence. */
  function Innermost(definitions: seq<Range>, occurrence: Range): (owner: Option<Range>)
    ensures owner.Some? ==> Within(occurrence, owner.value) && owner.value in definitions
  {
    if definitions == [] then None
    else
      var front, last := definitions[..|definitions| - 1], definitions[|definitions| - 1];
      var best := Innermost(front, occurrence);
      if Within(occurrence, last) && (best.None? || Length(last) < Length(best.value)) then Some(last) else best
  }

  /** The first top-level property around an occurrence. */
  function TopLevelOwner(items: seq<Item>, occurrence: Range): (owner: Option<Range>)
    ensures owner.Some? ==> Within(occurrence, owner.value)
  {
    if items == [] then None
    else if items[0].topLevel && Within(occurrence, items[0].range) then Some(items[0].range)
    else TopLevelOwner(items[1..], occurrence)
  }

  function Owner(file: File, occurrence: Range): (owner: Option<Range>)
    ensures owner.Some? ==> Within(occurrence, owner.value)
  {
    match file.definitions
    case Some(definitions) => Innermost(definitions, occurrence)
    case None => TopLevelOwner(file.items, occurrence)
  }

  function KindOf(file: File, occurrence: Range, token: TokenKind): Kind {
    if token.Quoted? then OpaqueTextSubstitution
    else if exists i :: 0 <= i < |file.items| && Within(occurrence, file.items[i].keyRange) then KeySubstitution
    else Substitution
  }

  predicate InCondition(file: File, range: Range) {
    exists i :: 0 <= i < |file.conditionals| && Overlap(range, file.conditionals[i].condition)
  }

  /** Where an occurrence stands in the file, and where its name. */
  function Place(token: Token, start: nat, end: nat): Range
    requires start <= end
  {
    Bounds(token.range.start + start, token.range.start + end)
  }

  /** The reference of an occurrence: none inside a condition head or outside all definitions. */
  function OccurrenceReference(file: File, token: Token, o: Occurrence): seq<Reference>
    requires Ranged(o)
  {
    var range := Place(token, o.start, o.end);
    var owner := Owner(file, range);
    if InCondition(file, range) || owner.None? then []
    else [Reference(o.name, range, Place(token, o.nameStart, o.nameEnd), owner.value, KindOf(file, range, token.kind))]
  }

  /** The references of the first occurrences in a token. */
  function TokenReferences(file: File, token: Token, occurrences: seq<Occurrence>, count: nat): seq<Reference>
    requires AllRanged(occurrences) && count <= |occurrences|
  {
    if count == 0 then []
    else TokenReferences(file, token, occurrences, count - 1) + OccurrenceReference(file, token, occurrences[count - 1])
  }

  /** The references of one token. */
  function ReferencesIn(file: File, delimiter: char, token: Token): seq<Reference> {
    if token.kind.OtherToken? then []
    else
      DelimitedAreRanged(token.text, delimiter);
      var occurrences := Delimited(token.text, delimiter, 0, None);
      TokenReferences(file, token, occurrences, |occurrences|)
  }

  function DelimitedReferences(file: File, delimiter: char, count: nat): seq<Reference>
    requires count <= |file.tokens|
  {
    if count == 0 then []
    else DelimitedReferences(file, delimiter, count - 1) + ReferencesIn(file, delimiter, file.tokens[count - 1])
  }

  function AllDelimited(file: File, delimiters: seq<char>): seq<Reference> {
    if delimiters == [] then []
    else
      AllDelimited(file, delimiters[..|delimiters| - 1])
      + DelimitedReferences(file, delimiters[|delimiters| - 1], |file.tokens|)
  }

  function ConditionalReferences(file: File, count: nat): seq<Reference>
    requires count <= |file.conditionals|
  {
    if count == 0 then []
    else
      var conditional := file.conditionals[count - 1];
      var owner := Owner(file, conditional.range);
      ConditionalReferences(file, count - 1)
      + if owner.None? then [] else [Reference(conditional.name, conditional.condition, conditional.nameRange, owner.value, ConditionalUse)]
  }

  predicate Earlier(a: Reference, b: Reference) {
    a.range.start < b.range.start
  }

  function Lowered(file: File, delimiters: seq<char>): seq<Reference> {
    Sort(Earlier, AllDelimited(file, delimiters) + ConditionalReferences(file, |file.conditionals|))
  }

  // ----- Disjointness -----

  /** Tokens are disjoint and in order, and condition heads are disjoint, not empty and inside their range. */
  ghost predicate Wellformed(file: File) {
    && (forall i :: 0 <= i < |file.tokens| ==> Size(file.tokens[i].text) == Length(file.tokens[i].range))
    && (forall i, j :: 0 <= i < j < |file.tokens| ==> file.tokens[i].range.end <= file.tokens[j].range.start)
    && (forall i :: 0 <= i < |file.conditionals| ==>
          var c := file.conditionals[i]; c.condition.start < c.condition.end && Within(c.condition, c.range))
    && (forall i, j :: 0 <= i < j < |file.conditionals| ==>
          !Overlap(file.conditionals[i].condition, file.conditionals[j].condition))
  }

  predicate Real(r: Reference) {
    r.range.start < r.range.end && Within(r.range, r.owner)
  }

  /** Not empty, in source order and disjoint, except that a reference may be repeated. */
  ghost predicate InOrder(references: seq<Reference>) {
    && (forall i :: 0 <= i < |references| ==> Real(references[i]))
    && (forall i, j :: 0 <= i < j < |references| ==>
          references[i] == references[j] || references[i].range.end <= references[j].range.start)
  }

  /** Not empty, and disjoint wherever they differ. */
  ghost predicate Disjoint(references: seq<Reference>) {
    && (forall r :: r in references ==> Real(r))
    && (forall r, q :: r in references && q in references ==> r == q || !Overlap(r.range, q.range))
  }

  lemma InOrderAppends(a: seq<Reference>, b: seq<Reference>, border: nat)
    requires InOrder(a) && InOrder(b)
    requires forall i :: 0 <= i < |a| ==> a[i].range.end <= border
    requires forall i :: 0 <= i < |b| ==> border <= b[i].range.start
    ensures InOrder(a + b)
  {
  }

  /** Delimited references of a stretch of the file, outside all condition heads. */
  ghost predicate Stretch(file: File, references: seq<Reference>, from: nat, to: nat) {
    && InOrder(references)
    && forall i :: 0 <= i < |references| ==>
         from <= references[i].range.start && references[i].range.end <= to && !InCondition(file, references[i].range)
  }

  lemma StretchAppends(file: File, a: seq<Reference>, b: seq<Reference>, from: nat, border: nat, end: nat, to: nat)
    requires Stretch(file, a, from, border) && Stretch(file, b, border, end) && from <= border && border <= to && end <= to
    ensures Stretch(file, a + b, from, to)
  {
    InOrderAppends(a, b, border);
  }

  /** Where the first occurrences end. */
  function LastEnd(occurrences: seq<Occurrence>, count: nat): nat
    requires count <= |occurrences|
  {
    if count == 0 then 0 else occurrences[count - 1].end
  }

  lemma {:induction false} TokenReferencesInOrder(file: File, token: Token, occurrences: seq<Occurrence>, count: nat)
    requires OccurrencesInOrder(occurrences, 0) && AllRanged(occurrences) && count <= |occurrences|
    ensures Stretch(file, TokenReferences(file, token, occurrences, count), token.range.start,
                    token.range.start + LastEnd(occurrences, count))
  {
    if count > 0 {
      var last, base, before := occurrences[count - 1], token.range.start, LastEnd(occurrences, count - 1);
      TokenReferencesInOrder(file, token, occurrences, count - 1);
      OccurrenceIsStretch(file, token, last);
      assert before <= last.start;
      StretchGrows(file, OccurrenceReference(file, token, last), base + last.start, base + before, base + last.end);
      StretchAppends(file, TokenReferences(file, token, occurrences, count - 1), OccurrenceReference(file, token, last), base,
                     base + before, base + last.end, base + last.end);
    }
  }

  lemma OccurrenceIsStretch(file: File, token: Token, o: Occurrence)
    requires Ranged(o)
    ensures Stretch(file, OccurrenceReference(file, token, o), token.range.start + o.start, token.range.start + o.end)
  {
  }

  lemma StretchGrows(file: File, references: seq<Reference>, from: nat, earlier: nat, to: nat)
    requires Stretch(file, references, from, to) && earlier <= from
    ensures Stretch(file, references, earlier, to)
  {
  }

  /** Where the first tokens end. */
  function TokensEnd(file: File, count: nat): nat
    requires count <= |file.tokens|
  {
    if count == 0 then 0 else file.tokens[count - 1].range.end
  }

  lemma {:induction false} DelimitedReferencesInOrder(file: File, delimiter: char, count: nat)
    requires Wellformed(file) && count <= |file.tokens|
    ensures Stretch(file, DelimitedReferences(file, delimiter, count), 0, TokensEnd(file, count))
  {
    if count > 0 {
      var token := file.tokens[count - 1];
      DelimitedReferencesInOrder(file, delimiter, count - 1);
      ReferencesInOrder(file, delimiter, token);
      assert TokensEnd(file, count - 1) <= token.range.start;
      StretchGrows(file, ReferencesIn(file, delimiter, token), token.range.start, TokensEnd(file, count - 1),
                   token.range.end);
      StretchAppends(file, DelimitedReferences(file, delimiter, count - 1), ReferencesIn(file, delimiter, token), 0,
                     TokensEnd(file, count - 1), token.range.end, token.range.end);
    }
  }

  lemma ReferencesInOrder(file: File, delimiter: char, token: Token)
    requires Size(token.text) == Length(token.range)
    ensures Stretch(file, ReferencesIn(file, delimiter, token), token.range.start, token.range.end)
  {
    DelimitedInOrder(token.text, delimiter, 0, None);
    var occurrences := Delimited(token.text, delimiter, 0, None);
    TokenReferencesInOrder(file, token, occurrences, |occurrences|);
    assert LastEnd(occurrences, |occurrences|) <= Size(token.text);
  }

  lemma {:induction false} ConditionalsAreDisjoint(file: File, count: nat)
    requires Wellformed(file) && count <= |file.conditionals|
    ensures forall r :: r in ConditionalReferences(file, count) ==> exists i: nat :: i < count && OfConditional(file, r, i)
  {
    if count > 0 {
      ConditionalsAreDisjoint(file, count - 1);
      forall r | r in ConditionalReferences(file, count)
        ensures exists i: nat :: i < count && OfConditional(file, r, i)
      {
        if r in ConditionalReferences(file, count - 1) {
          var i: nat :| i < count - 1 && OfConditional(file, r, i);
        } else {
          assert OfConditional(file, r, count - 1);
        }
      }
    }
  }

  /** The reference of one condition head. */
  predicate OfConditional(file: File, r: Reference, i: nat) {
    && i < |file.conditionals|
    && var c, owner := file.conditionals[i], Owner(file, file.conditionals[i].range);
       owner.Some? && r == Reference(c.name, c.condition, c.nameRange, owner.value, ConditionalUse)
  }

  /** Sorting disjoint references puts them in order. */
  lemma SortingOrders(references: seq<Reference>)
    requires Disjoint(references)
    ensures InOrder(Sort(Earlier, references))
  {
    var sorted := Sort(Earlier, references);
    SortKeeps(Earlier, references);
    SortMembers(Earlier, references);
    forall i, j | 0 <= i < j < |sorted|
      ensures sorted[i] == sorted[j] || sorted[i].range.end <= sorted[j].range.start
    {
      assert !Earlier(sorted[j], sorted[i]) && sorted[i] in sorted && sorted[j] in sorted;
    }
  }

  /** The profile's rules name one delimiter, as often as they like. */
  predicate OneDelimiter(delimiters: seq<char>) {
    forall i, j :: 0 <= i < |delimiters| && 0 <= j < |delimiters| ==> delimiters[i] == delimiters[j]
  }

  lemma {:induction false} RepeatedDelimiter(file: File, delimiters: seq<char>, delimiter: char)
    requires forall d :: d in delimiters ==> d == delimiter
    ensures forall r :: r in AllDelimited(file, delimiters) ==> r in DelimitedReferences(file, delimiter, |file.tokens|)
    decreases delimiters
  {
    if delimiters != [] {
      var front := delimiters[..|delimiters| - 1];
      assert forall d :: d in front ==> d in delimiters;
      assert delimiters[|delimiters| - 1] in delimiters;
      RepeatedDelimiter(file, front, delimiter);
    }
  }

  lemma ConditionalIsApart(file: File, r: Reference, q: Reference)
    requires Wellformed(file) && r in ConditionalReferences(file, |file.conditionals|)
    requires q in ConditionalReferences(file, |file.conditionals|) || !InCondition(file, q.range)
    ensures Real(r) && (r == q || !Overlap(r.range, q.range))
  {
    ConditionalsAreDisjoint(file, |file.conditionals|);
    var i: nat :| i < |file.conditionals| && OfConditional(file, r, i);
    if q in ConditionalReferences(file, |file.conditionals|) {
      var j: nat :| j < |file.conditionals| && OfConditional(file, q, j);
      assert i < j || j < i || r == q;
    }
  }

  lemma OccurrencesAreDisjoint(file: File, delimiters: seq<char>)
    requires Wellformed(file) && OneDelimiter(delimiters)
    ensures Disjoint(AllDelimited(file, delimiters) + ConditionalReferences(file, |file.conditionals|))
  {
    var delimiter := if delimiters == [] then ' ' else delimiters[0];
    var delimited, count := DelimitedReferences(file, delimiter, |file.tokens|), |file.conditionals|;
    var all := AllDelimited(file, delimiters) + ConditionalReferences(file, count);
    RepeatedDelimiter(file, delimiters, delimiter);
    DelimitedReferencesInOrder(file, delimiter, |file.tokens|);
    forall r, q | r in all && q in all
      ensures Real(r) && (r == q || !Overlap(r.range, q.range))
    {
      if r in ConditionalReferences(file, count) {
        ConditionalIsApart(file, r, q);
      } else if q in ConditionalReferences(file, count) {
        ConditionalIsApart(file, q, r);
      } else {
        OrderedAreApart(delimited, r, q);
      }
    }
  }

  lemma OrderedAreApart(references: seq<Reference>, r: Reference, q: Reference)
    requires InOrder(references) && r in references && q in references
    ensures Real(r) && Real(q) && (r == q || !Overlap(r.range, q.range))
  {
    var i :| 0 <= i < |references| && references[i] == r;
    var j :| 0 <= j < |references| && references[j] == q;
    assert i < j || j < i || r == q;
  }

  /** With one delimiter the references of every file are disjoint and in source order. */
  lemma LoweringIsOrdered(file: File, delimiters: seq<char>)
    requires Wellformed(file) && OneDelimiter(delimiters)
    ensures InOrder(Lowered(file, delimiters))
  {
    OccurrencesAreDisjoint(file, delimiters);
    SortingOrders(AllDelimited(file, delimiters) + ConditionalReferences(file, |file.conditionals|));
  }

  // ----- Inferred parameters -----

  /** A parameter of an owner, named by its first use. */
  datatype Definition = Definition(name: string, range: Range, nameRange: Range, owner: Range, delimiter: char)

  type Use = (Reference, char)

  /** The definition gives the parameter used: same owner, delimiter, and name up to ASCII case. */
  predicate Defines(d: Definition, use: Use) {
    d.owner == use.0.owner && d.delimiter == use.1 && LowerText(d.name) == LowerText(use.0.name)
  }

  function DefinitionOf(use: Use): Definition {
    Definition(use.0.name, use.0.range, use.0.nameRange, use.0.owner, use.1)
  }

  /** One of the first definitions gives the parameter used. */
  predicate Known(before: seq<Definition>, use: Use, count: nat)
    requires count <= |before|
  {
    count > 0 && (Defines(before[count - 1], use) || Known(before, use, count - 1))
  }

  lemma {:induction false} KnownIsDefined(before: seq<Definition>, use: Use, count: nat)
    requires count <= |before|
    ensures Known(before, use, count) <==> exists i :: 0 <= i < count && Defines(before[i], use)
  {
    if count > 0 {
      KnownIsDefined(before, use, count - 1);
    }
  }

  function Infer(before: seq<Definition>, use: Use): seq<Definition> {
    if Known(before, use, |before|) then before else before + [DefinitionOf(use)]
  }

  function Inferred(uses: seq<Use>): seq<Definition> {
    if uses == [] then [] else Infer(Inferred(uses[..|uses| - 1]), uses[|uses| - 1])
  }

  function Tagged(references: seq<Reference>, delimiter: char): seq<Use> {
    seq(|references|, i requires 0 <= i < |references| => (references[i], delimiter))
  }

  function DelimitedUses(file: File, delimiters: seq<char>): seq<Use> {
    if delimiters == [] then []
    else
      var last := |delimiters| - 1;
      DelimitedUses(file, delimiters[..last])
      + Tagged(DelimitedReferences(file, delimiters[last], |file.tokens|), delimiters[last])
  }

  /** The delimiter that names in condition heads are taken to have. */
  function Usual(delimiters: seq<char>): char {
    if delimiters == [] then '$' else delimiters[0]
  }

  /** Every use of a parameter in the order the uses are met. */
  function Uses(file: File, delimiters: seq<char>): seq<Use> {
    DelimitedUses(file, delimiters) + Tagged(ConditionalReferences(file, |file.conditionals|), Usual(delimiters))
  }

  predicate DefinedEarlier(a: Definition, b: Definition) {
    a.range.start < b.range.start
  }

  function LoweredDefinitions(file: File, delimiters: seq<char>): seq<Definition> {
    Sort(DefinedEarlier, Inferred(Uses(file, delimiters)))
  }

  /** Some definition gives the parameter used. */
  ghost predicate IsDefined(definitions: seq<Definition>, use: Use) {
    exists d :: d in definitions && Defines(d, use)
  }

  /** The definition was inferred from one of the uses. */
  ghost predicate HasUse(uses: seq<Use>, d: Definition) {
    exists use :: use in uses && d == DefinitionOf(use)
  }

  predicate SameParameter(a: Definition, b: Definition) {
    a.owner == b.owner && a.delimiter == b.delimiter && LowerText(a.name) == LowerText(b.name)
  }

  ghost predicate AllDefined(definitions: seq<Definition>, uses: seq<Use>) {
    forall use :: use in uses ==> IsDefined(definitions, use)
  }

  ghost predicate AllUsed(definitions: seq<Definition>, uses: seq<Use>) {
    forall d :: d in definitions ==> HasUse(uses, d)
  }

  /** No parameter is defined twice. */
  ghost predicate Once(definitions: seq<Definition>) {
    && (forall d :: multiset(definitions)[d] <= 1)
    && (forall a, b :: a in definitions && b in definitions && SameParameter(a, b) ==> a == b)
  }

  /** Each use has its definition, each definition a use, and no parameter is defined twice. */
  ghost predicate DefinesAll(definitions: seq<Definition>, uses: seq<Use>) {
    AllDefined(definitions, uses) && AllUsed(definitions, uses) && Once(definitions)
  }

  lemma {:induction false} InferredDefinesAll(uses: seq<Use>)
    ensures DefinesAll(Inferred(uses), uses)
    decreases |uses|
  {
    if uses != [] {
      var front, use := uses[..|uses| - 1], uses[|uses| - 1];
      InferredDefinesAll(front);
      assert uses == front + [use];
      InferDefinesAll(Inferred(front), front, use);
    }
  }

  lemma InferDefinesAll(before: seq<Definition>, uses: seq<Use>, use: Use)
    requires DefinesAll(before, uses)
    ensures DefinesAll(Infer(before, use), uses + [use])
  {
    forall u | u in uses + [use]
      ensures IsDefined(Infer(before, use), u)
    {
      UseStaysDefined(before, uses, use, u);
    }
    InferKeepsUses(before, uses, use);
    InferKeepsOnce(before, use);
  }

  lemma InferKeepsUses(before: seq<Definition>, uses: seq<Use>, use: Use)
    requires AllUsed(before, uses)
    ensures AllUsed(Infer(before, use), uses + [use])
  {
    forall d | d in Infer(before, use)
      ensures HasUse(uses + [use], d)
    {
      if d in before {
        var u :| u in uses && d == DefinitionOf(u);
        assert u in uses + [use];
      } else {
        assert use in uses + [use];
      }
    }
  }

  lemma InferKeepsOnce(before: seq<Definition>, use: Use)
    requires Once(before)
    ensures Once(Infer(before, use))
  {
    var after := Infer(before, use);
    if after != before {
      forall a, b | a in after && b in after && SameParameter(a, b)
        ensures a == b
      {
        if a != b {
          NewIsApart(before, use, if a in before then a else b);
        }
      }
      if DefinitionOf(use) in before {
        NewIsApart(before, use, DefinitionOf(use));
      }
    }
  }

  lemma UseStaysDefined(before: seq<Definition>, uses: seq<Use>, use: Use, u: Use)
    requires AllDefined(before, uses) && u in uses + [use]
    ensures IsDefined(Infer(before, use), u)
  {
    if u in uses {
      var d :| d in before && Defines(d, u);
      assert d in Infer(before, use);
    } else if Infer(before, use) == before {
      KnownIsDefined(before, use, |before|);
      var i :| 0 <= i < |before| && Defines(before[i], use);
      assert before[i] in before;
    } else {
      assert DefinitionOf(use) in Infer(before, use) && Defines(DefinitionOf(use), use);
    }
  }

  /** A definition that is added is none of the parameters defined already. */
  lemma NewIsApart(before: seq<Definition>, use: Use, d: Definition)
    requires d in before && Infer(before, use) != before
    ensures !SameParameter(d, DefinitionOf(use)) && !SameParameter(DefinitionOf(use), d)
  {
    var i :| 0 <= i < |before| && before[i] == d;
    KnownIsDefined(before, use, |before|);
    assert !Defines(before[i], use);
  }

  /** What lowering infers: every reference has exactly one definition of its owner, delimiter and name, every
      definition comes from a reference, and they are in source order. */
  lemma EachUseIsDefinedOnce(file: File, delimiters: seq<char>)
    ensures DefinesAll(LoweredDefinitions(file, delimiters), Uses(file, delimiters))
    ensures Ordered(DefinedEarlier, LoweredDefinitions(file, delimiters))
  {
    var inferred := Inferred(Uses(file, delimiters));
    InferredDefinesAll(Uses(file, delimiters));
    SortKeeps(DefinedEarlier, inferred);
    SortMembers(DefinedEarlier, inferred);
    SameDefinitions(inferred, Sort(DefinedEarlier, inferred), Uses(file, delimiters));
  }

  lemma SameDefinitions(a: seq<Definition>, b: seq<Definition>, uses: seq<Use>)
    requires DefinesAll(a, uses) && multiset(a) == multiset(b) && forall d :: d in b <==> d in a
    ensures DefinesAll(b, uses)
  {
    forall use | use in uses
      ensures IsDefined(b, use)
    {
      DefinedAmong(a, b, use);
    }
    UsedAmong(a, b, uses);
    OnceAmong(a, b);
  }

  lemma DefinedAmong(a: seq<Definition>, b: seq<Definition>, use: Use)
    requires IsDefined(a, use) && forall d :: d in b <==> d in a
    ensures IsDefined(b, use)
  {
    var d :| d in a && Defines(d, use);
    assert d in b;
  }

  lemma UsedAmong(a: seq<Definition>, b: seq<Definition>, uses: seq<Use>)
    requires AllUsed(a, uses) && forall d :: d in b <==> d in a
    ensures AllUsed(b, uses)
  {
  }

  lemma OnceAmong(a: seq<Definition>, b: seq<Definition>)
    requires Once(a) && multiset(a) == multiset(b) && forall d :: d in b <==> d in a
    ensures Once(b)
  {
  }

  // ----- The lowering loops -----

  /** References met after others. */
  lemma TaggedAppends(uses: seq<Use>, a: seq<Reference>, b: seq<Reference>, delimiter: char)
    ensures uses + Tagged(a + b, delimiter) == (uses + Tagged(a, delimiter)) + Tagged(b, delimiter)
  {
    assert Tagged(a + b, delimiter) == Tagged(a, delimiter) + Tagged(b, delimiter);
  }

  method InferDefinition(before: seq<Definition>, ghost uses: seq<Use>, r: Reference, delimiter: char)
    returns (definitions: seq<Definition>)
    requires before == Inferred(uses)
    ensures definitions == Inferred(uses + Tagged([r], delimiter))
  {
    assert uses + Tagged([r], delimiter) == uses + [(r, delimiter)];
    assert (uses + [(r, delimiter)])[..|uses|] == uses;
    definitions := before;
    for i := 0 to |before|
      invariant forall k :: 0 <= k < i ==> !Defines(before[k], (r, delimiter))
    {
      if Defines(before[i], (r, delimiter)) {
        KnownIsDefined(before, (r, delimiter), |before|);
        return;
      }
    }
    KnownIsDefined(before, (r, delimiter), |before|);
    definitions := definitions + [Definition(r.name, r.range, r.nameRange, r.owner, delimiter)];
  }

  method LowerOccurrence(file: File, delimiter: char, token: Token, o: Occurrence, before: seq<Definition>, ghost uses: seq<Use>)
    returns (references: seq<Reference>, definitions: seq<Definition>)
    requires Ranged(o) && before == Inferred(uses)
    ensures references == OccurrenceReference(file, token, o)
    ensures definitions == Inferred(uses + Tagged(references, delimiter))
  {
    references, definitions := [], before;
    assert uses + Tagged([], delimiter) == uses;
    var range := Place(token, o.start, o.end);
    if InCondition(file, range) {
      return;
    }
    var owner := Owner(file, range);
    if owner.Some? {
      var r := Reference(o.name, range, Place(token, o.nameStart, o.nameEnd), owner.value, KindOf(file, range, token.kind));
      references := [r];
      definitions := InferDefinition(before, uses, r, delimiter);
    }
  }

  method LowerToken(file: File, delimiter: char, token: Token, before: seq<Definition>, ghost uses: seq<Use>)
    returns (references: seq<Reference>, definitions: seq<Definition>)
    requires before == Inferred(uses)
    ensures references == ReferencesIn(file, delimiter, token)
    ensures definitions == Inferred(uses + Tagged(references, delimiter))
  {
    references, definitions := [], before;
    ghost var met := uses;
    assert uses + Tagged([], delimiter) == uses;
    if token.kind.OtherToken? {
      return;
    }
    DelimitedAreRanged(token.text, delimiter);
    var occurrences := DelimitedParameters(token.text, delimiter);
    for i := 0 to |occurrences|
      invariant references == TokenReferences(file, token, occurrences, i)
      invariant met == uses + Tagged(references, delimiter) && definitions == Inferred(met)
    {
      var more;
      more, definitions := LowerOccurrence(file, delimiter, token, occurrences[i], definitions, met);
      TaggedAppends(uses, references, more, delimiter);
      met, references := met + Tagged(more, delimiter), references + more;
    }
  }

  lemma TokensNext(file: File, delimiter: char, i: nat, references: seq<Reference>, more: seq<Reference>)
    requires i < |file.tokens| && references == DelimitedReferences(file, delimiter, i)
    requires more == ReferencesIn(file, delimiter, file.tokens[i])
    ensures references + more == DelimitedReferences(file, delimiter, i + 1)
  {
  }

  method LowerTokens(file: File, delimiter: char, before: seq<Definition>, ghost uses: seq<Use>)
    returns (references: seq<Reference>, definitions: seq<Definition>)
    requires before == Inferred(uses)
    ensures references == DelimitedReferences(file, delimiter, |file.tokens|)
    ensures definitions == Inferred(uses + Tagged(references, delimiter))
  {
    references, definitions := [], before;
    ghost var met := uses;
    assert uses + Tagged([], delimiter) == uses;
    for i := 0 to |file.tokens|
      invariant references == DelimitedReferences(file, delimiter, i)
      invariant met == uses + Tagged(references, delimiter) && definitions == Inferred(met)
    {
      var more;
      more, definitions := LowerToken(file, delimiter, file.tokens[i], definitions, met);
      TaggedAppends(uses, references, more, delimiter);
      TokensNext(file, delimiter, i, references, more);
      met, references := met + Tagged(more, delimiter), references + more;
    }
  }

  method LowerConditionals(file: File, delimiter: char, before: seq<Definition>, ghost uses: seq<Use>)
    returns (references: seq<Reference>, definitions: seq<Definition>)
    requires before == Inferred(uses)
    ensures references == ConditionalReferences(file, |file.conditionals|)
    ensures definitions == Inferred(uses + Tagged(references, delimiter))
  {
    references, definitions := [], before;
    ghost var met := uses;
    assert uses + Tagged([], delimiter) == uses;
    for i := 0 to |file.conditionals|
      invariant references == ConditionalReferences(file, i)
      invariant met == uses + Tagged(references, delimiter) && definitions == Inferred(met)
    {
      var conditional := file.conditionals[i];
      var owner := Owner(file, conditional.range);
      if owner.Some? {
        var r := Reference(conditional.name, conditional.condition, conditional.nameRange, owner.value, ConditionalUse);
        definitions := InferDefinition(definitions, met, r, delimiter);
        TaggedAppends(uses, references, [r], delimiter);
        met, references := met + Tagged([r], delimiter), references + [r];
      }
    }
  }

  lemma DelimitedNext(file: File, delimiters: seq<char>, i: nat)
    requires i < |delimiters|
    ensures var found := DelimitedReferences(file, delimiters[i], |file.tokens|);
            && AllDelimited(file, delimiters[..i + 1]) == AllDelimited(file, delimiters[..i]) + found
            && DelimitedUses(file, delimiters[..i + 1]) == DelimitedUses(file, delimiters[..i]) + Tagged(found, delimiters[i])
  {
    assert delimiters[..i + 1][..i] == delimiters[..i];
  }

  /** Delimited names by delimiter and token, then condition heads, then sorted by start; and the parameters
      inferred from them on the way. */
  method LowerParameters(file: File, delimiters: seq<char>) returns (definitions: seq<Definition>, references: seq<Reference>)
    ensures references == Lowered(file, delimiters) && definitions == LoweredDefinitions(file, delimiters)
    ensures Wellformed(file) && OneDelimiter(delimiters) ==> InOrder(references)
    ensures DefinesAll(definitions, Uses(file, delimiters))
  {
    references, definitions := [], [];
    for i := 0 to |delimiters|
      invariant references == AllDelimited(file, delimiters[..i])
      invariant definitions == Inferred(DelimitedUses(file, delimiters[..i]))
    {
      DelimitedNext(file, delimiters, i);
      var more;
      more, definitions := LowerTokens(file, delimiters[i], definitions, DelimitedUses(file, delimiters[..i]));
      references := references + more;
    }
    assert delimiters[..|delimiters|] == delimiters;
    var conditions;
    conditions, definitions := LowerConditionals(file, Usual(delimiters), definitions, DelimitedUses(file, delimiters));
    references := references + conditions;
    definitions, references := Sort(DefinedEarlier, definitions), Sort(Earlier, references);
    EachUseIsDefinedOnce(file, delimiters);
    OneDelimiterIsOrdered(file, delimiters);
  }

  lemma OneDelimiterIsOrdered(file: File, delimiters: seq<char>)
    ensures Wellformed(file) && OneDelimiter(delimiters) ==> InOrder(Lowered(file, delimiters))
  {
    if Wellformed(file) && OneDelimiter(delimiters) {
      LoweringIsOrdered(file, delimiters);
    }
  }

  // ----- Searching -----

  function EndsBy(position: nat): Reference -> bool {
    (r: Reference) => r.range.end <= position
  }

  function StartsBefore(position: nat): Reference -> bool {
    (r: Reference) => r.range.start < position
  }

  /** Order is what a binary search needs. */
  lemma OrderIsPartitioned(references: seq<Reference>, position: nat)
    requires InOrder(references)
    ensures Partitioned(references, EndsBy(position)) && Partitioned(references, StartsBefore(position))
  {
  }

  predicate Contains(r: Reference, position: nat) {
    r.range.start <= position < r.range.end
  }

  function ReferenceAt(references: seq<Reference>, position: nat): Option<Reference> {
    var first := Prefix(references, EndsBy(position));
    if first < |references| && Contains(references[first], position) then Some(references[first]) else None
  }

  method FindReference(references: seq<Reference>, position: nat) returns (found: Option<Reference>)
    requires Partitioned(references, EndsBy(position))
    ensures found == ReferenceAt(references, position)
    ensures InOrder(references) ==> Finds(references, position, found)
  {
    var first := PartitionPoint(references, EndsBy(position));
    found := None;
    if first < |references| && Contains(references[first], position) {
      found := Some(references[first]);
    }
    if InOrder(references) {
      SearchIsExact(references, position);
    }
  }

  /** The answer is the reference that contains the position, if there is one. */
  predicate Finds(references: seq<Reference>, position: nat, found: Option<Reference>) {
    && (forall r :: r in references && Contains(r, position) ==> found == Some(r))
    && (found.Some? ==> found.value in references && Contains(found.value, position))
  }

  lemma SearchIsExact(references: seq<Reference>, position: nat)
    requires InOrder(references)
    ensures Finds(references, position, ReferenceAt(references, position))
  {
    OrderIsPartitioned(references, position);
    var first := Prefix(references, EndsBy(position));
    forall r | r in references && Contains(r, position)
      ensures ReferenceAt(references, position) == Some(r)
    {
      var k :| 0 <= k < |references| && references[k] == r;
      assert !EndsBy(position)(references[k]);
      assert first <= k;
    }
  }

  /** The references of a file are in the order that a binary search needs, and it answers right. */
  ghost predicate Searches(file: File, delimiters: seq<char>, position: nat) {
    var references := Lowered(file, delimiters);
    Wellformed(file) ==>
      Partitioned(references, EndsBy(position)) && Finds(references, position, ReferenceAt(references, position))
  }

  /** The search is exact on every file and at every position if, and only if, all delimiters are the same. */
  lemma LoweredSearchIsExact(delimiters: seq<char>)
    ensures (forall file: File, position: nat :: Searches(file, delimiters, position)) <==> OneDelimiter(delimiters)
  {
    if OneDelimiter(delimiters) {
      forall file: File, position: nat
        ensures Searches(file, delimiters, position)
      {
        if Wellformed(file) {
          LoweringIsOrdered(file, delimiters);
          OrderIsPartitioned(Lowered(file, delimiters), position);
          SearchIsExact(Lowered(file, delimiters), position);
        }
      }
    } else {
      var i, j :| 0 <= i < |delimiters| && 0 <= j < |delimiters| && delimiters[i] != delimiters[j];
      var file, position := TwoDelimitersCross(delimiters, delimiters[i], delimiters[j]);
      assert !Searches(file, delimiters, position);
    }
  }

  /** From the partition point on, while references start in the owner, those of the owner. */
  function OwnedFrom(references: seq<Reference>, owner: Range): seq<Reference> {
    if references == [] || references[0].range.start >= owner.end then []
    else (if references[0].owner == owner then [references[0]] else []) + OwnedFrom(references[1..], owner)
  }

  function ReferencesForOwner(references: seq<Reference>, owner: Range): seq<Reference> {
    OwnedFrom(references[Prefix(references, StartsBefore(owner.start))..], owner)
  }

  function OwnedBy(references: seq<Reference>, owner: Range): seq<Reference> {
    if references == [] then []
    else (if references[0].owner == owner then [references[0]] else []) + OwnedBy(references[1..], owner)
  }

  lemma {:induction false} BehindOwnerNone(references: seq<Reference>, owner: Range)
    requires InOrder(references) && (references != [] ==> references[0].range.start >= owner.end)
    ensures OwnedBy(references, owner) == []
  {
    if references != [] {
      BehindOwnerNone(references[1..], owner);
    }
  }

  lemma {:induction false} OwnedFromIsAll(references: seq<Reference>, owner: Range)
    requires InOrder(references)
    ensures OwnedFrom(references, owner) == OwnedBy(references, owner)
  {
    if references != [] {
      if references[0].range.start >= owner.end {
        BehindOwnerNone(references, owner);
      } else {
        OwnedFromIsAll(references[1..], owner);
      }
    }
  }

  /** The owner's references are found by their range alone: none lies outside the searched stretch. */
  lemma {:induction false} OwnerSearchIsExact(references: seq<Reference>, owner: Range)
    requires InOrder(references)
    ensures ReferencesForOwner(references, owner) == OwnedBy(references, owner)
  {
    if references == [] || references[0].range.start >= owner.start {
      assert references[0..] == references;
      OwnedFromIsAll(references, owner);
    } else {
      OwnerSearchIsExact(references[1..], owner);
      var count := Prefix(references[1..], StartsBefore(owner.start));
      assert references[count + 1..] == references[1..][count..];
      assert Real(references[0]);
    }
  }

  lemma OrderedOwnerSearch(references: seq<Reference>, owner: Range)
    ensures InOrder(references) ==> ReferencesForOwner(references, owner) == OwnedBy(references, owner)
  {
    if InOrder(references) {
      OwnerSearchIsExact(references, owner);
    }
  }

  method FindForOwner(references: seq<Reference>, owner: Range) returns (found: seq<Reference>)
    requires Partitioned(references, StartsBefore(owner.start))
    ensures found == ReferencesForOwner(references, owner)
    ensures InOrder(references) ==> found == OwnedBy(references, owner)
  {
    var first := PartitionPoint(references, StartsBefore(owner.start));
    ghost var all := OwnedFrom(references[first..], owner);
    found := [];
    var k := first;
    while k < |references| && references[k].range.start < owner.end
      invariant first <= k <= |references|
      invariant found + OwnedFrom(references[k..], owner) == all
    {
      ghost var before := found;
      if references[k].owner == owner {
        found := found + [references[k]];
      }
      OwnedNext(references, owner, k, before, found, all);
      k := k + 1;
    }
    OwnedEnds(references, owner, k);
    OrderedOwnerSearch(references, owner);
  }

  lemma OwnedEnds(references: seq<Reference>, owner: Range, k: nat)
    requires k <= |references| && (k < |references| ==> references[k].range.start >= owner.end)
    ensures OwnedFrom(references[k..], owner) == []
  {
  }

  lemma OwnedNext(references: seq<Reference>, owner: Range, k: nat, before: seq<Reference>, found: seq<Reference>,
                  all: seq<Reference>)
    requires k < |references| && references[k].range.start < owner.end
    requires found == if references[k].owner == owner then before + [references[k]] else before
    requires before + OwnedFrom(references[k..], owner) == all
    ensures found + OwnedFrom(references[k + 1..], owner) == all
  {
    assert references[k..][0] == references[k] && references[k..][1..] == references[k + 1..];
    var others := OwnedFrom(references[k + 1..], owner);
    assert (before + [references[k]]) + others == before + ([references[k]] + others);
  }

  // ----- Two delimiters -----

  function Crossed(a: char, b: char, x: char): string {
    [a, x, b, x, a, x, b]
  }

  /** One token in which a name between `a`s crosses a name between `b`s. */
  function Crossing(a: char, b: char, x: char): File {
    var whole := Bounds(0, Size(Crossed(a, b, x)));
    File([Token(Bare, whole, Crossed(a, b, x))], [Item(Bounds(0, 0), whole, true)], [], None)
  }

  function CrossingReference(a: char, b: char, x: char, o: Occurrence): Reference
    requires Ranged(o)
  {
    var file, range := Crossing(a, b, x), Place(Crossing(a, b, x).tokens[0], o.start, o.end);
    Reference(o.name, range, Place(file.tokens[0], o.nameStart, o.nameEnd), file.tokens[0].range, KindOf(file, range, Bare))
  }

  /** With two different delimiters two names can cross, so no answer is the one reference at a position. */
  lemma TwoDelimitersCross(delimiters: seq<char>, a: char, b: char) returns (file: File, position: nat)
    requires a in delimiters && b in delimiters && a != b
    ensures Wellformed(file) && forall found :: !Finds(Lowered(file, delimiters), position, found)
  {
    var x := if 'x' != a && 'x' != b then 'x' else if 'y' != a && 'y' != b then 'y' else 'z';
    file, position := Crossing(a, b, x), At(Crossed(a, b, x), 2);
    CrossingIsWellformed(a, b, x);
    NamesCross(a, b, x);
    var first := CrossingName(delimiters, a, b, x, a, 0, 4);
    var second := CrossingName(delimiters, a, b, x, b, 2, 6);
    PlacesCross(Crossed(a, b, x));
    NoAnswer(Lowered(file, delimiters), position, first, second);
  }

  lemma CrossingIsWellformed(a: char, b: char, x: char)
    ensures Wellformed(Crossing(a, b, x))
  {
  }

  lemma PlacesCross(raw: string)
    requires |raw| == 7
    ensures At(raw, 0) < At(raw, 2) < At(raw, 5) && At(raw, 2) < At(raw, 7)
  {
    AtGrows(raw, 0, 2);
    AtGrows(raw, 2, 5);
    AtGrows(raw, 2, 7);
  }

  lemma CrossingName(delimiters: seq<char>, a: char, b: char, x: char, delimiter: char, opening: nat, at: nat) returns (r: Reference)
    requires delimiter in delimiters && opening + 1 < at < 7
    requires Delimited(Crossed(a, b, x), delimiter, 0, None) == [Between(Crossed(a, b, x), opening, at)]
    ensures r in Lowered(Crossing(a, b, x), delimiters)
    ensures r.range == Bounds(At(Crossed(a, b, x), opening), At(Crossed(a, b, x), at + 1))
  {
    var o := Between(Crossed(a, b, x), opening, at);
    BetweenIsRanged(Crossed(a, b, x), opening, at);
    r := CrossingReference(a, b, x, o);
    OneName(a, b, x, delimiter, o, r);
    LoweredContains(Crossing(a, b, x), delimiters, delimiter, r);
  }

  lemma NoAnswer(references: seq<Reference>, position: nat, first: Reference, second: Reference)
    requires first in references && second in references && first != second
    requires Contains(first, position) && Contains(second, position)
    ensures forall found :: !Finds(references, position, found)
  {
  }

  lemma LoweredContains(file: File, delimiters: seq<char>, delimiter: char, r: Reference)
    requires delimiter in delimiters && r in DelimitedReferences(file, delimiter, |file.tokens|)
    ensures r in Lowered(file, delimiters)
  {
    AllContains(file, delimiters, delimiter, r);
    SortMembers(Earlier, AllDelimited(file, delimiters) + ConditionalReferences(file, |file.conditionals|));
  }

  lemma {:induction false} AllContains(file: File, delimiters: seq<char>, delimiter: char, r: Reference)
    requires delimiter in delimiters && r in DelimitedReferences(file, delimiter, |file.tokens|)
    ensures r in AllDelimited(file, delimiters)
    decreases delimiters
  {
    var front := delimiters[..|delimiters| - 1];
    if delimiters[|delimiters| - 1] != delimiter {
      assert delimiter in front;
      AllContains(file, front, delimiter, r);
    }
  }

  lemma OneName(a: char, b: char, x: char, delimiter: char, occurrence: Occurrence, r: Reference)
    requires Delimited(Crossed(a, b, x), delimiter, 0, None) == [occurrence]
    requires Ranged(occurrence) && occurrence.end <= Size(Crossed(a, b, x)) && r == CrossingReference(a, b, x, occurrence)
    ensures DelimitedReferences(Crossing(a, b, x), delimiter, 1) == [r]
  {
    var file := Crossing(a, b, x);
    var token := file.tokens[0];
    assert OccurrenceReference(file, token, occurrence) == [r] by {
      assert Owner(file, r.range) == Some(token.range);
    }
    assert TokenReferences(file, token, [occurrence], 0) == [];
    assert TokenReferences(file, token, [occurrence], 1) == [r];
    assert DelimitedReferences(file, delimiter, 0) == [];
  }

  lemma NamesCross(a: char, b: char, x: char)
    requires a != b && a != x && b != x
    ensures Delimited(Crossed(a, b, x), a, 0, None) == [Between(Crossed(a, b, x), 0, 4)]
    ensures Delimited(Crossed(a, b, x), b, 0, None) == [Between(Crossed(a, b, x), 2, 6)]
  {
    var raw := Crossed(a, b, x);
    var first, second := Between(raw, 0, 4), Between(raw, 2, 6);
    assert Delimited(raw, a, 7, None) == [];
    assert Delimited(raw, a, 6, None) == [];
    assert Delimited(raw, a, 5, None) == [];
    assert Delimited(raw, a, 4, Some(0)) == [first];
    assert Delimited(raw, a, 2, Some(0)) == [first];
    assert Delimited(raw, b, 7, None) == [];
    assert Delimited(raw, b, 6, Some(2)) == [second];
    assert Delimited(raw, b, 4, Some(2)) == [second];
    assert Delimited(raw, b, 2, None) == [second];
  }
}
