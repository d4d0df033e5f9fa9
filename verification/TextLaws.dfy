/** What the rendered text of a template is, form by form, in terms of what a call binds: what a use of a parameter
    writes, when a guard contributes, and which pieces the text is made of. */
module TextLaws {
  import opened Options
  import opened CharSize
  import opened TemplateText

  // ----- Uses of parameters -----

  /** Names are compared up to ASCII case. */
  function Fold(name: string): string {
    seq(|name|, i requires 0 <= i < |name| => FoldChar(name[i]))
  }

  lemma {:induction false} FoldIsLower(name: string)
    ensures Ascii.LowerText(name) == Fold(name)
  {
  }

  predicate SameLetter(a: char, b: char) {
    a == b || ('A' <= a <= 'Z' && a as int + 32 == b as int) || ('A' <= b <= 'Z' && b as int + 32 == a as int)
  }

  function FoldChar(c: char): char {
    if 'A' <= c <= 'Z' then (c as int + 32) as char else c
  }

  lemma {:induction false} FoldCharLaw(a: char, b: char)
    ensures FoldChar(a) == FoldChar(b) <==> SameLetter(a, b)
  {
    assert FoldChar(a) as int == if 'A' <= a <= 'Z' then a as int + 32 else a as int;
    assert FoldChar(b) as int == if 'A' <= b <= 'Z' then b as int + 32 else b as int;
  }

  /** Two names fold alike exactly if they differ in the case of ASCII letters only. */
  lemma {:induction false} FoldLaw(a: string, b: string)
    ensures Fold(a) == Fold(b) <==> |a| == |b| && forall i :: 0 <= i < |a| ==> SameLetter(a[i], b[i])
  {
    forall i | 0 <= i < |a| && |a| == |b|
      ensures Fold(a)[i] == Fold(b)[i] <==> SameLetter(a[i], b[i])
    {
      FoldCharLaw(a[i], b[i]);
      assert Fold(a)[i] == FoldChar(a[i]) && Fold(b)[i] == FoldChar(b[i]);
    }
    if Fold(a) == Fold(b) {
      assert |Fold(a)| == |a| && |Fold(b)| == |b|;
    }
  }

  /** What a use of a name writes: nothing bound leaves a hole; in a quotation a quoted raw argument is written
      without its quotes; where a raw scalar is used the raw argument is written; and otherwise the bound value. */
  function UseText(views: Views, name: string, at: nat, quoted: bool): string {
    var key := Fold(name);
    if key !in views.bindings then "__pdc_hole_" + key
    else if quoted then
      if key in views.raw && |views.raw[key]| > 1 && views.raw[key][0] == '"' && views.raw[key][|views.raw[key]| - 1] == '"'
      then views.raw[key][1..|views.raw[key]| - 1] else views.bindings[key]
    else if key in views.raw && Place(views, at) in views.rawScalarUses then views.raw[key]
    else views.bindings[key]
  }

  /** In a quotation, a raw argument that is itself quoted is written without its quotes. */
  lemma {:induction false} QuotedUseLaw(views: Views, name: string, at: nat, inner: string)
    requires Fold(name) in views.bindings && Fold(name) in views.raw && views.raw[Fold(name)] == "\"" + inner + "\""
    ensures UseText(views, name, at, true) == inner
  {
    var raw := views.raw[Fold(name)];
    assert raw[1..|raw| - 1] == inner;
  }

  /** The atom of a use: its text, its range, the guards around it and its own name as what it depends on. */
  function Use(views: Views, name: string, at: nat, deps: set<string>, quoted: bool): Atom {
    Atom(UseText(views, name, at, quoted), at, at + |name| + 2, deps + {Fold(name)}, Some(Fold(name)),
         Fold(name) !in views.bindings, quoted)
  }

  lemma {:induction false} UseLaw(views: Views, name: string, at: nat, deps: set<string>, quoted: bool)
    ensures ParameterAtom(views, name, at, at + |name| + 2, deps, quoted) == Use(views, name, at, deps, quoted)
  {
    FoldIsLower(name);
  }

  function Plain(text: string, at: nat, deps: set<string>): seq<Atom> {
    seq(|text|, i requires 0 <= i < |text| => Atom([text[i]], at + i, at + i + 1, deps, None, false, false))
  }

  // ----- Forms -----

  lemma {:induction false} EndLaw(views: Views, at: nat, deps: set<string>)
    ensures Eval(views, End, at, deps) == []
  {
  }

  lemma {:induction false} TextLaw(views: Views, c: char, tail: Tree, at: nat, deps: set<string>)
    ensures Eval(views, Text(c, tail), at, deps) == Plain([c], at, deps) + Eval(views, tail, at + 1, deps)
  {
    assert Plain([c], at, deps) == [LiteralAtom(c, at, deps)];
  }

  lemma {:induction false} ParameterLaw(views: Views, name: string, tail: Tree, at: nat, deps: set<string>)
    ensures Eval(views, Parameter(name, tail), at, deps) ==
            [Use(views, name, at, deps, false)] + Eval(views, tail, at + |name| + 2, deps)
  {
    UseLaw(views, name, at, deps, false);
    assert |PrintHead(Parameter(name, tail))| == |name| + 2;
  }

  /** A guard contributes its body exactly if its name is present, or absent where it is negated. */
  lemma {:induction false} GuardLaw(views: Views, negated: bool, name: string, body: Tree, tail: Tree, at: nat, deps: set<string>)
    ensures var inside := at + |name| + 3 + if negated then 1 else 0;
            var contributes := (Fold(name) in views.present) != negated;
            Eval(views, Guard(negated, name, body, tail), at, deps) ==
            (if contributes then Eval(views, body, inside, deps + {Fold(name)}) else [])
            + Eval(views, tail, inside + |Print(body)| + 1, deps)
  {
    FoldIsLower(name);
    assert |Header(negated, name)| == |name| + 2 + if negated then 1 else 0;
    assert |PrintHead(Guard(negated, name, body, tail))| == |Header(negated, name)| + 1 + |Print(body)| + 1;
  }

  lemma {:induction false} CommentLaw(views: Views, text: string, tail: Tree, at: nat, deps: set<string>)
    ensures Eval(views, Comment(text, tail), at, deps) ==
            Plain("#" + text + "\n", at, deps) + Eval(views, tail, at + |text| + 2, deps)
  {
    assert Plain("#" + text + "\n", at, deps) == LiteralAtoms("#" + text + "\n", at, deps);
    assert |PrintHead(Comment(text, tail))| == |text| + 2;
  }

  /** A quotation is its parts between its marks. */
  lemma {:induction false} QuoteLaw(views: Views, parts: seq<Part>, tail: Tree, at: nat, deps: set<string>)
    ensures Eval(views, Quote(parts, tail), at, deps) ==
            Plain("\"", at, deps) + PartsAtoms(views, parts, at + 1, deps)
            + Plain("\"", at + 1 + |PrintParts(parts)|, deps) + Eval(views, tail, at + |PrintParts(parts)| + 2, deps)
  {
    QuotationIs(views, parts, at, deps);
    assert |PrintHead(Quote(parts, tail))| == |PrintParts(parts)| + 2;
  }

  lemma {:induction false} QuotationIs(views: Views, parts: seq<Part>, at: nat, deps: set<string>)
    ensures QuotationAtoms(views, parts, at, deps) ==
            Plain("\"", at, deps) + PartsAtoms(views, parts, at + 1, deps) + Plain("\"", at + 1 + |PrintParts(parts)|, deps)
  {
    var end := at + 1 + |PrintParts(parts)|;
    assert Plain("\"", at, deps) == [LiteralAtom('"', at, deps)];
    assert Plain("\"", end, deps) == [LiteralAtom('"', end, deps)];
  }

  /** The atoms of one part of a quotation: characters and escapes as they are, and uses that know they are quoted. */
  function OnePart(views: Views, part: Part, at: nat, deps: set<string>): seq<Atom> {
    match part
    case Char(c) => Plain([c], at, deps)
    case Escape(c) => Plain(['\\', c], at, deps)
    case Hole(name) => [Use(views, name, at, deps, true)]
    case EscapedHole(name) => Plain("\\", at, deps) + [Use(views, name, at + 1, deps, true)]
  }

  lemma {:induction false} PartsLaw(views: Views, parts: seq<Part>, at: nat, deps: set<string>)
    ensures PartsAtoms(views, parts, at, deps) ==
            if parts == [] then []
            else OnePart(views, parts[0], at, deps) + PartsAtoms(views, parts[1..], at + |PrintPart(parts[0])|, deps)
  {
    if parts != [] {
      OnePartLaw(views, parts[0], at, deps);
    }
  }

  lemma {:induction false} OnePartLaw(views: Views, part: Part, at: nat, deps: set<string>)
    ensures PartAtoms(views, part, at, deps) == OnePart(views, part, at, deps)
  {
    match part
    case Char(c) => assert Plain([c], at, deps) == [LiteralAtom(c, at, deps)];
    case Escape(c) => assert Plain(['\\', c], at, deps) == [LiteralAtom('\\', at, deps), LiteralAtom(c, at + 1, deps)];
    case Hole(name) => UseLaw(views, name, at, deps, true);
    case EscapedHole(name) =>
      UseLaw(views, name, at + 1, deps, true);
      assert Plain("\\", at, deps) == [LiteralAtom('\\', at, deps)];
  }

  // ----- The text -----

  function PartText(views: Views, part: Part, at: nat): string {
    match part
    case Char(c) => [c]
    case Escape(c) => ['\\', c]
    case Hole(name) => UseText(views, name, at, true)
    case EscapedHole(name) => "\\" + UseText(views, name, at + 1, true)
  }

  function PartsText(views: Views, parts: seq<Part>, at: nat): string {
    if parts == [] then "" else PartText(views, parts[0], at) + PartsText(views, parts[1..], at + |PrintPart(parts[0])|)
  }

  function HeadText(views: Views, tree: Tree, at: nat): string
    requires !tree.End?
    decreases tree, 0
  {
    match tree
    case Text(c, _) => [c]
    case Parameter(name, _) => UseText(views, name, at, false)
    case Guard(negated, name, body, _) =>
      if (Fold(name) in views.present) != negated then TreeText(views, body, at + |name| + 3 + if negated then 1 else 0)
      else ""
    case Quote(parts, _) => "\"" + PartsText(views, parts, at + 1) + "\""
    case Comment(text, _) => "#" + text + "\n"
  }

  /** The text of a template: characters, comments and quotes as they are printed, what the uses of its parameters
      write, and the bodies of the guards whose name is present, or absent where they are negated. */
  function TreeText(views: Views, tree: Tree, at: nat): string
    decreases tree, 1
  {
    if tree.End? then "" else HeadText(views, tree, at) + TreeText(views, tree.tail, at + |PrintHead(tree)|)
  }

  lemma {:induction false} ValuesAppend(a: seq<Atom>, b: seq<Atom>)
    ensures Values(a + b) == Values(a) + Values(b)
    decreases |b|
  {
    if b == [] {
      assert a + b == a;
    } else {
      var front, last := b[..|b| - 1], b[|b| - 1];
      ValuesAppend(a, front);
      assert (a + b)[..|a + b| - 1] == a + front && (a + b)[|a + b| - 1] == last;
      assert (Values(a) + Values(front)) + last.value == Values(a) + (Values(front) + last.value);
    }
  }

  lemma {:induction false} ValuesOfPlain(text: string, at: nat, deps: set<string>)
    ensures Values(Plain(text, at, deps)) == text
    decreases |text|
  {
    if text != "" {
      var front, last := text[..|text| - 1], |text| - 1;
      assert Plain(text, at, deps)[..last] == Plain(front, at, deps);
      ValuesOfPlain(front, at, deps);
      assert text == front + [text[last]];
    }
  }

  lemma {:induction false} ValueOfOne(atom: Atom)
    ensures Values([atom]) == atom.value
  {
    assert [atom][..0] == [];
    assert "" + atom.value == atom.value;
  }

  lemma {:induction false} PartsSpell(views: Views, parts: seq<Part>, at: nat, deps: set<string>)
    ensures Values(PartsAtoms(views, parts, at, deps)) == PartsText(views, parts, at)
    decreases |parts|
  {
    if parts != [] {
      var behind := at + |PrintPart(parts[0])|;
      PartsSpell(views, parts[1..], behind, deps);
      PartsSpellStep(views, parts, at, deps, behind);
    }
  }

  lemma {:induction false} PartsSpellStep(views: Views, parts: seq<Part>, at: nat, deps: set<string>, behind: nat)
    requires parts != [] && behind == at + |PrintPart(parts[0])|
    requires Values(PartsAtoms(views, parts[1..], behind, deps)) == PartsText(views, parts[1..], behind)
    ensures Values(PartsAtoms(views, parts, at, deps)) == PartsText(views, parts, at)
  {
    var first, rest := PartAtoms(views, parts[0], at, deps), PartsAtoms(views, parts[1..], behind, deps);
    PartSpells(views, parts[0], at, deps);
    PartsAtomsCons(views, parts, at, deps, behind, first, rest);
    PartsTextCons(views, parts, at, behind, Values(first), Values(rest));
  }

  lemma {:induction false} PartsAtomsCons(views: Views, parts: seq<Part>, at: nat, deps: set<string>, behind: nat,
                                          first: seq<Atom>, rest: seq<Atom>)
    requires parts != [] && behind == at + |PrintPart(parts[0])| && first == PartAtoms(views, parts[0], at, deps)
    requires rest == PartsAtoms(views, parts[1..], behind, deps)
    ensures Values(PartsAtoms(views, parts, at, deps)) == Values(first) + Values(rest)
  {
    PartsAtomsAre(views, parts, at, deps, behind, first, rest);
    ValuesAppend(first, rest);
  }

  lemma {:induction false} PartsAtomsAre(views: Views, parts: seq<Part>, at: nat, deps: set<string>, behind: nat,
                                         first: seq<Atom>, rest: seq<Atom>)
    requires parts != [] && behind == at + |PrintPart(parts[0])| && first == PartAtoms(views, parts[0], at, deps)
    requires rest == PartsAtoms(views, parts[1..], behind, deps)
    ensures PartsAtoms(views, parts, at, deps) == first + rest
  {
  }

  lemma {:induction false} PartsTextCons(views: Views, parts: seq<Part>, at: nat, behind: nat, first: string, rest: string)
    requires parts != [] && behind == at + |PrintPart(parts[0])| && first == PartText(views, parts[0], at)
    requires rest == PartsText(views, parts[1..], behind)
    ensures PartsText(views, parts, at) == first + rest
  {
  }

  lemma {:induction false} PartSpells(views: Views, part: Part, at: nat, deps: set<string>)
    ensures Values(PartAtoms(views, part, at, deps)) == PartText(views, part, at)
  {
    OnePartLaw(views, part, at, deps);
    match part
    case Char(c) => ValuesOfPlain([c], at, deps);
    case Escape(c) => ValuesOfPlain(['\\', c], at, deps);
    case Hole(name) => ValueOfOne(Use(views, name, at, deps, true));
    case EscapedHole(name) =>
      PlainFirst("\\", at, deps, [Use(views, name, at + 1, deps, true)]);
      ValueOfOne(Use(views, name, at + 1, deps, true));
  }

  lemma {:induction false} PlainFirst(text: string, at: nat, deps: set<string>, rest: seq<Atom>)
    ensures Values(Plain(text, at, deps) + rest) == text + Values(rest)
  {
    ValuesAppend(Plain(text, at, deps), rest);
    ValuesOfPlain(text, at, deps);
  }

  lemma {:induction false} MeaningCons(views: Views, tree: Tree, at: nat, deps: set<string>, behind: nat, head: seq<Atom>, rest: seq<Atom>)
    requires !tree.End? && behind == at + |PrintHead(tree)|
    requires head == EvalHead(views, tree, at, deps) && rest == Eval(views, tree.tail, behind, deps)
    ensures Values(Eval(views, tree, at, deps)) == Values(head) + Values(rest)
  {
    ValuesAppend(head, rest);
  }

  lemma {:induction false} TreeTextCons(views: Views, tree: Tree, at: nat, behind: nat, head: string, rest: string)
    requires !tree.End? && behind == at + |PrintHead(tree)|
    requires head == HeadText(views, tree, at) && rest == TreeText(views, tree.tail, behind)
    ensures TreeText(views, tree, at) == head + rest
  {
  }

  /** What a template means spells its text. */
  lemma {:induction false} MeaningSpells(views: Views, tree: Tree, at: nat, deps: set<string>)
    ensures Values(Eval(views, tree, at, deps)) == TreeText(views, tree, at)
    decreases tree, 1
  {
    if !tree.End? {
      var behind := at + |PrintHead(tree)|;
      HeadSpells(views, tree, at, deps);
      MeaningSpells(views, tree.tail, behind, deps);
      var head, rest := EvalHead(views, tree, at, deps), Eval(views, tree.tail, behind, deps);
      MeaningCons(views, tree, at, deps, behind, head, rest);
      TreeTextCons(views, tree, at, behind, Values(head), Values(rest));
    }
  }

  lemma {:induction false} HeadSpells(views: Views, tree: Tree, at: nat, deps: set<string>)
    requires !tree.End?
    ensures Values(EvalHead(views, tree, at, deps)) == HeadText(views, tree, at)
    decreases tree, 0
  {
    match tree
    case Text(c, _) => ValueOfOne(LiteralAtom(c, at, deps));
    case Parameter(name, _) =>
      UseLaw(views, name, at, deps, false);
      ValueOfOne(Use(views, name, at, deps, false));
    case Comment(text, _) => CommentSpells(text, at, deps);
    case Quote(parts, _) => QuoteSpells(views, parts, at, deps);
    case Guard(negated, name, body, _) =>
      FoldIsLower(name);
      HeaderLength(negated, name);
      MeaningSpells(views, body, at + |Header(negated, name)| + 1, deps + {Fold(name)});
  }

  lemma {:induction false} HeaderLength(negated: bool, name: string)
    ensures |Header(negated, name)| == |name| + 2 + if negated then 1 else 0
  {
  }

  lemma {:induction false} CommentSpells(text: string, at: nat, deps: set<string>)
    ensures Values(LiteralAtoms("#" + text + "\n", at, deps)) == "#" + text + "\n"
  {
    assert LiteralAtoms("#" + text + "\n", at, deps) == Plain("#" + text + "\n", at, deps);
    ValuesOfPlain("#" + text + "\n", at, deps);
  }

  lemma {:induction false} QuoteSpells(views: Views, parts: seq<Part>, at: nat, deps: set<string>)
    ensures Values(QuotationAtoms(views, parts, at, deps)) == "\"" + PartsText(views, parts, at + 1) + "\""
  {
    var inner, end := PartsAtoms(views, parts, at + 1, deps), at + 1 + |PrintParts(parts)|;
    PartsSpell(views, parts, at + 1, deps);
    ValuesAppend([LiteralAtom('"', at, deps)] + inner, [LiteralAtom('"', end, deps)]);
    ValuesAppend([LiteralAtom('"', at, deps)], inner);
    ValueOfOne(LiteralAtom('"', at, deps));
    ValueOfOne(LiteralAtom('"', end, deps));
  }

  /** What the body leaves open writes its text. */
  function TailText(views: Views, tail: Tail, at: nat): string {
    match tail
    case Closing => ""
    case OpenComment(text) => "#" + text
    case OpenQuote(parts, slash) => "\"" + PartsText(views, parts, at + 1) + if slash then "\\" else ""
  }

  lemma {:induction false} TailSpells(views: Views, tail: Tail, at: nat, deps: set<string>)
    ensures Values(TailStretch(views, tail, at, deps).atoms) == TailText(views, tail, at)
  {
    match tail
    case Closing =>
    case OpenComment(text) =>
      assert LiteralAtoms("#" + text, at, deps) == Plain("#" + text, at, deps);
      ValuesOfPlain("#" + text, at, deps);
    case OpenQuote(parts, slash) =>
      var open := OpenedQuote(views, parts, at, deps);
      OpenSpells(views, parts, at, deps);
      if slash {
        ValuesAppend(open.atoms, [LiteralAtom('\\', at + open.size, deps)]);
        ValueOfOne(LiteralAtom('\\', at + open.size, deps));
      }
  }

  lemma {:induction false} OpenSpells(views: Views, parts: seq<Part>, at: nat, deps: set<string>)
    ensures Values(OpenedQuote(views, parts, at, deps).atoms) == "\"" + PartsText(views, parts, at + 1)
  {
    PartsMean(views, parts, at + 1, deps);
    PartsSpell(views, parts, at + 1, deps);
    ValuesAppend([LiteralAtom('"', at, deps)], PartsAtoms(views, parts, at + 1, deps));
    ValueOfOne(LiteralAtom('"', at, deps));
  }

  /** A rendering without limits is the text of the template; any other is a beginning of it. */
  lemma {:induction false} RenderedTextLaw(views: Views, tree: Tree, tail: Tail)
    requires Formed(tree, false) && TailFormed(tail)
    ensures var placed := Braced(views, PrintBody(tree, tail));
            var r := Rendered(views, "{" + PrintBody(tree, tail) + "}");
            var text := TreeText(placed, tree, 0) + TailText(placed, tail, |Print(tree)|);
            (r.limits == {} ==> r.text == text) && r.text <= text
  {
    var placed := Braced(views, PrintBody(tree, tail));
    RenderingMeansEvaluation(views, tree, tail);
    MeaningSpells(placed, tree, 0, {});
    TailSpells(placed, tail, |Print(tree)|, {});
    ValuesAppend(Eval(placed, tree, 0, {}), TailStretch(placed, tail, |Print(tree)|, {}).atoms);
  }

  // ----- What is left open -----

  function PartNames(parts: seq<Part>): set<string> {
    if parts == [] then {}
    else (if parts[0].Hole? || parts[0].EscapedHole? then {parts[0].name} else {}) + PartNames(parts[1..])
  }

  function HeadNames(tree: Tree): set<string>
    requires !tree.End?
    decreases tree, 0
  {
    match tree
    case Parameter(name, _) => {name}
    case Guard(_, _, body, _) => NamesIn(body)
    case Quote(parts, _) => PartNames(parts)
    case _ => {}
  }

  /** The names that a template uses, under guards that hold or not. */
  function NamesIn(tree: Tree): set<string>
    decreases tree, 1
  {
    if tree.End? then {} else HeadNames(tree) + NamesIn(tree.tail)
  }

  ghost predicate OpenReasons(views: Views, names: set<string>, reasons: set<Residual>) {
    && (Binding in reasons <==> exists name :: name in names && Fold(name) !in views.bindings)
    && (TextInterpretation in reasons <==>
          exists name :: name in names && Fold(name) in views.bindings && '$' in views.bindings[Fold(name)])
  }

  lemma {:induction false} OpenBoth(views: Views, a: set<string>, b: set<string>, x: set<Residual>, y: set<Residual>)
    requires OpenReasons(views, a, x) && OpenReasons(views, b, y)
    ensures OpenReasons(views, a + b, x + y)
  {
  }

  lemma {:induction false} OneReads(views: Views, name: string)
    ensures OpenReasons(views, {name}, Reads(views, name))
  {
    FoldIsLower(name);
    assert name in {name};
  }

  lemma {:induction false} PartsReasons(views: Views, parts: seq<Part>)
    ensures OpenReasons(views, PartNames(parts), PartsReads(views, parts))
    decreases |parts|
  {
    if parts != [] {
      PartsReasons(views, parts[1..]);
      var first := if parts[0].Hole? || parts[0].EscapedHole? then {parts[0].name} else {};
      if first != {} {
        OneReads(views, parts[0].name);
      }
      OpenBoth(views, first, PartNames(parts[1..]), PartReads(views, parts[0]), PartsReads(views, parts[1..]));
    }
  }

  /** A rendering is open for a missing binding exactly if some used name is not bound, and for interpretation exactly
      if some bound value holds a dollar sign. */
  lemma {:induction false} ReasonsLaw(views: Views, tree: Tree)
    ensures OpenReasons(views, NamesIn(tree), TreeReads(views, tree))
    decreases tree, 1
  {
    if !tree.End? {
      HeadReasons(views, tree);
      ReasonsLaw(views, tree.tail);
      OpenBoth(views, HeadNames(tree), NamesIn(tree.tail), HeadReads(views, tree), TreeReads(views, tree.tail));
    }
  }

  lemma {:induction false} HeadReasons(views: Views, tree: Tree)
    requires !tree.End?
    ensures OpenReasons(views, HeadNames(tree), HeadReads(views, tree))
    decreases tree, 0
  {
    match tree
    case Parameter(name, _) => OneReads(views, name);
    case Guard(_, _, body, _) => ReasonsLaw(views, body);
    case Quote(parts, _) => PartsReasons(views, parts);
    case _ =>
  }

  // ----- Pieces -----

  /** The atom continues the one before it: both are plain, under the same guards, and stand next to each other. */
  predicate Continues(views: Views, atoms: seq<Atom>, i: nat)
    requires 0 < i < |atoms|
  {
    && atoms[i].binding.None? && atoms[i - 1].binding.None? && !atoms[i - 1].hole
    && atoms[i].parameters == atoms[i - 1].parameters && Place(views, atoms[i - 1].end) == Place(views, atoms[i].start)
  }

  /** A piece made of some atoms in a row. */
  ghost predicate MadeOf(views: Views, atoms: seq<Atom>, from: nat, to: nat, piece: Piece)
    requires from < to <= |atoms|
  {
    var first := atoms[from];
    && piece.from == Size(Values(atoms[..from])) && piece.to == Size(Values(atoms[..to]))
    && piece.start == Place(views, first.start) && piece.end == Place(views, atoms[to - 1].end)
    && piece.parameters == first.parameters && piece.binding == first.binding && piece.hole == first.hole
    && piece.uncertain == (first.binding.Some? && '$' in first.value)
    && piece.structuralHole == (first.hole && !first.quoted && Place(views, first.start) !in views.scalarUses)
    && piece.script == (Place(views, first.start) in views.scriptUses)
  }

  /** Where the k-th group of atoms ends. */
  function EndOf(starts: seq<nat>, count: nat, k: nat): nat
    requires k < |starts|
  {
    if k + 1 < |starts| then starts[k + 1] else count
  }

  predicate Rising(starts: seq<nat>, count: nat) {
    && (count > 0 ==> starts != [] && starts[0] == 0)
    && (forall a, b :: 0 <= a < b < |starts| ==> starts[a] < starts[b])
    && forall k :: 0 <= k < |starts| ==> starts[k] < count
  }

  ghost predicate Breaks(views: Views, atoms: seq<Atom>, starts: seq<nat>) {
    forall i :: 0 < i < |atoms| ==> (i in starts <==> !Continues(views, atoms, i))
  }

  ghost predicate MadeAt(views: Views, atoms: seq<Atom>, pieces: seq<Piece>, starts: seq<nat>, k: nat)
    requires k < |starts| == |pieces|
  {
    var end := EndOf(starts, |atoms|, k);
    starts[k] < end <= |atoms| && MadeOf(views, atoms, starts[k], end, pieces[k])
  }

  /** Each piece is made of one group of atoms; a group begins at each atom that does not continue the one before. */
  ghost predicate Groups(views: Views, atoms: seq<Atom>, pieces: seq<Piece>, starts: seq<nat>) {
    && |starts| == |pieces| && Rising(starts, |atoms|) && Breaks(views, atoms, starts)
    && forall k :: 0 <= k < |starts| ==> MadeAt(views, atoms, pieces, starts, k)
  }

  /** Plain atoms are no holes. */
  predicate Lawful(atoms: seq<Atom>) {
    forall i :: 0 <= i < |atoms| ==> atoms[i].binding.None? ==> !atoms[i].hole
  }

  /** The pieces of a rendering are its atoms, grouped. */
  lemma {:induction false} PiecesLaw(views: Views, atoms: seq<Atom>) returns (starts: seq<nat>)
    requires Lawful(atoms)
    ensures Groups(views, atoms, Pieces(views, atoms), starts)
    decreases |atoms|
  {
    starts := [];
    if atoms != [] {
      var front, atom := atoms[..|atoms| - 1], atoms[|atoms| - 1];
      starts := PiecesLaw(views, front);
      assert atoms == front + [atom];
      starts := PiecesNext(views, front, atom, starts);
    }
  }

  lemma {:induction false} PiecesNext(views: Views, front: seq<Atom>, atom: Atom, before: seq<nat>) returns (starts: seq<nat>)
    requires Lawful(front) && Groups(views, front, Pieces(views, front), before)
    ensures Groups(views, front + [atom], Pieces(views, front + [atom]), starts)
  {
    if front == [] {
      assert front + [atom] == [atom];
      starts := [0];
      FirstPiece(views, atom);
    } else {
      JoinsIfContinues(views, front, atom, Pieces(views, front), before);
      if Continues(views, front + [atom], |front|) {
        GroupGrows(views, front, atom, Pieces(views, front), before);
        starts := before;
      } else {
        NewGroup(views, front, atom, Pieces(views, front), before);
        starts := before + [|front|];
      }
    }
  }

  lemma {:induction false} FirstPiece(views: Views, atom: Atom)
    ensures Groups(views, [atom], Pieces(views, [atom]), [0])
  {
    assert [atom][..0] == [] && [atom][..1] == [atom];
    ValueOfOne(atom);
  }

  lemma {:induction false} JoinsIfContinues(views: Views, front: seq<Atom>, atom: Atom, pieces: seq<Piece>, starts: seq<nat>)
    requires front != [] && Lawful(front) && Groups(views, front, pieces, starts)
    ensures pieces != [] && (Joins(views, pieces[|pieces| - 1], atom) <==> Continues(views, front + [atom], |front|))
  {
    var last := |starts| - 1;
    var from := starts[last];
    assert EndOf(starts, |front|, last) == |front| && MadeAt(views, front, pieces, starts, last);
    forall i | from < i < |front|
      ensures Continues(views, front, i)
    {
      assert i !in starts;
    }
    LastGroup(views, front, from, |front| - 1);
  }

  /** All atoms of a group have the parameters of its first. */
  lemma {:induction false} LastGroup(views: Views, atoms: seq<Atom>, from: nat, i: nat)
    requires from <= i < |atoms| && forall j :: from < j <= i ==> Continues(views, atoms, j)
    ensures atoms[i].parameters == atoms[from].parameters
    ensures i > from ==> atoms[from].binding.None? && atoms[i].binding.None?
    decreases i
  {
    if i > from {
      assert Continues(views, atoms, i);
      LastGroup(views, atoms, from, i - 1);
    }
  }

  lemma {:induction false} FrontMade(views: Views, front: seq<Atom>, atom: Atom, from: nat, to: nat, piece: Piece)
    requires from < to <= |front| && MadeOf(views, front, from, to, piece)
    ensures MadeOf(views, front + [atom], from, to, piece)
  {
    var all := front + [atom];
    assert all[..from] == front[..from] && all[..to] == front[..to];
  }

  lemma {:induction false} SizeGrows(front: seq<Atom>, atom: Atom)
    ensures Size(Values((front + [atom])[..|front| + 1])) == Size(Values(front)) + Size(atom.value)
    ensures (front + [atom])[..|front|] == front
  {
    assert (front + [atom])[..|front| + 1] == front + [atom] && (front + [atom])[..|front|] == front;
    SizeAdds(Values(front), atom.value);
  }

  lemma {:induction false} MadeLonger(views: Views, front: seq<Atom>, atom: Atom, from: nat, piece: Piece)
    requires from < |front| && MadeOf(views, front, from, |front|, piece)
    ensures MadeOf(views, front + [atom], from, |front| + 1,
                   piece.(to := Size(Values(front)) + Size(atom.value), end := Place(views, atom.end)))
  {
    SizeGrows(front, atom);
    assert (front + [atom])[..from] == front[..from];
  }

  lemma {:induction false} MadeAlone(views: Views, front: seq<Atom>, atom: Atom)
    ensures MadeOf(views, front + [atom], |front|, |front| + 1, NewPiece(views, Size(Values(front)), atom))
  {
    SizeGrows(front, atom);
  }

  lemma {:induction false} PiecesEnd(views: Views, front: seq<Atom>, atom: Atom)
    ensures Pieces(views, front + [atom]) == AddPiece(views, Pieces(views, front), Size(Values(front)), atom)
  {
    assert (front + [atom])[..|front|] == front;
  }

  lemma {:induction false} GroupGrows(views: Views, front: seq<Atom>, atom: Atom, pieces: seq<Piece>, starts: seq<nat>)
    requires front != [] && Groups(views, front, pieces, starts) && pieces == Pieces(views, front)
    requires Continues(views, front + [atom], |front|) && pieces != [] && Joins(views, pieces[|pieces| - 1], atom)
    ensures Groups(views, front + [atom], Pieces(views, front + [atom]), starts)
  {
    var after, last := Pieces(views, front + [atom]), |starts| - 1;
    PiecesEnd(views, front, atom);
    var joined := pieces[last].(to := Size(Values(front)) + Size(atom.value), end := Place(views, atom.end));
    assert after == pieces[last := joined];
    forall k | 0 <= k < |starts|
      ensures MadeAt(views, front + [atom], after, starts, k)
    {
      GrownAt(views, front, atom, pieces, starts, after, k);
    }
    ContinuesStays(views, front, atom, starts);
    RisingMore(starts, |front|);
    BreaksOn(views, front + [atom], starts, |front|);
  }

  lemma {:induction false} RisingMore(starts: seq<nat>, count: nat)
    requires Rising(starts, count) && count > 0
    ensures Rising(starts, count + 1) && Rising(starts + [count], count + 1)
  {
  }

  lemma {:induction false} BreaksOn(views: Views, all: seq<Atom>, starts: seq<nat>, at: nat)
    requires 0 < at && at + 1 == |all| && Continues(views, all, at) && at !in starts
    requires forall i :: 0 < i < at ==> (i in starts <==> !Continues(views, all, i))
    ensures Breaks(views, all, starts)
  {
  }

  lemma {:induction false} GrownAt(views: Views, front: seq<Atom>, atom: Atom, pieces: seq<Piece>, starts: seq<nat>, after: seq<Piece>, k: nat)
    requires k < |starts| == |pieces| && MadeAt(views, front, pieces, starts, k)
    requires var last := |starts| - 1;
             after == pieces[last := pieces[last].(to := Size(Values(front)) + Size(atom.value), end := Place(views, atom.end))]
    ensures MadeAt(views, front + [atom], after, starts, k)
  {
    var end := EndOf(starts, |front|, k);
    if k < |starts| - 1 {
      assert after[k] == pieces[k] && EndOf(starts, |front| + 1, k) == end;
      FrontMade(views, front, atom, starts[k], end, pieces[k]);
    } else {
      assert end == |front| && EndOf(starts, |front| + 1, k) == |front| + 1;
      MadeLonger(views, front, atom, starts[k], pieces[k]);
    }
  }

  lemma {:induction false} ContinuesStays(views: Views, front: seq<Atom>, atom: Atom, starts: seq<nat>)
    requires Breaks(views, front, starts)
    ensures forall i :: 0 < i < |front| ==> (i in starts <==> !Continues(views, front + [atom], i))
  {
    forall i | 0 < i < |front|
      ensures Continues(views, front + [atom], i) <==> Continues(views, front, i)
    {
    }
  }

  lemma {:induction false} NewGroup(views: Views, front: seq<Atom>, atom: Atom, pieces: seq<Piece>, starts: seq<nat>)
    requires front != [] && Groups(views, front, pieces, starts) && pieces == Pieces(views, front)
    requires !Continues(views, front + [atom], |front|) && pieces != [] && !Joins(views, pieces[|pieces| - 1], atom)
    ensures Groups(views, front + [atom], Pieces(views, front + [atom]), starts + [|front|])
  {
    var all, next := front + [atom], starts + [|front|];
    var after := Pieces(views, all);
    PiecesEnd(views, front, atom);
    forall k | 0 <= k < |next|
      ensures MadeAt(views, all, after, next, k)
    {
      if k < |starts| {
        assert MadeAt(views, front, pieces, starts, k);
      }
      AddedAt(views, front, atom, pieces, starts, after, k);
    }
    ContinuesStays(views, front, atom, starts);
    RisingMore(starts, |front|);
    BreaksMore(views, all, starts, |front|);
  }

  lemma {:induction false} AddedAt(views: Views, front: seq<Atom>, atom: Atom, pieces: seq<Piece>, starts: seq<nat>, after: seq<Piece>, k: nat)
    requires k <= |starts| == |pieces| && (k < |starts| ==> MadeAt(views, front, pieces, starts, k))
    requires after == pieces + [NewPiece(views, Size(Values(front)), atom)]
    ensures MadeAt(views, front + [atom], after, starts + [|front|], k)
  {
    var next := starts + [|front|];
    if k < |starts| {
      var end := EndOf(starts, |front|, k);
      assert next[k] == starts[k] && after[k] == pieces[k] && EndOf(next, |front| + 1, k) == end;
      FrontMade(views, front, atom, starts[k], end, pieces[k]);
    } else {
      assert next[k] == |front| && EndOf(next, |front| + 1, k) == |front| + 1;
      MadeAlone(views, front, atom);
    }
  }

  lemma {:induction false} BreaksMore(views: Views, all: seq<Atom>, starts: seq<nat>, at: nat)
    requires at + 1 == |all| && (at > 0 ==> !Continues(views, all, at))
    requires forall i :: 0 < i < at ==> (i in starts <==> !Continues(views, all, i))
    ensures Breaks(views, all, starts + [at])
  {
    assert forall i :: i in starts + [at] <==> i in starts || i == at;
  }
}
