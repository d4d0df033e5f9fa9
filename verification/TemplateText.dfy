/** The one-pass template renderer: parameters and guards are substituted while scanning, with a map from
    output ranges back to the definition. Positions in the output and in the definition, and limits, count UTF-8 bytes;
    the scanner's offset counts characters of the scanned text. */
module TemplateText {
  import opened Options
  import opened Ascii
  import opened CharSize

  datatype Limit = Nodes | TextBytes | StructuralRecovery | UnavailableTemplate
  datatype Residual = TextInterpretation | Binding

  /** One call's bindings and the classified use positions. `body` is the scanned text, and `base` where it starts. */
  datatype Views = Views(bindings: map<string, string>, raw: map<string, string>, present: set<string>,
                         scalarUses: set<nat>, rawScalarUses: set<nat>, scriptUses: set<nat>,
                         byteLimit: nat, base: nat, body: string)

  datatype Piece = Piece(from: nat, to: nat, start: nat, end: nat, parameters: set<string>, binding: Option<string>,
                         hole: bool, uncertain: bool, structuralHole: bool, script: bool)

  datatype Output = Output(text: string, pieces: seq<Piece>, limits: set<Limit>, residuals: set<Residual>)

  /** What one scanning step contributes: text, its definition range and what influenced it. */
  datatype Atom = Atom(value: string, start: nat, end: nat, parameters: set<string>, binding: Option<string>,
                       hole: bool, quoted: bool)

  /** An open guard: what was active around it, and its condition. */
  datatype Open = Open(previous: bool, negated: bool, name: string)

  datatype Scanner = Scanner(offset: nat, guards: seq<Open>, active: bool, quoted: bool, comment: bool, escaped: bool,
                             steps: nat, stopped: bool, atoms: seq<Atom>, limits: set<Limit>, residuals: set<Residual>)

  const StepLimit: nat := 1_000_000

  // ----- Bytes -----

  /** The first occurrence of a character, if it starts within the first `bytes` bytes. */
  function FindWithin(text: string, c: char, bytes: nat): (found: Option<nat>)
    ensures found.Some? ==> found.value < |text| && text[found.value] == c
  {
    if text == [] || bytes == 0 then None
    else if text[0] == c then Some(0)
    else if Width(text[0]) >= bytes then None
    else
      var rest := FindWithin(text[1..], c, bytes - Width(text[0]));
      if rest.Some? then Some(rest.value + 1) else None
  }

  /** A search from a known place: the first occurrence is found exactly if it starts in reach. */
  lemma {:induction false} FoundInReach(before: string, c: char, rest: string, bytes: nat)
    requires c !in before
    ensures FindWithin(before + [c] + rest, c, bytes) == if Size(before) < bytes then Some(|before|) else None
  {
    if before != [] {
      assert before[0] in before;
      assert (before + [c] + rest)[1..] == before[1..] + [c] + rest;
      if Width(before[0]) < bytes {
        FoundInReach(before[1..], c, rest, bytes - Width(before[0]));
      }
    }
  }

  /** Where a character of the scanned text starts in the definition. */
  function Place(views: Views, k: nat): nat {
    views.base + if k <= |views.body| then At(views.body, k) else Size(views.body) + k - |views.body|
  }

  // ----- Insertions -----

  /** The text between enclosing quotes. */
  function Unquoted(text: string): Option<string> {
    if |text| >= 2 && text[0] == '"' && text[|text| - 1] == '"' then Some(text[1..|text| - 1]) else None
  }

  /** The text a bound name inserts at a position. */
  function Supplied(views: Views, name: string, position: nat, quoted: bool): string
    requires name in views.bindings
  {
    var value := views.bindings[name];
    if quoted then
      if name in views.raw && Unquoted(views.raw[name]).Some? then Unquoted(views.raw[name]).value else value
    else if position in views.rawScalarUses && name in views.raw then views.raw[name]
    else value
  }

  function HoleText(name: string): string {
    "__pdc_hole_" + name
  }

  function Inserted(views: Views, lower: string, position: nat, quoted: bool): string {
    if lower in views.bindings then Supplied(views, lower, position, quoted) else HoleText(lower)
  }

  function ParameterAtom(views: Views, name: string, start: nat, end: nat, deps: set<string>, quoted: bool): Atom {
    var lower := LowerText(name);
    Atom(Inserted(views, lower, Place(views, start), quoted), start, end, deps + {lower}, Some(lower),
         lower !in views.bindings, quoted)
  }

  function LiteralAtom(c: char, start: nat, deps: set<string>): Atom {
    Atom([c], start, start + 1, deps, None, false, false)
  }

  function Reads(views: Views, name: string): set<Residual> {
    var lower := LowerText(name);
    if lower !in views.bindings then {Binding}
    else if '$' in views.bindings[lower] then {TextInterpretation}
    else {}
  }

  function Bytes(atoms: seq<Atom>): nat {
    if atoms == [] then 0 else Bytes(atoms[..|atoms| - 1]) + Size(atoms[|atoms| - 1].value)
  }

  // ----- One scanning step -----

  function Deps(guards: seq<Open>): set<string> {
    set g | g in guards :: g.name
  }

  function Stop(s: Scanner, limit: Limit): Scanner {
    s.(stopped := true, limits := s.limits + {limit})
  }

  /** The lexical state after a plain character. */
  function Lexed(s: Scanner, c: char): Scanner {
    if s.comment then s.(comment := c != '\n')
    else if s.quoted then
      if s.escaped then s.(escaped := false)
      else if c == '\\' then s.(escaped := true)
      else if c == '"' then s.(quoted := false)
      else s
    else if c == '#' then s.(comment := true)
    else if c == '"' then s.(quoted := true)
    else s
  }

  /** Emits an atom where active, within the byte limit, and moves on. */
  function Advance(views: Views, s: Scanner, atom: Atom): Scanner {
    if !s.active then s.(offset := atom.end)
    else if Bytes(s.atoms) + Size(atom.value) > views.byteLimit then Stop(s, TextBytes)
    else s.(offset := atom.end, atoms := s.atoms + [atom])
  }

  predicate OpensGuard(source: string, offset: nat) {
    offset + 1 < |source| && source[offset] == '[' && source[offset + 1] == '['
  }

  function Condition(text: string): (bool, string) {
    if text != [] && text[0] == '!' then (true, text[1..]) else (false, text)
  }

  predicate Holds(views: Views, negated: bool, name: string) {
    (LowerText(name) in views.present) != negated
  }

  /** Enters a guard whose header closes in reach. */
  function ScanGuard(views: Views, source: string, s: Scanner): (t: Scanner)
    requires OpensGuard(source, s.offset)
    ensures t.stopped || s.offset < t.offset <= |source|
  {
    var remaining := source[s.offset..];
    var close := FindWithin(remaining, ']', views.byteLimit);
    if close.None? then Stop(s, StructuralRecovery)
    else
      assert remaining[0] == '[' && remaining[1] == '[';
      var (negated, name) := Condition(remaining[2..close.value]);
      s.(guards := s.guards + [Open(s.active, negated, LowerText(name))], active := s.active && Holds(views, negated, name),
         offset := s.offset + close.value + 1)
  }

  /** At a parameter: its reasons are recorded whether or not it is active. */
  function AtParameter(views: Views, s: Scanner, name: string): Scanner {
    s.(escaped := false, residuals := s.residuals + Reads(views, name))
  }

  function PassParameter(views: Views, s: Scanner, name: string): Scanner {
    Advance(views, AtParameter(views, s, name),
            ParameterAtom(views, name, s.offset, s.offset + |name| + 2, Deps(s.guards), s.quoted))
  }

  function ScanParameter(views: Views, source: string, s: Scanner): (t: Scanner)
    requires s.offset < |source|
    ensures t.stopped || s.offset < t.offset <= |source|
  {
    var rest := source[s.offset + 1..];
    var close := FindWithin(rest, '$', views.byteLimit);
    if close.None? then Stop(s, StructuralRecovery)
    else PassParameter(views, s, rest[..close.value])
  }

  function PassChar(views: Views, s: Scanner, c: char): Scanner {
    Advance(views, Lexed(s, c), LiteralAtom(c, s.offset, Deps(s.guards)))
  }

  function Counted(s: Scanner): Scanner {
    s.(steps := s.steps + 1)
  }

  datatype Token = HeaderToken | CloseToken | ParameterToken | CharToken

  function TokenAt(source: string, s: Scanner): Token
    requires s.offset < |source|
  {
    if !s.quoted && !s.comment && OpensGuard(source, s.offset) then HeaderToken
    else if !s.quoted && !s.comment && source[s.offset] == ']' && s.guards != [] then CloseToken
    else if !s.comment && source[s.offset] == '$' then ParameterToken
    else CharToken
  }

  /** One iteration: a guard header, a guard's end, a parameter, or one character. */
  function Next(views: Views, source: string, before: Scanner): (t: Scanner)
    requires !before.stopped && before.offset < |source|
    ensures t.stopped || before.offset < t.offset <= |source|
  {
    var s := Counted(before);
    if s.steps > StepLimit then Stop(s, Nodes)
    else
      match TokenAt(source, before)
      case HeaderToken => ScanGuard(views, source, s)
      case CloseToken =>
        s.(guards := s.guards[..|s.guards| - 1], active := s.guards[|s.guards| - 1].previous, offset := s.offset + 1)
      case ParameterToken => ScanParameter(views, source, s)
      case CharToken => PassChar(views, s, source[s.offset])
  }

  function Run(views: Views, source: string, s: Scanner): Scanner
    requires s.offset <= |source| || s.stopped
    decreases if s.stopped then 0 else 1 + |source| - s.offset
  {
    if s.stopped || s.offset == |source| then s else Run(views, source, Next(views, source, s))
  }

  const Start := Scanner(0, [], true, false, false, false, 0, false, [], {}, {})

  // ----- Guards at every moment -----

  /** The state after some iterations from the start. */
  function After(views: Views, source: string, steps: nat): (s: Scanner)
    ensures s.stopped || s.offset <= |source|
  {
    if steps == 0 then Start
    else
      var s := After(views, source, steps - 1);
      if s.stopped || s.offset == |source| then s else Next(views, source, s)
  }

  predicate GuardHolds(views: Views, guard: Open) {
    (guard.name in views.present) != guard.negated
  }

  predicate AllHold(views: Views, guards: seq<Open>) {
    forall i :: 0 <= i < |guards| ==> GuardHolds(views, guards[i])
  }

  /** `active` is the conjunction of the open guards, and each guard remembers that of the guards below it. */
  ghost predicate Conjoined(views: Views, s: Scanner) {
    && s.active == AllHold(views, s.guards)
    && forall i :: 0 <= i < |s.guards| ==> s.guards[i].previous == AllHold(views, s.guards[..i])
  }

  lemma AllHoldOnce(views: Views, guards: seq<Open>, guard: Open)
    ensures AllHold(views, guards + [guard]) == (AllHold(views, guards) && GuardHolds(views, guard))
  {
    var all := guards + [guard];
    assert all[|guards|] == guard;
    assert forall i :: 0 <= i < |guards| ==> all[i] == guards[i];
  }

  lemma OpenKeepsConjoined(views: Views, s: Scanner, negated: bool, name: string)
    requires Conjoined(views, s)
    ensures Conjoined(views, s.(guards := s.guards + [Open(s.active, negated, LowerText(name))],
                                active := s.active && Holds(views, negated, name)))
  {
    var guard := Open(s.active, negated, LowerText(name));
    var all := s.guards + [guard];
    AllHoldOnce(views, s.guards, guard);
    forall i | 0 <= i < |all|
      ensures all[i].previous == AllHold(views, all[..i])
    {
      assert all[..i] == s.guards[..i];
      assert s.guards[..|s.guards|] == s.guards;
    }
  }

  lemma CloseKeepsConjoined(views: Views, s: Scanner)
    requires Conjoined(views, s) && s.guards != []
    ensures var last := |s.guards| - 1;
            Conjoined(views, s.(guards := s.guards[..last], active := s.guards[last].previous))
  {
    var rest := s.guards[..|s.guards| - 1];
    forall i | 0 <= i < |rest|
      ensures rest[i].previous == AllHold(views, rest[..i])
    {
      assert rest[..i] == s.guards[..i];
    }
  }

  lemma NextKeepsConjoined(views: Views, source: string, s: Scanner)
    requires !s.stopped && s.offset < |source| && Conjoined(views, s)
    ensures Conjoined(views, Next(views, source, s))
  {
    if s.steps + 1 <= StepLimit {
      match TokenAt(source, s)
      case HeaderToken => HeaderConjoins(views, source, s);
      case CloseToken => CloseConjoins(views, source, s);
      case ParameterToken => ParameterConjoins(views, source, s);
      case CharToken => CharConjoins(views, source, s);
    }
  }

  /** About to read a token within the iteration limit. */
  ghost predicate Facing(views: Views, source: string, s: Scanner, token: Token) {
    Runs(source, s) && s.offset < |source| && s.steps + 1 <= StepLimit && TokenAt(source, s) == token && Conjoined(views, s)
  }

  lemma HeaderConjoins(views: Views, source: string, s: Scanner)
    requires Facing(views, source, s, HeaderToken)
    ensures Conjoined(views, Next(views, source, s))
  {
    NextIsGuard(views, source, s);
    SameGuards(views, s, Counted(s));
    GuardKeepsConjoined(views, source, Counted(s));
  }

  lemma CloseConjoins(views: Views, source: string, s: Scanner)
    requires Facing(views, source, s, CloseToken)
    ensures Conjoined(views, Next(views, source, s))
  {
    NextAtClose(views, source, s);
    CloseKeepsConjoined(views, s);
    SameGuards(views, s.(guards := s.guards[..|s.guards| - 1], active := s.guards[|s.guards| - 1].previous), Closed(Counted(s)));
  }

  lemma ParameterConjoins(views: Views, source: string, s: Scanner)
    requires Facing(views, source, s, ParameterToken)
    ensures Conjoined(views, Next(views, source, s))
  {
    NextIsParameter(views, source, s);
    ParameterKeepsGuards(views, source, Counted(s));
    SameGuards(views, s, ScanParameter(views, source, Counted(s)));
  }

  lemma CharConjoins(views: Views, source: string, s: Scanner)
    requires Facing(views, source, s, CharToken)
    ensures Conjoined(views, Next(views, source, s))
  {
    NextAtChar(views, source, s);
    CharKeepsGuards(views, Counted(s), source[s.offset]);
    SameGuards(views, s, PassChar(views, Counted(s), source[s.offset]));
  }

  lemma NextIsGuard(views: Views, source: string, s: Scanner)
    requires Runs(source, s) && s.offset < |source| && s.steps + 1 <= StepLimit && TokenAt(source, s) == HeaderToken
    ensures Next(views, source, s) == ScanGuard(views, source, Counted(s))
  {
  }

  lemma SameGuards(views: Views, s: Scanner, t: Scanner)
    requires Conjoined(views, s) && t.guards == s.guards && t.active == s.active
    ensures Conjoined(views, t)
  {
  }

  lemma GuardKeepsConjoined(views: Views, source: string, s: Scanner)
    requires OpensGuard(source, s.offset) && Conjoined(views, s)
    ensures Conjoined(views, ScanGuard(views, source, s))
  {
    var remaining := source[s.offset..];
    var close := FindWithin(remaining, ']', views.byteLimit);
    if close.Some? {
      assert remaining[0] == '[' && remaining[1] == '[';
      var (negated, name) := Condition(remaining[2..close.value]);
      OpenKeepsConjoined(views, s, negated, name);
    }
  }

  lemma ParameterKeepsGuards(views: Views, source: string, s: Scanner)
    requires s.offset < |source|
    ensures var t := ScanParameter(views, source, s); t.guards == s.guards && t.active == s.active
  {
  }

  lemma CharKeepsGuards(views: Views, s: Scanner, c: char)
    ensures var t := PassChar(views, s, c); t.guards == s.guards && t.active == s.active
  {
  }

  /** In every state of every run over any source, well-formed or not: the scanner is active exactly if every
      open guard holds of the names present, and every open guard remembers whether those around it do. */
  lemma {:induction false} ActiveIsConjunction(views: Views, source: string, steps: nat)
    ensures Conjoined(views, After(views, source, steps))
  {
    if steps > 0 {
      ActiveIsConjunction(views, source, steps - 1);
      var s := After(views, source, steps - 1);
      if !s.stopped && s.offset != |source| {
        NextKeepsConjoined(views, source, s);
      }
    }
  }

  // ----- Templates as trees -----

  datatype Part =
    | Char(c: char)
    | Escape(c: char)
    | Hole(name: string)
    | EscapedHole(name: string)

  /** A template body in source order: each form carries what follows it. */
  datatype Tree =
    | End
    | Text(c: char, tail: Tree)
    | Parameter(name: string, tail: Tree)
    | Guard(negated: bool, name: string, body: Tree, tail: Tree)
    | Quote(parts: seq<Part>, tail: Tree)
    | Comment(text: string, tail: Tree)

  function PrintPart(part: Part): string {
    match part
    case Char(c) => [c]
    case Escape(c) => ['\\', c]
    case Hole(name) => "$" + name + "$"
    case EscapedHole(name) => "\\$" + name + "$"
  }

  function PrintParts(parts: seq<Part>): string {
    if parts == [] then "" else PrintPart(parts[0]) + PrintParts(parts[1..])
  }

  function Header(negated: bool, name: string): string {
    "[[" + (if negated then "!" else "") + name
  }

  /** The first form of a tree, printed. */
  function PrintHead(tree: Tree): string
    requires !tree.End?
    decreases tree, 0
  {
    match tree
    case Text(c, _) => [c]
    case Parameter(name, _) => "$" + name + "$"
    case Guard(negated, name, body, _) => Header(negated, name) + "]" + Print(body) + "]"
    case Quote(parts, _) => "\"" + PrintParts(parts) + "\""
    case Comment(text, _) => "#" + text + "\n"
  }

  function Print(tree: Tree): string
    decreases tree, 1
  {
    if tree.End? then "" else PrintHead(tree) + Print(tree.tail)
  }

  predicate PartFormed(part: Part) {
    match part
    case Char(c) => c != '"' && c != '\\' && c != '$'
    case Escape(c) => c != '$'
    case Hole(name) => '$' !in name
    case EscapedHole(name) => '$' !in name
  }

  predicate PartsFormed(parts: seq<Part>) {
    parts == [] || (PartFormed(parts[0]) && PartsFormed(parts[1..]))
  }

  /** Every form is one the printed text shows as such: no plain character opens another form. */
  predicate Formed(tree: Tree, guarded: bool) {
    match tree
    case End => true
    case Text(c, tail) =>
      && c != '#' && c != '"' && c != '$' && !(c == ']' && guarded)
      && !(c == '[' && ((tail.Text? && tail.c == '[') || tail.Guard?))
      && Formed(tail, guarded)
    case Parameter(name, tail) => '$' !in name && Formed(tail, guarded)
    case Guard(negated, name, body, tail) =>
      ']' !in name && (negated || name == [] || name[0] != '!') && Formed(body, true) && Formed(tail, guarded)
    case Quote(parts, tail) => PartsFormed(parts) && Formed(tail, guarded)
    case Comment(text, tail) => '\n' !in text && Formed(tail, guarded)
  }

  // ----- What a template means -----

  function LiteralAtoms(text: string, at: nat, deps: set<string>): seq<Atom> {
    seq(|text|, i requires 0 <= i < |text| => LiteralAtom(text[i], at + i, deps))
  }

  function PartAtoms(views: Views, part: Part, at: nat, deps: set<string>): seq<Atom> {
    match part
    case Char(c) => [LiteralAtom(c, at, deps)]
    case Escape(c) => [LiteralAtom('\\', at, deps), LiteralAtom(c, at + 1, deps)]
    case Hole(name) => [ParameterAtom(views, name, at, at + |name| + 2, deps, true)]
    case EscapedHole(name) =>
      [LiteralAtom('\\', at, deps), ParameterAtom(views, name, at + 1, at + |name| + 3, deps, true)]
  }

  function PartsAtoms(views: Views, parts: seq<Part>, at: nat, deps: set<string>): seq<Atom> {
    if parts == [] then []
    else PartAtoms(views, parts[0], at, deps) + PartsAtoms(views, parts[1..], at + |PrintPart(parts[0])|, deps)
  }

  /** A quotation means its parts between the two marks. */
  function QuotationAtoms(views: Views, parts: seq<Part>, at: nat, deps: set<string>): seq<Atom> {
    [LiteralAtom('"', at, deps)] + PartsAtoms(views, parts, at + 1, deps)
    + [LiteralAtom('"', at + 1 + |PrintParts(parts)|, deps)]
  }

  /** The meaning of the first form of a template: a guard's body contributes only if the guard holds of the
      names present, and depends on the guard's name. */
  function EvalHead(views: Views, tree: Tree, at: nat, deps: set<string>): seq<Atom>
    requires !tree.End?
    decreases tree, 0
  {
    match tree
    case Text(c, _) => [LiteralAtom(c, at, deps)]
    case Parameter(name, _) => [ParameterAtom(views, name, at, at + |name| + 2, deps, false)]
    case Guard(negated, name, body, _) =>
      if Holds(views, negated, name) then
        Eval(views, body, at + |Header(negated, name)| + 1, deps + {LowerText(name)})
      else []
    case Quote(parts, _) => QuotationAtoms(views, parts, at, deps)
    case Comment(text, _) => LiteralAtoms("#" + text + "\n", at, deps)
  }

  /** The recursive meaning of a template at a position, below guards that contribute dependencies: each form
      in turn, at the place where it is printed. */
  function Eval(views: Views, tree: Tree, at: nat, deps: set<string>): seq<Atom>
    decreases tree, 1
  {
    if tree.End? then []
    else EvalHead(views, tree, at, deps) + Eval(views, tree.tail, at + |PrintHead(tree)|, deps)
  }

  function PartReads(views: Views, part: Part): set<Residual> {
    if part.Hole? || part.EscapedHole? then Reads(views, part.name) else {}
  }

  function PartsReads(views: Views, parts: seq<Part>): set<Residual> {
    if parts == [] then {} else PartReads(views, parts[0]) + PartsReads(views, parts[1..])
  }

  function HeadReads(views: Views, tree: Tree): set<Residual>
    requires !tree.End?
    decreases tree, 0
  {
    match tree
    case Parameter(name, _) => Reads(views, name)
    case Guard(_, _, body, _) => TreeReads(views, body)
    case Quote(parts, _) => PartsReads(views, parts)
    case _ => {}
  }

  /** The residual reasons of every parameter, in guards that hold or not. */
  function TreeReads(views: Views, tree: Tree): set<Residual>
    decreases tree, 1
  {
    if tree.End? then {} else HeadReads(views, tree) + TreeReads(views, tree.tail)
  }

  function PartsCost(parts: seq<Part>): nat {
    if parts == [] then 0
    else (if parts[0].Char? || parts[0].Hole? then 1 else 2) + PartsCost(parts[1..])
  }

  function HeadCost(tree: Tree): nat
    requires !tree.End?
    decreases tree, 0
  {
    match tree
    case Text(_, _) => 1
    case Parameter(_, _) => 1
    case Guard(_, _, body, _) => 2 + Cost(body)
    case Quote(parts, _) => 2 + PartsCost(parts)
    case Comment(text, _) => |text| + 2
  }

  /** The iterations a template takes. */
  function Cost(tree: Tree): nat
    decreases tree, 1
  {
    if tree.End? then 0 else HeadCost(tree) + Cost(tree.tail)
  }

  predicate PartReaches(views: Views, part: Part) {
    part.Hole? || part.EscapedHole? ==> Size(part.name) < views.byteLimit
  }

  predicate PartsReach(views: Views, parts: seq<Part>) {
    forall part :: part in parts ==> PartReaches(views, part)
  }

  predicate HeadReach(views: Views, tree: Tree)
    requires !tree.End?
    decreases tree, 0
  {
    match tree
    case Parameter(name, _) => Size(name) < views.byteLimit
    case Guard(negated, name, body, _) => Size(Header(negated, name)) < views.byteLimit && Reach(views, body)
    case Quote(parts, _) => PartsReach(views, parts)
    case _ => true
  }

  /** Every parameter and guard header closes within the byte limit. */
  predicate Reach(views: Views, tree: Tree)
    decreases tree, 1
  {
    tree.End? || (HeadReach(views, tree) && Reach(views, tree.tail))
  }

  function Values(atoms: seq<Atom>): string {
    if atoms == [] then "" else Values(atoms[..|atoms| - 1]) + atoms[|atoms| - 1].value
  }

  // ----- The scanner follows the tree -----

  predicate IsPrefix(a: seq<Atom>, b: seq<Atom>) {
    |a| <= |b| && b[..|a|] == a
  }

  lemma {:induction false} BytesAdd(a: seq<Atom>, b: seq<Atom>)
    ensures Bytes(a + b) == Bytes(a) + Bytes(b)
  {
    if b == [] {
      assert a + b == a;
    } else {
      BytesAdd(a, b[..|b| - 1]);
      assert (a + b)[..|a + b| - 1] == a + b[..|b| - 1];
    }
  }

  /** Within both limits so far. */
  predicate Within(views: Views, s: Scanner) {
    s.steps <= StepLimit && Bytes(s.atoms) <= views.byteLimit
  }

  predicate Runs(source: string, s: Scanner) {
    !s.stopped && s.offset <= |source|
  }

  /** Scanning from s passes through t if the headers on the way are in reach and t is within the limits;
      otherwise it stops at a limit, having emitted a prefix of t's atoms. */
  ghost predicate Leads(views: Views, source: string, s: Scanner, t: Scanner, reach: bool)
    requires Runs(source, s) && Runs(source, t)
  {
    var end := Run(views, source, s);
    if reach && Within(views, t) then end == Run(views, source, t)
    else end.stopped && end.limits != {} && IsPrefix(end.atoms, t.atoms)
  }

  predicate Extends(s: Scanner, t: Scanner) {
    s.steps <= t.steps && IsPrefix(s.atoms, t.atoms)
  }

  lemma WithinShrinks(views: Views, s: Scanner, t: Scanner)
    requires Extends(s, t) && Within(views, t)
    ensures Within(views, s)
  {
    assert t.atoms == s.atoms + t.atoms[|s.atoms|..];
    BytesAdd(s.atoms, t.atoms[|s.atoms|..]);
  }

  lemma LeadsOn(views: Views, source: string, s: Scanner, t: Scanner, u: Scanner, first: bool, second: bool)
    requires Runs(source, s) && Runs(source, t) && Runs(source, u) && Extends(t, u)
    requires Leads(views, source, s, t, first)
    requires first && Within(views, t) ==> Leads(views, source, t, u, second)
    ensures Leads(views, source, s, u, first && second)
  {
    if Within(views, u) {
      WithinShrinks(views, t, u);
    }
    var end := Run(views, source, s);
    assert IsPrefix(end.atoms, t.atoms) ==> end.atoms == t.atoms[..|end.atoms|] == u.atoms[..|end.atoms|];
  }

  /** A stretch of source: its size, the iterations it takes, what it emits where active, the reasons it
      records regardless, and whether its headers close in reach. */
  datatype Stretch = Stretch(size: nat, cost: nat, atoms: seq<Atom>, reasons: set<Residual>, reach: bool)

  const Nothing := Stretch(0, 0, [], {}, true)

  function Join(a: Stretch, b: Stretch): Stretch {
    Stretch(a.size + b.size, a.cost + b.cost, a.atoms + b.atoms, a.reasons + b.reasons, a.reach && b.reach)
  }

  function Emitted(s: Scanner, atoms: seq<Atom>): seq<Atom> {
    if s.active then s.atoms + atoms else s.atoms
  }

  /** The scanner after a stretch was passed over at its own nesting level. */
  function Arrived(s: Scanner, stretch: Stretch): Scanner {
    s.(offset := s.offset + stretch.size, steps := s.steps + stretch.cost, atoms := Emitted(s, stretch.atoms),
       residuals := s.residuals + stretch.reasons)
  }

  ghost predicate Passes(views: Views, source: string, s: Scanner, stretch: Stretch)
    requires Runs(source, s)
  {
    s.offset + stretch.size <= |source| && Leads(views, source, s, Arrived(s, stretch), stretch.reach)
  }

  lemma ArrivedAgain(s: Scanner, a: Stretch, b: Stretch)
    ensures Arrived(Arrived(s, a), b) == Arrived(s, Join(a, b))
    ensures Extends(Arrived(s, a), Arrived(s, Join(a, b)))
  {
    assert s.residuals + a.reasons + b.reasons == s.residuals + (a.reasons + b.reasons);
    assert s.atoms + a.atoms + b.atoms == s.atoms + (a.atoms + b.atoms);
  }

  /** Two stretches in a row, through a scanner that differs from the arrived one in its lexical state only. */
  lemma SequenceThrough(views: Views, source: string, s: Scanner, t: Scanner, a: Stretch, b: Stretch, whole: Stretch)
    requires Runs(source, s) && Runs(source, t) && whole == Join(a, b) && s.offset + whole.size <= |source|
    requires t.steps == s.steps + a.cost && t.atoms == Emitted(s, a.atoms)
    requires Leads(views, source, s, t, a.reach)
    requires a.reach && Within(views, t) ==> Leads(views, source, t, Arrived(Arrived(s, a), b), b.reach)
    ensures Passes(views, source, s, whole)
  {
    ArrivedAgain(s, a, b);
    LeadsOn(views, source, s, t, Arrived(s, whole), a.reach, b.reach);
  }

  /** Two stretches in a row. */
  lemma Sequence(views: Views, source: string, s: Scanner, a: Stretch, b: Stretch, whole: Stretch)
    requires Runs(source, s) && whole == Join(a, b) && s.offset + whole.size <= |source|
    requires Passes(views, source, s, a)
    requires a.reach && Within(views, Arrived(s, a)) ==> Passes(views, source, Arrived(s, a), b)
    ensures Passes(views, source, s, whole)
  {
    SequenceThrough(views, source, s, Arrived(s, a), a, b, whole);
  }

  lemma NothingPasses(views: Views, source: string, s: Scanner)
    requires Runs(source, s) && Within(views, s)
    ensures Arrived(s, Nothing) == s && Passes(views, source, s, Nothing)
  {
    assert s.residuals + {} == s.residuals;
    assert s.atoms + [] == s.atoms;
  }

  /** The named text stands at a position of the source. */
  predicate Stands(source: string, at: nat, text: string) {
    at + |text| <= |source| && source[at..at + |text|] == text
  }

  lemma StandsSplits(source: string, at: nat, a: string, b: string)
    requires Stands(source, at, a + b)
    ensures Stands(source, at, a) && Stands(source, at + |a|, b)
  {
    assert source[at..at + |a|] == (a + b)[..|a|];
    assert source[at + |a|..at + |a| + |b|] == (a + b)[|a|..];
  }

  lemma StandsAt(source: string, at: nat, text: string, i: nat)
    requires Stands(source, at, text) && i < |text|
    ensures source[at + i] == text[i]
  {
    assert source[at..at + |text|][i] == text[i];
  }

  function LiteralStretch(c: char, at: nat, deps: set<string>): Stretch {
    Stretch(1, 1, [LiteralAtom(c, at, deps)], {}, true)
  }

  function ParameterStretch(views: Views, name: string, at: nat, deps: set<string>, quoted: bool): Stretch {
    Stretch(|name| + 2, 1, [ParameterAtom(views, name, at, at + |name| + 2, deps, quoted)], Reads(views, name),
            Size(name) < views.byteLimit)
  }

  predicate Plain(source: string, s: Scanner)
    requires s.offset < |source|
  {
    && (s.quoted || s.comment || (!OpensGuard(source, s.offset) && (source[s.offset] == ']' ==> s.guards == [])))
    && (s.comment || source[s.offset] != '$')
  }

  /** One plain character is passed over. */
  lemma CharPasses(views: Views, source: string, s: Scanner)
    requires Runs(source, s) && s.offset < |source| && Within(views, s) && Plain(source, s)
    ensures var t := Arrived(Lexed(s, source[s.offset]), LiteralStretch(source[s.offset], s.offset, Deps(s.guards)));
            Runs(source, t) && Leads(views, source, s, t, true)
  {
    var c := source[s.offset];
    var atom := LiteralAtom(c, s.offset, Deps(s.guards));
    var before := Lexed(Counted(s), c);
    LexedKeeps(s, c);
    assert TokenAt(source, s) == CharToken;
    if s.steps + 1 <= StepLimit {
      NextAtChar(views, source, s);
    }
    StepLeads(views, source, s, before, atom, PassChar(views, Counted(s), c));
    CharArrives(s, c);
  }

  lemma NextAtChar(views: Views, source: string, s: Scanner)
    requires Runs(source, s) && s.offset < |source| && s.steps + 1 <= StepLimit && TokenAt(source, s) == CharToken
    ensures Next(views, source, s) == PassChar(views, Counted(s), source[s.offset])
  {
  }

  lemma LexedKeeps(s: Scanner, c: char)
    ensures Lexed(Counted(s), c) == Lexed(s, c).(steps := s.steps + 1)
    ensures Lexed(s, c) == s.(quoted := Lexed(s, c).quoted, comment := Lexed(s, c).comment, escaped := Lexed(s, c).escaped)
  {
  }

  /** The scanner after an atom, limits aside. */
  function Moved(s: Scanner, atom: Atom): Scanner {
    s.(offset := atom.end, atoms := Emitted(s, [atom]))
  }

  lemma CharArrives(s: Scanner, c: char)
    ensures var atom := LiteralAtom(c, s.offset, Deps(s.guards));
            Moved(Lexed(Counted(s), c), atom) == Arrived(Lexed(s, c), LiteralStretch(c, s.offset, Deps(s.guards)))
  {
    LexedKeeps(s, c);
    assert s.residuals + {} == s.residuals;
  }

  lemma ParameterArrives(views: Views, s: Scanner, name: string)
    ensures var atom := ParameterAtom(views, name, s.offset, s.offset + |name| + 2, Deps(s.guards), s.quoted);
            Moved(AtParameter(views, Counted(s), name), atom) ==
            Arrived(s.(escaped := false), ParameterStretch(views, name, s.offset, Deps(s.guards), s.quoted))
  {
  }

  /** An iteration that ends by emitting an atom. */
  lemma StepLeads(views: Views, source: string, s: Scanner, before: Scanner, atom: Atom, next: Scanner)
    requires Runs(source, s) && s.offset < |source| && Within(views, s)
    requires before.steps == s.steps + 1 && !before.stopped && before.atoms == s.atoms
    requires next == Advance(views, before, atom)
    requires s.steps + 1 <= StepLimit ==> Next(views, source, s) == next
    requires s.offset < atom.end <= |source|
    ensures Leads(views, source, s, Moved(before, atom), true)
  {
    if s.steps + 1 <= StepLimit {
      CountedStepLeads(views, source, s, before, atom, next);
    } else {
      assert Next(views, source, s).stopped && Run(views, source, s) == Next(views, source, s);
    }
  }

  /** A step that is still counted: it moves on, or stops at the byte limit. */
  lemma CountedStepLeads(views: Views, source: string, s: Scanner, before: Scanner, atom: Atom, next: Scanner)
    requires Runs(source, s) && s.offset < |source| && Within(views, s) && s.steps + 1 <= StepLimit
    requires before.steps == s.steps + 1 && !before.stopped && before.atoms == s.atoms
    requires next == Advance(views, before, atom) && Next(views, source, s) == next
    requires s.offset < atom.end <= |source|
    ensures Leads(views, source, s, Moved(before, atom), true)
  {
    BytesAdd(s.atoms, [atom]);
    assert Run(views, source, s) == Run(views, source, next);
  }

  /** The rest of a source from a delimiter on: what precedes the next delimiter. */
  lemma Delimited(source: string, at: nat, before: string, c: char, bytes: nat)
    requires Stands(source, at, before + [c]) && c !in before
    ensures at + |before| < |source| && source[at..][..|before|] == before
    ensures FindWithin(source[at..], c, bytes) == if Size(before) < bytes then Some(|before|) else None
  {
    StandsSplits(source, at, before, [c]);
    assert source[at..][..|before|] == source[at..at + |before|];
    var rest := source[at + |before| + 1..];
    assert source[at..] == before + [c] + rest;
    FoundInReach(before, c, rest, bytes);
  }

  /** An iteration that ends at a limit. */
  lemma StopLeads(views: Views, source: string, s: Scanner, stopped: Scanner, limit: Limit, t: Scanner)
    requires Runs(source, s) && s.offset < |source| && Within(views, s) && Runs(source, t)
    requires stopped.atoms == s.atoms
    requires s.steps + 1 <= StepLimit ==> Next(views, source, s) == Stop(stopped, limit)
    requires IsPrefix(s.atoms, t.atoms)
    ensures Leads(views, source, s, t, false)
  {
  }

  lemma ScanParameterFinds(views: Views, source: string, s: Scanner, name: string)
    requires Stands(source, s.offset, "$" + name + "$") && '$' !in name
    ensures ScanParameter(views, source, s) ==
            if Size(name) < views.byteLimit then PassParameter(views, s, name) else Stop(s, StructuralRecovery)
  {
    assert "$" + name + "$" == "$" + (name + ['$']);
    StandsSplits(source, s.offset, "$", name + ['$']);
    Delimited(source, s.offset + 1, name, '$', views.byteLimit);
  }

  lemma NextIsParameter(views: Views, source: string, s: Scanner)
    requires Runs(source, s) && s.offset < |source| && s.steps + 1 <= StepLimit && TokenAt(source, s) == ParameterToken
    ensures Next(views, source, s) == ScanParameter(views, source, Counted(s))
  {
  }

  lemma NextAtParameter(views: Views, source: string, s: Scanner, name: string)
    requires Runs(source, s) && s.steps + 1 <= StepLimit && !s.comment
    requires Stands(source, s.offset, "$" + name + "$") && '$' !in name
    ensures s.offset < |source|
    ensures Next(views, source, s) ==
            if Size(name) < views.byteLimit then PassParameter(views, Counted(s), name)
            else Stop(Counted(s), StructuralRecovery)
  {
    StandsAt(source, s.offset, "$" + name + "$", 0);
    assert TokenAt(source, s) == ParameterToken;
    NextIsParameter(views, source, s);
    ScanParameterFinds(views, source, Counted(s), name);
  }

  lemma PassIsAdvance(views: Views, s: Scanner, name: string)
    ensures PassParameter(views, Counted(s), name) ==
            Advance(views, AtParameter(views, Counted(s), name),
                    ParameterAtom(views, name, s.offset, s.offset + |name| + 2, Deps(s.guards), s.quoted))
  {
    assert Counted(s).guards == s.guards && Counted(s).offset == s.offset && Counted(s).quoted == s.quoted;
  }

  /** A parameter is passed over, emitting its insertion. */
  lemma ParameterPasses(views: Views, source: string, s: Scanner, name: string)
    requires Runs(source, s) && Within(views, s) && !s.comment
    requires Stands(source, s.offset, "$" + name + "$") && '$' !in name
    ensures var t := Arrived(s.(escaped := false), ParameterStretch(views, name, s.offset, Deps(s.guards), s.quoted));
            Runs(source, t) && Leads(views, source, s, t, Size(name) < views.byteLimit)
  {
    var counted := Counted(s);
    StandsAt(source, s.offset, "$" + name + "$", 0);
    ParameterArrives(views, s, name);
    if s.steps + 1 <= StepLimit {
      NextAtParameter(views, source, s, name);
    }
    if Size(name) < views.byteLimit {
      ParameterReached(views, source, s, name);
    } else {
      StopLeads(views, source, s, counted, StructuralRecovery,
                Arrived(s.(escaped := false), ParameterStretch(views, name, s.offset, Deps(s.guards), s.quoted)));
    }
  }

  lemma ParameterReached(views: Views, source: string, s: Scanner, name: string)
    requires Runs(source, s) && Within(views, s) && !s.comment && s.offset + |name| + 2 <= |source|
    requires s.steps + 1 <= StepLimit ==> Next(views, source, s) == PassParameter(views, Counted(s), name)
    ensures var t := Arrived(s.(escaped := false), ParameterStretch(views, name, s.offset, Deps(s.guards), s.quoted));
            Runs(source, t) && Leads(views, source, s, t, true)
  {
    var atom := ParameterAtom(views, name, s.offset, s.offset + |name| + 2, Deps(s.guards), s.quoted);
    PassIsAdvance(views, s, name);
    StepLeads(views, source, s, AtParameter(views, Counted(s), name), atom, PassParameter(views, Counted(s), name));
    ParameterArrives(views, s, name);
  }

  /** Outside quotes and comments. */
  predicate Level(source: string, s: Scanner) {
    Runs(source, s) && !s.quoted && !s.comment && !s.escaped
  }

  /** The scanner inside a guard whose header takes `size` characters. */
  function Entered(views: Views, s: Scanner, negated: bool, name: string, size: nat): Scanner {
    s.(guards := s.guards + [Open(s.active, negated, LowerText(name))], active := s.active && Holds(views, negated, name),
       offset := s.offset + size)
  }

  lemma ScanGuardFinds(views: Views, source: string, s: Scanner, negated: bool, name: string)
    requires Stands(source, s.offset, Header(negated, name) + "]")
    requires ']' !in name && (negated || name == [] || name[0] != '!')
    ensures OpensGuard(source, s.offset)
    ensures ScanGuard(views, source, s) ==
            if Size(Header(negated, name)) < views.byteLimit then
              Entered(views, s, negated, name, |Header(negated, name)| + 1)
            else Stop(s, StructuralRecovery)
  {
    var header := Header(negated, name);
    StandsAt(source, s.offset, header + "]", 0);
    StandsAt(source, s.offset, header + "]", 1);
    assert header + "]" == header + [']'];
    Delimited(source, s.offset, header, ']', views.byteLimit);
    ConditionReads(negated, name);
    var remaining := source[s.offset..];
    assert remaining[2..|header|] == remaining[..|header|][2..] == header[2..];
  }

  lemma ConditionReads(negated: bool, name: string)
    requires negated || name == [] || name[0] != '!'
    ensures Condition(Header(negated, name)[2..]) == (negated, name)
  {
    var condition := (if negated then "!" else "") + name;
    assert Header(negated, name)[2..] == condition;
    if negated {
      assert condition[1..] == name;
    }
  }

  lemma HeaderLeads(views: Views, source: string, s: Scanner, negated: bool, name: string)
    requires Level(source, s) && Within(views, s)
    requires Stands(source, s.offset, Header(negated, name) + "]")
    requires ']' !in name && (negated || name == [] || name[0] != '!')
    ensures var t := Entered(views, Counted(s), negated, name, |Header(negated, name)| + 1);
            Runs(source, t) && Leads(views, source, s, t, Size(Header(negated, name)) < views.byteLimit)
            && Level(source, t) && t.guards != [] && t.offset == s.offset + |Header(negated, name)| + 1
  {
    var counted := Counted(s);
    var t := Entered(views, counted, negated, name, |Header(negated, name)| + 1);
    ScanGuardFinds(views, source, counted, negated, name);
    assert TokenAt(source, s) == HeaderToken;
    if Size(Header(negated, name)) >= views.byteLimit {
      StopLeads(views, source, s, counted, StructuralRecovery, t);
    }
  }

  function Closed(s: Scanner): Scanner
    requires s.guards != []
  {
    var last := |s.guards| - 1;
    s.(guards := s.guards[..last], active := s.guards[last].previous, offset := s.offset + 1)
  }

  lemma NextAtClose(views: Views, source: string, s: Scanner)
    requires Runs(source, s) && s.offset < |source| && s.steps + 1 <= StepLimit && TokenAt(source, s) == CloseToken
    ensures Next(views, source, s) == Closed(Counted(s))
  {
  }

  lemma CloseLeads(views: Views, source: string, s: Scanner)
    requires Runs(source, s) && s.offset < |source| && Within(views, s) && !s.comment && !s.quoted
    requires source[s.offset] == ']' && s.guards != []
    ensures Leads(views, source, s, Closed(Counted(s)), true)
  {
    assert TokenAt(source, s) == CloseToken;
    if s.steps + 1 <= StepLimit {
      NextAtClose(views, source, s);
    }
  }

  // ----- Quotes -----

  function PartSteps(part: Part): nat {
    if part.Char? || part.Hole? then 1 else 2
  }

  function PartStretch(views: Views, part: Part, at: nat, deps: set<string>): Stretch {
    match part
    case Char(c) => LiteralStretch(c, at, deps)
    case Escape(c) => Join(LiteralStretch('\\', at, deps), LiteralStretch(c, at + 1, deps))
    case Hole(name) => ParameterStretch(views, name, at, deps, true)
    case EscapedHole(name) => Join(LiteralStretch('\\', at, deps), ParameterStretch(views, name, at + 1, deps, true))
  }

  function PartsStretch(views: Views, parts: seq<Part>, at: nat, deps: set<string>): Stretch {
    if parts == [] then Nothing
    else
      var first := PartStretch(views, parts[0], at, deps);
      Join(first, PartsStretch(views, parts[1..], at + first.size, deps))
  }

  lemma PartMeans(views: Views, part: Part, at: nat, deps: set<string>)
    ensures var stretch := PartStretch(views, part, at, deps);
            && stretch.size == |PrintPart(part)| && stretch.cost == PartSteps(part)
            && stretch.atoms == PartAtoms(views, part, at, deps) && stretch.reasons == PartReads(views, part)
            && stretch.reach == PartReaches(views, part)
  {
    if part.EscapedHole? {
      assert |PrintPart(part)| == |part.name| + 3;
    }
  }

  /** The stretch of the parts is what they print and mean. */
  lemma PartsMean(views: Views, parts: seq<Part>, at: nat, deps: set<string>)
    ensures var stretch := PartsStretch(views, parts, at, deps);
            && stretch.size == |PrintParts(parts)| && stretch.cost == PartsCost(parts)
            && stretch.atoms == PartsAtoms(views, parts, at, deps) && stretch.reasons == PartsReads(views, parts)
            && stretch.reach == PartsReach(views, parts)
  {
    PartsSize(views, parts, at, deps);
    PartsEmit(views, parts, at, deps);
    PartsCount(views, parts, at, deps);
  }

  lemma {:induction false} PartsSize(views: Views, parts: seq<Part>, at: nat, deps: set<string>)
    ensures PartsStretch(views, parts, at, deps).size == |PrintParts(parts)|
    decreases |parts|
  {
    if parts != [] {
      PartMeans(views, parts[0], at, deps);
      PartsSize(views, parts[1..], at + |PrintPart(parts[0])|, deps);
    }
  }

  lemma {:induction false} PartsEmit(views: Views, parts: seq<Part>, at: nat, deps: set<string>)
    ensures PartsStretch(views, parts, at, deps).atoms == PartsAtoms(views, parts, at, deps)
    decreases |parts|
  {
    if parts != [] {
      var first := PartStretch(views, parts[0], at, deps);
      var behind := at + first.size;
      PartMeans(views, parts[0], at, deps);
      PartsEmit(views, parts[1..], behind, deps);
      PartsEmitCons(views, parts, at, deps, first, behind, PartsStretch(views, parts[1..], behind, deps).atoms);
    }
  }

  lemma {:induction false} PartsEmitCons(views: Views, parts: seq<Part>, at: nat, deps: set<string>, first: Stretch, behind: nat, rest: seq<Atom>)
    requires parts != [] && first.atoms == PartAtoms(views, parts[0], at, deps)
    requires behind == at + |PrintPart(parts[0])| && rest == PartsAtoms(views, parts[1..], behind, deps)
    ensures first.atoms + rest == PartsAtoms(views, parts, at, deps)
  {
  }

  lemma {:induction false} PartsCount(views: Views, parts: seq<Part>, at: nat, deps: set<string>)
    ensures var stretch := PartsStretch(views, parts, at, deps);
            && stretch.cost == PartsCost(parts) && stretch.reasons == PartsReads(views, parts)
            && stretch.reach == PartsReach(views, parts)
    decreases |parts|
  {
    if parts != [] {
      var first := PartStretch(views, parts[0], at, deps);
      PartMeans(views, parts[0], at, deps);
      PartsCount(views, parts[1..], at + first.size, deps);
      PartsCountCons(views, parts, first, PartsStretch(views, parts[1..], at + first.size, deps));
    }
  }

  lemma PartsCountCons(views: Views, parts: seq<Part>, first: Stretch, rest: Stretch)
    requires parts != [] && first.cost == PartSteps(parts[0]) && first.reasons == PartReads(views, parts[0])
    requires first.reach == PartReaches(views, parts[0])
    requires rest.cost == PartsCost(parts[1..]) && rest.reasons == PartsReads(views, parts[1..])
    requires rest.reach == PartsReach(views, parts[1..])
    ensures var whole := Join(first, rest);
            && whole.cost == PartsCost(parts) && whole.reasons == PartsReads(views, parts)
            && whole.reach == PartsReach(views, parts)
  {
    ReachSplits(views, parts);
  }

  lemma ReachSplits(views: Views, parts: seq<Part>)
    requires parts != []
    ensures PartsReach(views, parts) == (PartReaches(views, parts[0]) && PartsReach(views, parts[1..]))
  {
    assert forall part :: part in parts <==> part == parts[0] || part in parts[1..];
  }

  /** Inside a quote, before the next part. */
  predicate InQuote(source: string, s: Scanner) {
    Runs(source, s) && s.quoted && !s.comment && !s.escaped
  }

  /** A backslash is passed over; the next character is then escaped. */
  lemma BackslashPasses(views: Views, source: string, s: Scanner)
    requires InQuote(source, s) && s.offset < |source| && Within(views, s) && source[s.offset] == '\\'
    ensures var t := Arrived(s, LiteralStretch('\\', s.offset, Deps(s.guards))).(escaped := true);
            Runs(source, t) && Leads(views, source, s, t, true)
  {
    assert Lexed(s, '\\') == s.(escaped := true);
    EscapedCommutes(s, LiteralStretch('\\', s.offset, Deps(s.guards)));
    CharPasses(views, source, s);
  }

  lemma EscapedCommutes(s: Scanner, stretch: Stretch)
    ensures Arrived(s.(escaped := true), stretch) == Arrived(s, stretch).(escaped := true)
  {
  }

  lemma EscapePasses(views: Views, source: string, s: Scanner, c: char)
    requires InQuote(source, s) && Within(views, s) && Stands(source, s.offset, ['\\', c]) && c != '$'
    ensures Passes(views, source, s, PartStretch(views, Escape(c), s.offset, Deps(s.guards)))
  {
    var slash := LiteralStretch('\\', s.offset, Deps(s.guards));
    StandsAt(source, s.offset, ['\\', c], 0);
    StandsAt(source, s.offset, ['\\', c], 1);
    BackslashPasses(views, source, s);
    var t := Arrived(s, slash).(escaped := true);
    var literal := LiteralStretch(c, s.offset + 1, Deps(s.guards));
    if Within(views, t) {
      CharPasses(views, source, t);
      assert Lexed(t, c) == Arrived(s, slash);
    }
    SequenceThrough(views, source, s, t, slash, literal, PartStretch(views, Escape(c), s.offset, Deps(s.guards)));
  }

  lemma EscapedHolePasses(views: Views, source: string, s: Scanner, name: string)
    requires InQuote(source, s) && Within(views, s) && Stands(source, s.offset, "\\$" + name + "$") && '$' !in name
    ensures Passes(views, source, s, PartStretch(views, EscapedHole(name), s.offset, Deps(s.guards)))
  {
    var slash := LiteralStretch('\\', s.offset, Deps(s.guards));
    StandsAt(source, s.offset, "\\$" + name + "$", 0);
    assert "\\$" + name + "$" == "\\" + ("$" + name + "$");
    StandsSplits(source, s.offset, "\\", "$" + name + "$");
    BackslashPasses(views, source, s);
    var t := Arrived(s, slash).(escaped := true);
    var hole := ParameterStretch(views, name, s.offset + 1, Deps(s.guards), true);
    if Within(views, t) {
      ParameterPasses(views, source, t, name);
      assert t.(escaped := false) == Arrived(s, slash);
    }
    SequenceThrough(views, source, s, t, slash, hole, PartStretch(views, EscapedHole(name), s.offset, Deps(s.guards)));
  }

  lemma CharPartPasses(views: Views, source: string, s: Scanner, c: char)
    requires InQuote(source, s) && s.offset < |source| && Within(views, s) && source[s.offset] == c && PartFormed(Char(c))
    ensures Passes(views, source, s, PartStretch(views, Char(c), s.offset, Deps(s.guards)))
  {
    assert Lexed(s, c) == s;
    CharPasses(views, source, s);
  }

  lemma HolePartPasses(views: Views, source: string, s: Scanner, name: string)
    requires InQuote(source, s) && Within(views, s) && Stands(source, s.offset, "$" + name + "$") && '$' !in name
    ensures Passes(views, source, s, PartStretch(views, Hole(name), s.offset, Deps(s.guards)))
  {
    assert s.(escaped := false) == s;
    ParameterPasses(views, source, s, name);
  }

  lemma PartPasses(views: Views, source: string, s: Scanner, part: Part)
    requires InQuote(source, s) && Within(views, s) && Stands(source, s.offset, PrintPart(part)) && PartFormed(part)
    ensures Passes(views, source, s, PartStretch(views, part, s.offset, Deps(s.guards)))
  {
    match part
    case Char(c) =>
      StandsAt(source, s.offset, [c], 0);
      CharPartPasses(views, source, s, c);
    case Hole(name) => HolePartPasses(views, source, s, name);
    case Escape(c) => EscapePasses(views, source, s, c);
    case EscapedHole(name) => EscapedHolePasses(views, source, s, name);
  }

  /** The scanner stands before the parts of a quote. */
  predicate PartsReady(source: string, s: Scanner, parts: seq<Part>) {
    && InQuote(source, s) && Stands(source, s.offset, PrintParts(parts))
    && PartsFormed(parts)
  }

  lemma PartsReadyBehind(source: string, s: Scanner, parts: seq<Part>, t: Scanner)
    requires PartsReady(source, s, parts) && parts != []
    requires t.offset == s.offset + |PrintPart(parts[0])| && t.quoted && !t.comment && !t.escaped && !t.stopped
    ensures Stands(source, s.offset, PrintPart(parts[0])) && PartFormed(parts[0])
    ensures PartsReady(source, t, parts[1..])
  {
    StandsFirst(source, s.offset, PrintPart(parts[0]), PrintParts(parts[1..]), PrintParts(parts));
  }

  lemma StandsFirst(source: string, at: nat, head: string, tail: string, whole: string)
    requires Stands(source, at, whole) && whole == head + tail
    ensures Stands(source, at, head) && Stands(source, at + |head|, tail) && |whole| == |head| + |tail|
  {
    StandsSplits(source, at, head, tail);
  }

  lemma ReadyForParts(views: Views, source: string, s: Scanner, parts: seq<Part>, deps: set<string>, first: Stretch, t: Scanner,
                      whole: Stretch)
    requires PartsReady(source, s, parts) && parts != [] && t == Arrived(s, first)
    requires first == PartStretch(views, parts[0], s.offset, deps) && whole == PartsStretch(views, parts, s.offset, deps)
    ensures Stands(source, s.offset, PrintPart(parts[0])) && PartFormed(parts[0])
    ensures PartsReady(source, t, parts[1..]) && t.guards == s.guards && t.offset == s.offset + first.size
    ensures s.offset + whole.size <= |source|
  {
    PartMeans(views, parts[0], s.offset, deps);
    PartsSize(views, parts, s.offset, deps);
    PartsReadyBehind(source, s, parts, t);
  }

  lemma PartsUnroll(views: Views, parts: seq<Part>, at: nat, deps: set<string>, first: Stretch, behind: nat, whole: Stretch,
                    others: Stretch)
    requires parts != [] && first == PartStretch(views, parts[0], at, deps) && behind == at + first.size
    requires whole == PartsStretch(views, parts, at, deps) && others == PartsStretch(views, parts[1..], behind, deps)
    ensures whole == Join(first, others)
  {
  }

  lemma {:induction false} PartsPass(views: Views, source: string, s: Scanner, parts: seq<Part>, deps: set<string>,
                                     whole: Stretch)
    requires PartsReady(source, s, parts) && Within(views, s)
    requires deps == Deps(s.guards) && whole == PartsStretch(views, parts, s.offset, deps)
    ensures Passes(views, source, s, whole)
    decreases |parts|
  {
    if parts == [] {
      NothingPasses(views, source, s);
    } else {
      var first := PartStretch(views, parts[0], s.offset, deps);
      var t := Arrived(s, first);
      ReadyForParts(views, source, s, parts, deps, first, t, whole);
      var behind := t.offset;
      var others := PartsStretch(views, parts[1..], behind, deps);
      PartsUnroll(views, parts, s.offset, deps, first, behind, whole, others);
      if first.reach && Within(views, t) {
        PartsPass(views, source, t, parts[1..], deps, others);
      }
      PartThenOthers(views, source, s, parts[0], deps, first, t, others, whole);
    }
  }

  lemma PartThenOthers(views: Views, source: string, s: Scanner, part: Part, deps: set<string>, first: Stretch, t: Scanner,
                       others: Stretch, whole: Stretch)
    requires InQuote(source, s) && Within(views, s) && Stands(source, s.offset, PrintPart(part)) && PartFormed(part)
    requires deps == Deps(s.guards) && first == PartStretch(views, part, s.offset, deps) && t == Arrived(s, first)
    requires Runs(source, t) && (first.reach && Within(views, t) ==> Passes(views, source, t, others))
    requires whole == Join(first, others) && s.offset + whole.size <= |source|
    ensures Passes(views, source, s, whole)
  {
    PartPasses(views, source, s, part);
    Sequence(views, source, s, first, others, whole);
  }

  lemma QuoteCommutes(s: Scanner, stretch: Stretch, quoted: bool)
    ensures Arrived(s.(quoted := quoted), stretch) == Arrived(s, stretch).(quoted := quoted)
  {
  }

  lemma CommentCommutes(s: Scanner, stretch: Stretch, comment: bool)
    ensures Arrived(s.(comment := comment), stretch) == Arrived(s, stretch).(comment := comment)
  {
  }

  function OpenedQuote(views: Views, parts: seq<Part>, at: nat, deps: set<string>): Stretch {
    Join(LiteralStretch('"', at, deps), PartsStretch(views, parts, at + 1, deps))
  }

  function Quotation(views: Views, parts: seq<Part>, at: nat, deps: set<string>): Stretch {
    var open := OpenedQuote(views, parts, at, deps);
    Join(open, LiteralStretch('"', at + open.size, deps))
  }

  /** The scanner gets past an opening mark and what follows it, and is then inside the quote. */
  ghost predicate QuoteOpened(views: Views, source: string, s: Scanner, open: Stretch, size: nat)
    requires Runs(source, s)
  {
    && open.size == size && Runs(source, Arrived(s, open).(quoted := true))
    && Leads(views, source, s, Arrived(s, open).(quoted := true), open.reach)
  }

  /** From an opening quote to before the closing one. */
  lemma QuoteOpens(views: Views, source: string, s: Scanner, parts: seq<Part>, inner: string, open: Stretch)
    requires Level(source, s) && Within(views, s) && Stands(source, s.offset, "\"" + inner)
    requires PartsFormed(parts) && inner == PrintParts(parts) && open == OpenedQuote(views, parts, s.offset, Deps(s.guards))
    ensures QuoteOpened(views, source, s, open, |inner| + 1)
  {
    var mark := LiteralStretch('"', s.offset, Deps(s.guards));
    StandsSplits(source, s.offset, "\"", inner);
    StandsAt(source, s.offset, "\"", 0);
    CharPasses(views, source, s);
    assert Lexed(s, '"') == s.(quoted := true);
    QuoteCommutes(s, mark, true);
    PartsMean(views, parts, s.offset + 1, Deps(s.guards));
    var t := Arrived(s, mark).(quoted := true);
    if Within(views, t) {
      PartsPass(views, source, t, parts, Deps(t.guards), PartsStretch(views, parts, t.offset, Deps(t.guards)));
    }
    QuoteRuns(views, source, s, mark, PartsStretch(views, parts, s.offset + 1, Deps(s.guards)));
  }

  lemma QuoteRuns(views: Views, source: string, s: Scanner, mark: Stretch, inner: Stretch)
    requires Runs(source, s) && s.offset + mark.size + inner.size <= |source| && mark.reach
    requires Leads(views, source, s, Arrived(s, mark).(quoted := true), true)
    requires var t := Arrived(s, mark).(quoted := true); Within(views, t) ==> Passes(views, source, t, inner)
    ensures Leads(views, source, s, Arrived(s, Join(mark, inner)).(quoted := true), inner.reach)
  {
    ArrivedAgain(s, mark, inner);
    QuoteCommutes(Arrived(s, mark), inner, true);
    LeadsOn(views, source, s, Arrived(s, mark).(quoted := true), Arrived(s, Join(mark, inner)).(quoted := true), true,
            inner.reach);
  }

  /** Where the parts of a printed quotation stand. */
  lemma QuoteText(source: string, at: nat, inner: string)
    requires Stands(source, at, "\"" + inner + "\"")
    ensures Stands(source, at, "\"" + inner) && at + |inner| + 1 < |source| && source[at + |inner| + 1] == '"'
  {
    StandsSplits(source, at, "\"" + inner, "\"");
    StandsAt(source, at + |"\"" + inner|, "\"", 0);
  }

  lemma QuotePasses(views: Views, source: string, s: Scanner, parts: seq<Part>, inner: string, open: Stretch, whole: Stretch)
    requires Level(source, s) && Within(views, s) && Stands(source, s.offset, "\"" + inner + "\"")
    requires PartsFormed(parts) && inner == PrintParts(parts) && open == OpenedQuote(views, parts, s.offset, Deps(s.guards))
    requires whole == Join(open, LiteralStretch('"', s.offset + open.size, Deps(s.guards)))
    ensures Passes(views, source, s, whole)
  {
    QuoteText(source, s.offset, inner);
    QuoteOpens(views, source, s, parts, inner, open);
    QuoteAround(views, source, s, open, inner, whole);
  }

  lemma QuoteAround(views: Views, source: string, s: Scanner, open: Stretch, inner: string, whole: Stretch)
    requires Level(source, s) && Stands(source, s.offset, "\"" + inner + "\"")
    requires QuoteOpened(views, source, s, open, |inner| + 1)
    requires whole == Join(open, LiteralStretch('"', s.offset + open.size, Deps(s.guards)))
    ensures Passes(views, source, s, whole)
  {
    QuoteText(source, s.offset, inner);
    QuoteCloses(views, source, s, open, |inner| + 1, whole);
  }

  lemma QuoteCloses(views: Views, source: string, s: Scanner, open: Stretch, size: nat, whole: Stretch)
    requires Level(source, s) && QuoteOpened(views, source, s, open, size)
    requires s.offset + size < |source| && source[s.offset + size] == '"'
    requires whole == Join(open, LiteralStretch('"', s.offset + open.size, Deps(s.guards)))
    ensures Passes(views, source, s, whole)
  {
    ArrivedAgain(s, open, LiteralStretch('"', s.offset + open.size, Deps(s.guards)));
    assert Lexed(Arrived(s, open).(quoted := true), '"') == Arrived(s, open);
    CharFollows(views, source, s, Arrived(s, open).(quoted := true), open.reach, Arrived(s, whole));
  }

  // ----- Comments -----

  function LiteralsStretch(text: string, at: nat, deps: set<string>): Stretch {
    Stretch(|text|, |text|, LiteralAtoms(text, at, deps), {}, true)
  }

  lemma LiteralsAppend(text: string, c: char, at: nat, deps: set<string>)
    ensures LiteralsStretch(text + [c], at, deps) == Join(LiteralsStretch(text, at, deps), LiteralStretch(c, at + |text|, deps))
  {
  }

  /** From a comment's mark on everything is literal until the line ends. */
  lemma {:induction false} CommentRuns(views: Views, source: string, s: Scanner, text: string)
    requires Level(source, s) && Within(views, s) && Stands(source, s.offset, text)
    requires text != [] && text[0] == '#' && '\n' !in text
    ensures var t := Arrived(s, LiteralsStretch(text, s.offset, Deps(s.guards))).(comment := true);
            Runs(source, t) && Leads(views, source, s, t, true)
    decreases |text|
  {
    var front, c := text[..|text| - 1], text[|text| - 1];
    assert text == front + [c];
    StandsAt(source, s.offset, text, |text| - 1);
    if front == [] {
      CharPasses(views, source, s);
      MarkArrives(s);
    } else {
      StandsSplits(source, s.offset, front, [c]);
      CommentRuns(views, source, s, front);
      CommentArrives(s, front, c);
      CharFollows(views, source, s, Arrived(s, LiteralsStretch(front, s.offset, Deps(s.guards))).(comment := true), true,
                  Arrived(s, LiteralsStretch(text, s.offset, Deps(s.guards))).(comment := true));
    }
  }

  lemma MarkArrives(s: Scanner)
    requires !s.quoted && !s.comment
    ensures Arrived(Lexed(s, '#'), LiteralStretch('#', s.offset, Deps(s.guards))) ==
            Arrived(s, LiteralsStretch(['#'], s.offset, Deps(s.guards))).(comment := true)
  {
    CommentCommutes(s, LiteralStretch('#', s.offset, Deps(s.guards)), true);
    assert LiteralsStretch(['#'], s.offset, Deps(s.guards)) == LiteralStretch('#', s.offset, Deps(s.guards));
  }

  /** One more plain character after a scanner that is reached. */
  lemma CharFollows(views: Views, source: string, s: Scanner, t: Scanner, reach: bool, u: Scanner)
    requires Runs(source, s) && Runs(source, t) && t.offset < |source| && Plain(source, t)
    requires u == Arrived(Lexed(t, source[t.offset]), LiteralStretch(source[t.offset], t.offset, Deps(t.guards)))
    requires Extends(t, u) && Leads(views, source, s, t, reach)
    ensures Runs(source, u) && Leads(views, source, s, u, reach)
  {
    if reach && Within(views, t) {
      CharPasses(views, source, t);
    }
    LeadsOn(views, source, s, t, u, reach, true);
  }

  lemma CommentArrives(s: Scanner, front: string, c: char)
    ensures var deps := Deps(s.guards);
            var t := Arrived(s, LiteralsStretch(front, s.offset, deps)).(comment := true);
            var u := Arrived(s, LiteralsStretch(front + [c], s.offset, deps)).(comment := true);
            u == Arrived(t, LiteralStretch(c, s.offset + |front|, deps)) && Extends(t, u)
  {
    var deps := Deps(s.guards);
    var before, literal := LiteralsStretch(front, s.offset, deps), LiteralStretch(c, s.offset + |front|, deps);
    LiteralsAppend(front, c, s.offset, deps);
    ArrivedAgain(s, before, literal);
    CommentCommutes(Arrived(s, before), literal, true);
  }

  lemma CommentPasses(views: Views, source: string, s: Scanner, text: string)
    requires Level(source, s) && Within(views, s) && Stands(source, s.offset, "#" + text + "\n") && '\n' !in text
    ensures Passes(views, source, s, LiteralsStretch("#" + text + "\n", s.offset, Deps(s.guards)))
  {
    var body := "#" + text;
    StandsSplits(source, s.offset, body, "\n");
    StandsAt(source, s.offset + |body|, "\n", 0);
    CommentRuns(views, source, s, body);
    assert body + "\n" == body + ['\n'];
    LiteralsAppend(body, '\n', s.offset, Deps(s.guards));
    CommentEnds(views, source, s, LiteralsStretch(body, s.offset, Deps(s.guards)),
                LiteralsStretch(body + "\n", s.offset, Deps(s.guards)));
  }

  lemma CommentEnds(views: Views, source: string, s: Scanner, body: Stretch, whole: Stretch)
    requires Level(source, s) && s.offset + body.size < |source| && source[s.offset + body.size] == '\n' && body.reach
    requires Leads(views, source, s, Arrived(s, body).(comment := true), true)
    requires whole == Join(body, LiteralStretch('\n', s.offset + body.size, Deps(s.guards)))
    ensures Passes(views, source, s, whole)
  {
    var newline := LiteralStretch('\n', s.offset + body.size, Deps(s.guards));
    ArrivedAgain(s, body, newline);
    assert Lexed(Arrived(s, body).(comment := true), '\n') == Arrived(s, body);
    CharFollows(views, source, s, Arrived(s, body).(comment := true), true, Arrived(s, whole));
  }

  // ----- Trees -----

  /** A guard around a stretch: two more iterations, and no atoms unless it holds. */
  function AroundGuard(size: nat, holds: bool, reach: bool, inside: Stretch): Stretch {
    Stretch(size + 1 + inside.size + 1, 2 + inside.cost, if holds then inside.atoms else [], inside.reasons,
            reach && inside.reach)
  }

  function HeadStretch(views: Views, tree: Tree, at: nat, deps: set<string>): Stretch
    requires !tree.End?
    decreases tree, 0
  {
    match tree
    case Text(c, _) => LiteralStretch(c, at, deps)
    case Parameter(name, _) => ParameterStretch(views, name, at, deps, false)
    case Guard(negated, name, body, _) =>
      var size := |Header(negated, name)|;
      AroundGuard(size, Holds(views, negated, name), Size(Header(negated, name)) < views.byteLimit,
                  TreeStretch(views, body, at + size + 1, deps + {LowerText(name)}))
    case Quote(parts, _) => Quotation(views, parts, at, deps)
    case Comment(text, _) => LiteralsStretch("#" + text + "\n", at, deps)
  }

  function TreeStretch(views: Views, tree: Tree, at: nat, deps: set<string>): Stretch
    decreases tree, 1
  {
    if tree.End? then Nothing
    else
      var head := HeadStretch(views, tree, at, deps);
      Join(head, TreeStretch(views, tree.tail, at + head.size, deps))
  }

  lemma {:induction false} HeadSize(views: Views, tree: Tree, at: nat, deps: set<string>)
    requires !tree.End?
    ensures HeadStretch(views, tree, at, deps).size == |PrintHead(tree)|
    decreases tree, 0
  {
    match tree
    case Text(_, _) =>
    case Parameter(_, _) =>
    case Guard(negated, name, body, _) =>
      TreeSize(views, body, at + |Header(negated, name)| + 1, deps + {LowerText(name)});
      assert |Header(negated, name) + "]" + Print(body) + "]"| == |Header(negated, name)| + |Print(body)| + 2;
    case Quote(parts, _) =>
      QuotationEmits(views, parts, at, deps);
      assert |"\"" + PrintParts(parts) + "\""| == |PrintParts(parts)| + 2;
    case Comment(text, _) => assert |"#" + text + "\n"| == |text| + 2;
  }

  lemma {:induction false} TreeSize(views: Views, tree: Tree, at: nat, deps: set<string>)
    ensures TreeStretch(views, tree, at, deps).size == |Print(tree)|
    decreases tree, 1
  {
    if !tree.End? {
      HeadSize(views, tree, at, deps);
      TreeSize(views, tree.tail, at + |PrintHead(tree)|, deps);
    }
  }

  /** The stretch of a tree emits what the tree means. */
  lemma {:induction false} TreeEmitsMeaning(views: Views, tree: Tree, at: nat, deps: set<string>)
    ensures TreeStretch(views, tree, at, deps).atoms == Eval(views, tree, at, deps)
    decreases tree, 1
  {
    if !tree.End? {
      HeadSize(views, tree, at, deps);
      HeadEmitsMeaning(views, tree, at, deps);
      TreeEmitsMeaning(views, tree.tail, at + |PrintHead(tree)|, deps);
    }
  }

  ghost predicate HeadMeant(views: Views, tree: Tree, at: nat, deps: set<string>)
    requires !tree.End?
  {
    HeadStretch(views, tree, at, deps).atoms == EvalHead(views, tree, at, deps)
  }

  lemma {:induction false} HeadEmitsMeaning(views: Views, tree: Tree, at: nat, deps: set<string>)
    requires !tree.End?
    ensures HeadMeant(views, tree, at, deps)
    decreases tree, 0
  {
    match tree
    case Guard(negated, name, body, _) =>
      TreeEmitsMeaning(views, body, at + |Header(negated, name)| + 1, deps + {LowerText(name)});
      GuardEmits(views, tree, at, deps);
    case Quote(_, _) => QuoteEmits(views, tree, at, deps);
    case _ => PlainEmits(views, tree, at, deps);
  }

  lemma PlainEmits(views: Views, tree: Tree, at: nat, deps: set<string>)
    requires tree.Text? || tree.Parameter? || tree.Comment?
    ensures HeadMeant(views, tree, at, deps)
  {
  }

  lemma QuoteEmits(views: Views, tree: Tree, at: nat, deps: set<string>)
    requires tree.Quote?
    ensures HeadMeant(views, tree, at, deps)
  {
    QuotationEmits(views, tree.parts, at, deps);
  }

  lemma GuardEmits(views: Views, tree: Tree, at: nat, deps: set<string>)
    requires tree.Guard?
    requires var from, below := at + |Header(tree.negated, tree.name)| + 1, deps + {LowerText(tree.name)};
             TreeStretch(views, tree.body, from, below).atoms == Eval(views, tree.body, from, below)
    ensures HeadMeant(views, tree, at, deps)
  {
  }

  /** A quotation as one stretch. */
  lemma QuotationEmits(views: Views, parts: seq<Part>, at: nat, deps: set<string>)
    ensures Quotation(views, parts, at, deps) ==
            Stretch(2 + |PrintParts(parts)|, 2 + PartsCost(parts), QuotationAtoms(views, parts, at, deps),
                    PartsReads(views, parts), PartsReach(views, parts))
  {
    var inner := PartsStretch(views, parts, at + 1, deps);
    PartsMean(views, parts, at + 1, deps);
    QuotationJoins(views, parts, at, deps, inner);
    QuotationAtomsAre(views, parts, at, deps, inner);
    BetweenCounts(LiteralAtom('"', at, deps), inner, LiteralAtom('"', at + 1 + inner.size, deps));
  }

  lemma QuotationAtomsAre(views: Views, parts: seq<Part>, at: nat, deps: set<string>, inner: Stretch)
    requires inner.size == |PrintParts(parts)| && inner.atoms == PartsAtoms(views, parts, at + 1, deps)
    ensures Between(LiteralAtom('"', at, deps), inner, LiteralAtom('"', at + 1 + inner.size, deps)).atoms ==
            QuotationAtoms(views, parts, at, deps)
  {
  }

  lemma QuotationJoins(views: Views, parts: seq<Part>, at: nat, deps: set<string>, inner: Stretch)
    requires inner == PartsStretch(views, parts, at + 1, deps)
    ensures Quotation(views, parts, at, deps) ==
            Between(LiteralAtom('"', at, deps), inner, LiteralAtom('"', at + 1 + inner.size, deps))
  {
  }

  /** A stretch between two marks. */
  function Between(first: Atom, inner: Stretch, last: Atom): Stretch {
    Join(Join(Stretch(1, 1, [first], {}, true), inner), Stretch(1, 1, [last], {}, true))
  }

  lemma BetweenCounts(first: Atom, inner: Stretch, last: Atom)
    ensures var whole := Between(first, inner, last);
            && whole.size == 2 + inner.size && whole.cost == 2 + inner.cost && whole.reasons == inner.reasons
            && whole.reach == inner.reach
  {
    assert {} + inner.reasons + {} == inner.reasons;
  }

  /** Its other fields: iterations, recorded reasons, and whether its headers are in reach. */
  lemma TreeUnroll(views: Views, tree: Tree, at: nat, deps: set<string>, head: Stretch, rest: Stretch)
    requires !tree.End? && head == HeadStretch(views, tree, at, deps)
    requires rest == TreeStretch(views, tree.tail, at + head.size, deps)
    ensures TreeStretch(views, tree, at, deps) == Join(head, rest)
  {
  }

  lemma {:induction false} TreeCounts(views: Views, tree: Tree, at: nat, deps: set<string>)
    ensures var stretch := TreeStretch(views, tree, at, deps);
            && stretch.cost == Cost(tree) && stretch.reasons == TreeReads(views, tree)
            && stretch.reach == Reach(views, tree)
    decreases tree, 1
  {
    if !tree.End? {
      var head := HeadStretch(views, tree, at, deps);
      HeadCounts(views, tree, at, deps);
      var rest := TreeStretch(views, tree.tail, at + head.size, deps);
      TreeCounts(views, tree.tail, at + head.size, deps);
      TreeUnroll(views, tree, at, deps, head, rest);
      TreeCountsCons(views, tree, head, rest);
    }
  }

  lemma TreeCountsCons(views: Views, tree: Tree, head: Stretch, rest: Stretch)
    requires !tree.End? && head.cost == HeadCost(tree) && head.reasons == HeadReads(views, tree)
    requires head.reach == HeadReach(views, tree)
    requires rest.cost == Cost(tree.tail) && rest.reasons == TreeReads(views, tree.tail) && rest.reach == Reach(views, tree.tail)
    ensures var whole := Join(head, rest);
            && whole.cost == Cost(tree) && whole.reasons == TreeReads(views, tree) && whole.reach == Reach(views, tree)
  {
  }

  lemma {:induction false} HeadCounts(views: Views, tree: Tree, at: nat, deps: set<string>)
    requires !tree.End?
    ensures var stretch := HeadStretch(views, tree, at, deps);
            && stretch.cost == HeadCost(tree) && stretch.reasons == HeadReads(views, tree)
            && stretch.reach == HeadReach(views, tree)
    decreases tree, 0
  {
    match tree
    case Guard(negated, name, body, _) =>
      TreeCounts(views, body, at + |Header(negated, name)| + 1, deps + {LowerText(name)});
    case Quote(parts, _) => QuotationEmits(views, parts, at, deps);
    case Comment(text, _) => assert |"#" + text + "\n"| == |text| + 2;
    case _ =>
  }

  /** The text after a position does not open a bracket. */
  predicate Clear(source: string, at: nat) {
    at >= |source| || source[at] != '['
  }

  /** Where the parts of a printed guard stand. */
  lemma GuardText(source: string, at: nat, header: string, body: string)
    requires Stands(source, at, header + "]" + body + "]")
    ensures at + |header| + |body| + 2 <= |source|
    ensures Stands(source, at, header + "]") && Stands(source, at + |header| + 1, body)
    ensures source[at + |header| + 1 + |body|] == ']'
  {
    StandsSplits(source, at, header + "]" + body, "]");
    StandsSplits(source, at, header + "]", body);
    StandsAt(source, at + |header + "]" + body|, "]", 0);
  }

  /** From before a guard, through its opened state and its body, to behind its end. */
  lemma GuardThrough(views: Views, source: string, s: Scanner, t: Scanner, inside: Stretch, reach: bool, whole: Stretch)
    requires Runs(source, s) && Level(source, t) && t.offset + inside.size < |source|
    requires source[t.offset + inside.size] == ']' && t.guards != []
    requires Leads(views, source, s, t, reach) && whole.reach == (reach && inside.reach)
    requires Within(views, t) ==> Passes(views, source, t, inside)
    requires Closed(Counted(Arrived(t, inside))) == Arrived(s, whole)
    ensures Passes(views, source, s, whole)
  {
    ArrivedExtends(t, inside);
    LeadsOn(views, source, s, t, Arrived(t, inside), reach, inside.reach);
    GuardCloses(views, source, s, Arrived(t, inside), reach && inside.reach, whole);
  }

  lemma GuardCloses(views: Views, source: string, s: Scanner, u: Scanner, reach: bool, whole: Stretch)
    requires Runs(source, s) && Level(source, u) && u.offset < |source| && source[u.offset] == ']' && u.guards != []
    requires Leads(views, source, s, u, reach) && reach == whole.reach
    requires Closed(Counted(u)) == Arrived(s, whole)
    ensures Passes(views, source, s, whole)
  {
    if reach && Within(views, u) {
      CloseLeads(views, source, u);
    }
    assert Extends(u, Closed(Counted(u)));
    LeadsOn(views, source, s, u, Closed(Counted(u)), reach, true);
  }

  lemma ArrivedExtends(s: Scanner, stretch: Stretch)
    ensures Extends(s, Arrived(s, stretch))
  {
  }

  lemma DepsAppend(guards: seq<Open>, open: Open)
    ensures Deps(guards + [open]) == Deps(guards) + {open.name}
  {
    assert forall g :: g in guards + [open] <==> g in guards || g == open;
  }

  /** Behind a guard the scanner is where the stretch around the guard's body arrives. */
  lemma GuardArrives(views: Views, s: Scanner, negated: bool, name: string, size: nat, reach: bool, inside: Stretch)
    ensures var t := Entered(views, Counted(s), negated, name, size + 1);
            && Deps(t.guards) == Deps(s.guards) + {LowerText(name)}
            && Closed(Counted(Arrived(t, inside))) ==
               Arrived(s, AroundGuard(size, Holds(views, negated, name), reach, inside))
  {
    DepsAppend(s.guards, Open(s.active, negated, LowerText(name)));
  }

  /** What a tree prints next, when something does, opens a bracket only if the tree begins with one. */
  lemma PrintsFirst(tree: Tree, guarded: bool)
    requires Formed(tree, guarded) && !(tree.Text? && tree.c == '[') && !tree.Guard? && !tree.End?
    ensures Print(tree) != [] && Print(tree)[0] != '['
  {
  }

  lemma TextPasses(views: Views, source: string, s: Scanner, c: char, tail: Tree)
    requires Level(source, s) && Within(views, s) && Stands(source, s.offset, [c] + Print(tail))
    requires Formed(Text(c, tail), s.guards != []) && Clear(source, s.offset + 1 + |Print(tail)|)
    ensures Passes(views, source, s, LiteralStretch(c, s.offset, Deps(s.guards)))
  {
    StandsAt(source, s.offset, [c] + Print(tail), 0);
    if c == '[' && !tail.End? {
      PrintsFirst(tail, s.guards != []);
      StandsAt(source, s.offset, [c] + Print(tail), 1);
    }
    assert Plain(source, s);
    assert Lexed(s, c) == s;
    CharPasses(views, source, s);
  }

  lemma ParameterFormPasses(views: Views, source: string, s: Scanner, name: string)
    requires Level(source, s) && Within(views, s) && Stands(source, s.offset, "$" + name + "$") && '$' !in name
    ensures Passes(views, source, s, ParameterStretch(views, name, s.offset, Deps(s.guards), false))
  {
    assert s.(escaped := false) == s;
    ParameterPasses(views, source, s, name);
  }

  /** The scanner stands before a well-formed tree. */
  predicate Ready(source: string, s: Scanner, tree: Tree) {
    && Level(source, s) && Stands(source, s.offset, Print(tree))
    && Formed(tree, s.guards != []) && Clear(source, s.offset + |Print(tree)|)
  }

  lemma ReadyForTail(views: Views, source: string, s: Scanner, tree: Tree, head: Stretch)
    requires Ready(source, s, tree) && !tree.End? && head == HeadStretch(views, tree, s.offset, Deps(s.guards))
    ensures Stands(source, s.offset, PrintHead(tree)) && Ready(source, Arrived(s, head), tree.tail)
    ensures var t := Arrived(s, head);
            TreeStretch(views, tree, s.offset, Deps(s.guards)) == Join(head, TreeStretch(views, tree.tail, t.offset, Deps(t.guards)))
    ensures s.offset + TreeStretch(views, tree, s.offset, Deps(s.guards)).size <= |source|
  {
    HeadSize(views, tree, s.offset, Deps(s.guards));
    TreeSize(views, tree, s.offset, Deps(s.guards));
    ReadyBehind(source, s, tree, Arrived(s, head));
  }

  lemma ReadyBehind(source: string, s: Scanner, tree: Tree, t: Scanner)
    requires Ready(source, s, tree) && !tree.End?
    requires t.offset == s.offset + |PrintHead(tree)| && t.guards == s.guards
    requires !t.stopped && !t.quoted && !t.comment && !t.escaped
    ensures Stands(source, s.offset, PrintHead(tree)) && Ready(source, t, tree.tail)
  {
    StandsFirst(source, s.offset, PrintHead(tree), Print(tree.tail), Print(tree));
    TailIsFormed(tree, s.guards != []);
  }

  lemma TailIsFormed(tree: Tree, guarded: bool)
    requires Formed(tree, guarded) && !tree.End?
    ensures Formed(tree.tail, guarded)
  {
  }

  /** The scanner passes over any well-formed template, emitting exactly what the template means. */
  lemma {:induction false} TreePasses(views: Views, source: string, s: Scanner, tree: Tree)
    requires Ready(source, s, tree) && Within(views, s)
    ensures Passes(views, source, s, TreeStretch(views, tree, s.offset, Deps(s.guards)))
    decreases tree, 1
  {
    if tree.End? {
      NothingPasses(views, source, s);
    } else {
      var head := HeadStretch(views, tree, s.offset, Deps(s.guards));
      ReadyForTail(views, source, s, tree, head);
      HeadPasses(views, source, s, tree);
      var t := Arrived(s, head);
      if head.reach && Within(views, t) {
        TreePasses(views, source, t, tree.tail);
      }
      Sequence(views, source, s, head, TreeStretch(views, tree.tail, t.offset, Deps(t.guards)),
               TreeStretch(views, tree, s.offset, Deps(s.guards)));
    }
  }

  lemma {:induction false} HeadPasses(views: Views, source: string, s: Scanner, tree: Tree)
    requires Ready(source, s, tree) && Within(views, s) && !tree.End? && Stands(source, s.offset, PrintHead(tree))
    ensures Passes(views, source, s, HeadStretch(views, tree, s.offset, Deps(s.guards)))
    decreases tree, 0
  {
    match tree
    case Text(c, tail) => TextPasses(views, source, s, c, tail);
    case Parameter(name, tail) => ParameterFormPasses(views, source, s, name);
    case Quote(parts, tail) =>
      QuotePasses(views, source, s, parts, PrintParts(parts), OpenedQuote(views, parts, s.offset, Deps(s.guards)),
                  Quotation(views, parts, s.offset, Deps(s.guards)));
    case Comment(text, tail) => CommentPasses(views, source, s, text);
    case Guard(negated, name, body, tail) =>
      BodyPasses(views, source, s, negated, name, body);
      GuardIsHead(views, s, negated, name, body, tail);
  }

  lemma GuardIsHead(views: Views, s: Scanner, negated: bool, name: string, body: Tree, tail: Tree)
    ensures var t := Entered(views, Counted(s), negated, name, |Header(negated, name)| + 1);
            HeadStretch(views, Guard(negated, name, body, tail), s.offset, Deps(s.guards)) ==
            AroundGuard(|Header(negated, name)|, Holds(views, negated, name),
                        Size(Header(negated, name)) < views.byteLimit,
                        TreeStretch(views, body, t.offset, Deps(t.guards)))
  {
    DepsAppend(s.guards, Open(s.active, negated, LowerText(name)));
  }

  lemma {:induction false} BodyPasses(views: Views, source: string, s: Scanner, negated: bool, name: string, body: Tree)
    requires Level(source, s) && Within(views, s)
    requires Stands(source, s.offset, Header(negated, name) + "]" + Print(body) + "]")
    requires ']' !in name && (negated || name == [] || name[0] != '!') && Formed(body, true)
    ensures var t := Entered(views, Counted(s), negated, name, |Header(negated, name)| + 1);
            Passes(views, source, s,
                   AroundGuard(|Header(negated, name)|, Holds(views, negated, name),
                               Size(Header(negated, name)) < views.byteLimit,
                               TreeStretch(views, body, t.offset, Deps(t.guards))))
    decreases body, 2
  {
    var t := Entered(views, Counted(s), negated, name, |Header(negated, name)| + 1);
    var inside := TreeStretch(views, body, t.offset, Deps(t.guards));
    BodyReady(views, source, s, negated, name, body, t, inside);
    if Within(views, t) {
      TreePasses(views, source, t, body);
    }
    GuardPasses(views, source, s, negated, name, t, inside);
  }

  lemma {:induction false} BodyReady(views: Views, source: string, s: Scanner, negated: bool, name: string, body: Tree,
                                     t: Scanner, inside: Stretch)
    requires Level(source, s) && Stands(source, s.offset, Header(negated, name) + "]" + Print(body) + "]") && Formed(body, true)
    requires t == Entered(views, Counted(s), negated, name, |Header(negated, name)| + 1)
    requires inside == TreeStretch(views, body, t.offset, Deps(t.guards))
    ensures Stands(source, s.offset, Header(negated, name) + "]") && Runs(source, t) && Ready(source, t, body)
    ensures t.offset + inside.size < |source| && source[t.offset + inside.size] == ']'
  {
    TreeSize(views, body, t.offset, Deps(t.guards));
    EnteredReady(views, source, s, negated, name, Header(negated, name), body, Print(body), t);
  }

  /** Behind a guard's header the scanner stands before its body. */
  lemma EnteredReady(views: Views, source: string, s: Scanner, negated: bool, name: string, header: string, body: Tree,
                     text: string, t: Scanner)
    requires Level(source, s) && t == Entered(views, Counted(s), negated, name, |header| + 1)
    requires Stands(source, s.offset, header + "]" + text + "]") && text == Print(body) && Formed(body, true)
    ensures Stands(source, s.offset, header + "]")
    ensures t.offset == s.offset + |header| + 1 && Runs(source, t) && Ready(source, t, body)
    ensures t.offset + |text| < |source| && source[t.offset + |text|] == ']'
  {
    GuardText(source, s.offset, header, text);
  }

  /** Passing over a guard whose body is passed over. */
  lemma GuardPasses(views: Views, source: string, s: Scanner, negated: bool, name: string, t: Scanner, inside: Stretch)
    requires Level(source, s) && Within(views, s) && Stands(source, s.offset, Header(negated, name) + "]")
    requires ']' !in name && (negated || name == [] || name[0] != '!')
    requires t == Entered(views, Counted(s), negated, name, |Header(negated, name)| + 1) && Runs(source, t)
    requires t.offset + inside.size < |source| && source[t.offset + inside.size] == ']'
    requires Within(views, t) ==> Passes(views, source, t, inside)
    ensures Passes(views, source, s,
                   AroundGuard(|Header(negated, name)|, Holds(views, negated, name),
                               Size(Header(negated, name)) < views.byteLimit, inside))
  {
    HeaderLeads(views, source, s, negated, name);
    GuardArrives(views, s, negated, name, |Header(negated, name)|, Size(Header(negated, name)) < views.byteLimit, inside);
    GuardThrough(views, source, s, t, inside, Size(Header(negated, name)) < views.byteLimit,
                 AroundGuard(|Header(negated, name)|, Holds(views, negated, name),
                             Size(Header(negated, name)) < views.byteLimit, inside));
  }

  // ----- Rendered output -----

  datatype RenderedTemplate = RenderedTemplate(text: string, pieces: seq<Piece>, limits: set<Limit>,
                                               residuals: set<Residual>, frontiers: seq<nat>)

  /** A piece of its own, starting at `from` in the output. */
  function NewPiece(views: Views, from: nat, atom: Atom): Piece {
    var position := Place(views, atom.start);
    Piece(from, from + Size(atom.value), position, Place(views, atom.end), atom.parameters, atom.binding, atom.hole,
          atom.binding.Some? && '$' in atom.value,
          atom.hole && !atom.quoted && position !in views.scalarUses,
          position in views.scriptUses)
  }

  /** A literal extends the last literal piece where both sides meet. */
  predicate Joins(views: Views, previous: Piece, atom: Atom) {
    && atom.binding.None? && previous.binding.None?
    && previous.parameters == atom.parameters && !previous.hole && previous.end == Place(views, atom.start)
  }

  function AddPiece(views: Views, pieces: seq<Piece>, from: nat, atom: Atom): seq<Piece> {
    var last := |pieces| - 1;
    if last >= 0 && Joins(views, pieces[last], atom) then
      pieces[last := pieces[last].(to := from + Size(atom.value), end := Place(views, atom.end))]
    else pieces + [NewPiece(views, from, atom)]
  }

  function Pieces(views: Views, atoms: seq<Atom>): seq<Piece> {
    if atoms == [] then []
    else
      var front := atoms[..|atoms| - 1];
      AddPiece(views, Pieces(views, front), Size(Values(front)), atoms[|atoms| - 1])
  }

  lemma {:induction false} BytesIsSize(atoms: seq<Atom>)
    ensures Bytes(atoms) == Size(Values(atoms))
  {
    if atoms != [] {
      BytesIsSize(atoms[..|atoms| - 1]);
      SizeAdds(Values(atoms[..|atoms| - 1]), atoms[|atoms| - 1].value);
    }
  }

  lemma {:induction false} ValuesOfPrefix(a: seq<Atom>, b: seq<Atom>)
    requires IsPrefix(a, b)
    ensures Values(a) <= Values(b)
    decreases |b|
  {
    if |a| == |b| {
      assert a == b;
    } else {
      ValuesOfPrefix(a, b[..|b| - 1]);
    }
  }

  function BodyStart(template: string): nat
    requires template != ""
  {
    if template[0] == '{' then 1 else 0
  }

  /** The body without one leading and one trailing brace. */
  function Body(template: string): string
    requires template != ""
  {
    template[BodyStart(template)..|template| - if template[|template| - 1] == '}' then 1 else 0]
  }

  /** The views of a body between braces. */
  function Braced(views: Views, source: string): Views {
    views.(base := views.base + 1, body := source)
  }

  /** The views of the body's positions. */
  function Placed(views: Views, template: string): Views
    requires template != ""
  {
    views.(base := views.base + BodyStart(template), body := Body(template))
  }

  function Rendered(views: Views, template: string): RenderedTemplate {
    if template == "" then RenderedTemplate("", [], {UnavailableTemplate}, {}, [0])
    else RenderedBody(Placed(views, template), Body(template))
  }

  function RenderedBody(views: Views, source: string): RenderedTemplate {
    Finished(views, Run(views, source, Start))
  }

  function Finished(views: Views, end: Scanner): RenderedTemplate {
    var limits := end.limits + if end.guards != [] then {StructuralRecovery} else {};
    var text := Values(end.atoms);
    RenderedTemplate(text, Pieces(views, end.atoms), limits, end.residuals, if limits != {} then [Size(text)] else [])
  }

  /** What follows the last form of a body: nothing, or a comment or a quote the body does not close. */
  datatype Tail =
    | Closing
    | OpenComment(text: string)
    | OpenQuote(parts: seq<Part>, slash: bool)

  function PrintTail(tail: Tail): string {
    match tail
    case Closing => ""
    case OpenComment(text) => "#" + text
    case OpenQuote(parts, slash) => ("\"" + PrintParts(parts)) + if slash then "\\" else ""
  }

  predicate TailFormed(tail: Tail) {
    match tail
    case Closing => true
    case OpenComment(text) => '\n' !in text
    case OpenQuote(parts, _) => PartsFormed(parts)
  }

  function TailStretch(views: Views, tail: Tail, at: nat, deps: set<string>): Stretch {
    match tail
    case Closing => Nothing
    case OpenComment(text) => LiteralsStretch("#" + text, at, deps)
    case OpenQuote(parts, slash) =>
      var open := OpenedQuote(views, parts, at, deps);
      if slash then Join(open, LiteralStretch('\\', at + open.size, deps)) else open
  }

  /** A whole body. */
  function PrintBody(tree: Tree, tail: Tail): string {
    Print(tree) + PrintTail(tail)
  }

  /** What a body means: its tree's recursive meaning and the literal text of what it leaves open. */
  function BodyStretch(views: Views, tree: Tree, tail: Tail): Stretch {
    Join(TreeStretch(views, tree, 0, {}), TailStretch(views, tail, |Print(tree)|, {}))
  }

  lemma BodyMeans(views: Views, tree: Tree, tail: Tail)
    ensures var whole, last := BodyStretch(views, tree, tail), TailStretch(views, tail, |Print(tree)|, {});
            && whole.atoms == Eval(views, tree, 0, {}) + last.atoms
            && whole.reasons == TreeReads(views, tree) + last.reasons
            && whole.cost == Cost(tree) + last.cost && whole.reach == (Reach(views, tree) && last.reach)
  {
    TreeEmitsMeaning(views, tree, 0, {});
    TreeCounts(views, tree, 0, {});
  }

  /** Within every limit: headers close in reach, iterations, and bytes. */
  predicate Fits(views: Views, whole: Stretch) {
    whole.reach && whole.cost <= StepLimit && Size(Values(whole.atoms)) <= views.byteLimit
  }

  /** A rendering means a stretch: exactly it where it fits the limits, and otherwise a prefix of its text, with
      a limit and a frontier behind the text. */
  ghost predicate RendersAs(views: Views, r: RenderedTemplate, whole: Stretch) {
    if Fits(views, whole) then
      r == RenderedTemplate(Values(whole.atoms), Pieces(views, whole.atoms), {}, whole.reasons, [])
    else r.limits != {} && r.text <= Values(whole.atoms) && r.frontiers == [Size(r.text)]
  }

  /** One-pass rendering preserves meaning: the printed text of any body renders as the body means. */
  lemma RenderingMeansEvaluation(views: Views, tree: Tree, tail: Tail)
    requires Formed(tree, false) && TailFormed(tail)
    ensures var placed := Braced(views, PrintBody(tree, tail));
            var whole, last := BodyStretch(placed, tree, tail), TailStretch(placed, tail, |Print(tree)|, {});
            && RendersAs(placed, Rendered(views, "{" + PrintBody(tree, tail) + "}"), whole)
            && whole.atoms == Eval(placed, tree, 0, {}) + last.atoms
            && whole.reasons == TreeReads(placed, tree) + last.reasons
            && whole.cost == Cost(tree) + last.cost && whole.reach == (Reach(placed, tree) && last.reach)
  {
    var placed := Braced(views, PrintBody(tree, tail));
    RunMeansEvaluation(placed, tree, tail);
    BracedRenders(views, PrintBody(tree, tail), BodyStretch(placed, tree, tail));
    BodyMeans(placed, tree, tail);
  }

  lemma BracedRenders(views: Views, source: string, whole: Stretch)
    requires Means(Braced(views, source), source, whole)
    ensures RendersAs(Braced(views, source), Rendered(views, "{" + source + "}"), whole)
  {
    BracedIs(source);
    BracesAreRemoved(views, "{" + source + "}", source);
    FinishedMeans(Braced(views, source), source, whole);
  }

  /** A run of the scanner means a stretch: its atoms and reasons within the limits, a prefix otherwise. */
  ghost predicate Means(views: Views, source: string, whole: Stretch) {
    var end := Run(views, source, Start);
    if whole.reach && whole.cost <= StepLimit && Bytes(whole.atoms) <= views.byteLimit then
      end.limits == {} && end.guards == [] && end.atoms == whole.atoms && end.residuals == whole.reasons
    else end.limits != {} && IsPrefix(end.atoms, whole.atoms)
  }

  lemma FinishedMeans(views: Views, source: string, whole: Stretch)
    requires Means(views, source, whole)
    ensures RendersAs(views, RenderedBody(views, source), whole)
  {
    BytesIsSize(whole.atoms);
    var end := Run(views, source, Start);
    if whole.reach && whole.cost <= StepLimit && Bytes(whole.atoms) <= views.byteLimit {
      assert end.limits + {} == {};
    } else {
      assert (end.limits + if end.guards != [] then {StructuralRecovery} else {}) != {};
      ValuesOfPrefix(end.atoms, whole.atoms);
    }
  }

  lemma BracesAreRemoved(views: Views, template: string, source: string)
    requires template != "" && BodyStart(template) == 1 && Body(template) == source
    ensures var placed := Braced(views, source);
            Rendered(views, template) == RenderedBody(placed, source)
  {
  }

  lemma BracedIs(source: string)
    ensures BodyStart("{" + source + "}") == 1 && Body("{" + source + "}") == source
  {
    var template := "{" + source + "}";
    assert template[0] == '{' && template[|template| - 1] == '}';
    assert template[1..|template| - 1] == source;
  }

  lemma RunMeansEvaluation(views: Views, tree: Tree, tail: Tail)
    requires Formed(tree, false) && TailFormed(tail)
    ensures Means(views, PrintBody(tree, tail), BodyStretch(views, tree, tail))
  {
    var source := PrintBody(tree, tail);
    StartIsReady(tree, tail);
    TreePasses(views, source, Start, tree);
    TreeSize(views, tree, 0, {});
    BodyPassed(views, source, TreeStretch(views, tree, 0, {}), tail);
  }

  lemma StartIsReady(tree: Tree, tail: Tail)
    requires Formed(tree, false)
    ensures var source := PrintBody(tree, tail);
            Ready(source, Start, tree) && Stands(source, |Print(tree)|, PrintTail(tail)) && Deps(Start.guards) == {}
  {
    TwoStand(Print(tree), PrintTail(tail));
    TailIsClear(tail);
  }

  lemma TwoStand(a: string, b: string)
    ensures Stands(a + b, 0, a) && Stands(a + b, |a|, b)
    ensures b == "" || b[0] != '[' ==> Clear(a + b, |a|)
  {
    var source := a + b;
    assert source[0..|a|] == a && source[|a|..|source|] == b;
    assert b != "" ==> source[|a|] == b[0];
  }

  lemma TailIsClear(tail: Tail)
    ensures PrintTail(tail) == "" || PrintTail(tail)[0] != '['
  {
  }

  /** The scanner at the end of the source, inside whatever the body left open. */
  function Ended(s: Scanner, whole: Stretch, tail: Tail): Scanner {
    Arrived(s, whole).(comment := tail.OpenComment?, quoted := tail.OpenQuote?, escaped := tail.OpenQuote? && tail.slash)
  }

  lemma BodyPassed(views: Views, source: string, tree: Stretch, tail: Tail)
    requires TailFormed(tail) && Passes(views, source, Start, tree) && Stands(source, tree.size, PrintTail(tail))
    requires tree.size + |PrintTail(tail)| == |source| && Deps(Start.guards) == {}
    ensures Means(views, source, Join(tree, TailStretch(views, tail, tree.size, {})))
  {
    var t, last := Arrived(Start, tree), TailStretch(views, tail, tree.size, {});
    TailSize(views, tail, tree.size, {});
    if tree.reach && Within(views, t) {
      TailEnds(views, source, t, tail);
    }
    ArrivedAgain(Start, tree, last);
    var u := Ended(t, last, tail);
    LeadsOn(views, source, Start, t, u, tree.reach, last.reach);
    StartRuns(views, source, Join(tree, last), u);
  }

  lemma TailSize(views: Views, tail: Tail, at: nat, deps: set<string>)
    ensures TailStretch(views, tail, at, deps).size == |PrintTail(tail)|
  {
    if tail.OpenQuote? {
      PartsMean(views, tail.parts, at + 1, deps);
    }
  }

  lemma TailEnds(views: Views, source: string, s: Scanner, tail: Tail)
    requires TailFormed(tail) && Level(source, s) && Within(views, s) && Stands(source, s.offset, PrintTail(tail))
    ensures var last := TailStretch(views, tail, s.offset, Deps(s.guards));
            Runs(source, Ended(s, last, tail)) && Leads(views, source, s, Ended(s, last, tail), last.reach)
  {
    match tail
    case Closing => NothingPasses(views, source, s);
    case OpenComment(text) => CommentRuns(views, source, s, "#" + text);
    case OpenQuote(parts, slash) =>
      OpenQuoteEnds(views, source, s, tail, "\"" + PrintParts(parts), OpenedQuote(views, parts, s.offset, Deps(s.guards)),
                    TailStretch(views, tail, s.offset, Deps(s.guards)));
  }

  lemma OpenQuoteEnds(views: Views, source: string, s: Scanner, tail: Tail, text: string, open: Stretch, last: Stretch)
    requires Level(source, s) && Within(views, s) && tail.OpenQuote? && PartsFormed(tail.parts)
    requires text == "\"" + PrintParts(tail.parts) && open == OpenedQuote(views, tail.parts, s.offset, Deps(s.guards))
    requires last == if tail.slash then Join(open, LiteralStretch('\\', s.offset + open.size, Deps(s.guards))) else open
    requires Stands(source, s.offset, text + if tail.slash then "\\" else "")
    ensures Runs(source, Ended(s, last, tail)) && Leads(views, source, s, Ended(s, last, tail), last.reach)
  {
    TailOpens(views, source, s, tail.parts, tail.slash, text);
    OpenEnds(views, source, s, open, |text|, tail, last);
  }

  lemma TailOpens(views: Views, source: string, s: Scanner, parts: seq<Part>, slash: bool, text: string)
    requires Level(source, s) && Within(views, s) && text == "\"" + PrintParts(parts)
    requires Stands(source, s.offset, text + if slash then "\\" else "")
    requires PartsFormed(parts)
    ensures QuoteOpened(views, source, s, OpenedQuote(views, parts, s.offset, Deps(s.guards)), |text|)
    ensures slash ==> s.offset + |text| < |source| && source[s.offset + |text|] == '\\'
  {
    OpenText(source, s.offset, text, slash);
    QuoteOpens(views, source, s, parts, PrintParts(parts), OpenedQuote(views, parts, s.offset, Deps(s.guards)));
  }

  lemma OpenEnds(views: Views, source: string, s: Scanner, open: Stretch, size: nat, tail: Tail, last: Stretch)
    requires Level(source, s) && QuoteOpened(views, source, s, open, size) && tail.OpenQuote?
    requires tail.slash ==> s.offset + size < |source| && source[s.offset + size] == '\\'
    requires last == if tail.slash then Join(open, LiteralStretch('\\', s.offset + open.size, Deps(s.guards))) else open
    ensures Runs(source, Ended(s, last, tail)) && Leads(views, source, s, Ended(s, last, tail), last.reach)
  {
    if tail.slash {
      SlashEnds(views, source, s, open, size);
    } else {
      PlainEnds(views, source, s, open, size);
    }
  }

  lemma PlainEnds(views: Views, source: string, s: Scanner, open: Stretch, size: nat)
    requires Level(source, s) && QuoteOpened(views, source, s, open, size)
    ensures var t := Arrived(s, open).(comment := false, quoted := true, escaped := false);
            Runs(source, t) && Leads(views, source, s, t, open.reach)
  {
    assert Arrived(s, open).(comment := false, quoted := true, escaped := false) == Arrived(s, open).(quoted := true);
  }

  /** Where the parts of a quote the body leaves open stand. */
  lemma OpenText(source: string, at: nat, text: string, slash: bool)
    requires Stands(source, at, text + if slash then "\\" else "")
    ensures Stands(source, at, text)
    ensures slash ==> at + |text| < |source| && source[at + |text|] == '\\'
  {
    StandsSplits(source, at, text, if slash then "\\" else "");
    if slash {
      StandsAt(source, at + |text|, "\\", 0);
    }
  }

  lemma SlashEnds(views: Views, source: string, s: Scanner, open: Stretch, size: nat)
    requires Level(source, s) && QuoteOpened(views, source, s, open, size)
    requires s.offset + size < |source| && source[s.offset + size] == '\\'
    ensures var whole := Join(open, LiteralStretch('\\', s.offset + open.size, Deps(s.guards)));
            var t := Arrived(s, whole).(comment := false, quoted := true, escaped := true);
            Runs(source, t) && Leads(views, source, s, t, whole.reach)
  {
    var mark := LiteralStretch('\\', s.offset + open.size, Deps(s.guards));
    SlashArrives(s, open, mark);
    CharFollows(views, source, s, Arrived(s, open).(quoted := true), open.reach,
                Arrived(s, Join(open, mark)).(quoted := true, escaped := true));
  }

  lemma SlashArrives(s: Scanner, open: Stretch, mark: Stretch)
    requires !s.comment && !s.escaped
    ensures var t := Arrived(s, open).(quoted := true);
            var u := Arrived(s, Join(open, mark)).(quoted := true, escaped := true);
            u == Arrived(Lexed(t, '\\'), mark) && Extends(t, u)
  {
    ArrivedAgain(s, open, mark);
  }

  /** A run from the start that leads to the end of the source means the stretch it passed. */
  lemma StartRuns(views: Views, source: string, whole: Stretch, u: Scanner)
    requires whole.size == |source| && u == Arrived(Start, whole).(comment := u.comment, quoted := u.quoted, escaped := u.escaped)
    requires Leads(views, source, Start, u, whole.reach)
    ensures Means(views, source, whole)
  {
    assert u.atoms == [] + whole.atoms == whole.atoms;
    assert u.residuals == {} + whole.reasons == whole.reasons;
    assert Run(views, source, u) == u;
  }

  // ----- The map back to the definition -----

  /** An atom reads exactly its range of the source. */
  predicate AtomTrue(views: Views, source: string, atom: Atom) {
    && atom.start < atom.end <= |source|
    && match atom.binding
       case None => atom.value == source[atom.start..atom.end] && !atom.hole
       case Some(name) =>
         && atom.start + 2 <= atom.end && source[atom.start] == '$' && source[atom.end - 1] == '$'
         && name == LowerText(source[atom.start + 1..atom.end - 1])
         && atom.hole == (name !in views.bindings)
         && atom.value == Inserted(views, name, Place(views, atom.start), atom.quoted)
  }

  /** The atoms emitted so far read disjoint ranges of the source, in order, before the offset. */
  ghost predicate Ordered(views: Views, source: string, atoms: seq<Atom>, offset: nat) {
    && (forall i :: 0 <= i < |atoms| ==> AtomTrue(views, source, atoms[i]) && atoms[i].end <= offset)
    && (forall i, j :: 0 <= i < j < |atoms| ==> atoms[i].end <= atoms[j].start)
  }

  /** A scanner with a lawful log. */
  ghost predicate Logged(views: Views, source: string, s: Scanner) {
    Ordered(views, source, s.atoms, s.offset)
  }

  lemma AdvanceLogs(views: Views, source: string, before: Scanner, atom: Atom, after: Scanner)
    requires Logged(views, source, before) && before.offset == atom.start && AtomTrue(views, source, atom)
    requires after == Advance(views, before, atom)
    ensures Logged(views, source, after)
  {
    OrderedMore(views, source, before.atoms, atom, before.offset);
  }

  lemma OrderedMore(views: Views, source: string, atoms: seq<Atom>, atom: Atom, offset: nat)
    requires Ordered(views, source, atoms, offset) && offset == atom.start && AtomTrue(views, source, atom)
    ensures Ordered(views, source, atoms, atom.end) && Ordered(views, source, atoms + [atom], atom.end)
  {
    assert atom.start <= atom.end;
    var more := atoms + [atom];
    assert forall i :: 0 <= i < |more| ==> more[i] == if i < |atoms| then atoms[i] else atom;
  }

  lemma LiteralIsTrue(views: Views, source: string, at: nat, deps: set<string>)
    requires at < |source|
    ensures AtomTrue(views, source, LiteralAtom(source[at], at, deps))
  {
  }

  lemma ParameterIsTrue(views: Views, source: string, at: nat, name: string, deps: set<string>, quoted: bool)
    requires Stands(source, at, "$" + name + "$")
    ensures AtomTrue(views, source, ParameterAtom(views, name, at, at + |name| + 2, deps, quoted))
  {
    StandsAt(source, at, "$" + name + "$", 0);
    StandsAt(source, at, "$" + name + "$", |name| + 1);
    assert source[at..at + |name| + 2][1..|name| + 1] == name;
    assert source[at + 1..at + |name| + 1] == name;
  }

  lemma PassLogs(views: Views, source: string, s: Scanner, name: string, after: Scanner)
    requires Logged(views, source, s) && Stands(source, s.offset, "$" + name + "$") && after == PassParameter(views, s, name)
    ensures Logged(views, source, after)
  {
    var atom := ParameterAtom(views, name, s.offset, s.offset + |name| + 2, Deps(s.guards), s.quoted);
    ParameterIsTrue(views, source, s.offset, name, Deps(s.guards), s.quoted);
    AdvanceLogs(views, source, AtParameter(views, s, name), atom, after);
  }

  lemma ScanParameterStands(views: Views, source: string, s: Scanner)
    requires s.offset < |source| && source[s.offset] == '$'
    ensures var close := FindWithin(source[s.offset + 1..], '$', views.byteLimit);
            if close.None? then ScanParameter(views, source, s) == Stop(s, StructuralRecovery)
            else
              var name := source[s.offset + 1..][..close.value];
              Stands(source, s.offset, "$" + name + "$")
              && ScanParameter(views, source, s) == PassParameter(views, s, name)
  {
    var rest := source[s.offset + 1..];
    var close := FindWithin(rest, '$', views.byteLimit);
    if close.Some? {
      var name := rest[..close.value];
      assert source[s.offset..s.offset + |name| + 2] == "$" + name + "$";
    }
  }

  /** Every iteration keeps the log lawful. */
  lemma NextLogs(views: Views, source: string, s: Scanner)
    requires !s.stopped && s.offset < |source| && Logged(views, source, s)
    ensures Logged(views, source, Next(views, source, s))
  {
    var c := Counted(s);
    if c.steps <= StepLimit {
      match TokenAt(source, s)
      case HeaderToken =>
      case CloseToken => NextAtClose(views, source, s);
      case ParameterToken =>
        NextIsParameter(views, source, s);
        ScanParameterStands(views, source, c);
        var close := FindWithin(source[s.offset + 1..], '$', views.byteLimit);
        if close.Some? {
          var name := source[s.offset + 1..][..close.value];
          PassLogs(views, source, c, name, PassParameter(views, c, name));
        }
      case CharToken =>
        NextAtChar(views, source, s);
        LiteralIsTrue(views, source, s.offset, Deps(s.guards));
        LexedKeeps(s, source[s.offset]);
        var before, atom := Lexed(c, source[s.offset]), LiteralAtom(source[s.offset], s.offset, Deps(s.guards));
        AdvanceLogs(views, source, before, atom, Advance(views, before, atom));
    }
  }

  lemma {:induction false} RunLogs(views: Views, source: string, s: Scanner)
    requires s.offset <= |source| || s.stopped
    requires Logged(views, source, s)
    ensures Logged(views, source, Run(views, source, s))
    decreases if s.stopped then 0 else 1 + |source| - s.offset
  {
    if !s.stopped && s.offset != |source| {
      NextLogs(views, source, s);
      RunLogs(views, source, Next(views, source, s));
    }
  }

  /** A piece shows its range of the definition: a literal piece copies it, an inserted one is the bound or
      missing text of the name between its dollar signs. */
  ghost predicate Shows(views: Views, text: string, piece: Piece) {
    && piece.from <= piece.to && views.base <= piece.start < piece.end
    && match piece.binding
       case None =>
         && !piece.hole && Slice(text, piece.from, piece.to).Some?
         && Slice(text, piece.from, piece.to) == Slice(views.body, piece.start - views.base, piece.end - views.base)
       case Some(name) => exists atom :: Inserts(views, text, piece, atom)
  }

  ghost predicate Inserts(views: Views, text: string, piece: Piece, atom: Atom)
    requires piece.from <= piece.to
  {
    && AtomTrue(views, views.body, atom) && atom.binding == piece.binding
    && Place(views, atom.start) == piece.start && Place(views, atom.end) == piece.end
    && Slice(text, piece.from, piece.to) == Some(atom.value) && piece.hole == atom.hole
  }

  ghost predicate AllShow(views: Views, text: string, pieces: seq<Piece>) {
    forall i :: 0 <= i < |pieces| ==> Shows(views, text, pieces[i])
  }

  /** Each piece starts where the previous one ends, from the start of the output to its end. */
  ghost predicate Chained(pieces: seq<Piece>, length: nat) {
    && (if pieces == [] then length == 0 else pieces[0].from == 0 && pieces[|pieces| - 1].to == length)
    && forall i :: 0 < i < |pieces| ==> pieces[i].from == pieces[i - 1].to
  }

  /** The definition ranges are disjoint and in order. */
  ghost predicate InOrder(pieces: seq<Piece>) {
    forall i :: 0 < i < |pieces| ==> pieces[i - 1].end <= pieces[i].start
  }

  /** The pieces tile the output, and their definition ranges are disjoint and in order. */
  ghost predicate Tiles(views: Views, text: string, pieces: seq<Piece>) {
    AllShow(views, text, pieces) && Chained(pieces, Size(text)) && InOrder(pieces)
  }

  lemma ShowsLonger(views: Views, text: string, more: string, piece: Piece)
    requires Shows(views, text, piece)
    ensures Shows(views, text + more, piece)
  {
    match piece.binding
    case None => SliceLonger(text, more, piece.from, piece.to);
    case Some(name) =>
      var atom :| Inserts(views, text, piece, atom);
      SliceLonger(text, more, piece.from, piece.to);
      assert Inserts(views, text + more, piece, atom);
  }

  /** An atom's place in the definition, and what a literal one copies from there. */
  lemma AtomPlaced(views: Views, atom: Atom)
    requires AtomTrue(views, views.body, atom)
    ensures views.base <= Place(views, atom.start) < Place(views, atom.end)
    ensures atom.binding.None? ==>
              Slice(views.body, Place(views, atom.start) - views.base, Place(views, atom.end) - views.base) == Some(atom.value)
  {
    AtGrows(views.body, atom.start, atom.end);
    SliceAt(views.body, atom.start, atom.end);
  }

  lemma NewPieceShows(views: Views, text: string, atom: Atom)
    requires AtomTrue(views, views.body, atom)
    ensures Shows(views, text + atom.value, NewPiece(views, Size(text), atom))
  {
    var piece := NewPiece(views, Size(text), atom);
    SliceEnd(text, atom.value);
    AtomPlaced(views, atom);
    if atom.binding.Some? {
      assert Inserts(views, text + atom.value, piece, atom);
    }
  }

  lemma JoinedPieceShows(views: Views, text: string, previous: Piece, atom: Atom)
    requires AtomTrue(views, views.body, atom) && Shows(views, text, previous) && Joins(views, previous, atom)
    requires previous.to == Size(text)
    ensures Shows(views, text + atom.value,
                  previous.(to := Size(text) + Size(atom.value), end := Place(views, atom.end)))
  {
    AtomPlaced(views, atom);
    LiteralGrows(views, text, previous, atom.value, Place(views, atom.end));
  }

  lemma LiteralGrows(views: Views, text: string, previous: Piece, more: string, end: nat)
    requires Shows(views, text, previous) && previous.binding.None? && previous.to == Size(text) && previous.end <= end
    requires Slice(views.body, previous.end - views.base, end - views.base) == Some(more)
    ensures Shows(views, text + more, previous.(to := Size(text) + Size(more), end := end))
  {
    var a, b, c: nat := previous.start - views.base, previous.end - views.base, end - views.base;
    SliceGrows(text, more, previous.from);
    SliceOn(views.body, a, b, c);
  }

  ghost predicate FollowsLast(views: Views, pieces: seq<Piece>, atom: Atom) {
    pieces != [] ==> pieces[|pieces| - 1].end <= Place(views, atom.start)
  }

  lemma AddPieceTiles(views: Views, text: string, pieces: seq<Piece>, atom: Atom)
    requires Tiles(views, text, pieces) && AtomTrue(views, views.body, atom) && FollowsLast(views, pieces, atom)
    ensures Tiles(views, text + atom.value, AddPiece(views, pieces, Size(text), atom))
  {
    SizeAdds(text, atom.value);
    AddPieceShows(views, text, pieces, atom);
    AddPieceChains(views, pieces, Size(text), atom);
  }

  lemma AddPieceChains(views: Views, pieces: seq<Piece>, length: nat, atom: Atom)
    requires Chained(pieces, length) && InOrder(pieces) && FollowsLast(views, pieces, atom) && atom.start <= atom.end
    ensures Chained(AddPiece(views, pieces, length, atom), length + Size(atom.value))
    ensures InOrder(AddPiece(views, pieces, length, atom))
  {
  }

  lemma AddPieceShows(views: Views, text: string, pieces: seq<Piece>, atom: Atom)
    requires AllShow(views, text, pieces) && Chained(pieces, Size(text)) && AtomTrue(views, views.body, atom)
    ensures AllShow(views, text + atom.value, AddPiece(views, pieces, Size(text), atom))
  {
    var last := |pieces| - 1;
    AllShowLonger(views, text, atom.value, pieces);
    if last >= 0 && Joins(views, pieces[last], atom) {
      JoinedPieceShows(views, text, pieces[last], atom);
      AllShowUpdated(views, text + atom.value, pieces,
                     pieces[last].(to := Size(text) + Size(atom.value), end := Place(views, atom.end)));
    } else {
      NewPieceShows(views, text, atom);
      AllShowAppended(views, text + atom.value, pieces, NewPiece(views, Size(text), atom));
    }
  }

  lemma AllShowLonger(views: Views, text: string, more: string, pieces: seq<Piece>)
    requires AllShow(views, text, pieces)
    ensures AllShow(views, text + more, pieces)
  {
    forall i | 0 <= i < |pieces|
      ensures Shows(views, text + more, pieces[i])
    {
      ShowsLonger(views, text, more, pieces[i]);
    }
  }

  lemma AllShowUpdated(views: Views, text: string, pieces: seq<Piece>, piece: Piece)
    requires AllShow(views, text, pieces) && pieces != [] && Shows(views, text, piece)
    ensures AllShow(views, text, pieces[|pieces| - 1 := piece])
  {
  }

  lemma AllShowAppended(views: Views, text: string, pieces: seq<Piece>, piece: Piece)
    requires AllShow(views, text, pieces) && Shows(views, text, piece)
    ensures AllShow(views, text, pieces + [piece])
  {
  }

  /** Where the pieces of some atoms end in the definition. */
  ghost predicate EndsWith(views: Views, pieces: seq<Piece>, atoms: seq<Atom>) {
    if atoms == [] then pieces == []
    else pieces != [] && pieces[|pieces| - 1].end == Place(views, atoms[|atoms| - 1].end)
  }

  lemma AddPieceEnds(views: Views, pieces: seq<Piece>, from: nat, atom: Atom)
    ensures var after := AddPiece(views, pieces, from, atom);
            after != [] && after[|after| - 1].end == Place(views, atom.end)
  {
  }

  lemma OrderedFront(views: Views, atoms: seq<Atom>, offset: nat)
    requires Ordered(views, views.body, atoms, offset) && atoms != []
    ensures var front, atom := atoms[..|atoms| - 1], atoms[|atoms| - 1];
            && Ordered(views, views.body, front, offset) && AtomTrue(views, views.body, atom)
            && (front != [] ==> front[|front| - 1].end <= atom.start)
  {
  }

  lemma {:induction false} PiecesTile(views: Views, atoms: seq<Atom>, offset: nat)
    requires Ordered(views, views.body, atoms, offset)
    ensures Tiles(views, Values(atoms), Pieces(views, atoms))
    ensures EndsWith(views, Pieces(views, atoms), atoms)
  {
    if atoms != [] {
      var front, atom := atoms[..|atoms| - 1], atoms[|atoms| - 1];
      OrderedFront(views, atoms, offset);
      PiecesTile(views, front, offset);
      var text, pieces := Values(front), Pieces(views, front);
      EndsBefore(views, pieces, front, atom);
      AddPieceTiles(views, text, pieces, atom);
      AddPieceEnds(views, pieces, Size(text), atom);
    }
  }

  lemma EndsBefore(views: Views, pieces: seq<Piece>, front: seq<Atom>, atom: Atom)
    requires EndsWith(views, pieces, front) && AtomTrue(views, views.body, atom)
    requires front != [] ==> front[|front| - 1].end <= atom.start
    ensures FollowsLast(views, pieces, atom)
  {
    if front != [] {
      AtGrows(views.body, front[|front| - 1].end, atom.start);
    }
  }

  /** For every template, well-formed or not, and whatever limits were met: the pieces tile the rendered
      text and map it back to disjoint ranges of the definition in source order. */
  lemma RenderingTiles(views: Views, template: string)
    requires template != ""
    ensures var r := Rendered(views, template);
            Tiles(Placed(views, template), r.text, r.pieces)
  {
    FinishedTiles(Placed(views, template));
  }

  lemma FinishedTiles(views: Views)
    ensures var r := RenderedBody(views, views.body); Tiles(views, r.text, r.pieces)
  {
    RunLogs(views, views.body, Start);
    var end := Run(views, views.body, Start);
    PiecesTile(views, end.atoms, end.offset);
  }

  // ----- The scanning loop -----

  /** What has been written: the text and its pieces. */
  datatype Written = Written(text: string, pieces: seq<Piece>)

  function WrittenOf(views: Views, atoms: seq<Atom>): Written {
    Written(Values(atoms), Pieces(views, atoms))
  }

  lemma WriteOne(views: Views, atoms: seq<Atom>, atom: Atom)
    ensures WrittenOf(views, atoms + [atom]) ==
            Written(Values(atoms) + atom.value, AddPiece(views, Pieces(views, atoms), Size(Values(atoms)), atom))
  {
    assert (atoms + [atom])[..|atoms|] == atoms;
  }

  /** Renders a template in one pass over its body. */
  method Render(views: Views, template: string) returns (r: RenderedTemplate)
    ensures r == Rendered(views, template)
  {
    if template == "" {
      return RenderedTemplate("", [], {UnavailableTemplate}, {}, [0]);
    }
    var source, placed := Body(template), Placed(views, template);
    var s, w := Start, Written("", []);
    while !s.stopped && s.offset < |source|
      invariant s.stopped || s.offset <= |source|
      invariant Run(placed, source, s) == Run(placed, source, Start)
      invariant w == WrittenOf(placed, s.atoms)
      decreases if s.stopped then 0 else 1 + |source| - s.offset
    {
      s, w := Iterate(placed, source, s, w);
    }
    var limits := s.limits;
    if s.guards != [] {
      limits := limits + {StructuralRecovery};
    }
    r := RenderedTemplate(w.text, w.pieces, limits, s.residuals, if limits != {} then [Size(w.text)] else []);
  }

  /** One iteration of the loop. */
  method Iterate(views: Views, source: string, before: Scanner, written: Written) returns (s: Scanner, w: Written)
    requires !before.stopped && before.offset < |source| && written == WrittenOf(views, before.atoms)
    ensures s == Next(views, source, before) && w == WrittenOf(views, s.atoms)
  {
    s, w := before.(steps := before.steps + 1), written;
    if s.steps > StepLimit {
      s := Stop(s, Nodes);
      return;
    }
    var c := source[s.offset];
    if !s.quoted && !s.comment && OpensGuard(source, s.offset) {
      s := EnterGuard(views, source, s);
    } else if !s.quoted && !s.comment && c == ']' && s.guards != [] {
      var last := |s.guards| - 1;
      s := s.(active := s.guards[last].previous, guards := s.guards[..last], offset := s.offset + 1);
    } else if !s.comment && c == '$' {
      s, w := Substitute(views, source, s, w);
    } else {
      s, w := Copy(views, s, c, w);
    }
  }

  method Copy(views: Views, before: Scanner, c: char, written: Written) returns (s: Scanner, w: Written)
    requires written == WrittenOf(views, before.atoms)
    ensures s == PassChar(views, before, c) && w == WrittenOf(views, s.atoms)
  {
    var atom := LiteralAtom(c, before.offset, Deps(before.guards));
    LexedKeeps(before, c);
    s := Lex(before, c);
    s, w := Append(views, s, atom, written);
  }

  method EnterGuard(views: Views, source: string, before: Scanner) returns (s: Scanner)
    requires OpensGuard(source, before.offset)
    ensures s == ScanGuard(views, source, before) && s.atoms == before.atoms
  {
    s := before;
    var remaining := source[s.offset..];
    var close := FindWithin(remaining, ']', views.byteLimit);
    if close.None? {
      return Stop(s, StructuralRecovery);
    }
    assert remaining[0] == '[' && remaining[1] == '[';
    var (negated, name) := Condition(remaining[2..close.value]);
    s := s.(guards := s.guards + [Open(s.active, negated, LowerText(name))]);
    s := s.(active := s.active && Holds(views, negated, name), offset := s.offset + close.value + 1);
  }

  method Substitute(views: Views, source: string, before: Scanner, written: Written) returns (s: Scanner, w: Written)
    requires before.offset < |source| && written == WrittenOf(views, before.atoms)
    ensures s == ScanParameter(views, source, before) && w == WrittenOf(views, s.atoms)
  {
    s, w := before, written;
    var rest := source[s.offset + 1..];
    var close := FindWithin(rest, '$', views.byteLimit);
    if close.None? {
      s := Stop(s, StructuralRecovery);
      return;
    }
    s, w := Insert(views, s, rest[..close.value], w);
  }

  method Insert(views: Views, before: Scanner, name: string, written: Written) returns (s: Scanner, w: Written)
    requires written == WrittenOf(views, before.atoms)
    ensures s == PassParameter(views, before, name) && w == WrittenOf(views, s.atoms)
  {
    var atom := ParameterAtom(views, name, before.offset, before.offset + |name| + 2, Deps(before.guards), before.quoted);
    s := before.(escaped := false, residuals := before.residuals + Reads(views, name));
    s, w := Append(views, s, atom, written);
  }

  method Lex(before: Scanner, c: char) returns (s: Scanner)
    ensures s == Lexed(before, c)
  {
    s := before;
    if s.comment {
      s := s.(comment := c != '\n');
    } else if s.quoted {
      if s.escaped {
        s := s.(escaped := false);
      } else if c == '\\' {
        s := s.(escaped := true);
      } else if c == '"' {
        s := s.(quoted := false);
      }
    } else if c == '#' {
      s := s.(comment := true);
    } else if c == '"' {
      s := s.(quoted := true);
    }
  }

  /** Emits an atom where active, within the byte limit. */
  method Append(views: Views, before: Scanner, atom: Atom, written: Written) returns (s: Scanner, w: Written)
    requires written == WrittenOf(views, before.atoms)
    ensures s == Advance(views, before, atom) && w == WrittenOf(views, s.atoms)
  {
    s, w := before, written;
    if s.active {
      BytesIsSize(s.atoms);
      if Size(w.text) + Size(atom.value) > views.byteLimit {
        s := Stop(s, TextBytes);
        return;
      }
      WriteOne(views, s.atoms, atom);
      w := Write(views, w, atom);
      s := s.(atoms := s.atoms + [atom]);
    }
    s := s.(offset := atom.end);
  }

  /** Extends the last literal piece or pushes a new one. */
  method Write(views: Views, before: Written, atom: Atom) returns (w: Written)
    ensures w == Written(before.text + atom.value, AddPiece(views, before.pieces, Size(before.text), atom))
  {
    var from := Size(before.text);
    var text := before.text + atom.value;
    SizeAdds(before.text, atom.value);
    var pieces, last := before.pieces, |before.pieces| - 1;
    if last >= 0 && Joins(views, pieces[last], atom) {
      pieces := pieces[last := pieces[last].(to := Size(text), end := Place(views, atom.end))];
    } else {
      pieces := pieces + [NewPiece(views, from, atom)];
    }
    w := Written(text, pieces);
  }
}
