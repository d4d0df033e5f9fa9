/** The concrete syntax of templates and where a rendering stops: at which iteration, header or byte, and what it
    records there. */
module TextLimits {
  import opened Options
  import opened CharSize
  import opened TemplateText
  import opened TextLaws

  // ----- Concrete syntax -----

  /** Parameters stand between dollar signs; guards between double and single brackets, with an exclamation mark where
      they are negated; quotations between quotes, with a backslash before what is escaped; comments from a hash to
      the line feed. */
  lemma {:induction false} PrintLaw(tree: Tree)
    ensures Print(tree) == match tree
            case End => ""
            case Text(c, tail) => [c] + Print(tail)
            case Parameter(name, tail) => "$" + name + "$" + Print(tail)
            case Guard(true, name, body, tail) => "[[!" + name + "]" + Print(body) + "]" + Print(tail)
            case Guard(false, name, body, tail) => "[[" + name + "]" + Print(body) + "]" + Print(tail)
            case Quote(parts, tail) => "\"" + PrintParts(parts) + "\"" + Print(tail)
            case Comment(text, tail) => "#" + text + "\n" + Print(tail)
  {
    match tree
    case Guard(negated, name, body, tail) =>
      if negated {
        assert "[[" + "!" + name == "[[!" + name;
      } else {
        assert "[[" + "" + name == "[[" + name;
      }
    case _ =>
  }

  lemma {:induction false} PartLaw(parts: seq<Part>)
    ensures PrintParts(parts) == if parts == [] then "" else
            (match parts[0]
             case Char(c) => [c]
             case Escape(c) => ['\\', c]
             case Hole(name) => "$" + name + "$"
             case EscapedHole(name) => ['\\', '$'] + name + "$") + PrintParts(parts[1..])
  {
  }

  // ----- Positions -----

  /** A body may stand between braces, each of which is dropped. */
  lemma {:induction false} BodyLaw(views: Views, front: string, inner: string, back: string)
    requires inner != "" && (front == "{" || (front == "" && inner[0] != '{'))
    requires back == "}" || (back == "" && inner[|inner| - 1] != '}')
    ensures Rendered(views, front + inner + back)
            == RenderedBody(views.(base := views.base + |front|, body := inner), inner)
  {
    BodyIs(front, inner, back);
    RenderedIs(views, front + inner + back, views.(base := views.base + |front|, body := inner), inner);
  }

  lemma {:induction false} BodyIs(front: string, inner: string, back: string)
    requires inner != "" && (front == "{" || (front == "" && inner[0] != '{'))
    requires back == "}" || (back == "" && inner[|inner| - 1] != '}')
    ensures var template := front + inner + back;
            template != "" && BodyStart(template) == |front| && Body(template) == inner
  {
    var template := front + inner + back;
    assert template[0] == if front == "{" then '{' else inner[0];
    assert template[|template| - 1] == if back == "}" then '}' else inner[|inner| - 1];
    assert template[|front|..|front| + |inner|] == inner;
  }

  lemma {:induction false} RenderedIs(views: Views, template: string, placed: Views, inner: string)
    requires template != "" && Placed(views, template) == placed && Body(template) == inner
    ensures Rendered(views, template) == RenderedBody(placed, inner)
  {
  }

  /** A character of the body stands in the definition behind its base and the bytes before it. */
  lemma {:induction false} PlaceLaw(views: Views, k: nat)
    requires k <= |views.body|
    ensures Place(views, k) == views.base + Size(views.body[..k])
  {
    AtIsSize(views.body, k);
  }

  // ----- Searches in reach -----

  /** A place where the character stands, with fewer than `bytes` bytes before it. */
  predicate InReach(text: string, c: char, bytes: nat, k: nat) {
    k < |text| && text[k] == c && Size(text[..k]) < bytes
  }

  ghost predicate NoneInReach(text: string, c: char, bytes: nat) {
    forall k: nat :: !InReach(text, c, bytes, k)
  }

  /** A search finds the first place in reach, and nothing exactly if there is none. */
  lemma {:induction false} FindLaw(text: string, c: char, bytes: nat)
    ensures match FindWithin(text, c, bytes)
            case Some(k) => InReach(text, c, bytes, k) && c !in text[..k]
            case None => NoneInReach(text, c, bytes)
    decreases |text|
  {
    if text != "" && bytes > 0 {
      if text[0] == c {
        assert text[..0] == "";
      } else {
        forall k: nat | 0 < k <= |text|
          ensures text[..k] == [text[0]] + text[1..][..k - 1] && Size(text[..k]) == Width(text[0]) + Size(text[1..][..k - 1])
        {
          assert text[..k][1..] == text[1..][..k - 1];
        }
        if Width(text[0]) < bytes {
          FindLaw(text[1..], c, bytes - Width(text[0]));
          ReachesBehind(text, c, bytes);
        }
      }
    }
  }

  lemma {:induction false} ReachesBehind(text: string, c: char, bytes: nat)
    requires text != "" && text[0] != c && Width(text[0]) < bytes
    requires forall k: nat :: 0 < k <= |text| ==> Size(text[..k]) == Width(text[0]) + Size(text[1..][..k - 1])
    ensures !InReach(text, c, bytes, 0)
    ensures forall k: nat :: 0 < k ==> (InReach(text, c, bytes, k) <==> InReach(text[1..], c, bytes - Width(text[0]), k - 1))
  {
  }

  // ----- Iterations -----

  predicate Outside(s: Scanner) {
    !s.quoted && !s.comment
  }

  predicate AtHeader(source: string, s: Scanner) {
    Outside(s) && s.offset + 1 < |source| && source[s.offset] == '[' && source[s.offset + 1] == '['
  }

  predicate AtUse(source: string, s: Scanner) {
    !s.comment && s.offset < |source| && source[s.offset] == '$'
  }

  /** A header or a parameter begins whose end is not in reach. */
  ghost predicate Unclosed(views: Views, source: string, s: Scanner) {
    s.offset < |source| && if AtHeader(source, s) then
      NoneInReach(source[s.offset..], ']', views.byteLimit)
    else
      AtUse(source, s) && NoneInReach(source[s.offset + 1..], '$', views.byteLimit)
  }

  /** The end of a guard stands here. */
  predicate AtClose(source: string, s: Scanner) {
    Outside(s) && !AtHeader(source, s) && s.offset < |source| && source[s.offset] == ']' && s.guards != []
  }

  /** A use whose name ends at a place writes the text. */
  predicate UseEnds(views: Views, rest: string, s: Scanner, text: string, k: nat) {
    InReach(rest, '$', views.byteLimit, k) && '$' !in rest[..k] && text == UseText(views, rest[..k], s.offset, s.quoted)
  }

  ghost predicate UseWrites(views: Views, rest: string, s: Scanner, text: string) {
    exists k: nat :: UseEnds(views, rest, s, text, k)
  }

  /** The text that is about to be written. */
  ghost predicate About(views: Views, source: string, s: Scanner, text: string) {
    && s.offset < |source| && !AtHeader(source, s) && !AtClose(source, s)
    && if AtUse(source, s) then UseWrites(views, source[s.offset + 1..], s, text)
       else text == [source[s.offset]]
  }

  lemma {:induction false} OneEnd(rest: string, c: char, j: nat, k: nat)
    requires j < |rest| && k < |rest| && rest[j] == c && rest[k] == c && c !in rest[..j] && c !in rest[..k]
    ensures j == k
  {
    InFront(rest, j, k);
    InFront(rest, k, j);
  }

  lemma {:induction false} InFront(rest: string, j: nat, k: nat)
    requires j < |rest| && k <= |rest|
    ensures j < k ==> rest[j] in rest[..k]
  {
    assert j < k ==> rest[..k][j] == rest[j];
  }

  /** The millionth iteration is the last. */
  lemma {:induction false} StepsLaw(views: Views, source: string, s: Scanner)
    requires Runs(source, s) && s.offset < |source|
    ensures var t := Next(views, source, s);
            && t.steps == s.steps + 1
            && (s.steps >= 1_000_000 ==> t.stopped && t.limits == s.limits + {Nodes} && t.atoms == s.atoms)
  {
  }

  /** A header or a parameter without an end in reach stops the rendering. */
  lemma {:induction false} UnclosedLaw(views: Views, source: string, s: Scanner)
    requires Runs(source, s) && s.offset < |source| && s.steps < 1_000_000 && Unclosed(views, source, s)
    ensures var t := Next(views, source, s);
            t.stopped && t.limits == s.limits + {StructuralRecovery} && t.atoms == s.atoms
  {
    if AtHeader(source, s) {
      assert TokenAt(source, s) == HeaderToken;
      FindLaw(source[s.offset..], ']', views.byteLimit);
    } else {
      assert TokenAt(source, s) == ParameterToken;
      FindLaw(source[s.offset + 1..], '$', views.byteLimit);
    }
  }

  /** Otherwise a guard opens or closes and writes nothing. */
  lemma {:induction false} GuardIterationLaw(views: Views, source: string, s: Scanner)
    requires Runs(source, s) && s.offset < |source| && s.steps < 1_000_000
    requires AtClose(source, s) || (AtHeader(source, s) && !Unclosed(views, source, s))
    ensures var t := Next(views, source, s);
            !t.stopped && t.limits == s.limits && t.atoms == s.atoms && |t.guards| == |s.guards| + if AtClose(source, s) then -1 else 1
  {
    if AtHeader(source, s) {
      assert TokenAt(source, s) == HeaderToken;
      FindLaw(source[s.offset..], ']', views.byteLimit);
    } else {
      assert TokenAt(source, s) == CloseToken;
    }
  }

  /** An iteration that writes a text, if all guards hold and it fits; where it does not fit the rendering stops. */
  predicate Writes(views: Views, s: Scanner, text: string, t: Scanner) {
    var overfull := s.active && Size(Values(s.atoms)) + Size(text) > views.byteLimit;
    && t.stopped == overfull && t.limits == s.limits + (if overfull then {TextBytes} else {})
    && Values(t.atoms) == Values(s.atoms) + if s.active && !overfull then text else ""
  }

  /** At every other place a text is written. */
  lemma {:induction false} WriteLaw(views: Views, source: string, s: Scanner, text: string)
    requires Runs(source, s) && s.offset < |source| && s.steps < 1_000_000 && About(views, source, s, text)
    ensures Writes(views, s, text, Next(views, source, s))
  {
    if AtUse(source, s) {
      var rest := source[s.offset + 1..];
      var k: nat :| UseEnds(views, rest, s, text, k);
      WriteUse(views, source, s, text, k);
    } else {
      WriteChar(views, source, s);
    }
  }

  lemma {:induction false} WriteChar(views: Views, source: string, s: Scanner)
    requires Runs(source, s) && s.offset < |source| && s.steps < 1_000_000 && !AtUse(source, s)
    requires !AtHeader(source, s) && !AtClose(source, s)
    ensures Writes(views, s, [source[s.offset]], Next(views, source, s))
  {
    NextAtChar(views, source, s);
    LexedKeeps(s, source[s.offset]);
    Written(views, Lexed(Counted(s), source[s.offset]), LiteralAtom(source[s.offset], s.offset, Deps(s.guards)), s);
  }

  lemma {:induction false} WriteUse(views: Views, source: string, s: Scanner, text: string, k: nat)
    requires Runs(source, s) && s.offset < |source| && s.steps < 1_000_000 && AtUse(source, s)
    requires !AtHeader(source, s) && !AtClose(source, s) && UseEnds(views, source[s.offset + 1..], s, text, k)
    ensures Writes(views, s, text, Next(views, source, s))
  {
    var rest := source[s.offset + 1..];
    var name := rest[..k];
    FindLaw(rest, '$', views.byteLimit);
    OneEnd(rest, '$', k, FindWithin(rest, '$', views.byteLimit).value);
    NextIsParameter(views, source, s);
    PassIsAdvance(views, s, name);
    UseLaw(views, name, s.offset, Deps(s.guards), s.quoted);
    Written(views, AtParameter(views, Counted(s), name), Use(views, name, s.offset, Deps(s.guards), s.quoted), s);
  }

  lemma {:induction false} Written(views: Views, before: Scanner, atom: Atom, s: Scanner)
    requires before.atoms == s.atoms && before.active == s.active && before.limits == s.limits && !before.stopped
    ensures Writes(views, s, atom.value, Advance(views, before, atom))
  {
    BytesIsSize(s.atoms);
    assert s.limits + {} == s.limits && Values(s.atoms) + "" == Values(s.atoms);
    assert (s.atoms + [atom])[..|s.atoms|] == s.atoms;
  }

  /** At the end, a guard still open is recorded too; wherever a limit is, there is a frontier behind the text. */
  lemma {:induction false} EndingLaw(views: Views, source: string)
    ensures var end, r := Run(views, source, Start), RenderedBody(views, source);
            && r.text == Values(end.atoms) && r.residuals == end.residuals
            && (end.guards == [] ==> r.limits == end.limits)
            && (end.guards != [] ==> r.limits == end.limits + {StructuralRecovery})
            && (r.limits == {} ==> r.frontiers == []) && (r.limits != {} ==> r.frontiers == [Size(r.text)])
  {
    assert Run(views, source, Start).limits + {} == Run(views, source, Start).limits;
  }

  lemma {:induction false} NoTemplateLaw(views: Views)
    ensures var r := Rendered(views, "");
            r.text == "" && r.pieces == [] && r.limits == {UnavailableTemplate} && r.residuals == {} && r.frontiers == [0]
  {
  }

  // ----- Whole templates -----

  function Larger(a: nat, b: nat): nat {
    if a < b then b else a
  }

  function PartsNeed(parts: seq<Part>): nat {
    if parts == [] then 0
    else Larger(if parts[0].Hole? || parts[0].EscapedHole? then Size(parts[0].name) + 1 else 0, PartsNeed(parts[1..]))
  }

  /** The least byte limit with which all parameters and guard headers of a template close in reach: a header is
      searched from its brackets on. */
  function Need(tree: Tree): nat {
    match tree
    case End => 0
    case Parameter(name, tail) => Larger(Size(name) + 1, Need(tail))
    case Guard(negated, name, body, tail) =>
      Larger(Size(name) + 3 + (if negated then 1 else 0), Larger(Need(body), Need(tail)))
    case Quote(parts, tail) => Larger(PartsNeed(parts), Need(tail))
    case Text(_, tail) => Need(tail)
    case Comment(_, tail) => Need(tail)
  }

  lemma {:induction false} PartsReachLaw(views: Views, parts: seq<Part>)
    ensures PartsReach(views, parts) <==> PartsNeed(parts) <= views.byteLimit
  {
    if parts != [] {
      PartsReachLaw(views, parts[1..]);
      assert parts == [parts[0]] + parts[1..];
      assert PartReaches(views, parts[0]) <==>
             Larger(if parts[0].Hole? || parts[0].EscapedHole? then Size(parts[0].name) + 1 else 0, 0) <= views.byteLimit;
      assert PartsReach(views, parts) <==> PartReaches(views, parts[0]) && PartsReach(views, parts[1..]);
    }
  }

  lemma {:induction false} HeaderSize(negated: bool, name: string)
    ensures Size(Header(negated, name)) == Size(name) + 2 + if negated then 1 else 0
  {
    SizeAdds("[[", (if negated then "!" else "") + name);
    SizeAdds(if negated then "!" else "", name);
    SizeAdds("[", "[");
    SizeOne('[');
    SizeOne('!');
    assert "[" + "[" == "[[";
    assert "[[" + ((if negated then "!" else "") + name) == Header(negated, name);
  }

  lemma {:induction false} ReachLaw(views: Views, tree: Tree)
    ensures Reach(views, tree) <==> Need(tree) <= views.byteLimit
  {
    match tree
    case End =>
    case Guard(negated, name, body, tail) =>
      HeaderSize(negated, name);
      ReachLaw(views, body);
      ReachLaw(views, tail);
    case Quote(parts, tail) =>
      PartsReachLaw(views, parts);
      ReachLaw(views, tail);
    case Text(_, tail) => ReachLaw(views, tail);
    case Parameter(_, tail) => ReachLaw(views, tail);
    case Comment(_, tail) => ReachLaw(views, tail);
  }

  function TailNeed(tail: Tail): nat {
    if tail.OpenQuote? then PartsNeed(tail.parts) else 0
  }

  lemma {:induction false} TailReachLaw(views: Views, tail: Tail, at: nat, deps: set<string>)
    ensures TailStretch(views, tail, at, deps).reach <==> TailNeed(tail) <= views.byteLimit
  {
    match tail
    case OpenQuote(parts, slash) =>
      PartsMean(views, parts, at + 1, deps);
      PartsReachLaw(views, parts);
    case _ =>
  }

  /** A template renders without limits exactly if its headers and parameters close in reach, it takes no more than a
      million iterations, and its text has no more bytes than the limit. */
  lemma {:induction false} LimitsLaw(views: Views, tree: Tree, tail: Tail)
    requires Formed(tree, false) && TailFormed(tail)
    ensures var placed := Braced(views, PrintBody(tree, tail));
            var r := Rendered(views, "{" + PrintBody(tree, tail) + "}");
            r.limits == {} <==>
              && Need(tree) <= views.byteLimit && TailNeed(tail) <= views.byteLimit
              && Cost(tree) + TailStretch(placed, tail, |Print(tree)|, {}).cost <= 1_000_000
              && Size(TreeText(placed, tree, 0) + TailText(placed, tail, |Print(tree)|)) <= views.byteLimit
  {
    var placed := Braced(views, PrintBody(tree, tail));
    RenderingMeansEvaluation(views, tree, tail);
    ReachLaw(placed, tree);
    TailReachLaw(placed, tail, |Print(tree)|, {});
    BodySpells(placed, tree, tail);
  }

  lemma {:induction false} BodySpells(views: Views, tree: Tree, tail: Tail)
    ensures Values(Eval(views, tree, 0, {}) + TailStretch(views, tail, |Print(tree)|, {}).atoms)
            == TreeText(views, tree, 0) + TailText(views, tail, |Print(tree)|)
  {
    MeaningSpells(views, tree, 0, {});
    TailSpells(views, tail, |Print(tree)|, {});
    ValuesAppend(Eval(views, tree, 0, {}), TailStretch(views, tail, |Print(tree)|, {}).atoms);
  }
}
