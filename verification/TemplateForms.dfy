/** Every source that the scanner reads to its end, with no guard left open, is the print of a well-formed
    template: the meaning of templates covers all of them. */
module TemplateForms {
  import opened Options
  import opened Ascii
  import opened CharSize
  import opened TemplateText

  // ----- What lies ahead of the scanner -----

  /** The rest of the body below nested guards: the rest of each body, innermost first, and then what the whole
      body leaves open. */
  function PrintLevels(trees: seq<Tree>, tail: Tail): string
    requires trees != []
  {
    if |trees| == 1 then Print(trees[0]) + PrintTail(tail)
    else Print(trees[0]) + "]" + PrintLevels(trees[1..], tail)
  }

  predicate LevelsFormed(trees: seq<Tree>, tail: Tail, depth: nat) {
    && |trees| == depth + 1 && TailFormed(tail)
    && forall i :: 0 <= i < |trees| ==> Formed(trees[i], i < depth)
  }

  /** The rest of the source: at the level of some body, inside a comment, or inside a quote. */
  datatype Rest =
    | AtLevel(trees: seq<Tree>, tail: Tail)
    | InComment(text: string, closed: bool, trees: seq<Tree>, tail: Tail)
    | InQuotes(parts: seq<Part>, slash: bool, closed: bool, trees: seq<Tree>, tail: Tail)

  function PrintRest(r: Rest): string
    requires r.AtLevel? || r.closed ==> r.trees != []
  {
    match r
    case AtLevel(trees, tail) => PrintLevels(trees, tail)
    case InComment(text, closed, trees, tail) => text + if closed then "\n" + PrintLevels(trees, tail) else ""
    case InQuotes(parts, slash, closed, trees, tail) =>
      PrintParts(parts) + if closed then "\"" + PrintLevels(trees, tail) else if slash then "\\" else ""
  }

  /** The rest fits the scanner's state. */
  predicate Fitting(s: Scanner, r: Rest) {
    && s.quoted == r.InQuotes? && s.comment == r.InComment? && (s.escaped ==> s.quoted)
    && (if r.AtLevel? || r.closed then LevelsFormed(r.trees, r.tail, |s.guards|) else s.guards == [])
    && (r.InComment? ==> '\n' !in r.text)
    && (r.InQuotes? ==> PartsFormed(r.parts))
  }

  /** What lies ahead, with the backslash that was just read. */
  function Ahead(source: string, s: Scanner): string
    requires s.offset <= |source|
  {
    (if s.escaped then "\\" else "") + source[s.offset..]
  }

  ghost predicate Describes(source: string, s: Scanner, r: Rest)
    requires s.offset <= |source|
  {
    Fitting(s, r) && Ahead(source, s) == PrintRest(r)
  }

  // ----- Printing one more form -----

  /** A form in front of the innermost body. */
  lemma ConsLevels(tree: Tree, trees: seq<Tree>, tail: Tail, depth: nat)
    requires LevelsFormed(trees, tail, depth) && !tree.End? && tree.tail == trees[0] && Formed(tree, 0 < depth)
    ensures LevelsFormed([tree] + trees[1..], tail, depth)
    ensures PrintLevels([tree] + trees[1..], tail) == PrintHead(tree) + PrintLevels(trees, tail)
  {
    var more := [tree] + trees[1..];
    assert more[0] == tree && more[1..] == trees[1..];
    assert Print(tree) == PrintHead(tree) + Print(trees[0]);
    if |trees| == 1 {
      Associates(PrintHead(tree), Print(trees[0]), PrintTail(tail));
    } else {
      Associates(PrintHead(tree), Print(trees[0]), "]");
      Associates(PrintHead(tree), Print(trees[0]) + "]", PrintLevels(trees[1..], tail));
    }
  }

  lemma Associates(a: string, b: string, c: string)
    ensures (a + b) + c == a + (b + c)
  {
  }

  /** The end of a guard's body. */
  lemma CloseLevel(trees: seq<Tree>, tail: Tail, depth: nat)
    requires LevelsFormed(trees, tail, depth)
    ensures LevelsFormed([End] + trees, tail, depth + 1)
    ensures PrintLevels([End] + trees, tail) == "]" + PrintLevels(trees, tail)
  {
    var more := [End] + trees;
    assert more[0] == End && more[1..] == trees;
    forall i | 0 <= i < |more|
      ensures Formed(more[i], i < depth + 1)
    {
      assert i > 0 ==> more[i] == trees[i - 1];
    }
    assert Print(End) == "";
    assert "" + "]" == "]";
  }

  /** A guard: its body is the innermost, and what follows it belongs to the next. */
  lemma GuardLevels(negated: bool, name: string, trees: seq<Tree>, tail: Tail, depth: nat)
    requires LevelsFormed(trees, tail, depth + 1) && ']' !in name && (negated || name == [] || name[0] != '!')
    ensures var guard := Guard(negated, name, trees[0], trees[1]);
            && LevelsFormed([guard] + trees[2..], tail, depth)
            && PrintLevels([guard] + trees[2..], tail) == Header(negated, name) + "]" + PrintLevels(trees, tail)
  {
    var guard, outer := Guard(negated, name, trees[0], trees[1]), trees[1..];
    assert outer[1..] == trees[2..] && outer[0] == trees[1];
    forall i | 0 <= i < |outer|
      ensures Formed(outer[i], i < depth)
    {
      assert outer[i] == trees[i + 1];
    }
    ConsLevels(guard, outer, tail, depth);
    GuardPrints(Header(negated, name), Print(trees[0]), PrintLevels(outer, tail));
    assert PrintLevels(trees, tail) == Print(trees[0]) + "]" + PrintLevels(outer, tail);
  }

  lemma GuardPrints(header: string, body: string, outer: string)
    ensures (header + "]" + body + "]") + outer == header + "]" + (body + "]" + outer)
  {
  }

  /** A body that begins with a bracket or a guard prints a bracket first. */
  lemma PrintsBracket(trees: seq<Tree>, tail: Tail)
    requires trees != []
    ensures (trees[0].Text? && trees[0].c == '[') || trees[0].Guard? ==>
              PrintLevels(trees, tail) != [] && PrintLevels(trees, tail)[0] == '['
  {
    var tree := trees[0];
    if (tree.Text? && tree.c == '[') || tree.Guard? {
      assert Print(tree) == PrintHead(tree) + Print(tree.tail);
      assert PrintHead(tree)[0] == '[';
      assert Print(tree)[0] == '[';
    }
  }

  // ----- One iteration, backwards -----

  lemma SplitAt(source: string, at: nat)
    requires at < |source|
    ensures source[at..] == [source[at]] + source[at + 1..]
  {
  }

  /** At the level of a body: a plain character, a comment or a quote begins. */
  lemma LevelChar(source: string, s: Scanner, t: Scanner, r: Rest) returns (before: Rest)
    requires s.offset < |source| && !s.quoted && !s.comment && !s.escaped && !OpensGuard(source, s.offset)
    requires source[s.offset] != '$' && (source[s.offset] == ']' ==> s.guards == [])
    requires var c := source[s.offset];
             && t.offset == s.offset + 1 && |t.guards| == |s.guards| && !t.escaped
             && t.quoted == (c == '"') && t.comment == (c == '#')
    requires Describes(source, t, r)
    ensures Describes(source, s, before)
  {
    var c := source[s.offset];
    SplitAt(source, s.offset);
    assert Ahead(source, s) == source[s.offset..] && Ahead(source, t) == source[s.offset + 1..];
    if c == '#' {
      before := CommentOpens(r, |s.guards|);
    } else if c == '"' {
      before := QuoteOpens(r, |s.guards|);
    } else {
      before := TextForm(source, s, t, c, r);
    }
  }

  lemma TextForm(source: string, s: Scanner, t: Scanner, c: char, r: Rest) returns (before: Rest)
    requires s.offset < |source| && !s.quoted && !s.comment && !s.escaped && !OpensGuard(source, s.offset)
    requires source[s.offset] == c && c != '$' && c != '"' && c != '#' && (c == ']' ==> s.guards == [])
    requires t.offset == s.offset + 1 && |t.guards| == |s.guards| && !t.escaped && !t.quoted && !t.comment
    requires Describes(source, t, r)
    ensures Describes(source, s, before)
  {
    SplitAt(source, s.offset);
    assert Ahead(source, s) == source[s.offset..] && Ahead(source, t) == source[s.offset + 1..];
    if c == '[' {
      PrintsBracket(r.trees, r.tail);
    }
    ConsLevels(Text(c, r.trees[0]), r.trees, r.tail, |s.guards|);
    before := AtLevel([Text(c, r.trees[0])] + r.trees[1..], r.tail);
  }

  lemma CommentOpens(r: Rest, depth: nat) returns (before: Rest)
    requires r.InComment? && '\n' !in r.text && (if r.closed then LevelsFormed(r.trees, r.tail, depth) else depth == 0)
    ensures before.AtLevel? && LevelsFormed(before.trees, before.tail, depth) && PrintRest(before) == "#" + PrintRest(r)
  {
    if r.closed {
      var comment := Comment(r.text, r.trees[0]);
      ConsLevels(comment, r.trees, r.tail, depth);
      before := AtLevel([comment] + r.trees[1..], r.tail);
      CommentPrints(r.text, PrintLevels(r.trees, r.tail));
    } else {
      before := AtLevel([End], OpenComment(r.text));
      assert Print(End) == "";
    }
  }

  lemma CommentPrints(text: string, rest: string)
    ensures ("#" + text + "\n") + rest == "#" + (text + ("\n" + rest))
  {
  }

  lemma QuoteOpens(r: Rest, depth: nat) returns (before: Rest)
    requires r.InQuotes? && PartsFormed(r.parts)
    requires if r.closed then LevelsFormed(r.trees, r.tail, depth) else depth == 0
    ensures before.AtLevel? && LevelsFormed(before.trees, before.tail, depth) && PrintRest(before) == "\"" + PrintRest(r)
  {
    if r.closed {
      var quote := Quote(r.parts, r.trees[0]);
      ConsLevels(quote, r.trees, r.tail, depth);
      before := AtLevel([quote] + r.trees[1..], r.tail);
      QuotePrints(PrintParts(r.parts), PrintLevels(r.trees, r.tail));
    } else {
      before := AtLevel([End], OpenQuote(r.parts, r.slash));
      assert Print(End) == "";
      Associates("\"", PrintParts(r.parts), if r.slash then "\\" else "");
    }
  }

  lemma QuotePrints(parts: string, rest: string)
    ensures ("\"" + parts + "\"") + rest == "\"" + (parts + ("\"" + rest))
  {
  }

  /** Inside a comment, which a line feed ends. */
  lemma CommentChar(source: string, s: Scanner, t: Scanner, r: Rest) returns (before: Rest)
    requires s.offset < |source| && s.comment && !s.quoted && !s.escaped
    requires t.offset == s.offset + 1 && |t.guards| == |s.guards| && !t.escaped && !t.quoted
    requires t.comment == (source[s.offset] != '\n') && Describes(source, t, r)
    ensures Describes(source, s, before)
  {
    var c := source[s.offset];
    SplitAt(source, s.offset);
    if c == '\n' {
      before := InComment("", true, r.trees, r.tail);
      assert "" + ("\n" + PrintLevels(r.trees, r.tail)) == "\n" + PrintLevels(r.trees, r.tail);
    } else {
      before := r.(text := [c] + r.text);
      Associates([c], r.text, if r.closed then "\n" + PrintLevels(r.trees, r.tail) else "");
    }
  }

  lemma ConsPart(part: Part, r: Rest)
    requires r.InQuotes? && (r.closed ==> r.trees != [])
    ensures PrintRest(r.(parts := [part] + r.parts)) == PrintPart(part) + PrintRest(r)
  {
    assert ([part] + r.parts)[1..] == r.parts;
    Associates(PrintPart(part), PrintParts(r.parts),
               if r.closed then "\"" + PrintLevels(r.trees, r.tail) else if r.slash then "\\" else "");
  }

  lemma PartsMore(part: Part, parts: seq<Part>)
    requires PartFormed(part) && PartsFormed(parts)
    ensures PartsFormed([part] + parts)
  {
    assert ([part] + parts)[1..] == parts;
  }

  lemma EscapeForm(source: string, s: Scanner, t: Scanner, c: char, r: Rest) returns (before: Rest)
    requires s.offset < |source| && s.quoted && s.escaped && !s.comment && source[s.offset] == c && c != '$'
    requires t.offset == s.offset + 1 && |t.guards| == |s.guards| && t.quoted && !t.comment && !t.escaped
    requires Describes(source, t, r)
    ensures Describes(source, s, before)
  {
    SplitAt(source, s.offset);
    before := r.(parts := [Escape(c)] + r.parts);
    ConsPart(Escape(c), r);
    PartsMore(Escape(c), r.parts);
    assert Ahead(source, s) == ['\\', c] + source[t.offset..];
  }

  /** Inside a quote: a character, an escape, or the closing mark. */
  lemma QuoteChar(source: string, s: Scanner, t: Scanner, r: Rest) returns (before: Rest)
    requires s.offset < |source| && s.quoted && !s.comment && source[s.offset] != '$'
    requires t.offset == s.offset + 1 && |t.guards| == |s.guards| && !t.comment
    requires var c := source[s.offset];
             if s.escaped then t.quoted && !t.escaped
             else t.escaped == (c == '\\') && t.quoted == (c != '"')
    requires Describes(source, t, r)
    ensures Describes(source, s, before)
  {
    var c := source[s.offset];
    SplitAt(source, s.offset);
    if s.escaped {
      before := EscapeForm(source, s, t, c, r);
    } else if c == '\\' {
      before := r;
      assert Ahead(source, s) == source[s.offset..] == "\\" + source[t.offset..];
    } else if c == '"' {
      before := InQuotes([], false, true, r.trees, r.tail);
      assert PrintParts([]) == "";
      assert "" + ("\"" + PrintLevels(r.trees, r.tail)) == "\"" + PrintLevels(r.trees, r.tail);
    } else {
      before := r.(parts := [Char(c)] + r.parts);
      ConsPart(Char(c), r);
      PartsMore(Char(c), r.parts);
    }
  }

  /** A parameter, at the level of a body or inside a quote, where a backslash may stand before it. */
  lemma ParameterForm(source: string, s: Scanner, t: Scanner, name: string, r: Rest) returns (before: Rest)
    requires s.offset <= |source| && !s.comment && (s.escaped ==> s.quoted) && '$' !in name
    requires Stands(source, s.offset, "$" + name + "$")
    requires t.offset == s.offset + |name| + 2 && |t.guards| == |s.guards| && t.quoted == s.quoted && !t.comment && !t.escaped
    requires Describes(source, t, r)
    ensures Describes(source, s, before)
  {
    var text := "$" + name + "$";
    assert |text| == |name| + 2;
    assert source[s.offset..] == text + source[t.offset..];
    if s.quoted {
      before := QuotedParameterForm(source, s, t, name, text, r);
    } else {
      var parameter := Parameter(name, r.trees[0]);
      ConsLevels(parameter, r.trees, r.tail, |s.guards|);
      before := AtLevel([parameter] + r.trees[1..], r.tail);
    }
  }

  lemma QuotedParameterForm(source: string, s: Scanner, t: Scanner, name: string, text: string, r: Rest) returns (before: Rest)
    requires s.offset <= |source| && !s.comment && s.quoted && '$' !in name && t.offset <= |source|
    requires text == "$" + name + "$" && source[s.offset..] == text + source[t.offset..]
    requires |t.guards| == |s.guards| && t.quoted && !t.comment && !t.escaped && Describes(source, t, r)
    ensures Describes(source, s, before)
  {
    var part := if s.escaped then EscapedHole(name) else Hole(name);
    before := r.(parts := [part] + r.parts);
    ConsPart(part, r);
    PartsMore(part, r.parts);
    if s.escaped {
      EscapedText(name, text, source[t.offset..]);
    }
  }

  lemma EscapedText(name: string, text: string, rest: string)
    requires text == "$" + name + "$"
    ensures "\\" + (text + rest) == PrintPart(EscapedHole(name)) + rest
  {
    assert "\\" + text == "\\$" + name + "$";
    assert "\\" + (text + rest) == ("\\" + text) + rest;
  }

  lemma HeaderForm(source: string, s: Scanner, t: Scanner, negated: bool, name: string, r: Rest) returns (before: Rest)
    requires s.offset <= |source| && !s.quoted && !s.comment && !s.escaped
    requires ']' !in name && (negated || name == [] || name[0] != '!')
    requires Stands(source, s.offset, Header(negated, name) + "]")
    requires t.offset == s.offset + |Header(negated, name)| + 1 && |t.guards| == |s.guards| + 1
    requires !t.quoted && !t.comment && !t.escaped && Describes(source, t, r)
    ensures Describes(source, s, before)
  {
    GuardLevels(negated, name, r.trees, r.tail, |s.guards|);
    before := AtLevel([Guard(negated, name, r.trees[0], r.trees[1])] + r.trees[2..], r.tail);
    assert source[s.offset..] == (Header(negated, name) + "]") + source[t.offset..];
  }

  lemma CloseForm(source: string, s: Scanner, t: Scanner, r: Rest) returns (before: Rest)
    requires s.offset < |source| && !s.quoted && !s.comment && !s.escaped && source[s.offset] == ']' && s.guards != []
    requires t.offset == s.offset + 1 && |t.guards| == |s.guards| - 1 && !t.quoted && !t.comment && !t.escaped
    requires Describes(source, t, r)
    ensures Describes(source, s, before)
  {
    SplitAt(source, s.offset);
    CloseLevel(r.trees, r.tail, |t.guards|);
    before := AtLevel([End] + r.trees, r.tail);
  }

  // ----- What an iteration does -----

  /** The scanner is never inside a comment and a quote at once, and escapes only inside a quote. */
  predicate Lexical(s: Scanner) {
    !(s.comment && s.quoted) && (s.escaped ==> s.quoted)
  }

  lemma {:induction false} FindsFirst(text: string, c: char, bytes: nat)
    ensures var found := FindWithin(text, c, bytes); found.Some? ==> c !in text[..found.value]
    decreases text
  {
    var found := FindWithin(text, c, bytes);
    if found.Some? && found.value > 0 {
      FindsFirst(text[1..], c, bytes - Width(text[0]));
      assert text[..found.value] == [text[0]] + text[1..][..found.value - 1];
    }
  }

  /** A plain character: one step on, with the lexical state after it. */
  lemma CharStep(views: Views, source: string, s: Scanner)
    requires Runs(source, s) && s.offset < |source| && s.steps + 1 <= StepLimit && TokenAt(source, s) == CharToken
    requires !Next(views, source, s).stopped
    ensures var t, after := Next(views, source, s), Lexed(s, source[s.offset]);
            && t.offset == s.offset + 1 && t.guards == s.guards && t.quoted == after.quoted && t.comment == after.comment
            && t.escaped == after.escaped
  {
    NextAtChar(views, source, s);
    LexedKeeps(s, source[s.offset]);
  }

  lemma ParameterStep(views: Views, source: string, s: Scanner) returns (name: string)
    requires Runs(source, s) && s.offset < |source| && s.steps + 1 <= StepLimit && TokenAt(source, s) == ParameterToken
    requires !Next(views, source, s).stopped
    ensures '$' !in name && Stands(source, s.offset, "$" + name + "$")
    ensures var t := Next(views, source, s);
            && t.offset == s.offset + |name| + 2 && t.guards == s.guards && t.quoted == s.quoted && t.comment == s.comment
            && !t.escaped
  {
    NextIsParameter(views, source, s);
    ScanParameterStands(views, source, Counted(s));
    var close := FindWithin(source[s.offset + 1..], '$', views.byteLimit);
    FindsFirst(source[s.offset + 1..], '$', views.byteLimit);
    name := source[s.offset + 1..][..close.value];
  }

  lemma HeaderStep(views: Views, source: string, s: Scanner) returns (negated: bool, name: string)
    requires Runs(source, s) && s.offset < |source| && s.steps + 1 <= StepLimit && TokenAt(source, s) == HeaderToken
    requires !Next(views, source, s).stopped
    ensures ']' !in name && (negated || name == [] || name[0] != '!')
    ensures Stands(source, s.offset, Header(negated, name) + "]")
    ensures var t := Next(views, source, s);
            && t.offset == s.offset + |Header(negated, name)| + 1 && |t.guards| == |s.guards| + 1
            && t.quoted == s.quoted && t.comment == s.comment && t.escaped == s.escaped
  {
    NextIsGuard(views, source, s);
    var remaining := source[s.offset..];
    var close := FindWithin(remaining, ']', views.byteLimit);
    FindsFirst(remaining, ']', views.byteLimit);
    assert remaining[0] == '[' && remaining[1] == '[';
    HeaderReads(remaining, close.value);
    negated, name := Condition(remaining[2..close.value]).0, Condition(remaining[2..close.value]).1;
    assert source[s.offset..s.offset + close.value + 1] == remaining[..close.value + 1];
  }

  lemma HeaderReads(remaining: string, close: nat)
    requires 2 <= close < |remaining| && remaining[0] == '[' && remaining[1] == '[' && remaining[close] == ']'
    requires ']' !in remaining[..close]
    ensures var (negated, name) := Condition(remaining[2..close]);
            && Header(negated, name) + "]" == remaining[..close + 1] && ']' !in name && (negated || name == [] || name[0] != '!')
  {
    var text := remaining[2..close];
    assert remaining[..close] == ['[', '['] + text;
    assert remaining[..close + 1] == remaining[..close] + [']'];
    assert forall c :: c in text ==> c in remaining[..close];
    if text != [] && text[0] == '!' {
      assert text == ['!'] + text[1..];
      assert forall c :: c in text[1..] ==> c in text;
    }
  }

  // ----- The whole source -----

  /** Whatever the scanner can still read to the end is described by forms. */
  lemma {:induction false} RestIsForms(views: Views, source: string, s: Scanner) returns (r: Rest)
    requires Runs(source, s) && Lexical(s)
    requires !Run(views, source, s).stopped && Run(views, source, s).guards == []
    ensures Describes(source, s, r)
    decreases |source| - s.offset
  {
    if s.offset == |source| {
      r := NothingAhead(source, s);
    } else {
      var t := Next(views, source, s);
      assert !t.stopped && s.steps + 1 <= StepLimit;
      NextIsLexical(views, source, s);
      var after := RestIsForms(views, source, t);
      r := FormBefore(views, source, s, t, after);
    }
  }

  lemma NothingAhead(source: string, s: Scanner) returns (r: Rest)
    requires s.offset == |source| && Lexical(s) && s.guards == []
    ensures Describes(source, s, r)
  {
    if s.comment {
      r := InComment("", false, [], Closing);
    } else if s.quoted {
      r := InQuotes([], s.escaped, false, [], Closing);
    } else {
      r := AtLevel([End], Closing);
      assert Print(End) == "";
    }
  }

  lemma NextIsLexical(views: Views, source: string, s: Scanner)
    requires Runs(source, s) && s.offset < |source| && s.steps + 1 <= StepLimit && Lexical(s) && !Next(views, source, s).stopped
    ensures Lexical(Next(views, source, s))
  {
    match TokenAt(source, s)
    case HeaderToken => var negated, name := HeaderStep(views, source, s);
    case CloseToken => NextAtClose(views, source, s);
    case ParameterToken => var name := ParameterStep(views, source, s);
    case CharToken => CharStep(views, source, s);
  }

  lemma FormBefore(views: Views, source: string, s: Scanner, t: Scanner, after: Rest) returns (r: Rest)
    requires Runs(source, s) && s.offset < |source| && s.steps + 1 <= StepLimit && Lexical(s)
    requires t == Next(views, source, s) && !t.stopped && t.offset <= |source| && Describes(source, t, after)
    ensures Describes(source, s, r)
  {
    match TokenAt(source, s)
    case HeaderToken =>
      var negated, name := HeaderStep(views, source, s);
      r := HeaderForm(source, s, t, negated, name, after);
    case CloseToken =>
      NextAtClose(views, source, s);
      r := CloseForm(source, s, t, after);
    case ParameterToken =>
      var name := ParameterStep(views, source, s);
      r := ParameterForm(source, s, t, name, after);
    case CharToken =>
      CharStep(views, source, s);
      if s.comment {
        r := CommentChar(source, s, t, after);
      } else if s.quoted {
        r := QuoteChar(source, s, t, after);
      } else {
        r := LevelChar(source, s, t, after);
      }
  }

  /** Every source that is read to its end with no guard open is the print of a well-formed body. */
  lemma ReadSourceIsBody(views: Views, source: string) returns (tree: Tree, tail: Tail)
    requires !Run(views, source, Start).stopped && Run(views, source, Start).guards == []
    ensures Formed(tree, false) && TailFormed(tail) && PrintBody(tree, tail) == source
  {
    var r := RestIsForms(views, source, Start);
    tree, tail := r.trees[0], r.tail;
    assert source[0..] == source;
  }

  lemma {:induction false} UnstoppedIsUnlimited(views: Views, source: string, s: Scanner)
    requires Runs(source, s) && s.limits == {} && !Run(views, source, s).stopped
    ensures Run(views, source, s).limits == {}
    decreases |source| - s.offset
  {
    if s.offset < |source| {
      var next := Next(views, source, s);
      NextIsUnlimited(views, source, s, next);
      UnstoppedIsUnlimited(views, source, next);
    }
  }

  lemma NextIsUnlimited(views: Views, source: string, s: Scanner, next: Scanner)
    requires Runs(source, s) && s.limits == {} && s.offset < |source| && next == Next(views, source, s)
    ensures next.stopped || next.limits == {}
  {
    match TokenAt(source, s)
    case HeaderToken => HeaderIsUnlimited(views, source, s);
    case _ =>
  }

  lemma HeaderIsUnlimited(views: Views, source: string, s: Scanner)
    requires s.limits == {} && !s.stopped && s.offset < |source| && TokenAt(source, s).HeaderToken?
    ensures var next := Next(views, source, s); next.stopped || next.limits == {}
  {
  }

  /** So the renderer's output for every such source is the recursive evaluation of a tree that prints it. */
  lemma EveryReadingIsEvaluation(views: Views, source: string) returns (tree: Tree, tail: Tail)
    requires var end := Run(Braced(views, source), source, Start); !end.stopped && end.guards == []
    ensures Formed(tree, false) && TailFormed(tail) && PrintBody(tree, tail) == source
    ensures var placed := Braced(views, source);
            var whole, last := BodyStretch(placed, tree, tail), TailStretch(placed, tail, |Print(tree)|, {});
            && Fits(placed, whole) && RendersAs(placed, Rendered(views, "{" + source + "}"), whole)
            && whole.atoms == Eval(placed, tree, 0, {}) + last.atoms
  {
    tree, tail := ReadSourceIsBody(Braced(views, source), source);
    UnstoppedIsUnlimited(Braced(views, source), source, Start);
    RunMeansEvaluation(Braced(views, source), tree, tail);
    BytesIsSize(BodyStretch(Braced(views, source), tree, tail).atoms);
    RenderingMeansEvaluation(views, tree, tail);
  }
}
