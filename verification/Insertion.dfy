/** Snippet escaping and script quoting as text layers that commute. */
module Insertion {
  import opened QuotedScript

  function LiteralChar(c: char): string {
    if c == '\\' || c == '$' then ['\\', c] else [c]
  }

  /** Text escaped so that a snippet inserts exactly it. */
  function Literal(text: string): string {
    if text == [] then [] else LiteralChar(text[0]) + Literal(text[1..])
  }

  predicate Digit(c: char) {
    '0' <= c <= '9'
  }

  function Digits(text: string): (count: nat)
    ensures count <= |text|
    ensures count < |text| ==> !Digit(text[count])
    ensures forall i :: 0 <= i < count ==> Digit(text[i])
  {
    if text != [] && Digit(text[0]) then 1 + Digits(text[1..]) else 0
  }

  predicate Escapes(text: string) {
    |text| >= 2 && text[0] == '\\' && (text[1] == '\\' || text[1] == '$' || text[1] == '}')
  }

  predicate TabStop(text: string) {
    |text| >= 2 && text[0] == '$' && Digit(text[1])
  }

  /** Literal characters of a snippet, as text or as quoted snippet text. */
  function Layer(literal: string, quote: bool): string {
    if quote then Literal(Encode(literal)) else literal
  }

  /** A snippet without its tab stops, or with one more quote layer around its literal characters. */
  function Transform(text: string, quote: bool): string
    decreases |text|
  {
    if text == [] then []
    else if Escapes(text) then Layer([text[1]], quote) + Transform(text[2..], quote)
    else if TabStop(text) then
      var count := Digits(text[1..]);
      (if quote then text[..count + 1] else []) + Transform(text[count + 1..], quote)
    else Layer([text[0]], quote) + Transform(text[1..], quote)
  }

  function Plain(snippet: string): string {
    Transform(snippet, false)
  }

  /** One script quote layer around inserted text. */
  function Quoted(text: string, snippet: bool): string {
    if snippet then Transform(text, true) else Encode(text)
  }

  lemma {:induction false} LiteralAppends(a: string, b: string)
    ensures Literal(a + b) == Literal(a) + Literal(b)
  {
    if a == [] {
      assert a + b == b;
    } else {
      LiteralAppends(a[1..], b);
      assert (a + b)[1..] == a[1..] + b;
      Associates(LiteralChar(a[0]), Literal(a[1..]), Literal(b));
    }
  }

  lemma Associates(a: string, b: string, c: string)
    ensures a + (b + c) == a + b + c
  {
  }

  lemma LayerAppends(a: string, b: string, quote: bool)
    ensures Layer(a + b, quote) == Layer(a, quote) + Layer(b, quote)
  {
    EncodeAppends(a, b);
    LiteralAppends(Encode(a), Encode(b));
  }

  lemma PlainOfLiteralChar(c: char, rest: string)
    ensures Plain(LiteralChar(c) + rest) == [c] + Plain(rest)
  {
    var text := LiteralChar(c) + rest;
    if |LiteralChar(c)| == 2 {
      assert text[..2] == LiteralChar(c) && text[2..] == rest;
    } else {
      assert text[0] == c && text[1..] == rest;
    }
  }

  /** Escaped text at the front of a snippet inserts itself, whatever follows. */
  lemma {:induction false} PlainOfLiteral(text: string, rest: string)
    ensures Plain(Literal(text) + rest) == text + Plain(rest)
  {
    if text == [] {
      assert Literal(text) + rest == rest;
    } else {
      LiteralHead(text, rest);
      PlainOfLiteralChar(text[0], Literal(text[1..]) + rest);
      PlainOfLiteral(text[1..], rest);
      HeadFirst(text, Plain(rest));
    }
  }

  lemma LiteralHead(text: string, rest: string)
    requires text != []
    ensures Literal(text) + rest == LiteralChar(text[0]) + (Literal(text[1..]) + rest)
  {
  }

  lemma HeadFirst(text: string, rest: string)
    requires text != []
    ensures [text[0]] + (text[1..] + rest) == text + rest
  {
  }

  /** Escaping loses nothing: a snippet of escaped text inserts exactly that text. */
  lemma LiteralInsertsItself(text: string)
    ensures Plain(Literal(text)) == text
  {
    PlainOfLiteral(text, []);
    assert Literal(text) + [] == Literal(text);
  }

  /** A quoted snippet begins with a digit only if the snippet does. */
  lemma QuotedStart(text: string)
    requires text == [] || !Digit(text[0])
    ensures var quoted := Transform(text, true); quoted == [] || !Digit(quoted[0])
  {
    if text != [] && Escapes(text) {
      QuotedChar(text[1]);
    } else if text != [] && !TabStop(text) {
      QuotedChar(text[0]);
    }
  }

  lemma QuotedChar(c: char)
    requires !Digit(c)
    ensures Layer([c], true) != [] && !Digit(Layer([c], true)[0])
  {
    EncodeOne(c);
    assert Encode([c])[0] == '\\' || Encode([c])[0] == c;
    assert Literal(Encode([c])) == LiteralChar(Encode([c])[0]) + Literal(Encode([c])[1..]);
  }

  /** A tab stop at the front of a snippet inserts nothing. */
  lemma PlainOfTabStop(stop: string, rest: string)
    requires |stop| >= 2 && stop[0] == '$' && forall i :: 1 <= i < |stop| ==> Digit(stop[i])
    requires rest == [] || !Digit(rest[0])
    ensures Plain(stop + rest) == Plain(rest)
  {
    var text := stop + rest;
    assert text[1..] == stop[1..] + rest;
    DigitsThen(stop[1..], rest);
    assert text[|stop|..] == rest;
    assert [] + Plain(rest) == Plain(rest);
  }

  lemma {:induction false} DigitsThen(digits: string, rest: string)
    requires (forall i :: 0 <= i < |digits| ==> Digit(digits[i])) && (rest == [] || !Digit(rest[0]))
    ensures Digits(digits + rest) == |digits|
  {
    if digits == [] {
      assert digits + rest == rest;
    } else {
      DigitsThen(digits[1..], rest);
      assert (digits + rest)[1..] == digits[1..] + rest;
    }
  }

  /** The layers commute for every snippet: quoting it and inserting is inserting it and encoding. */
  lemma {:induction false} QuotingCommutes(snippet: string)
    ensures Plain(Quoted(snippet, true)) == Encode(Plain(snippet))
    decreases |snippet|, 0
  {
    if snippet == [] {
    } else if Escapes(snippet) {
      LiteralCommutes([snippet[1]], snippet[2..]);
    } else if TabStop(snippet) {
      var count := Digits(snippet[1..]);
      var stop, rest := snippet[..count + 1], snippet[count + 1..];
      assert rest != [] ==> rest[0] == snippet[1..][count];
      assert forall i :: 1 <= i < |stop| ==> stop[i] == snippet[1..][i - 1];
      QuotedStart(rest);
      PlainOfTabStop(stop, Transform(rest, true));
      QuotingCommutes(rest);
      assert [] + Plain(rest) == Plain(rest);
    } else {
      LiteralCommutes([snippet[0]], snippet[1..]);
    }
  }

  lemma {:induction false} LiteralCommutes(literal: string, rest: string)
    ensures Plain(Layer(literal, true) + Transform(rest, true)) == Encode(literal + Plain(rest))
    decreases |rest|, 1
  {
    PlainOfLiteral(Encode(literal), Transform(rest, true));
    QuotingCommutes(rest);
    EncodeAppends(literal, Plain(rest));
  }

  function QuotedLayers(layers: nat, snippet: string): string {
    if layers == 0 then snippet else Quoted(QuotedLayers(layers - 1, snippet), true)
  }

  function EncodedLayers(layers: nat, text: string): string {
    if layers == 0 then text else Encode(EncodedLayers(layers - 1, text))
  }

  /** Any number of quote layers commutes with insertion. */
  lemma {:induction false} LayersCommute(layers: nat, snippet: string)
    ensures Plain(QuotedLayers(layers, snippet)) == EncodedLayers(layers, Plain(snippet))
  {
    if layers > 0 {
      LayersCommute(layers - 1, snippet);
      LayerCommutes(QuotedLayers(layers - 1, snippet), EncodedLayers(layers - 1, Plain(snippet)));
    }
  }

  lemma LayerCommutes(snippet: string, plain: string)
    requires Plain(snippet) == plain
    ensures Plain(Quoted(snippet, true)) == Encode(plain)
  {
    QuotingCommutes(snippet);
  }

  // ----- The character loops -----

  method SnippetLiteral(text: string) returns (result: string)
    ensures result == Literal(text)
    ensures Plain(result) == text
  {
    result := "";
    ghost var whole := Literal(text);
    assert text[0..] == text;
    for i := 0 to |text|
      invariant whole == result + Literal(text[i..])
    {
      LiteralStep(text, i);
      if text[i] == '\\' || text[i] == '$' {
        result := result + ['\\'];
      }
      result := result + [text[i]];
    }
    LiteralInsertsItself(text);
  }

  lemma LiteralStep(text: string, i: nat)
    requires i < |text|
    ensures Literal(text[i..]) == LiteralChar(text[i]) + Literal(text[i + 1..])
  {
    assert text[i..][1..] == text[i + 1..];
  }

  /** Characters still in the literal buffer are flushed, in their layer, before the next tab stop. */
  method TransformText(text: string, quote: bool) returns (result: string)
    ensures result == Transform(text, quote)
  {
    result := "";
    var literal, at: nat := "", 0;
    ghost var whole := Transform(text, quote);
    assert text[0..] == text;
    while at < |text|
      invariant at <= |text|
      invariant whole == Pending(result, literal, text[at..], quote)
      decreases |text| - at
    {
      result, literal, at := TransformStep(text, quote, result, literal, at);
    }
    var flushed := Flush(literal, quote);
    result := result + flushed;
    assert Transform(text[|text|..], quote) == [];
  }

  /** What has been written, is buffered, and is still to come. */
  ghost function Pending(result: string, literal: string, rest: string, quote: bool): string {
    result + Layer(literal, quote) + Transform(rest, quote)
  }

  /** One escape, tab stop or character. */
  method TransformStep(text: string, quote: bool, written: string, buffered: string, from: nat)
    returns (result: string, literal: string, at: nat)
    requires from < |text|
    ensures from < at <= |text|
    ensures Pending(result, literal, text[at..], quote) == Pending(written, buffered, text[from..], quote)
  {
    result, literal, at := written, buffered, from;
    var rest := text[at..];
    if Escapes(rest) {
      Buffer(result, literal, [rest[1]], text[at + 2..], quote);
      assert rest[2..] == text[at + 2..];
      literal, at := literal + [rest[1]], at + 2;
    } else if TabStop(rest) {
      result, literal, at := TransformTabStop(text, quote, written, buffered, from);
    } else {
      Buffer(result, literal, [rest[0]], text[at + 1..], quote);
      assert rest[1..] == text[at + 1..];
      literal, at := literal + [rest[0]], at + 1;
    }
  }

  method TransformTabStop(text: string, quote: bool, written: string, buffered: string, from: nat)
    returns (result: string, literal: string, at: nat)
    requires from < |text| && TabStop(text[from..])
    ensures from < at <= |text|
    ensures Pending(result, literal, text[at..], quote) == Pending(written, buffered, text[from..], quote)
  {
    var rest := text[from..];
    var flushed := Flush(buffered, quote);
    result, literal := written + flushed, "";
    var count := Digits(rest[1..]);
    at := from + count + 1;
    var stop := if quote then rest[..count + 1] else [];
    TabStopTransforms(text, from, quote, stop, at);
    Pass(result, stop, text[at..], quote);
    result := result + stop;
  }

  lemma TabStopTransforms(text: string, from: nat, quote: bool, stop: string, at: nat)
    requires from < |text| && TabStop(text[from..])
    requires at == from + Digits(text[from..][1..]) + 1
    requires stop == if quote then text[from..][..at - from] else []
    ensures at <= |text| && Transform(text[from..], quote) == stop + Transform(text[at..], quote)
  {
    assert text[from..][at - from..] == text[at..];
  }

  lemma Buffer(result: string, literal: string, c: string, rest: string, quote: bool)
    ensures result + Layer(literal, quote) + (Layer(c, quote) + Transform(rest, quote)) ==
            result + Layer(literal + c, quote) + Transform(rest, quote)
  {
    LayerAppends(literal, c, quote);
  }

  lemma Pass(result: string, stop: string, rest: string, quote: bool)
    ensures result + (stop + Transform(rest, quote)) == (result + stop) + Layer("", quote) + Transform(rest, quote)
  {
    assert Layer("", quote) == "";
  }

  method Flush(literal: string, quote: bool) returns (flushed: string)
    ensures flushed == Layer(literal, quote)
  {
    if quote {
      var encoded := EncodeText(literal);
      flushed := SnippetLiteral(encoded);
    } else {
      flushed := literal;
    }
  }

  /** One more quote layer: plain text is encoded, and a snippet is encoded around its tab stops. */
  method QuotedInsertion(text: string, snippet: bool) returns (result: string)
    ensures result == Quoted(text, snippet)
    ensures snippet ==> Plain(result) == Encode(Plain(text))
  {
    if snippet {
      result := TransformText(text, true);
      QuotingCommutes(text);
    } else {
      result := EncodeText(text);
    }
  }
}
