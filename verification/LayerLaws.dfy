/** Snippets and quoted scripts character by character: what is escaped, what is a tab stop, what an escape
    decodes to, and where each byte of decoded text comes from. */
module LayerLaws {
  import opened Options
  import opened CharSize
  import opened QuotedScript
  import opened Insertion

  // ----- Snippets -----

  /** A snippet escapes backslashes and dollar signs, and nothing else. */
  lemma {:induction false} LiteralLaw(c: char, rest: string)
    ensures Literal("") == ""
    ensures Literal([c] + rest) == (if c == '\\' || c == '$' then ['\\', c] else [c]) + Literal(rest)
  {
    assert ([c] + rest)[0] == c && ([c] + rest)[1..] == rest;
  }

  /** An escaped backslash, dollar sign or closing brace inserts that character. */
  lemma {:induction false} EscapeLaw(c: char, rest: string)
    requires c == '\\' || c == '$' || c == '}'
    ensures Transform(['\\', c] + rest, false) == [c] + Transform(rest, false)
    ensures Transform(['\\', c] + rest, true) == Literal(Encode([c])) + Transform(rest, true)
  {
    var text := ['\\', c] + rest;
    assert text[0] == '\\' && text[1] == c && text[2..] == rest;
  }

  /** A tab stop inserts nothing, and stays where a quote layer is put around the snippet. */
  lemma {:induction false} TabStopLaw(digits: string, rest: string)
    requires digits != "" && forall i :: 0 <= i < |digits| ==> '0' <= digits[i] <= '9'
    requires rest != "" ==> !('0' <= rest[0] <= '9')
    ensures Transform("$" + digits + rest, false) == Transform(rest, false)
    ensures Transform("$" + digits + rest, true) == "$" + digits + Transform(rest, true)
  {
    var text := "$" + digits + rest;
    assert text[0] == '$' && text[1..] == digits + rest && (digits + rest)[0] == digits[0];
    DigitsThen(digits, rest);
    StopIsCut(text, "$" + digits, rest);
    assert [] + Transform(rest, false) == Transform(rest, false);
  }

  lemma {:induction false} StopIsCut(text: string, stop: string, rest: string)
    requires |text| >= 2 && text[0] == '$' && Digit(text[1]) && text == stop + rest && |stop| == Digits(text[1..]) + 1
    ensures Transform(text, false) == [] + Transform(rest, false) && Transform(text, true) == stop + Transform(rest, true)
  {
    assert text[..|stop|] == stop && text[|stop|..] == rest;
  }

  /** Any other character is itself. */
  lemma {:induction false} CharacterLaw(c: char, rest: string)
    requires c == '\\' ==> rest == "" || (rest[0] != '\\' && rest[0] != '$' && rest[0] != '}')
    requires c == '$' ==> rest == "" || !('0' <= rest[0] <= '9')
    ensures Transform([c] + rest, false) == [c] + Transform(rest, false)
    ensures Transform([c] + rest, true) == Literal(Encode([c])) + Transform(rest, true)
    ensures Transform("", false) == "" && Transform("", true) == ""
  {
    var text := [c] + rest;
    assert text[0] == c && text[1..] == rest && (rest != "" ==> text[1] == rest[0]);
  }

  /** One quote layer around one character of a snippet. */
  lemma {:induction false} QuotedCharacterLaw(c: char)
    ensures Literal(Encode([c])) ==
            if c == '"' then ['\\', '\\', '"'] else if c == '\\' then ['\\', '\\', '\\', '\\']
            else if c == '$' then ['\\', '$'] else [c]
  {
    EncodeOne(c);
    assert Encode([c]) == if c == '"' || c == '\\' then ['\\', c] else [c];
    if c == '"' || c == '\\' {
      assert ['\\', c][1..] == [c] && [c][1..] == [];
      assert Literal([c]) == LiteralChar(c) + Literal([]);
    } else {
      assert [c][1..] == [];
    }
  }

  // ----- Quoted scripts -----

  /** Quotes and backslashes are escaped, and nothing else. */
  lemma {:induction false} EncodeLaw(c: char, rest: string)
    ensures Encode("") == ""
    ensures Encode([c] + rest) == (if c == '"' || c == '\\' then ['\\', c] else [c]) + Encode(rest)
  {
    assert ([c] + rest)[0] == c && ([c] + rest)[1..] == rest;
  }

  /** The offsets behind the bytes of a character that stands at an offset of a payload; the opening quote is one
      byte. */
  function Behind(at: nat, width: nat): seq<nat> {
    seq(width, k requires 0 <= k < width => at + 2 + k)
  }

  /** What is decoded from an offset on is this text, with these offsets behind its bytes. */
  predicate Decodes(rest: string, at: nat, text: string, ends: seq<nat>) {
    DecodeFrom(rest, at) == Some(Decoded(text, ends))
  }

  lemma {:induction false} NothingDecodes(at: nat, text: string, ends: seq<nat>)
    ensures Decodes("", at, text, ends) <==> text == "" && ends == []
    ensures !Decodes("\\", at, text, ends)
  {
  }

  /** A character that is no backslash is itself. */
  lemma {:induction false} PlainDecodes(c: char, rest: string, at: nat, text: string, ends: seq<nat>)
    requires c != '\\' && Decodes(rest, at + Width(c), text, ends)
    ensures Decodes([c] + rest, at, [c] + text, Behind(at, Width(c)) + ends)
  {
    var whole := [c] + rest;
    assert whole[0] == c && whole[1..] == rest;
    assert Spread(at + 1, Width(c)) == Behind(at, Width(c));
  }

  /** An escaped quote or backslash is that character; before any other character the backslash stays. */
  lemma {:induction false} EscapeDecodes(c: char, rest: string, at: nat, text: string, ends: seq<nat>)
    requires Decodes(rest, at + 1 + Width(c), text, ends)
    ensures c == '"' || c == '\\' ==> Decodes(['\\', c] + rest, at, [c] + text, Behind(at + 1, Width(c)) + ends)
    ensures c != '"' && c != '\\' ==> Decodes(['\\', c] + rest, at, ['\\', c] + text, [at + 2] + Behind(at + 1, Width(c)) + ends)
  {
    var whole := ['\\', c] + rest;
    assert whole[0] == '\\' && whole[1] == c && whole[2..] == rest;
    assert Spread(at + 2, Width(c)) == Behind(at + 1, Width(c));
  }

  /** One more character in front counts only before backslashes alone. */
  lemma {:induction false} SlashesCons(c: char, rest: string)
    ensures Slashes(rest) <= |rest|
    ensures Slashes([c] + rest) == if c == '\\' && Slashes(rest) == |rest| then |rest| + 1 else Slashes(rest)
    decreases |rest|
  {
    var all := [c] + rest;
    if rest == "" {
      assert all[..0] == "";
    } else {
      var front := rest[..|rest| - 1];
      assert all[..|all| - 1] == [c] + front;
      SlashesCons(c, front);
    }
  }

  /** Decoding fails exactly if the backslashes at the end are odd in number: the last has nothing to escape. */
  lemma {:induction false} LoneLaw(rest: string, at: nat)
    ensures DecodeFrom(rest, at).None? <==> Slashes(rest) % 2 == 1
    decreases |rest|
  {
    if rest != "" {
      assert rest == [rest[0]] + rest[1..];
      SlashesCons(rest[0], rest[1..]);
      if rest[0] != '\\' {
        LoneLaw(rest[1..], at + Width(rest[0]));
      } else if |rest| > 1 {
        assert rest[1..] == [rest[1]] + rest[2..];
        SlashesCons(rest[1], rest[2..]);
        LoneLaw(rest[2..], at + 1 + Width(rest[1]));
      } else {
        assert rest[1..] == "";
      }
    }
  }

  function Backslashes(count: nat): string {
    seq(count, _ => '\\')
  }

  /** A token is closed by a last quote that an even number of backslashes stands before. */
  ghost predicate ClosedToken(source: string) {
    exists before, count ::
      source == before + Backslashes(count) + "\"" && count % 2 == 0 && (before == "" || before[|before| - 1] != '\\')
  }

  lemma {:induction false} SlashesLaw(before: string, count: nat)
    requires before == "" || before[|before| - 1] != '\\'
    ensures Slashes(before + Backslashes(count)) == count
  {
    var text := before + Backslashes(count);
    if count == 0 {
      assert text == before;
    } else {
      assert text[|text| - 1] == '\\' && text[..|text| - 1] == before + Backslashes(count - 1);
      SlashesLaw(before, count - 1);
    }
  }

  lemma {:induction false} SplitSlashes(text: string) returns (before: string)
    ensures text == before + Backslashes(Slashes(text)) && (before == "" || before[|before| - 1] != '\\')
  {
    if text != "" && text[|text| - 1] == '\\' {
      var front := text[..|text| - 1];
      before := SplitSlashes(front);
      assert Backslashes(Slashes(text)) == Backslashes(Slashes(front)) + ['\\'];
      assert text == front + ['\\'];
    } else {
      before := text;
      assert text == text + Backslashes(0);
    }
  }

  lemma {:induction false} ClosedLaw(source: string)
    ensures Closes(source) <==> ClosedToken(source)
  {
    if Closes(source) {
      var text := source[..|source| - 1];
      var before := SplitSlashes(text);
      assert source == before + Backslashes(Slashes(text)) + "\"";
    }
    if ClosedToken(source) {
      var before, count :|
        source == before + Backslashes(count) + "\"" && count % 2 == 0 && (before == "" || before[|before| - 1] != '\\');
      SlashesLaw(before, count);
      assert source[..|source| - 1] == before + Backslashes(count);
    }
  }

  /** The payload of a token: behind the opening quote, and before the closing one if it is closed. */
  lemma {:induction false} TokenLaw(payload: string)
    ensures ClosedToken("\"" + payload + "\"") ==>
              DecodeQuoted("\"" + payload + "\"") ==
              match DecodeFrom(payload, 0) case None => None case Some(d) => Some(d.(ends := [1] + d.ends))
    ensures payload != "" && !ClosedToken("\"" + payload) ==>
              DecodeQuoted("\"" + payload) ==
              match DecodeFrom(payload, 0) case None => None case Some(d) => Some(d.(ends := [1] + d.ends))
  {
    var closed, open := "\"" + payload + "\"", "\"" + payload;
    ClosedLaw(closed);
    ClosedLaw(open);
    assert closed[1..] == payload + "\"" && (payload + "\"")[..|payload|] == payload && open[1..] == payload;
  }

  lemma {:induction false} NoTokenLaw(source: string)
    requires source == "" || source[0] != '"' || source == "\""
    ensures DecodeQuoted(source) == None
  {
    if source == "\"" {
      assert source == "" + Backslashes(0) + "\"";
      ClosedLaw(source);
    }
  }

  /** An offset of the token maps to the last decoded boundary at or before it. */
  lemma {:induction false} ReachedLaw(ends: seq<nat>, offset: nat)
    requires forall i, j :: 0 <= i < j < |ends| ==> ends[i] < ends[j]
    ensures Reached(ends, offset) <= |ends|
    ensures forall i :: 0 <= i < |ends| ==> (ends[i] <= offset <==> i < Reached(ends, offset))
  {
    if ends != [] && ends[0] <= offset {
      ReachedLaw(ends[1..], offset);
      assert forall i :: 0 < i < |ends| ==> ends[i] == ends[1..][i - 1];
    }
  }

  lemma {:induction false} SourceOffsetLaw(ends: seq<nat>, offset: nat)
    requires forall i, j :: 0 <= i < j < |ends| ==> ends[i] < ends[j]
    ensures ends != [] && ends[0] <= offset ==>
              var i := SourceOffset(ends, offset);
              i < |ends| && ends[i] <= offset && forall j :: i < j < |ends| ==> offset < ends[j]
    ensures ends == [] || offset < ends[0] ==> SourceOffset(ends, offset) == 0
  {
    ReachedLaw(ends, offset);
  }
}
