/** Script text carried inside quotes: encoding, and decoding with a map back to the carrier. Offsets count
    UTF-8 bytes. */
module QuotedScript {
  import opened Options
  import opened CharSize

  function EncodeChar(c: char): string {
    if c == '"' || c == '\\' then ['\\', c] else [c]
  }

  function Encode(text: string): string {
    if text == [] then [] else EncodeChar(text[0]) + Encode(text[1..])
  }

  lemma {:induction false} EncodeAppends(a: string, b: string)
    ensures Encode(a + b) == Encode(a) + Encode(b)
  {
    if a == [] {
      assert a + b == b;
    } else {
      EncodeAppends(a[1..], b);
      assert (a + b)[1..] == a[1..] + b;
    }
  }

  /** The next offsets, one for each byte of a character that ends `count` bytes further on. */
  function Spread(from: nat, count: nat): seq<nat> {
    seq(count, k requires 0 <= k < count => from + 1 + k)
  }

  /** Decoded text, and for each decoded byte the offset in the quoted token behind it. */
  datatype Decoded = Decoded(text: string, ends: seq<nat>)

  /** Decodes what is left of a payload from an offset on; a lone backslash at the end has no character to
      escape. */
  function DecodeFrom(rest: string, at: nat): Option<Decoded>
    decreases |rest|
  {
    if rest == [] then Some(Decoded([], []))
    else if rest[0] != '\\' then Decodes([rest[0]], Spread(at + 1, Width(rest[0])), DecodeFrom(rest[1..], at + Width(rest[0])))
    else if |rest| == 1 then None
    else
      var ends, behind := Spread(at + 2, Width(rest[1])), at + 1 + Width(rest[1]);
      if rest[1] == '"' || rest[1] == '\\' then Decodes([rest[1]], ends, DecodeFrom(rest[2..], behind))
      else Decodes(['\\', rest[1]], [at + 2] + ends, DecodeFrom(rest[2..], behind))
  }

  function Decodes(text: string, ends: seq<nat>, rest: Option<Decoded>): Option<Decoded> {
    if rest.None? then None else Some(Decoded(text + rest.value.text, ends + rest.value.ends))
  }

  /** The backslashes at the end of a text. */
  function Slashes(text: string): nat {
    if text != [] && text[|text| - 1] == '\\' then 1 + Slashes(text[..|text| - 1]) else 0
  }

  predicate Closes(source: string) {
    |source| >= 1 && source[|source| - 1] == '"' && Slashes(source[..|source| - 1]) % 2 == 0
  }

  /** Decodes a quoted token, closed or not; the map has an offset for every decoded byte boundary. */
  function DecodeQuoted(source: string): Option<Decoded> {
    if source == [] || source[0] != '"' then None
    else
      var payload := source[1..];
      if Closes(source) && payload == [] then None
      else
        var inner := if Closes(source) then payload[..|payload| - 1] else payload;
        var decoded := DecodeFrom(inner, 0);
        if decoded.None? then None else Some(decoded.value.(ends := [1] + decoded.value.ends))
  }

  /** The closest decoded boundary at or before an offset of the token. */
  function SourceOffset(ends: seq<nat>, offset: nat): nat {
    var reached := Reached(ends, offset);
    if reached == 0 then 0 else reached - 1
  }

  function Reached(ends: seq<nat>, offset: nat): nat {
    if ends == [] || ends[0] > offset then 0 else 1 + Reached(ends[1..], offset)
  }

  lemma {:induction false} SlashesAppend(a: string, b: string)
    ensures Slashes(a + b) == if (forall i :: 0 <= i < |b| ==> b[i] == '\\') then Slashes(a) + |b| else Slashes(b)
  {
    if b == [] {
      assert a + b == a;
    } else {
      var front := b[..|b| - 1];
      assert (a + b)[..|a + b| - 1] == a + front;
      if b[|b| - 1] == '\\' {
        SlashesAppend(a, front);
      }
    }
  }

  lemma EncodeOne(c: char)
    ensures Encode([c]) == EncodeChar(c)
  {
    assert [c][1..] == [];
    assert EncodeChar(c) + [] == EncodeChar(c);
  }

  lemma EncodeSnoc(text: string, c: char)
    ensures Encode(text + [c]) == Encode(text) + EncodeChar(c)
  {
    EncodeAppends(text, [c]);
    EncodeOne(c);
  }

  lemma CharKeepsEven(encoded: string, c: char)
    requires Slashes(encoded) % 2 == 0
    ensures Slashes(encoded + EncodeChar(c)) % 2 == 0
  {
    SlashesAppend(encoded, EncodeChar(c));
    var all := encoded + EncodeChar(c);
    assert all[|all| - 1] == c;
  }

  /** Encoded text ends in an even number of backslashes, so it never escapes a closing quote. */
  lemma {:induction false} EncodedSlashesAreEven(text: string)
    ensures Slashes(Encode(text)) % 2 == 0
    decreases |text|
  {
    if text != [] {
      var front, c := text[..|text| - 1], text[|text| - 1];
      assert text == front + [c];
      EncodedSlashesAreEven(front);
      EncodeSnoc(front, c);
      CharKeepsEven(Encode(front), c);
    }
  }

  /** Boundaries rise one by one from a start and stay within a bound. */
  ghost predicate Rising(ends: seq<nat>, start: nat, bound: nat) {
    && (forall i :: 0 <= i < |ends| ==> start < ends[i] <= bound)
    && (forall i, j :: 0 <= i < j < |ends| ==> ends[i] < ends[j])
  }

  /** Decoding inverts encoding at every place of a payload, with rising boundaries. */
  lemma {:induction false} DecodeInvertsEncode(text: string, at: nat)
    ensures Inverts(text, at, DecodeFrom(Encode(text), at))
    decreases |text|
  {
    if text != [] {
      var c, others := text[0], text[1..];
      var behind := at + Size(EncodeChar(c));
      DecodeInvertsEncode(others, behind);
      HeadDecodes(c, Encode(others), at);
      assert Encode(text) == EncodeChar(c) + Encode(others) && [c] + others == text;
      OneMoreInverts(c, others, at, DecodeFrom(Encode(others), behind), DecodeFrom(Encode(text), at));
    }
  }

  lemma OneMoreInverts(c: char, others: string, at: nat, rest: Option<Decoded>, whole: Option<Decoded>)
    requires Inverts(others, at + Size(EncodeChar(c)), rest) && Size(EncodeChar(c)) >= Width(c)
    requires whole == Decodes([c], Spread(at + 1 + Size(EncodeChar(c)) - Width(c), Width(c)), rest)
    ensures Inverts([c] + others, at, whole)
  {
    var text := [c] + others;
    SizeAdds([c], others);
    SizeOne(c);
    assert text[0] == c && text[1..] == others;
    SizeAdds(EncodeChar(c), Encode(others));
    HeadRises(c, at, rest.value.ends, at + Size(EncodeChar(c)) + Size(Encode(others)) + 1);
  }

  ghost predicate Inverts(text: string, at: nat, decoded: Option<Decoded>) {
    && decoded.Some? && decoded.value.text == text && |decoded.value.ends| == Size(text)
    && Rising(decoded.value.ends, at + 1, at + Size(Encode(text)) + 1)
  }

  lemma EncodedSize(c: char)
    ensures Size(EncodeChar(c)) == Width(c) + if EncodeChar(c) == [c] then 0 else 1
  {
    SizeOne(c);
    assert ['\\', c][1..] == [c];
  }

  /** The offsets of one more character come before those of the rest. */
  lemma HeadRises(c: char, at: nat, ends: seq<nat>, bound: nat)
    requires Rising(ends, at + Size(EncodeChar(c)) + 1, bound) && at + Size(EncodeChar(c)) + 1 <= bound
    ensures Rising(Spread(at + 1 + Size(EncodeChar(c)) - Width(c), Width(c)) + ends, at + 1, bound)
  {
    EncodedSize(c);
  }

  /** An encoded character decodes to itself, its bytes ending where its encoding ends. */
  lemma HeadDecodes(c: char, rest: string, at: nat)
    ensures Size(EncodeChar(c)) >= Width(c)
    ensures DecodeFrom(EncodeChar(c) + rest, at) ==
            Decodes([c], Spread(at + 1 + Size(EncodeChar(c)) - Width(c), Width(c)), DecodeFrom(rest, at + Size(EncodeChar(c))))
  {
    EncodedSize(c);
    var whole := EncodeChar(c) + rest;
    assert whole[|EncodeChar(c)|..] == rest;
  }

  lemma {:induction false} ReachedAt(ends: seq<nat>, i: nat)
    requires i < |ends| && forall a, b :: 0 <= a < b < |ends| ==> ends[a] < ends[b]
    ensures Reached(ends, ends[i]) == i + 1
  {
    if i > 0 {
      ReachedAt(ends[1..], i - 1);
    } else if |ends| > 1 {
      assert ends[1..][0] == ends[1];
    }
  }

  /** A quoted encoding is closed, and its payload is the encoding. */
  lemma QuotedIsClosed(text: string)
    ensures var source := "\"" + Encode(text) + "\"";
            Closes(source) && source[1..][..|source| - 2] == Encode(text)
  {
    var source := "\"" + Encode(text) + "\"";
    assert source[..|source| - 1] == "\"" + Encode(text);
    QuoteThenSlashes(text);
    EncodedSlashesAreEven(text);
  }

  lemma DecodedPayload(text: string)
    ensures var decoded := DecodeFrom(Encode(text), 0);
            decoded.Some? && decoded.value.text == text && |decoded.value.ends| == Size(text)
            && Rising(decoded.value.ends, 1, Size(Encode(text)) + 1)
  {
    DecodeInvertsEncode(text, 0);
  }

  /** Quoting round-trips: a quoted encoding decodes to the text, every decoded byte boundary maps into the token,
      the map rises, and mapping back returns the boundary. */
  lemma QuotedRoundTrip(text: string)
    ensures var source := "\"" + Encode(text) + "\"";
            var decoded := DecodeQuoted(source);
            && decoded.Some? && decoded.value.text == text && |decoded.value.ends| == Size(text) + 1
            && Rising(decoded.value.ends, 0, Size(source))
            && forall i :: 0 <= i <= Size(text) ==> SourceOffset(decoded.value.ends, decoded.value.ends[i]) == i
  {
    QuotedIsClosed(text);
    DecodedPayload(text);
    var source := "\"" + Encode(text) + "\"";
    var inner := DecodeFrom(Encode(text), 0).value;
    var ends := [1] + inner.ends;
    assert DecodeQuoted(source) == Some(Decoded(text, ends));
    QuotedSize(Encode(text));
    MapsBack(inner.ends, Size(source));
  }

  lemma QuotedSize(inner: string)
    ensures Size("\"" + inner + "\"") == Size(inner) + 2
  {
    SizeAdds("\"" + inner, "\"");
    SizeAdds("\"", inner);
    SizeOne('"');
  }

  lemma MapsBack(inner: seq<nat>, bound: nat)
    requires Rising(inner, 1, bound) && bound >= 1
    ensures var ends := [1] + inner;
            Rising(ends, 0, bound) && forall i :: 0 <= i < |ends| ==> SourceOffset(ends, ends[i]) == i
  {
    var ends := [1] + inner;
    assert Rising(ends, 0, bound);
    forall i | 0 <= i < |ends|
      ensures SourceOffset(ends, ends[i]) == i
    {
      ReachedAt(ends, i);
    }
  }

  lemma QuoteThenSlashes(text: string)
    ensures Slashes("\"" + Encode(text)) == Slashes(Encode(text))
  {
    SlashesAppend("\"", Encode(text));
    AllSlashes(Encode(text));
  }

  lemma {:induction false} AllSlashes(text: string)
    ensures (forall i :: 0 <= i < |text| ==> text[i] == '\\') ==> Slashes(text) == |text|
  {
    if text != [] {
      AllSlashes(text[..|text| - 1]);
    }
  }

  /** Encodes character by character. */
  method EncodeText(text: string) returns (encoded: string)
    ensures encoded == Encode(text)
  {
    encoded := "";
    for i := 0 to |text|
      invariant encoded == Encode(text[..i])
    {
      assert text[..i + 1] == text[..i] + [text[i]];
      EncodeSnoc(text[..i], text[i]);
      var c := text[i];
      if c == '"' || c == '\\' {
        encoded := encoded + ['\\', c];
      } else {
        encoded := encoded + [c];
      }
    }
    assert text[..|text|] == text;
  }

  lemma DecodesOn(text: string, ends: seq<nat>, more: string, mapped: seq<nat>, rest: Option<Decoded>)
    ensures Decodes(text + more, ends + mapped, rest) == Decodes(text, ends, Decodes(more, mapped, rest))
  {
    if rest.Some? {
      assert text + more + rest.value.text == text + (more + rest.value.text);
      assert ends + mapped + rest.value.ends == ends + (mapped + rest.value.ends);
    }
  }

  /** Decodes character by character, mapping every byte as it goes. */
  method DecodePayload(payload: string) returns (decoded: Option<Decoded>)
    ensures decoded == Decodes([], [1], DecodeFrom(payload, 0))
  {
    var text: string, ends: seq<nat>, offset: nat := "", [1], 0;
    var rest := payload;
    ghost var whole := Decodes([], [1], DecodeFrom(payload, 0));
    while rest != ""
      invariant whole == Decodes(text, ends, DecodeFrom(rest, offset))
      decreases |rest|
    {
      var c := rest[0];
      if c != '\\' {
        var mapped := MapBytes(offset + 1, Width(c));
        DecodesOn(text, ends, [c], mapped, DecodeFrom(rest[1..], offset + Width(c)));
        text, ends, offset, rest := text + [c], ends + mapped, offset + Width(c), rest[1..];
      } else {
        if |rest| == 1 {
          return None;
        }
        var escaped := rest[1];
        var mapped := MapBytes(offset + 2, Width(escaped));
        ghost var others := DecodeFrom(rest[2..], offset + 1 + Width(escaped));
        if escaped == '"' || escaped == '\\' {
          DecodesOn(text, ends, [escaped], mapped, others);
          text, ends := text + [escaped], ends + mapped;
        } else {
          DecodesOn(text, ends, ['\\', escaped], [offset + 2] + mapped, others);
          text, ends := text + ['\\', escaped], ends + ([offset + 2] + mapped);
        }
        offset, rest := offset + 1 + Width(escaped), rest[2..];
      }
    }
    assert text + [] == text && ends + [] == ends;
    decoded := Some(Decoded(text, ends));
  }

  /** The loop over the bytes of one character. */
  method MapBytes(from: nat, count: nat) returns (mapped: seq<nat>)
    ensures mapped == Spread(from, count)
  {
    mapped := [];
    for byte := 1 to count + 1
      invariant mapped == Spread(from, byte - 1)
    {
      mapped := mapped + [from + byte];
    }
  }
}
