/** UTF-8 text as bytes, with the slicing and case rules of string slices. */
module Utf8 {
  type Byte = b: int | 0 <= b < 256

  predicate Continuation(b: Byte) {
    0x80 <= b < 0xC0
  }

  /** The property of UTF-8 strings that slicing relies on: no string starts inside a character. */
  type Text = s: seq<Byte> | s == [] || !Continuation(s[0])

  /** Offsets at which a string may be cut. */
  predicate Boundary(s: seq<Byte>, i: nat) {
    i == 0 || i == |s| || (i < |s| && !Continuation(s[i]))
  }

  function LowerByte(b: Byte): Byte {
    if 65 <= b <= 90 then b + 32 else b
  }

  function Lower(s: Text): (lower: Text)
    ensures |lower| == |s|
  {
    seq(|s|, i requires 0 <= i < |s| => LowerByte(s[i]))
  }

  /** Equality up to ASCII case. */
  predicate SameText(a: seq<Byte>, b: seq<Byte>) {
    |a| == |b| && forall i :: 0 <= i < |a| ==> LowerByte(a[i]) == LowerByte(b[i])
  }

  lemma SameTextIsEquivalence(a: seq<Byte>, b: seq<Byte>, c: seq<Byte>)
    ensures SameText(a, a)
    ensures SameText(a, b) ==> SameText(b, a)
    ensures SameText(a, b) && SameText(b, c) ==> SameText(a, c)
  {
  }

  lemma SameTextConcat(a: seq<Byte>, b: seq<Byte>, c: seq<Byte>, d: seq<Byte>)
    ensures SameText(a, c) && SameText(b, d) ==> SameText(a + b, c + d)
    ensures |a| == |c| && SameText(a + b, c + d) ==> SameText(a, c) && SameText(b, d)
  {
    if |a| == |c| && SameText(a + b, c + d) {
      forall i | 0 <= i < |a|
        ensures LowerByte(a[i]) == LowerByte(c[i])
      {
        assert (a + b)[i] == a[i] && (c + d)[i] == c[i];
      }
      forall i | 0 <= i < |b|
        ensures LowerByte(b[i]) == LowerByte(d[i])
      {
        assert (a + b)[|a| + i] == b[i] && (c + d)[|a| + i] == d[i];
      }
    }
  }
}
