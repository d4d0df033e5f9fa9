/** How many bytes characters take in UTF-8, the byte position of each character of a text, and slices between
    such positions. */
module CharSize {
  import opened Options

  function Width(c: char): nat {
    if c as int < 0x80 then 1 else if c as int < 0x800 then 2 else if c as int < 0x1_0000 then 3 else 4
  }

  function Size(text: string): nat {
    if text == [] then 0 else Width(text[0]) + Size(text[1..])
  }

  /** A character takes as many bytes as it needs with seven payload bits in a single one, and with five, four or
      three payload bits in the first of several and six in each that continues it. */
  lemma WidthLaw(c: char)
    ensures 1 <= Width(c) <= 4
    ensures c as int < Payload(Width(c)) && forall w :: 1 <= w < Width(c) ==> Payload(w) <= c as int
  {
  }

  function Payload(width: nat): nat {
    match width
    case 1 => 128
    case 2 => 32 * 64
    case 3 => 16 * 64 * 64
    case _ => 8 * 64 * 64 * 64
  }

  lemma {:induction false} SizeAdds(a: string, b: string)
    ensures Size(a + b) == Size(a) + Size(b)
  {
    if a == [] {
      assert a + b == b;
    } else {
      SizeAdds(a[1..], b);
      assert (a + b)[1..] == a[1..] + b;
    }
  }

  lemma SizeOne(c: char)
    ensures Size([c]) == Width(c)
  {
    assert [c][1..] == [];
  }

  /** The byte position of a character. */
  function At(text: string, k: nat): nat
    requires k <= |text|
  {
    if k == 0 then 0 else At(text, k - 1) + Width(text[k - 1])
  }

  /** It is the size of what stands before. */
  lemma {:induction false} AtIsSize(text: string, k: nat)
    requires k <= |text|
    ensures At(text, k) == Size(text[..k])
  {
    if k > 0 {
      AtIsSize(text, k - 1);
      assert text[..k] == text[..k - 1] + [text[k - 1]];
      SizeAdds(text[..k - 1], [text[k - 1]]);
      SizeOne(text[k - 1]);
    }
  }

  lemma AtEnd(text: string)
    ensures At(text, |text|) == Size(text)
  {
    AtIsSize(text, |text|);
    assert text[..|text|] == text;
  }

  /** Positions rise with the characters. */
  lemma {:induction false} AtGrows(text: string, i: nat, j: nat)
    requires i <= j <= |text|
    ensures At(text, i) + (j - i) <= At(text, j)
    decreases j
  {
    if i < j {
      AtGrows(text, i, j - 1);
    }
  }

  // ----- Slices by bytes -----

  /** The part of a text between two byte positions, if both are at characters. */
  function Slice(text: string, from: nat, to: nat): Option<string>
    requires from <= to
  {
    if to == 0 then Some("")
    else if text == [] then None
    else
      var width := Width(text[0]);
      if from >= width then Slice(text[1..], from - width, to - width)
      else if from > 0 || to < width then None
      else match Slice(text[1..], 0, to - width)
        case None => None
        case Some(rest) => Some([text[0]] + rest)
  }

  lemma {:induction false} SliceLonger(text: string, more: string, from: nat, to: nat)
    requires from <= to && Slice(text, from, to).Some?
    ensures Slice(text + more, from, to) == Slice(text, from, to)
  {
    if to > 0 {
      var width := Width(text[0]);
      assert (text + more)[1..] == text[1..] + more;
      if from >= width {
        SliceLonger(text[1..], more, from - width, to - width);
      } else {
        SliceLonger(text[1..], more, 0, to - width);
      }
    }
  }

  lemma {:induction false} SliceAll(text: string)
    ensures Slice(text, 0, Size(text)) == Some(text)
  {
    if text != [] {
      SliceAll(text[1..]);
      assert [text[0]] + text[1..] == text;
    }
  }

  lemma {:induction false} SliceEnd(text: string, more: string)
    ensures Slice(text + more, Size(text), Size(text) + Size(more)) == Some(more)
  {
    if text == [] {
      assert text + more == more;
      SliceAll(more);
    } else {
      assert (text + more)[1..] == text[1..] + more;
      SliceEnd(text[1..], more);
      if Size(more) == 0 {
        assert more == [];
      }
    }
  }

  /** Two slices that meet. */
  lemma {:induction false} SliceOn(text: string, from: nat, to: nat, end: nat)
    requires from <= to <= end && Slice(text, from, to).Some? && Slice(text, to, end).Some?
    ensures Slice(text, from, end) == Some(Slice(text, from, to).value + Slice(text, to, end).value)
  {
    if to == 0 {
      assert "" + Slice(text, 0, end).value == Slice(text, 0, end).value;
    } else {
      var width := Width(text[0]);
      if from >= width {
        SliceOn(text[1..], from - width, to - width, end - width);
      } else {
        SliceOn(text[1..], 0, to - width, end - width);
        var front, back := Slice(text[1..], 0, to - width).value, Slice(text, to, end).value;
        assert ([text[0]] + front) + back == [text[0]] + (front + back);
      }
    }
  }

  /** A slice up to the end, and a text that grows. */
  lemma SliceGrows(text: string, more: string, from: nat)
    requires from <= Size(text) && Slice(text, from, Size(text)).Some?
    ensures Slice(text + more, from, Size(text) + Size(more)) == Some(Slice(text, from, Size(text)).value + more)
  {
    SliceEnd(text, more);
    SliceLonger(text, more, from, Size(text));
    SliceOn(text + more, from, Size(text), Size(text) + Size(more));
  }

  lemma SliceAt(text: string, i: nat, j: nat)
    requires i <= j <= |text|
    ensures At(text, i) <= At(text, j) && Slice(text, At(text, i), At(text, j)) == Some(text[i..j])
  {
    AtIsSize(text, i);
    AtIsSize(text, j);
    assert text[..j] == text[..i] + text[i..j] && text == text[..j] + text[j..];
    SizeAdds(text[..i], text[i..j]);
    SliceEnd(text[..i], text[i..j]);
    SliceLonger(text[..j], text[j..], At(text, i), At(text, j));
  }
}
