/** Strict decoding of whole byte strings and the character boundaries of a valid text. */
module Utf8Text {
  import opened Bytes
  import opened Options
  import opened Utf8Units

  lemma {:induction false} EncodeAllAppend(a: seq<int>, b: seq<int>)
    requires AllScalar(a) && AllScalar(b)
    ensures AllScalar(a + b) && EncodeAll(a + b) == EncodeAll(a) + EncodeAll(b)
  {
    if a == [] {
      assert a + b == b;
    } else {
      assert (a + b)[1..] == a[1..] + b;
      EncodeAllAppend(a[1..], b);
    }
  }

  /** No encoding is a proper prefix of another one. */
  lemma EncodingsArePrefixFree(c: int, d: int, data: seq<byte>)
    requires IsScalar(c) && IsScalar(d) && Encode(c) <= data && Encode(d) <= data
    ensures c == d
  {
    EncodingIsGrammar(c);
    EncodingIsGrammar(d);
    assert data[0..|Encode(c)|] == Encode(c);
    assert data[0..|Encode(d)|] == Encode(d);
    ReplacementMeansNoScalar(data, 0, true, c);
    ReplacementMeansNoScalar(data, 0, true, d);
  }

  lemma {:induction false} EncodedPrefixIsTextPrefix(ds: seq<int>, cs: seq<int>)
    requires AllScalar(ds) && AllScalar(cs) && EncodeAll(ds) <= EncodeAll(cs)
    ensures ds <= cs
  {
    if ds != [] {
      var data := EncodeAll(cs);
      var e, f := Encode(ds[0]), Encode(cs[0]);
      assert e <= EncodeAll(ds);
      assert f <= data;
      EncodingsArePrefixFree(ds[0], cs[0], data);
      assert EncodeAll(ds)[|e|..] == EncodeAll(ds[1..]);
      assert data[|e|..] == EncodeAll(cs[1..]);
      EncodedPrefixIsTextPrefix(ds[1..], cs[1..]);
      assert ds == [ds[0]] + ds[1..] && cs == [cs[0]] + cs[1..];
    }
  }

  predicate NoReplacement(units: seq<Unit>) {
    forall i :: 0 <= i < |units| ==> !units[i].replacement
  }

  /** bytes.decode("utf-8"): the text, or None for UnicodeDecodeError. */
  function StrictDecode(data: seq<byte>): Option<seq<int>> {
    var units := Units(data, true);
    if NoReplacement(units) then Some(TextOf(units)) else None
  }

  lemma {:induction false} StrictUnits(data: seq<byte>, index: nat)
    requires index <= |data| && NoReplacement(DecodeFrom(data, index, true).units)
    ensures var text := TextOf(DecodeFrom(data, index, true).units);
      AllScalar(text) && EncodeAll(text) == data[index..]
    decreases |data| - index
  {
    if index < |data| {
      var scan := Classify(data, index, true);
      var next := index + scan.length;
      var us, vs := DecodeFrom(data, index, true).units, DecodeFrom(data, next, true).units;
      assert us == [us[0]] + vs;
      assert NoReplacement(vs) by {
        forall i | 0 <= i < |vs| ensures !vs[i].replacement { assert vs[i] == us[i + 1]; }
      }
      StrictUnits(data, next);
      FirstUnitIsProper(data, index, true);
      assert !us[0].replacement && us[0].raw == data[index..next];
      assert TextOf(us)[1..] == TextOf(vs);
      assert data[index..] == data[index..next] + data[next..];
    }
  }

  /** Strict decoding succeeds exactly on encoded texts, and gives the text. */
  lemma StrictDecodeIsInverse(data: seq<byte>, text: seq<int>)
    ensures StrictDecode(data) == Some(text) <==> AllScalar(text) && EncodeAll(text) == data
  {
    if StrictDecode(data) == Some(text) {
      StrictUnits(data, 0);
      assert data[0..] == data;
    }
    if AllScalar(text) && EncodeAll(text) == data {
      DecodeEncodedText(text, true);
      UnitsOfTextAreStrict(text);
    }
  }

  lemma {:induction false} UnitsOfTextAreStrict(text: seq<int>)
    requires AllScalar(text)
    ensures NoReplacement(UnitsOfText(text))
  {
    if text != [] {
      UnitsOfTextAreStrict(text[1..]);
    }
  }

  /** Byte position of the i-th character. */
  function Boundary(text: seq<int>, i: nat): nat
    requires AllScalar(text) && i <= |text|
  {
    |EncodeAll(text[..i])|
  }

  lemma BoundarySlices(text: seq<int>, i: nat, j: nat)
    requires AllScalar(text) && i <= j <= |text|
    ensures AllScalar(text[i..j])
    ensures Boundary(text, j) == Boundary(text, i) + |EncodeAll(text[i..j])| <= |EncodeAll(text)|
    ensures EncodeAll(text)[Boundary(text, i)..Boundary(text, j)] == EncodeAll(text[i..j])
    ensures i < j ==> Boundary(text, i) < Boundary(text, j)
  {
    EncodeAllAppend(text[..i], text[i..j]);
    EncodeAllAppend(text[..j], text[j..]);
    assert text[..i] + text[i..j] == text[..j];
    assert text[..j] + text[j..] == text;
  }

  lemma OneMore(text: seq<int>, i: nat)
    requires AllScalar(text) && i < |text|
    ensures Boundary(text, i) + 1 <= Boundary(text, i + 1) <= Boundary(text, i) + 4
    ensures Boundary(text, i + 1) <= |EncodeAll(text)|
    ensures EncodeAll(text)[Boundary(text, i)..Boundary(text, i + 1)] == Encode(text[i])
  {
    BoundarySlices(text, i, i + 1);
    assert text[i..i + 1] == [text[i]];
    assert EncodeAll([text[i]]) == Encode(text[i]) + EncodeAll([]);
  }

  /** The bytes inside a character are continuation bytes, the first one is not. */
  lemma ContinuationBytes(text: seq<int>, i: nat, p: nat)
    requires AllScalar(text) && i < |text| && Boundary(text, i) <= p < Boundary(text, i + 1)
    ensures p < |EncodeAll(text)|
    ensures IsTail(EncodeAll(text)[p]) <==> p > Boundary(text, i)
  {
    OneMore(text, i);
    TailBytes(text[i], p - Boundary(text, i));
    assert EncodeAll(text)[p] == Encode(text[i])[p - Boundary(text, i)];
  }

  lemma TailBytes(cp: int, k: nat)
    requires IsScalar(cp) && k < |Encode(cp)|
    ensures IsTail(Encode(cp)[k]) <==> k > 0
  {
    EncodingIsGrammar(cp);
  }

  /** A stretch between two boundaries decodes strictly, to the characters between them. */
  lemma StretchDecodes(text: seq<int>, i: nat, j: nat)
    requires AllScalar(text) && i <= j <= |text|
    ensures Boundary(text, i) <= Boundary(text, j) <= |EncodeAll(text)|
    ensures StrictDecode(EncodeAll(text)[Boundary(text, i)..Boundary(text, j)]) == Some(text[i..j])
  {
    BoundarySlices(text, i, j);
    StrictDecodeIsInverse(EncodeAll(text[i..j]), text[i..j]);
  }

  /** A stretch from a boundary that decodes strictly ends on a boundary. */
  lemma DecodableEndsOnBoundary(text: seq<int>, i: nat, e: nat) returns (j: nat)
    requires AllScalar(text) && i <= |text| && Boundary(text, i) <= e <= |EncodeAll(text)|
    requires StrictDecode(EncodeAll(text)[Boundary(text, i)..e]).Some?
    ensures i <= j <= |text| && e == Boundary(text, j)
  {
    var data, rest := EncodeAll(text)[Boundary(text, i)..e], text[i..];
    var ds := StrictDecode(data).value;
    StrictDecodeIsInverse(data, ds);
    BoundarySlices(text, i, |text|);
    assert text[..|text|] == text && text[i..|text|] == rest;
    assert EncodeAll(ds) <= EncodeAll(rest);
    EncodedPrefixIsTextPrefix(ds, rest);
    j := i + |ds|;
    BoundarySlices(text, i, j);
    assert text[i..j] == ds;
  }
}
