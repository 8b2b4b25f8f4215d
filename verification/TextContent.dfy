/** How bytes become text before rules see them and bytes again afterwards, for UTF-8 with and
    without its byte order mark. */
module TextContent {
  import opened Bytes
  import opened Options
  import opened ReplaceRules
  import ReplaceFiles
  import Utf8Text
  import Utf8Units

  const NUL_WINDOW := 1024
  const BYTE_ORDER_MARK := 0xFEFF

  function Utf8Mark(): seq<byte> { [0xEF, 0xBB, 0xBF] }

  /** A mark of UTF-16 or UTF-32, which other codecs handle. */
  predicate HasForeignMark(raw: seq<byte>) {
    [0xFF, 0xFE] <= raw || [0xFE, 0xFF] <= raw || [0, 0, 0xFE, 0xFF] <= raw
  }

  // ----- the newline style -----

  function Kinds(crlf: bool, lf: bool, cr: bool): Newline {
    if (crlf && lf) || (crlf && cr) || (lf && cr) then Mixed
    else if crlf then CrLf
    else if lf then Lf
    else if cr then Cr
    else NoNewline
  }

  function NewlineStyle(text: Text): Newline {
    var withoutCrLf := ReplaceAll(text, [CR, LF], []);
    Kinds(Count(text, [CR, LF]) > 0, Count(withoutCrLf, [LF]) > 0, Count(withoutCrLf, [CR]) > 0)
  }

  /** The line ends of a text in order. */
  function LineEnds(text: Text): seq<Newline> {
    if text == [] then []
    else if text[0] == CR && |text| > 1 && text[1] == LF then [CrLf] + LineEnds(text[2..])
    else (if text[0] == CR then [Cr] else if text[0] == LF then [Lf] else []) + LineEnds(text[1..])
  }

  lemma {:induction false} CountsAreLineEnds(text: Text)
    ensures Count(text, [CR, LF]) > 0 <==> CrLf in LineEnds(text)
    ensures Count(ReplaceAll(text, [CR, LF], []), [LF]) > 0 <==> Lf in LineEnds(text)
    ensures Count(ReplaceAll(text, [CR, LF], []), [CR]) > 0 <==> Cr in LineEnds(text)
    decreases |text|
  {
    if text != [] {
      var without := ReplaceAll(text, [CR, LF], []);
      ReplaceAllStep(text, [CR, LF], []);
      if [CR, LF] <= text {
        assert text[0] == [CR, LF][0] && text[1] == [CR, LF][1];
        CountsAreLineEnds(text[2..]);
        assert without == ReplaceAll(text[2..], [CR, LF], []);
      } else {
        CountsAreLineEnds(text[1..]);
        assert text[0] == CR && |text| > 1 && text[1] == LF ==> [CR, LF] <= text;
        assert without[1..] == ReplaceAll(text[1..], [CR, LF], []);
        assert [LF] <= without <==> without[0] == LF;
        assert [CR] <= without <==> without[0] == CR;
      }
    }
  }

  /** The style is one kind exactly when all line ends are of that kind, mixed exactly when two
      kinds occur. */
  lemma NewlineStyleIsRight(text: Text)
    ensures NewlineStyle(text) == Kinds(CrLf in LineEnds(text), Lf in LineEnds(text), Cr in LineEnds(text))
  {
    CountsAreLineEnds(text);
  }

  // ----- decoding and encoding -----

  function DecodeTextBytes(raw: seq<byte>): Option<ReplaceFiles.Decoded>
    requires !HasForeignMark(raw)
  {
    var marked := Utf8Mark() <= raw;
    var text := Utf8Text.StrictDecode(if marked then raw[3..] else raw);
    if text.None? then None
    else if !marked && 0 in text.value[..if |text.value| < NUL_WINDOW then |text.value| else NUL_WINDOW] then None
    else Some(ReplaceFiles.Decoded(text.value, if marked then Utf8Mark() else [], "utf-8", NewlineStyle(text.value)))
  }

  function EncodeTextBytes(decoded: ReplaceFiles.Decoded, text: Text): Option<seq<byte>> {
    if Utf8Units.AllScalar(text) then Some(decoded.mark + Utf8Units.EncodeAll(text)) else None
  }

  /** Text that no rule changed is written back as the very bytes it was read from. */
  lemma UnchangedTextKeepsItsBytes(raw: seq<byte>)
    requires !HasForeignMark(raw) && DecodeTextBytes(raw).Some?
    ensures var d := DecodeTextBytes(raw).value; EncodeTextBytes(d, d.text) == Some(raw)
  {
    var body := if Utf8Mark() <= raw then raw[3..] else raw;
    Utf8Text.StrictDecodeIsInverse(body, Utf8Text.StrictDecode(body).value);
    if Utf8Mark() <= raw {
      assert raw == Utf8Mark() + body;
    } else {
      assert raw == [] + body;
    }
  }

  /** A text can be taken for marked or for binary when it is read again. */
  predicate ReadsBack(mark: seq<byte>, text: Text) {
    mark == Utf8Mark()
    || ((text == [] || text[0] != BYTE_ORDER_MARK)
        && 0 !in text[..if |text| < NUL_WINDOW then |text| else NUL_WINDOW])
  }

  lemma MarkIsEncoded()
    ensures Utf8Units.Encode(BYTE_ORDER_MARK) == Utf8Mark() && Utf8Units.IsScalar(BYTE_ORDER_MARK)
  {
  }

  /** Encoded text starts with the mark exactly when its first character is U+FEFF. */
  lemma StartsWithMark(text: Text)
    requires Utf8Units.AllScalar(text)
    ensures Utf8Mark() <= Utf8Units.EncodeAll(text) <==> text != [] && text[0] == BYTE_ORDER_MARK
  {
    MarkIsEncoded();
    var data := Utf8Units.EncodeAll(text);
    if text != [] {
      assert Utf8Units.Encode(text[0]) <= data;
      if Utf8Mark() <= data {
        Utf8Text.EncodingsArePrefixFree(BYTE_ORDER_MARK, text[0], data);
      }
    }
  }

  lemma {:induction false} EncodedBytesAreLow(text: Text, i: nat)
    requires Utf8Units.AllScalar(text) && i < |Utf8Units.EncodeAll(text)|
    ensures Utf8Units.EncodeAll(text)[i] <= 0xF4
  {
    var first := Utf8Units.Encode(text[0]);
    assert Utf8Units.EncodeAll(text) == first + Utf8Units.EncodeAll(text[1..]);
    if i < |first| {
      FirstBytesAreLow(text[0], i);
    } else {
      EncodedBytesAreLow(text[1..], i - |first|);
    }
  }

  lemma FirstBytesAreLow(c: int, i: nat)
    requires Utf8Units.IsScalar(c) && i < |Utf8Units.Encode(c)|
    ensures Utf8Units.Encode(c)[i] <= 0xF4
  {
  }

  lemma NeverForeign(text: Text)
    requires Utf8Units.AllScalar(text)
    ensures !HasForeignMark(Utf8Units.EncodeAll(text)) && !HasForeignMark(Utf8Mark() + Utf8Units.EncodeAll(text))
  {
    var data := Utf8Units.EncodeAll(text);
    if |data| > 0 {
      EncodedBytesAreLow(text, 0);
    }
    if |data| > 2 {
      EncodedBytesAreLow(text, 2);
    }
    var marked := Utf8Mark() + data;
    assert marked[0] == 0xEF;
    forall m: seq<byte> | m <= marked && |m| > 0 ensures m[0] == 0xEF {
      assert m == marked[..|m|];
    }
    assert [0xFF, 0xFE][0] == 0xFF;
  }

  /** Encoded text is read back as the same text with the same mark exactly when it has the mark,
      or starts with no U+FEFF and has no NUL among its first 1024 characters. */
  lemma TextReadsBack(d: ReplaceFiles.Decoded, text: Text)
    requires Utf8Units.AllScalar(text) && (d.mark == [] || d.mark == Utf8Mark())
    ensures !HasForeignMark(EncodeTextBytes(d, text).value)
    ensures ReadsBack(d.mark, text) <==>
      DecodeTextBytes(EncodeTextBytes(d, text).value) == Some(ReplaceFiles.Decoded(text, d.mark, "utf-8", NewlineStyle(text)))
  {
    NeverForeign(text);
    StartsWithMark(text);
    var data := Utf8Units.EncodeAll(text);
    Utf8Text.StrictDecodeIsInverse(data, text);
    if d.mark == [] {
      assert EncodeTextBytes(d, text).value == data;
    } else {
      var raw := Utf8Mark() + data;
      assert Utf8Mark() <= raw && raw[3..] == data;
    }
  }
}
