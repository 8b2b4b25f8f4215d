/** Incremental UTF-8 decoding as done by the job log reader of shell.py: a byte
    string is cut into units, each one either the encoding of a scalar value or a
    single byte shown as U+FFFD. Text is a sequence of code points. */
module Utf8Units {
  import opened Bytes
  import opened Options

  const REPLACEMENT := 0xFFFD

  /** A unit of raw bytes; the text it shows follows from the bytes and the flag. */
  datatype Unit = Unit(raw: seq<byte>, replacement: bool) {
    function Text(): int { if replacement then REPLACEMENT else CodePoint(raw) }
  }

  // ----- scalar values and their encoding, section 3 and 4 of RFC 3629 -----

  predicate IsScalar(cp: int) {
    0 <= cp <= 0x10FFFF && !(0xD800 <= cp <= 0xDFFF)
  }

  function Encode(cp: int): (r: seq<byte>)
    requires IsScalar(cp)
    ensures 1 <= |r| <= 4
  {
    if cp < 0x80 then [cp]
    else if cp < 0x800 then [0xC0 + cp / 64, 0x80 + cp % 64]
    else if cp < 0x10000 then [0xE0 + cp / 64 / 64, 0x80 + cp / 64 % 64, 0x80 + cp % 64]
    else [0xF0 + cp / 64 / 64 / 64, 0x80 + cp / 64 / 64 % 64, 0x80 + cp / 64 % 64, 0x80 + cp % 64]
  }

  predicate AllScalar(cps: seq<int>) {
    forall i :: 0 <= i < |cps| ==> IsScalar(cps[i])
  }

  function EncodeAll(cps: seq<int>): (r: seq<byte>)
    requires AllScalar(cps)
    ensures |cps| <= |r| && (|r| == 0 ==> cps == [])
  {
    if cps == [] then [] else Encode(cps[0]) + EncodeAll(cps[1..])
  }

  // ----- the decoder of shell.py -----

  function ExpectedLength(first: byte): (r: Option<nat>)
    ensures r.Some? ==> 1 <= r.value <= 4
  {
    if first <= 0x7F then Some(1)
    else if 0xC2 <= first <= 0xDF then Some(2)
    else if 0xE0 <= first <= 0xEF then Some(3)
    else if 0xF0 <= first <= 0xF4 then Some(4)
    else None
  }

  predicate PrefixIsValid(data: seq<byte>, start: nat, expected: nat)
    requires start < |data| && expected <= 4
  {
    var available := if expected < |data| - start then expected else |data| - start;
    if available <= 1 then true
    else
      var first, second := data[start], data[start + 1];
      if first == 0xE0 && !(0xA0 <= second <= 0xBF) then false
      else if first == 0xED && !(0x80 <= second <= 0x9F) then false
      else if first == 0xF0 && !(0x90 <= second <= 0xBF) then false
      else if first == 0xF4 && !(0x80 <= second <= 0x8F) then false
      else if first !in {0xE0, 0xED, 0xF0, 0xF4} && !(0x80 <= second <= 0xBF) then false
      else
        && (available > 2 ==> 0x80 <= data[start + 2] <= 0xBF)
        && (available > 3 ==> 0x80 <= data[start + 3] <= 0xBF)
  }

  /** The code point that Python's strict decoder reads from one complete unit. */
  function CodePoint(raw: seq<byte>): int
  {
    if |raw| == 1 then raw[0]
    else if |raw| == 2 then (raw[0] as int - 0xC0) * 64 + (raw[1] as int - 0x80)
    else if |raw| == 3 then
      ((raw[0] as int - 0xE0) * 64 + (raw[1] as int - 0x80)) * 64 + (raw[2] as int - 0x80)
    else if |raw| == 4 then
      (((raw[0] as int - 0xF0) * 64 + (raw[1] as int - 0x80)) * 64 + (raw[2] as int - 0x80)) * 64
      + (raw[3] as int - 0x80)
    else REPLACEMENT
  }

  /** What the loop does at one position: stop, or take some bytes as one unit. */
  datatype Scan = Incomplete | Take(length: nat, replacement: bool)

  function Classify(data: seq<byte>, index: nat, final: bool): (r: Scan)
    requires index < |data|
    ensures r.Take? ==> 1 <= r.length <= 4 && index + r.length <= |data|
    ensures r.Incomplete? ==> !final && |data| - index <= 3
  {
    match ExpectedLength(data[index])
    case None => Take(1, true)
    case Some(expected) =>
      if |data| - index < expected then
        if PrefixIsValid(data, index, expected) && !final then Incomplete else Take(1, true)
      else if !PrefixIsValid(data, index, expected) then Take(1, true)
      else Take(expected, false)
  }

  /** The units cut so far and the number of bytes left undecoded at the end. */
  datatype Decoded = Decoded(units: seq<Unit>, trailing: nat) {
    function Then(rest: Decoded): Decoded { Decoded(units + rest.units, rest.trailing) }
  }

  /** A decision at every position, for the loop to follow. */
  type Scanner = (seq<byte>, nat, bool) -> Scan

  /** The loop over the input with any way to decide. */
  function DecodeBy(scan: Scanner, data: seq<byte>, index: nat, final: bool): Decoded
    requires index <= |data|
    decreases |data| - index
  {
    if index == |data| then Decoded([], 0)
    else
      var s := scan(data, index, final);
      if s.Incomplete? || s.length == 0 || |data| - index < s.length then Decoded([], |data| - index)
      else
        var rest := DecodeBy(scan, data, index + s.length, final);
        Decoded([Unit(data[index..index + s.length], s.replacement)] + rest.units, rest.trailing)
  }

  function ScanAt(data: seq<byte>, index: nat, final: bool): Scan {
    if index < |data| then Classify(data, index, final) else Incomplete
  }

  function DecodeFrom(data: seq<byte>, index: nat, final: bool): Decoded
    requires index <= |data|
  {
    DecodeBy(ScanAt, data, index, final)
  }

  function Units(data: seq<byte>, final: bool): seq<Unit> {
    DecodeFrom(data, 0, final).units
  }

  function Trailing(data: seq<byte>, final: bool): nat {
    DecodeFrom(data, 0, final).trailing
  }

  /** One step of DecodeFrom, with the decision already known. */
  lemma DecodeStep(data: seq<byte>, index: nat, final: bool, n: nat, replacement: bool)
    requires index < |data| && Classify(data, index, final) == Take(n, replacement)
    ensures DecodeFrom(data, index, final)
      == Decoded([Unit(data[index..index + n], replacement)], 0).Then(DecodeFrom(data, index + n, final))
  {
  }

  lemma DecodeStop(data: seq<byte>, index: nat, final: bool)
    requires index < |data| && Classify(data, index, final).Incomplete?
    ensures DecodeFrom(data, index, final) == Decoded([], |data| - index)
  {
  }

  lemma ThenAssociates(a: Decoded, b: Decoded, c: Decoded)
    ensures a.Then(b).Then(c) == a.Then(b.Then(c))
  {
    assert a.units + b.units + c.units == a.units + (b.units + c.units);
  }

  method DecodeUtf8Units(data: seq<byte>, final: bool) returns (units: seq<Unit>, trailing: nat)
    ensures units == Units(data, final)
    ensures trailing == Trailing(data, final)
  {
    units := [];
    var index := 0;
    while index < |data|
      invariant 0 <= index <= |data|
      invariant Decoded(units, 0).Then(DecodeFrom(data, index, final)) == DecodeFrom(data, 0, final)
    {
      var scan := Classify(data, index, final);
      if scan.Incomplete? {
        break;
      }
      var unit := Unit(data[index..index + scan.length], scan.replacement);
      DecodeStep(data, index, final, scan.length, scan.replacement);
      ThenAssociates(Decoded(units, 0), Decoded([unit], 0), DecodeFrom(data, index + scan.length, final));
      units := units + [unit];
      index := index + scan.length;
    }
    trailing := |data| - index;
  }

  // ----- what the units mean -----

  function RawOf(units: seq<Unit>): seq<byte> {
    if units == [] then [] else units[0].raw + RawOf(units[1..])
  }

  function TextOf(units: seq<Unit>): (r: seq<int>)
    ensures |r| == |units|
  {
    if units == [] then [] else [units[0].Text()] + TextOf(units[1..])
  }

  lemma {:induction false} RawOfAppend(a: seq<Unit>, b: seq<Unit>)
    ensures RawOf(a + b) == RawOf(a) + RawOf(b)
  {
    if a == [] {
      assert a + b == b;
    } else {
      assert (a + b)[1..] == a[1..] + b;
      RawOfAppend(a[1..], b);
    }
  }

  lemma {:induction false} TextOfAppend(a: seq<Unit>, b: seq<Unit>)
    ensures TextOf(a + b) == TextOf(a) + TextOf(b)
  {
    if a == [] {
      assert a + b == b;
    } else {
      assert (a + b)[1..] == a[1..] + b;
      TextOfAppend(a[1..], b);
    }
  }

  lemma {:induction false} TrailingIsShort(data: seq<byte>, index: nat, final: bool)
    requires index <= |data|
    ensures var t := DecodeFrom(data, index, final).trailing;
      t <= 3 && index + t <= |data| && (final ==> t == 0)
    decreases |data| - index
  {
    if index < |data| {
      var scan := Classify(data, index, final);
      if scan.Take? {
        TrailingIsShort(data, index + scan.length, final);
      }
    }
  }

  /** Units and trailing bytes partition the input. */
  lemma {:induction false} UnitsPartitionInput(data: seq<byte>, index: nat, final: bool)
    requires index <= |data|
    ensures index + DecodeFrom(data, index, final).trailing <= |data|
    ensures RawOf(DecodeFrom(data, index, final).units) == data[index..|data| - DecodeFrom(data, index, final).trailing]
    decreases |data| - index
  {
    if index < |data| && Classify(data, index, final).Take? {
      var next := index + Classify(data, index, final).length;
      UnitsPartitionInput(data, next, final);
      var us := DecodeFrom(data, index, final).units;
      assert us[0].raw == data[index..next] && us[1..] == DecodeFrom(data, next, final).units;
    }
  }

  /** A longer input never changes a decision already taken on a prefix. */
  lemma ClassifyStable(p: seq<byte>, data: seq<byte>, index: nat, final: bool)
    requires p <= data && index < |p| && Classify(p, index, false).Take?
    ensures Classify(data, index, final) == Classify(p, index, false)
  {
    assert p[index] == data[index];
    assert index + 1 < |p| ==> p[index + 1] == data[index + 1];
    assert index + 2 < |p| ==> p[index + 2] == data[index + 2];
    assert index + 3 < |p| ==> p[index + 3] == data[index + 3];
  }

  predicate SuffixAt(q: seq<byte>, data: seq<byte>, c: nat) {
    c + |q| == |data| && data[c..] == q
  }

  /** Decoding from a position reads nothing before it. */
  lemma ClassifyOfSuffix(q: seq<byte>, data: seq<byte>, c: nat, index: nat, final: bool)
    requires SuffixAt(q, data, c) && index < |q|
    ensures Classify(q, index, final) == Classify(data, c + index, final)
  {
    assert q[index] == data[c + index];
    assert index + 1 < |q| ==> q[index + 1] == data[c + index + 1];
    assert index + 2 < |q| ==> q[index + 2] == data[c + index + 2];
    assert index + 3 < |q| ==> q[index + 3] == data[c + index + 3];
  }

  lemma SliceOfSuffix(q: seq<byte>, data: seq<byte>, c: nat, i: nat, n: nat)
    requires SuffixAt(q, data, c) && i + n <= |q|
    ensures q[i..i + n] == data[c + i..c + i + n]
  {
  }

  lemma SliceOfPrefix(p: seq<byte>, data: seq<byte>, i: nat, n: nat)
    requires p <= data && i + n <= |p|
    ensures p[i..i + n] == data[i..i + n]
  {
  }

  /** Two inputs that take the same unit and then decode alike, decode alike. */
  lemma SameStep(q: seq<byte>, i: nat, data: seq<byte>, j: nat, final: bool, n: nat, replacement: bool)
    requires i < |q| && j < |data|
    requires Classify(q, i, final) == Take(n, replacement) == Classify(data, j, final)
    requires q[i..i + n] == data[j..j + n]
    requires DecodeFrom(q, i + n, final) == DecodeFrom(data, j + n, final)
    ensures DecodeFrom(q, i, final) == DecodeFrom(data, j, final)
  {
    DecodeStep(data, j, final, n, replacement);
    DecodeStep(q, i, final, n, replacement);
  }

  lemma {:induction false} UnitsOfSuffix(q: seq<byte>, data: seq<byte>, c: nat, index: nat, final: bool)
    requires SuffixAt(q, data, c) && index <= |q|
    ensures DecodeFrom(q, index, final) == DecodeFrom(data, c + index, final)
    decreases |q| - index
  {
    if index < |q| {
      var scan := Classify(q, index, final);
      ClassifyOfSuffix(q, data, c, index, final);
      if scan.Take? {
        UnitsOfSuffix(q, data, c, index + scan.length, final);
        SuffixStep(q, data, c, index, final, scan);
      } else {
        DecodeStop(q, index, final);
        DecodeStop(data, c + index, final);
      }
    }
  }

  lemma SuffixStep(q: seq<byte>, data: seq<byte>, c: nat, index: nat, final: bool, scan: Scan)
    requires SuffixAt(q, data, c) && index < |q| && scan.Take? && 1 <= scan.length && index + scan.length <= |q|
    requires Classify(q, index, final) == scan == Classify(data, c + index, final)
    requires DecodeFrom(q, index + scan.length, final) == DecodeFrom(data, c + (index + scan.length), final)
    ensures DecodeFrom(q, index, final) == DecodeFrom(data, c + index, final)
  {
    SliceOfSuffix(q, data, c, index, scan.length);
    SameStep(q, index, data, c + index, final, scan.length, scan.replacement);
  }

  /** Both sides of a split take the same first unit. */
  lemma SplitStep(p: seq<byte>, data: seq<byte>, i: nat, final: bool, n: nat, replacement: bool, rest: Decoded)
    requires i < |p| && i < |data|
    requires Classify(p, i, false) == Take(n, replacement) == Classify(data, i, final)
    requires p[i..i + n] == data[i..i + n]
    requires DecodeFrom(data, i + n, final) == DecodeFrom(p, i + n, false).Then(rest)
    ensures DecodeFrom(data, i, final) == DecodeFrom(p, i, false).Then(rest)
  {
    DecodeStep(data, i, final, n, replacement);
    DecodeStep(p, i, false, n, replacement);
    ThenAssociates(Decoded([Unit(p[i..i + n], replacement)], 0), DecodeFrom(p, i + n, false), rest);
  }

  lemma {:induction false} SplitFrom(p: seq<byte>, data: seq<byte>, index: nat, final: bool, read: Decoded,
          rest: Decoded)
    requires p <= data && index <= |p| && read == DecodeFrom(p, index, false)
    requires read.trailing <= |p| && rest == DecodeFrom(data, |p| - read.trailing, final)
    ensures DecodeFrom(data, index, final) == read.Then(rest)
    decreases |p| - index
  {
    if index < |p| {
      var scan := Classify(p, index, false);
      if scan.Take? {
        DecodeStep(p, index, false, scan.length, scan.replacement);
        SplitFrom(p, data, index + scan.length, final, DecodeFrom(p, index + scan.length, false), rest);
        ClassifyStable(p, data, index, final);
        SliceOfPrefix(p, data, index, scan.length);
        SplitStep(p, data, index, final, scan.length, scan.replacement, rest);
      }
    }
  }

  /** Split invariance: decode any prefix without finality, go on from the first
      undecoded byte, and the units are those of one pass over the whole input. */
  lemma DecodingIsSplitInvariant(p: seq<byte>, data: seq<byte>, final: bool)
    requires p <= data
    ensures Trailing(p, false) <= |p|
    ensures var rest := data[|p| - Trailing(p, false)..];
      && Units(data, final) == Units(p, false) + Units(rest, final)
      && Trailing(data, final) == Trailing(rest, final)
  {
    TrailingIsShort(p, 0, false);
    var read := DecodeFrom(p, 0, false);
    var c := |p| - read.trailing;
    SplitFrom(p, data, 0, final, read, DecodeFrom(data, c, final));
    UnitsOfSuffix(data[c..], data, c, 0, final);
  }

  /** The byte sequences of the UTF8-octets grammar, section 4 of RFC 3629. */
  predicate IsTail(b: byte) { 0x80 <= b <= 0xBF }

  predicate IsUtf8Char(r: seq<byte>) {
    if |r| == 1 then r[0] <= 0x7F
    else if |r| == 2 then 0xC2 <= r[0] <= 0xDF && IsTail(r[1])
    else if |r| == 3 then
      && IsTail(r[2])
      && (|| (r[0] == 0xE0 && 0xA0 <= r[1] <= 0xBF)
          || (0xE1 <= r[0] <= 0xEC && IsTail(r[1]))
          || (r[0] == 0xED && 0x80 <= r[1] <= 0x9F)
          || (0xEE <= r[0] <= 0xEF && IsTail(r[1])))
    else
      && |r| == 4
      && IsTail(r[2]) && IsTail(r[3])
      && (|| (r[0] == 0xF0 && 0x90 <= r[1] <= 0xBF)
          || (0xF1 <= r[0] <= 0xF3 && IsTail(r[1]))
          || (r[0] == 0xF4 && 0x80 <= r[1] <= 0x8F))
  }

  /** The scan takes more than a stray byte exactly where a grammatical character starts. */
  lemma ClassifyMatchesGrammar(data: seq<byte>, index: nat, final: bool, n: nat)
    requires index < |data| && 1 <= n && index + n <= |data|
    ensures Classify(data, index, final) == Take(n, false) <==> IsUtf8Char(data[index..index + n])
  {
    var r := data[index..index + n];
    assert r[0] == data[index];
    assert n > 1 ==> r[1] == data[index + 1];
    assert n > 2 ==> r[2] == data[index + 2];
    assert n > 3 ==> r[3] == data[index + 3];
  }

  lemma SixBits(high: nat, low: nat)
    requires low < 64
    ensures (high * 64 + low) / 64 == high && (high * 64 + low) % 64 == low
  {
  }

  lemma ThreeBytes(r: seq<byte>)
    requires |r| == 3 && IsUtf8Char(r)
    ensures IsScalar(CodePoint(r)) && Encode(CodePoint(r)) == r
  {
    var a: int, b: int, c: int := r[0] as int - 0xE0, r[1] as int - 0x80, r[2] as int - 0x80;
    SixBits(a, b);
    SixBits(a * 64 + b, c);
    assert CodePoint(r) == (a * 64 + b) * 64 + c;
  }

  lemma FourBytes(r: seq<byte>)
    requires |r| == 4 && IsUtf8Char(r)
    ensures IsScalar(CodePoint(r)) && Encode(CodePoint(r)) == r
  {
    var a: int, b: int := r[0] as int - 0xF0, r[1] as int - 0x80;
    var c: int, d: int := r[2] as int - 0x80, r[3] as int - 0x80;
    SixBits(a, b);
    SixBits(a * 64 + b, c);
    SixBits((a * 64 + b) * 64 + c, d);
    assert CodePoint(r) == ((a * 64 + b) * 64 + c) * 64 + d;
  }

  /** The grammar of section 4 describes exactly the encodings of section 3. */
  lemma GrammarIsEncoding(r: seq<byte>)
    requires IsUtf8Char(r)
    ensures IsScalar(CodePoint(r)) && Encode(CodePoint(r)) == r
  {
    if |r| == 3 {
      ThreeBytes(r);
    } else if |r| == 4 {
      FourBytes(r);
    }
  }

  lemma EncodingIsGrammar(cp: int)
    requires IsScalar(cp)
    ensures IsUtf8Char(Encode(cp)) && CodePoint(Encode(cp)) == cp
  {
  }

  predicate EncodedAt(data: seq<byte>, index: nat, cp: int)
    requires IsScalar(cp)
  {
    index + |Encode(cp)| <= |data| && data[index..index + |Encode(cp)|] == Encode(cp)
  }

  /** A unit is a replacement only where no scalar value is encoded. */
  lemma ReplacementMeansNoScalar(data: seq<byte>, index: nat, final: bool, cp: int)
    requires index < |data| && IsScalar(cp) && EncodedAt(data, index, cp)
    ensures Classify(data, index, final) == Take(|Encode(cp)|, false)
  {
    EncodingIsGrammar(cp);
    ClassifyMatchesGrammar(data, index, final, |Encode(cp)|);
  }

  /** What one unit may be, given where it starts in the input. */
  ghost predicate ProperUnit(u: Unit, data: seq<byte>, at: nat) {
    if u.replacement then
      |u.raw| == 1 && u.Text() == REPLACEMENT && forall cp :: IsScalar(cp) ==> !EncodedAt(data, at, cp)
    else
      IsScalar(u.Text()) && u.raw == Encode(u.Text())
  }

  lemma FirstUnitIsProper(data: seq<byte>, index: nat, final: bool)
    requires index < |data| && Classify(data, index, final).Take?
    ensures ProperUnit(DecodeFrom(data, index, final).units[0], data, index)
  {
    var Take(n, replacement) := Classify(data, index, final);
    DecodeStep(data, index, final, n, replacement);
    if replacement {
      forall cp | IsScalar(cp) ensures !EncodedAt(data, index, cp) {
        if EncodedAt(data, index, cp) {
          ReplacementMeansNoScalar(data, index, final, cp);
          assert false;
        }
      }
    } else {
      ClassifyMatchesGrammar(data, index, final, n);
      GrammarIsEncoding(data[index..index + n]);
    }
  }

  /** Every unit is one scalar value with exactly its encoding, or one single byte at
      which no scalar value is encoded. */
  lemma {:induction false} UnitsAreScalarsOrStrayBytes(data: seq<byte>, index: nat, final: bool, i: nat)
    requires index <= |data| && i < |DecodeFrom(data, index, final).units|
    ensures var us := DecodeFrom(data, index, final).units;
      ProperUnit(us[i], data, index + |RawOf(us[..i])|)
    decreases |data| - index
  {
    var us := DecodeFrom(data, index, final).units;
    var scan := Classify(data, index, final);
    if i == 0 {
      assert us[..0] == [];
      FirstUnitIsProper(data, index, final);
    } else {
      var next := index + scan.length;
      var vs := DecodeFrom(data, next, final).units;
      assert us[0].raw == data[index..next] && us[1..] == vs;
      assert us[..i][1..] == vs[..i - 1];
      UnitsAreScalarsOrStrayBytes(data, next, final, i - 1);
    }
  }

  /** The units of a text that was encoded. */
  function UnitsOfText(cps: seq<int>): (r: seq<Unit>)
    requires AllScalar(cps)
    ensures |r| == |cps|
  {
    if cps == [] then [] else [Unit(Encode(cps[0]), false)] + UnitsOfText(cps[1..])
  }

  /** Reading back an encoded text gives the text, with no replacement and nothing over. */
  lemma {:induction false} DecodeEncodedText(cps: seq<int>, final: bool)
    requires AllScalar(cps)
    ensures Trailing(EncodeAll(cps), final) == 0
    ensures Units(EncodeAll(cps), final) == UnitsOfText(cps)
    ensures TextOf(UnitsOfText(cps)) == cps
    decreases |cps|
  {
    if cps != [] {
      var e, rest := Encode(cps[0]), EncodeAll(cps[1..]);
      var data := EncodeAll(cps);
      assert data[0..|e|] == e && data[|e|..] == rest;
      ReplacementMeansNoScalar(data, 0, final, cps[0]);
      EncodingIsGrammar(cps[0]);
      DecodeEncodedText(cps[1..], final);
      UnitsOfSuffix(rest, data, |e|, 0, final);
    }
  }
}
