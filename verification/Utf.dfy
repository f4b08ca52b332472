/** UTF-8, UTF-16 and UTF-32 conversion of texts.  Masks and shifts of the code are written as the
    divisions and remainders they compute. */
module Utf {
  import opened Sequences

  type Byte = b: int | 0 <= b < 0x100
  type Unit = u: int | 0 <= u < 0x1_0000

  const REPLACEMENT := 0xFFFD

  predicate High(u: int) { 0xD800 <= u <= 0xDBFF }

  predicate Low(u: int) { 0xDC00 <= u <= 0xDFFF }

  predicate Scalar(c: int) { 0 <= c <= 0x10FFFF && !High(c) && !Low(c) }

  // ---- UTF-16 -------------------------------------------------------------------------------------

  function Pair(hi: int, lo: int): int { 0x1_0000 + (hi - 0xD800) * 0x400 + (lo - 0xDC00) }

  /** A code point as UTF-16 units. */
  function Units(c: int): seq<Unit>
    requires 0 <= c <= 0x10FFFF
  {
    if c <= 0xFFFF then [c] else [0xD800 + (c - 0x1_0000) / 0x400, 0xDC00 + (c - 0x1_0000) % 0x400]
  }

  ghost predicate AllScalar(points: seq<int>) { forall i :: 0 <= i < |points| ==> Scalar(points[i]) }

  function AllUnits(points: seq<int>): seq<Unit>
    requires forall i :: 0 <= i < |points| ==> 0 <= points[i] <= 0x10FFFF
  {
    if points == [] then [] else Units(points[0]) + AllUnits(points[1..])
  }

  /** Section 2.2 of RFC 2781: every surrogate belongs to a pair. */
  predicate WellFormed16(text: seq<Unit>) {
    if text == [] then true
    else if High(text[0]) then |text| > 1 && Low(text[1]) && WellFormed16(text[2..])
    else !Low(text[0]) && WellFormed16(text[1..])
  }

  /** The text with each unpaired surrogate replaced. */
  function Mended(text: seq<Unit>): seq<Unit> {
    if text == [] then []
    else if High(text[0]) && |text| > 1 && Low(text[1]) then text[..2] + Mended(text[2..])
    else [if High(text[0]) || Low(text[0]) then REPLACEMENT else text[0]] + Mended(text[1..])
  }

  /** What the encoders read at the front of a text: a code point and how many units it takes. */
  function Read(text: seq<Unit>): (int, int)
    requires text != []
  {
    if High(text[0]) && |text| > 1 then
      if Low(text[1]) then (Pair(text[0], text[1]), 2) else (REPLACEMENT, 1)
    else if Low(text[0]) then (REPLACEMENT, 1)
    else (text[0], 1)
  }

  function Points(text: seq<Unit>): seq<int> {
    if text == [] then [] else [Read(text).0] + Points(text[Read(text).1..])
  }

  predicate EndsHigh(text: seq<Unit>) { text != [] && High(text[|text| - 1]) }

  // ---- UTF-8 --------------------------------------------------------------------------------------

  function EncodedLength(c: int): nat {
    if c <= 0x7F then 1 else if c <= 0x7FF then 2 else if c <= 0xFFFF then 3 else 4
  }

  function EncodeOne(c: int): (r: seq<Byte>)
    requires 0 <= c <= 0x10FFFF
  {
    if c <= 0x7F then [c]
    else if c <= 0x7FF then [0xC0 + c / 0x40, 0x80 + c % 0x40]
    else if c <= 0xFFFF then [0xE0 + c / 0x1000, 0x80 + c / 0x40 % 0x40, 0x80 + c % 0x40]
    else [0xF0 + c / 0x4_0000, 0x80 + c / 0x1000 % 0x40, 0x80 + c / 0x40 % 0x40, 0x80 + c % 0x40]
  }

  function EncodeAll(points: seq<int>): seq<Byte>
    requires forall i :: 0 <= i < |points| ==> 0 <= points[i] <= 0x10FFFF
  {
    if points == [] then [] else EncodeOne(points[0]) + EncodeAll(points[1..])
  }

  predicate Tail(b: int) { 0x80 <= b <= 0xBF }

  function Needed(first: int): nat {
    if first >= 0xF0 then 3 else if first >= 0xE0 then 2 else if first >= 0xC2 then 1 else 0
  }

  /** The payload bits of a lead byte that announces `needed` continuation bytes. */
  function Lead(first: int, needed: int): int {
    if needed == 1 then first % 0x20 else if needed == 2 then first % 0x10 else first % 8
  }

  /** The bits collected from the lead and n continuation bytes. */
  function Bits(bytes: seq<Byte>, needed: int, n: nat): (v: int)
    requires n < |bytes|
    ensures v >= 0
  {
    if n == 0 then Lead(bytes[0], needed) else Bits(bytes, needed, n - 1) * 0x40 + bytes[n] % 0x40
  }

  /** What the decoder takes at the front of the bytes: a code point and how many bytes it consumes. */
  function DecodeOne(bytes: seq<Byte>): (int, int)
    requires bytes != []
  {
    var first := bytes[0];
    if first < 0x80 then (first, 1)
    else
      var needed := Needed(first);
      if needed == 0 || 1 + needed > |bytes| then (REPLACEMENT, 1)
      else if exists k :: 1 <= k <= needed && !Tail(bytes[k]) then (REPLACEMENT, 1)
      else
        var value := Bits(bytes, needed, needed);
        if (needed == 2 && value < 0x800) || (needed == 3 && value < 0x1_0000) || 0xD800 <= value <= 0xDFFF
           || value > 0x10FFFF
        then (REPLACEMENT, 1) else (value, 1 + needed)
  }

  lemma DecodeOneScalar(bytes: seq<Byte>)
    requires bytes != []
    ensures Scalar(DecodeOne(bytes).0) && 1 <= DecodeOne(bytes).1 <= |bytes|
    ensures |Units(DecodeOne(bytes).0)| <= DecodeOne(bytes).1
  {
    var needed := Needed(bytes[0]);
    if needed > 0 && needed < |bytes| { BitsBound(bytes, needed); }
  }

  /** Two or three bytes never reach past the basic plane. */
  lemma BitsBound(bytes: seq<Byte>, needed: nat)
    requires 0 < needed < |bytes|
    ensures needed == 1 ==> Bits(bytes, needed, 1) < 0x800
    ensures needed == 2 ==> Bits(bytes, needed, 2) < 0x1_0000
  {
    assert Bits(bytes, needed, 1) == Lead(bytes[0], needed) * 0x40 + bytes[1] % 0x40;
    if needed == 2 { assert Bits(bytes, 2, 2) == Bits(bytes, 2, 1) * 0x40 + bytes[2] % 0x40; }
  }

  function Decode(bytes: seq<Byte>): (points: seq<int>)
    decreases |bytes|
  {
    if bytes == [] then []
    else
      assert 1 <= DecodeOne(bytes).1 <= |bytes|;
      [DecodeOne(bytes).0] + Decode(bytes[DecodeOne(bytes).1..])
  }

  // ---- Decoding undoes encoding -------------------------------------------------------------------

  lemma Sextets(c: nat)
    ensures c / 0x1000 == c / 0x40 / 0x40 && c / 0x4_0000 == c / 0x1000 / 0x40
    ensures c == c / 0x40 * 0x40 + c % 0x40
    ensures c / 0x40 == c / 0x1000 * 0x40 + c / 0x40 % 0x40
    ensures c / 0x1000 == c / 0x4_0000 * 0x40 + c / 0x1000 % 0x40
  {
  }

  lemma DecodeEncodeTwo(c: int, bytes: seq<Byte>)
    requires 0x7F < c <= 0x7FF && EncodeOne(c) <= bytes
    ensures DecodeOne(bytes) == (c, 2)
  {
    var e := EncodeOne(c);
    assert bytes[0] == e[0] && bytes[1] == e[1];
    Sextets(c);
    assert Bits(bytes, 1, 0) == c / 0x40;
    assert Bits(bytes, 1, 1) == c;
  }

  lemma DecodeEncodeThree(c: int, bytes: seq<Byte>)
    requires 0x7FF < c <= 0xFFFF && Scalar(c) && EncodeOne(c) <= bytes
    ensures DecodeOne(bytes) == (c, 3)
  {
    var e := EncodeOne(c);
    assert bytes[0] == e[0] && bytes[1] == e[1] && bytes[2] == e[2];
    Sextets(c);
    assert Bits(bytes, 2, 0) == c / 0x1000;
    assert Bits(bytes, 2, 1) == c / 0x40;
    assert Bits(bytes, 2, 2) == c;
  }

  lemma DecodeEncodeFour(c: int, bytes: seq<Byte>)
    requires 0xFFFF < c <= 0x10FFFF && EncodeOne(c) <= bytes
    ensures DecodeOne(bytes) == (c, 4)
  {
    var e := EncodeOne(c);
    assert bytes[0] == e[0] && bytes[1] == e[1] && bytes[2] == e[2] && bytes[3] == e[3];
    Sextets(c);
    assert Bits(bytes, 3, 0) == c / 0x4_0000;
    assert Bits(bytes, 3, 1) == c / 0x1000;
    assert Bits(bytes, 3, 2) == c / 0x40;
    assert Bits(bytes, 3, 3) == c;
  }

  lemma DecodeEncodeOne(c: int, rest: seq<Byte>)
    requires Scalar(c)
    ensures DecodeOne(EncodeOne(c) + rest) == (c, |EncodeOne(c)|)
  {
    if c > 0xFFFF { DecodeEncodeFour(c, EncodeOne(c) + rest); }
    else if c > 0x7FF { DecodeEncodeThree(c, EncodeOne(c) + rest); }
    else if c > 0x7F { DecodeEncodeTwo(c, EncodeOne(c) + rest); }
  }

  lemma EncodeCons(c: int, points: seq<int>)
    requires 0 <= c <= 0x10FFFF && forall i :: 0 <= i < |points| ==> 0 <= points[i] <= 0x10FFFF
    ensures EncodeAll([c] + points) == EncodeOne(c) + EncodeAll(points)
  {
    assert ([c] + points)[1..] == points;
  }

  lemma {:induction false} DecodeEncodeAll(points: seq<int>, rest: seq<Byte>)
    requires AllScalar(points)
    ensures Decode(EncodeAll(points) + rest) == points + Decode(rest)
  {
    if points == [] {
      assert EncodeAll(points) + rest == rest;
    } else {
      var c, tail := points[0], points[1..];
      var front, more := EncodeOne(c), EncodeAll(tail) + rest;
      DecodeEncodeOne(c, more);
      assert EncodeAll(points) == front + EncodeAll(tail);
      hide *;
      Associate(front, EncodeAll(tail), rest);
      assert points == [c] + tail;
      Associate([c], tail, Decode(rest));
      DecodeEncodeAll(tail, rest);
      DecodeCons(front, more, c);
    }
  }

  lemma DecodeCons(front: seq<Byte>, more: seq<Byte>, c: int)
    requires front != [] && DecodeOne(front + more) == (c, |front|)
    ensures Decode(front + more) == [c] + Decode(more)
  {
    assert (front + more)[|front|..] == more;
    hide DecodeOne;
  }

  // ---- Texts --------------------------------------------------------------------------------------

  lemma PointsRange(text: seq<Unit>)
    ensures forall i :: 0 <= i < |Points(text)| ==> 0 <= Points(text)[i] <= 0x10FFFF
  {
  }

  /** `string_to_utf8_string`. */
  ghost function Encode(text: seq<Unit>): seq<Byte> {
    PointsRange(text);
    EncodeAll(Points(text))
  }

  lemma DecodeScalar(bytes: seq<Byte>)
    ensures AllScalar(Decode(bytes)) && |AllUnits(Decode(bytes))| <= |bytes|
    decreases |bytes|
  {
    if bytes != [] {
      DecodeOneScalar(bytes);
      DecodeScalar(bytes[DecodeOne(bytes).1..]);
    }
  }

  /** `string_from_utf8_bytes`. */
  ghost function DecodeText(bytes: seq<Byte>): (text: seq<Unit>)
    ensures |text| <= |bytes|
  {
    DecodeScalar(bytes);
    AllUnits(Decode(bytes))
  }

  lemma PairUnits(hi: Unit, lo: Unit)
    requires High(hi) && Low(lo)
    ensures 0x1_0000 <= Pair(hi, lo) <= 0x10FFFF && Units(Pair(hi, lo)) == [hi, lo]
  {
    var a, b := hi - 0xD800, lo - 0xDC00;
    assert (a * 0x400 + b) / 0x400 == a && (a * 0x400 + b) % 0x400 == b;
  }

  lemma ReadUnits(text: seq<Unit>)
    requires text != [] && (High(text[0]) ==> |text| > 1)
    ensures Scalar(Read(text).0)
    ensures Mended(text) == Units(Read(text).0) + Mended(text[Read(text).1..])
  {
    if High(text[0]) && Low(text[1]) {
      PairUnits(text[0], text[1]);
      assert text[..2] == [text[0], text[1]];
    } else {
      var c := if High(text[0]) || Low(text[0]) then REPLACEMENT else text[0] as int;
      assert Read(text) == (c, 1) && Units(c) == [c];
    }
    hide Units, Pair, Scalar, High, Low;
  }

  /** Unless the text ends in a high surrogate the encoder reads the mended text. */
  lemma {:induction false} PointsMended(text: seq<Unit>)
    requires !EndsHigh(text)
    ensures AllScalar(Points(text)) && AllUnits(Points(text)) == Mended(text)
  {
    if text != [] {
      ReadUnits(text);
      PointsMended(text[Read(text).1..]);
    }
  }

  /** A final high surrogate is read as it stands. */
  lemma {:induction false} PointsFinal(text: seq<Unit>) returns (before: seq<int>)
    requires EndsHigh(text)
    ensures AllScalar(before) && Points(text) == before + [text[|text| - 1] as int]
    ensures Mended(text) == AllUnits(before) + [REPLACEMENT]
  {
    if |text| == 1 {
      before := [];
      assert Points(text[1..]) == [];
    } else {
      ReadUnits(text);
      var rest := PointsFinal(text[Read(text).1..]);
      before := [Read(text).0] + rest;
      assert before[1..] == rest;
    }
  }

  /** An encoded surrogate decodes to three replacement characters. */
  lemma DecodeSurrogate(c: int)
    requires High(c)
    ensures Decode(EncodeOne(c)) == [REPLACEMENT, REPLACEMENT, REPLACEMENT]
  {
    var e := EncodeOne(c);
    Sextets(c);
    assert Bits(e, 2, 0) == c / 0x1000;
    assert Bits(e, 2, 1) == c / 0x40;
    assert Bits(e, 2, 2) == c;
    assert DecodeOne(e) == (REPLACEMENT, 1);
    assert DecodeOne(e[1..]) == (REPLACEMENT, 1);
    assert e[1..][1..] == [e[2]];
    assert DecodeOne([e[2]]) == (REPLACEMENT, 1);
    assert Decode([e[2]]) == [REPLACEMENT];
    assert Decode(e[1..]) == [REPLACEMENT, REPLACEMENT];
  }

  lemma {:induction false} AllUnitsJoin(a: seq<int>, b: seq<int>)
    requires AllScalar(a) && AllScalar(b)
    ensures AllScalar(a + b) && AllUnits(a + b) == AllUnits(a) + AllUnits(b)
  {
    if a == [] {
      assert a + b == b;
    } else {
      assert (a + b)[1..] == a[1..] + b;
      AllUnitsJoin(a[1..], b);
    }
  }

  lemma {:induction false} EncodeAllJoin(a: seq<int>, b: seq<int>)
    requires forall i :: 0 <= i < |a| ==> 0 <= a[i] <= 0x10FFFF
    requires forall i :: 0 <= i < |b| ==> 0 <= b[i] <= 0x10FFFF
    ensures EncodeAll(a + b) == EncodeAll(a) + EncodeAll(b)
  {
    if a == [] {
      assert a + b == b;
    } else {
      assert (a + b)[1..] == a[1..] + b;
      EncodeAllJoin(a[1..], b);
    }
  }

  lemma ReplacementUnits()
    ensures AllUnits([REPLACEMENT, REPLACEMENT, REPLACEMENT]) == [REPLACEMENT, REPLACEMENT, REPLACEMENT]
  {
    assert [REPLACEMENT, REPLACEMENT, REPLACEMENT][1..] == [REPLACEMENT, REPLACEMENT];
    assert [REPLACEMENT, REPLACEMENT][1..] == [REPLACEMENT];
    assert AllUnits([REPLACEMENT]) == [REPLACEMENT];
    assert AllUnits([REPLACEMENT, REPLACEMENT]) == [REPLACEMENT, REPLACEMENT];
  }

  lemma EncodeDecodeFinal(text: seq<Unit>)
    requires EndsHigh(text)
    ensures DecodeText(Encode(text)) == Mended(text) + [REPLACEMENT, REPLACEMENT]
  {
    PointsRange(text);
    var last: int := text[|text| - 1];
    var before := PointsFinal(text);
    assert EncodeAll([last]) == EncodeOne(last);
    EncodeAllJoin(before, [last]);
    DecodeEncodeAll(before, EncodeOne(last));
    DecodeSurrogate(last);
    ReplacementUnits();
    AllUnitsJoin(before, [REPLACEMENT, REPLACEMENT, REPLACEMENT]);
    hide EncodeOne, EncodeAll, Decode, AllUnits, Points, Mended;
  }

  /** Encoding and decoding a text replaces its unpaired surrogates; except that one at the very end
      comes back as three replacement characters. */
  lemma EncodeDecode(text: seq<Unit>)
    ensures DecodeText(Encode(text)) == Mended(text) + if EndsHigh(text) then [REPLACEMENT, REPLACEMENT] else []
  {
    if EndsHigh(text) {
      EncodeDecodeFinal(text);
    } else {
      PointsRange(text);
      PointsMended(text);
      DecodeEncodeAll(Points(text), []);
      hide EncodeAll, Points, Mended, AllUnits;
      assert EncodeAll(Points(text)) + [] == EncodeAll(Points(text));
      assert Points(text) + Decode([]) == Points(text);
    }
  }

  /** So the mended text comes back if and only if the text does not end in a high surrogate. */
  lemma RoundTripIff(text: seq<Unit>)
    ensures DecodeText(Encode(text)) == Mended(text) <==> !EndsHigh(text)
  {
    EncodeDecode(text);
    assert EndsHigh(text) ==> |Mended(text) + [REPLACEMENT, REPLACEMENT]| == |Mended(text)| + 2;
  }

  lemma {:induction false} WellFormedMended(text: seq<Unit>)
    ensures WellFormed16(text) <==> Mended(text) == text
  {
    if text != [] {
      if High(text[0]) && |text| > 1 && Low(text[1]) {
        WellFormedMended(text[2..]);
        assert text == text[..2] + text[2..];
        assert Mended(text)[2..] == Mended(text[2..]);
      } else {
        WellFormedMended(text[1..]);
        assert text == [text[0]] + text[1..];
        assert Mended(text)[1..] == Mended(text[1..]);
      }
    }
  }

  lemma {:induction false} UnitsWellFormed(points: seq<int>)
    requires AllScalar(points)
    ensures WellFormed16(AllUnits(points)) && Points(AllUnits(points)) == points
  {
    if points != [] {
      var c, rest := points[0], AllUnits(points[1..]);
      UnitsWellFormed(points[1..]);
      var text := Units(c) + rest;
      assert text[|Units(c)|..] == rest;
      if c > 0xFFFF {
        assert Pair(text[0], text[1]) == c;
      }
    }
  }

  /** A text survives encoding and decoding if and only if it is well-formed UTF-16. */
  lemma IdentityIff(text: seq<Unit>)
    ensures DecodeText(Encode(text)) == text <==> WellFormed16(text)
  {
    EncodeDecode(text);
    WellFormedMended(text);
    DecodeScalar(Encode(text));
    UnitsWellFormed(Decode(Encode(text)));
    if EndsHigh(text) { WellFormedEnd(text); }
  }

  lemma {:induction false} WellFormedEnd(text: seq<Unit>)
    requires EndsHigh(text)
    ensures !WellFormed16(text)
  {
    if |text| > 1 {
      if High(text[0]) {
        if |text| > 2 { WellFormedEnd(text[2..]); }
      } else {
        WellFormedEnd(text[1..]);
      }
    }
  }

  // ---- Bytes --------------------------------------------------------------------------------------

  /** Section 4 of RFC 3629: the length of the sequence at the front, or 0 if none is well formed. */
  function Sequence(b: seq<Byte>): nat {
    if b == [] then 0
    else if b[0] <= 0x7F then 1
    else if |b| < 2 || !Tail(b[1]) then 0
    else if 0xC2 <= b[0] <= 0xDF then 2
    else if |b| < 3 || !Tail(b[2]) then 0
    else if (b[0] == 0xE0 && b[1] >= 0xA0) || 0xE1 <= b[0] <= 0xEC || (b[0] == 0xED && b[1] <= 0x9F)
            || 0xEE <= b[0] <= 0xEF then 3
    else if |b| < 4 || !Tail(b[3]) then 0
    else if (b[0] == 0xF0 && b[1] >= 0x90) || 0xF1 <= b[0] <= 0xF3 || (b[0] == 0xF4 && b[1] <= 0x8F) then 4
    else 0
  }

  predicate WellFormed8(bytes: seq<Byte>) {
    bytes == [] || (0 < Sequence(bytes) <= |bytes| && WellFormed8(bytes[Sequence(bytes)..]))
  }

  /** A scalar value is encoded as one well-formed sequence. */
  lemma EncodedSequence(c: int, rest: seq<Byte>)
    requires Scalar(c)
    ensures Sequence(EncodeOne(c) + rest) == |EncodeOne(c)|
  {
    Sextets(c);
  }

  lemma {:induction false} EncodedWellFormed(points: seq<int>)
    requires AllScalar(points)
    ensures WellFormed8(EncodeAll(points))
  {
    if points != [] {
      var c, rest := points[0], EncodeAll(points[1..]);
      EncodedSequence(c, rest);
      EncodedWellFormed(points[1..]);
      assert (EncodeOne(c) + rest)[|EncodeOne(c)|..] == rest;
    }
  }

  lemma TwoDecodes(b: seq<Byte>)
    requires Sequence(b) == 2
    ensures DecodeOne(b).1 == 2 <= |b| && EncodeOne(DecodeOne(b).0) == b[..2]
  {
    var b0: int, b1: int, v := b[0], b[1], Bits(b, 1, 1);
    assert Bits(b, 1, 0) == b0 - 0xC0;
    assert v == (b0 - 0xC0) * 0x40 + (b1 - 0x80);
    assert v / 0x40 == b0 - 0xC0 && v % 0x40 == b1 - 0x80;
    assert DecodeOne(b) == (v, 2);
    assert EncodeOne(v) == [b[0], b[1]];
  }

  lemma ThreeDecodes(b: seq<Byte>)
    requires Sequence(b) == 3
    ensures DecodeOne(b).1 == 3 <= |b| && EncodeOne(DecodeOne(b).0) == b[..3]
  {
    var b0: int, b1: int, b2: int := b[0], b[1], b[2];
    var w, v := Bits(b, 2, 1), Bits(b, 2, 2);
    assert Bits(b, 2, 0) == b0 - 0xE0;
    assert w == (b0 - 0xE0) * 0x40 + (b1 - 0x80);
    assert v == w * 0x40 + (b2 - 0x80);
    assert v / 0x40 == w && v % 0x40 == b2 - 0x80;
    assert w / 0x40 == b0 - 0xE0 && w % 0x40 == b1 - 0x80;
    Sextets(v);
    assert 0x800 <= v <= 0xFFFF && !(0xD800 <= v <= 0xDFFF);
    assert DecodeOne(b) == (v, 3);
    assert EncodeOne(v) == [b[0], b[1], b[2]];
  }

  lemma FourDecodes(b: seq<Byte>)
    requires Sequence(b) == 4
    ensures DecodeOne(b).1 == 4 <= |b| && EncodeOne(DecodeOne(b).0) == b[..4]
  {
    var b0: int, b1: int, b2: int, b3: int := b[0], b[1], b[2], b[3];
    var u, w, v := Bits(b, 3, 1), Bits(b, 3, 2), Bits(b, 3, 3);
    assert Bits(b, 3, 0) == b0 - 0xF0;
    assert u == (b0 - 0xF0) * 0x40 + (b1 - 0x80);
    assert w == u * 0x40 + (b2 - 0x80);
    assert v == w * 0x40 + (b3 - 0x80);
    assert v / 0x40 == w && v % 0x40 == b3 - 0x80;
    assert w / 0x40 == u && w % 0x40 == b2 - 0x80;
    assert u / 0x40 == b0 - 0xF0 && u % 0x40 == b1 - 0x80;
    Sextets(v);
    assert 0x1_0000 <= v <= 0x10FFFF;
    assert DecodeOne(b) == (v, 4);
    assert EncodeOne(v) == [b[0], b[1], b[2], b[3]];
  }

  /** The decoder takes a well-formed sequence whole, and encoding gives its bytes back. */
  lemma SequenceDecodes(b: seq<Byte>)
    requires Sequence(b) > 0
    ensures Scalar(DecodeOne(b).0) && DecodeOne(b).1 == Sequence(b) <= |b|
    ensures EncodeOne(DecodeOne(b).0) == b[..Sequence(b)]
  {
    DecodeOneScalar(b);
    if Sequence(b) == 2 { TwoDecodes(b); }
    else if Sequence(b) == 3 { ThreeDecodes(b); }
    else if Sequence(b) == 4 { FourDecodes(b); }
    else { assert b[..1] == [b[0]]; }
  }

  lemma {:induction false} WellFormedEncode(bytes: seq<Byte>)
    requires WellFormed8(bytes)
    ensures AllScalar(Decode(bytes)) && EncodeAll(Decode(bytes)) == bytes
    decreases |bytes|
  {
    if bytes != [] {
      SequenceDecodes(bytes);
      var n, c := Sequence(bytes), DecodeOne(bytes).0;
      var front, more := bytes[..n], bytes[n..];
      assert bytes == front + more;
      hide Sequence, EncodeOne, DecodeOne, Scalar;
      WellFormedEncode(more);
      DecodeCons(front, more, c);
      assert AllScalar([c] + Decode(more));
      ScalarRange([c] + Decode(more));
      EncodeCons(c, Decode(more));
    }
  }

  lemma ScalarRange(points: seq<int>)
    requires AllScalar(points)
    ensures forall i :: 0 <= i < |points| ==> 0 <= points[i] <= 0x10FFFF
  {
  }

  /** Bytes survive decoding and encoding if and only if they are well-formed UTF-8. */
  lemma BytesIdentityIff(bytes: seq<Byte>)
    ensures Encode(DecodeText(bytes)) == bytes <==> WellFormed8(bytes)
  {
    DecodeScalar(bytes);
    UnitsWellFormed(Decode(bytes));
    EncodedWellFormed(Decode(bytes));
    if WellFormed8(bytes) { WellFormedEncode(bytes); }
  }

  /** What is decoded is always well-formed UTF-16, whatever the bytes. */
  lemma DecodedWellFormed(bytes: seq<Byte>)
    ensures WellFormed16(DecodeText(bytes)) && |DecodeText(bytes)| <= |bytes|
  {
    DecodeScalar(bytes);
    UnitsWellFormed(Decode(bytes));
  }

  lemma ThreeRejects(b: seq<Byte>)
    requires b != [] && 0xE0 <= b[0] <= 0xEF && Sequence(b) == 0
    ensures DecodeOne(b) == (REPLACEMENT, 1)
  {
    if |b| >= 3 && Tail(b[1]) && Tail(b[2]) {
      var b0: int, b1: int, b2: int := b[0], b[1], b[2];
      assert Bits(b, 2, 0) == b0 - 0xE0;
      assert Bits(b, 2, 1) == (b0 - 0xE0) * 0x40 + (b1 - 0x80);
      assert Bits(b, 2, 2) == Bits(b, 2, 1) * 0x40 + (b2 - 0x80);
    }
  }

  lemma FourBits(b: seq<Byte>, b0: int, b1: int, b2: int, b3: int)
    requires |b| >= 4 && Tail(b[1]) && Tail(b[2]) && Tail(b[3])
    requires b0 == b[0] && b1 == b[1] && b2 == b[2] && b3 == b[3]
    ensures Bits(b, 3, 3) == b0 % 8 * 0x4_0000 + (b1 - 0x80) * 0x1000 + (b2 - 0x80) * 0x40 + (b3 - 0x80)
  {
    assert Bits(b, 3, 1) == b0 % 8 * 0x40 + (b1 - 0x80);
    assert Bits(b, 3, 2) == Bits(b, 3, 1) * 0x40 + (b2 - 0x80);
    assert Bits(b, 3, 3) == Bits(b, 3, 2) * 0x40 + (b3 - 0x80);
  }

  lemma FourAccepts(b: seq<Byte>)
    requires b != [] && 0xF0 <= b[0]
    ensures DecodeOne(b).1 > 1 <==> Sequence(if b[0] >= 0xF8 then b[0 := b[0] - 8] else b) == 4
  {
    if |b| >= 4 && Tail(b[1]) && Tail(b[2]) && Tail(b[3]) {
      FourBits(b, b[0], b[1], b[2], b[3]);
      hide Bits;
    }
  }

  /** The decoder takes lead bytes 0xF8 to 0xFF for 0xF0 to 0xF7, so it accepts more than RFC 3629: an
      ill-formed front decodes to a code point, consuming more than one byte, exactly when lowering
      its lead by 8 makes it a well-formed sequence of four bytes. */
  lemma AcceptsIff(b: seq<Byte>)
    requires b != [] && Sequence(b) == 0
    ensures DecodeOne(b).1 > 1 <==> b[0] >= 0xF8 && Sequence(b[0 := b[0] - 8]) == 4
  {
    var b0: int := b[0];
    if 0xC2 <= b0 <= 0xDF {
      assert DecodeOne(b).1 == 1;
    } else if 0xE0 <= b0 <= 0xEF {
      ThreeRejects(b);
    } else if b0 >= 0xF0 {
      FourAccepts(b);
    }
  }

  // ---- UTF-32 -------------------------------------------------------------------------------------

  /** Well-formed text is read as scalar values that spell it. */
  lemma {:induction false} WellFormedPoints(text: seq<Unit>)
    requires WellFormed16(text)
    ensures AllScalar(Points(text)) && AllUnits(Points(text)) == text
  {
    WellFormedMended(text);
    if EndsHigh(text) { WellFormedEnd(text); } else { PointsMended(text); }
  }

  /** `string_from_utf32_bytes` replaces whatever is not a scalar value. */
  function Cleaned(characters: seq<nat>): (points: seq<int>)
    ensures |points| == |characters|
    ensures forall i :: 0 <= i < |points| ==>
              Scalar(points[i]) && points[i] == if Scalar(characters[i]) then characters[i] else REPLACEMENT
  {
    if characters == [] then []
    else [if Scalar(characters[0]) then characters[0] else REPLACEMENT] + Cleaned(characters[1..])
  }
}
