/** The conversion loops: each measures first, allocates, and fills in a second pass. */
module UtfCode {
  import opened Sequences
  import opened Utf

  /** `decode_utf8`. */
  method DecodeNext(bytes: seq<Byte>, index: nat) returns (point: int, index': nat)
    requires index < |bytes|
    ensures (point, index' - index) == DecodeOne(bytes[index..])
    ensures index < index' <= |bytes| && Scalar(point)
  {
    ghost var rest := bytes[index..];
    DecodeOneScalar(rest);
    var first: int := bytes[index];
    index' := index + 1;
    if first < 0x80 { return first, index'; }
    var needed := if first >= 0xF0 then 3 else if first >= 0xE0 then 2 else if first >= 0xC2 then 1 else 0;
    if needed == 0 || index' + needed > |bytes| { return REPLACEMENT, index'; }
    var value := Lead(first, needed);
    var offset := 0;
    while offset < needed
      invariant 0 <= offset <= needed && value == Bits(rest, needed, offset)
      invariant forall k :: 1 <= k <= offset ==> Tail(rest[k])
    {
      var next: int := bytes[index' + offset];
      assert next == rest[offset + 1];
      if !(0x80 <= next <= 0xBF) { return REPLACEMENT, index'; }
      value := value * 0x40 + next % 0x40;
      offset := offset + 1;
    }
    if (needed == 2 && value < 0x800) || (needed == 3 && value < 0x1_0000) || 0xD800 <= value <= 0xDFFF
       || value > 0x10FFFF {
      return REPLACEMENT, index';
    }
    return value, index' + needed;
  }

  /** What is still to be written when the decoder stands at index. */
  lemma DecodeFrom(bytes: seq<Byte>, index: nat)
    requires index < |bytes|
    ensures var (c, n) := DecodeOne(bytes[index..]);
            && 1 <= n && index + n <= |bytes| && Scalar(c) && 0 <= c <= 0x10FFFF
            && DecodeText(bytes[index..]) == Units(c) + DecodeText(bytes[index + n..])
  {
    var rest := bytes[index..];
    DecodeOneScalar(rest);
    DecodeScalar(rest);
    var n := DecodeOne(rest).1;
    assert rest[n..] == bytes[index + n..];
    DecodeScalar(rest[n..]);
    hide DecodeOne;
    assert Decode(rest)[1..] == Decode(rest[n..]);
  }

  lemma DecodeEnds(bytes: seq<Byte>)
    ensures bytes[0..] == bytes && DecodeText(bytes[|bytes|..]) == []
  {
    assert bytes[|bytes|..] == [];
  }

  lemma UnitsLength(c: int)
    requires Scalar(c)
    ensures |Units(c)| == if c > 0xFFFF then 2 else 1
  {
  }

  /** `string_from_utf8_bytes`: the measured length is the filled length. */
  method FromUtf8(bytes: seq<Byte>) returns (text: seq<Unit>)
    ensures text == DecodeText(bytes)
  {
    DecodeEnds(bytes);
    hide DecodeOne, Units, Scalar, DecodeText;
    var units, index := 0, 0;
    while index < |bytes|
      invariant index <= |bytes|
      invariant units + |DecodeText(bytes[index..])| == |DecodeText(bytes)|
    {
      DecodeFrom(bytes, index);
      var point, next := DecodeNext(bytes, index);
      UnitsLength(point);
      units := units + if point > 0xFFFF then 2 else 1;
      index := next;
    }
    var buffer := Fill(bytes, units);
    text := buffer[..];
  }

  /** The second pass. */
  method Fill(bytes: seq<Byte>, units: nat) returns (buffer: array<Unit>)
    requires units == |DecodeText(bytes)|
    ensures fresh(buffer) && buffer[..] == DecodeText(bytes)
  {
    DecodeEnds(bytes);
    hide DecodeOne, Units, Scalar, DecodeText;
    buffer := new Unit[units](_ => 0);
    var output: nat, index: nat := 0, 0;
    while index < |bytes|
      invariant index <= |bytes| && output <= units
      invariant buffer[..output] + DecodeText(bytes[index..]) == DecodeText(bytes)
    {
      DecodeFrom(bytes, index);
      ghost var before := buffer[..output];
      var point, next := DecodeNext(bytes, index);
      UnitsLength(point);
      Associate(before, Units(point), DecodeText(bytes[next..]));
      Fits(before, Units(point), DecodeText(bytes[next..]), DecodeText(bytes));
      output := Put(buffer, output, point);
      index := next;
    }
    assert buffer[..output] == buffer[..];
  }

  /** Store one code point as one unit or a surrogate pair. */
  method Put(buffer: array<Unit>, output: nat, point: int) returns (output': nat)
    requires 0 <= point <= 0x10FFFF && output + |Units(point)| <= buffer.Length
    modifies buffer
    ensures output' == output + |Units(point)| && buffer[..output'] == old(buffer[..output]) + Units(point)
    ensures buffer[output'..] == old(buffer[output + |Units(point)|..])
  {
    if point <= 0xFFFF {
      buffer[output] := point;
      output' := output + 1;
    } else {
      var rest := point - 0x1_0000;
      buffer[output] := 0xD800 + rest / 0x400;
      buffer[output + 1] := 0xDC00 + rest % 0x400;
      output' := output + 2;
    }
  }

  // ---- Encoding -----------------------------------------------------------------------------------

  /** The code point at index, and where the next one starts. */
  method ReadNext(text: seq<Unit>, index: nat) returns (point: int, index': nat)
    requires index < |text|
    ensures (point, index' - index) == Read(text[index..])
    ensures index < index' <= |text| && 0 <= point <= 0x10FFFF
    ensures Points(text[index..]) == [point] + Points(text[index'..])
  {
    point, index' := text[index], index + 1;
    if 0xD800 <= point <= 0xDBFF && index + 1 < |text| {
      var low: int := text[index + 1];
      if 0xDC00 <= low <= 0xDFFF {
        point := 0x1_0000 + (point - 0xD800) * 0x400 + (low - 0xDC00);
        index' := index + 2;
      } else {
        point := REPLACEMENT;
      }
    } else if 0xDC00 <= point <= 0xDFFF {
      point := REPLACEMENT;
    }
    assert text[index..][index' - index..] == text[index'..];
  }

  lemma EncodeFrom(text: seq<Unit>, index: nat, point: int, next: nat)
    requires index < next <= |text| && 0 <= point <= 0x10FFFF && Points(text[index..]) == [point] + Points(text[next..])
    ensures Encode(text[index..]) == EncodeOne(point) + Encode(text[next..])
  {
    PointsRange(text[next..]);
    EncodeCons(point, Points(text[next..]));
  }

  lemma EncodedSize(c: int)
    requires 0 <= c <= 0x10FFFF
    ensures |EncodeOne(c)| == EncodedLength(c)
  {
  }

  lemma EncodeEnds(text: seq<Unit>)
    ensures text[0..] == text && Encode(text[|text|..]) == []
  {
    assert text[|text|..] == [];
  }

  /** `utf8_length`: the measuring pass. */
  method Utf8Length(text: seq<Unit>) returns (length: nat)
    ensures length == |Encode(text)|
  {
    EncodeEnds(text);
    hide Encode, EncodeOne, Points, Read;
    var index := 0;
    length := 0;
    while index < |text|
      invariant index <= |text| && length + |Encode(text[index..])| == |Encode(text)|
    {
      var point, next := ReadNext(text, index);
      EncodeFrom(text, index, point, next);
      EncodedSize(point);
      length := length + EncodedLength(point);
      index := next;
    }
  }

  /** `encode_utf8`: append one code point. */
  method PutBytes(buffer: array<Byte>, output: nat, point: int) returns (output': nat)
    requires 0 <= point <= 0x10FFFF && output + EncodedLength(point) <= buffer.Length
    modifies buffer
    ensures output' == output + EncodedLength(point) && buffer[..output'] == old(buffer[..output]) + EncodeOne(point)
    ensures buffer[output'..] == old(buffer[output + EncodedLength(point)..])
  {
    if point <= 0x7F {
      buffer[output] := point;
      output' := output + 1;
    } else if point <= 0x7FF {
      buffer[output] := 0xC0 + point / 0x40;
      buffer[output + 1] := 0x80 + point % 0x40;
      output' := output + 2;
    } else if point <= 0xFFFF {
      buffer[output] := 0xE0 + point / 0x1000;
      buffer[output + 1] := 0x80 + point / 0x40 % 0x40;
      buffer[output + 2] := 0x80 + point % 0x40;
      output' := output + 3;
    } else {
      buffer[output] := 0xF0 + point / 0x4_0000;
      buffer[output + 1] := 0x80 + point / 0x1000 % 0x40;
      buffer[output + 2] := 0x80 + point / 0x40 % 0x40;
      buffer[output + 3] := 0x80 + point % 0x40;
      output' := output + 4;
    }
  }

  /** `string_to_utf8_string_len`: measure, then fill; the bytes end with a zero. */
  method ToUtf8(text: seq<Unit>) returns (result: array<Byte>, length: nat)
    ensures fresh(result) && length == |Encode(text)| && result[..] == Encode(text) + [0]
  {
    length := Utf8Length(text);
    EncodeEnds(text);
    hide Encode, EncodeOne, Points, Read;
    result := new Byte[length + 1](_ => 0);
    var output: nat, index: nat := 0, 0;
    while index < |text|
      invariant index <= |text| && output <= length
      invariant result[..output] + Encode(text[index..]) == Encode(text)
    {
      var point, next := ReadNext(text, index);
      EncodeFrom(text, index, point, next);
      EncodedSize(point);
      ghost var before := result[..output];
      assert before + (EncodeOne(point) + Encode(text[next..])) == Encode(text);
      output := PutBytes(result, output, point);
      assert result[..output] + Encode(text[next..]) == before + (EncodeOne(point) + Encode(text[next..]));
      index := next;
    }
    result[output] := 0;
    assert result[..output] == Encode(text);
  }

  /** The bytes of the first k code points of a text. */
  ghost function Prefix(text: seq<Unit>, k: nat): seq<Byte>
    requires k <= |Points(text)|
  {
    PointsRange(text);
    EncodeAll(Points(text)[..k])
  }

  lemma PrefixNext(text: seq<Unit>, k: nat)
    requires k < |Points(text)|
    ensures 0 <= Points(text)[k] <= 0x10FFFF && Prefix(text, k + 1) == Prefix(text, k) + EncodeOne(Points(text)[k])
  {
    PointsRange(text);
    var points := Points(text);
    assert points[..k + 1] == points[..k] + [points[k]];
    EncodeAllJoin(points[..k], [points[k]]);
    assert EncodeAll([points[k]]) == EncodeOne(points[k]);
  }

  lemma PointsFrom(text: seq<Unit>, k: nat, index: nat, point: int, next: nat)
    requires index < next <= |text| && k <= |Points(text)| && Points(text)[k..] == Points(text[index..])
    requires Points(text[index..]) == [point] + Points(text[next..])
    ensures k < |Points(text)| && Points(text)[k] == point && Points(text)[k + 1..] == Points(text[next..])
  {
    assert Points(text)[k..][1..] == Points(text[next..]);
    assert Points(text)[k..][0] == point;
  }

  lemma PointsEnds(text: seq<Unit>)
    ensures text[0..] == text && Points(text)[0..] == Points(text) && Prefix(text, 0) == []
    ensures Points(text[|text|..]) == []
  {
    assert text[|text|..] == [];
    assert Points(text)[..0] == [];
  }

  /** `string_to_utf8_string_buffer`: the longest prefix of whole code points that fits before the
      closing zero. */
  method ToUtf8Buffer(text: seq<Unit>, buffer: array<Byte>) returns (length: nat, ghost k: nat)
    modifies buffer
    ensures buffer.Length == 0 ==> length == 0
    ensures buffer.Length > 0 ==>
              && k <= |Points(text)| && length == |Prefix(text, k)| < buffer.Length
              && buffer[..length] == Prefix(text, k) && buffer[length] == 0
              && buffer[length + 1..] == old(buffer[length + 1..])
              && (k < |Points(text)| ==> |Prefix(text, k + 1)| >= buffer.Length)
  {
    length, k := 0, 0;
    if buffer.Length == 0 { return; }
    PointsEnds(text);
    hide EncodeOne, Points, Read, Prefix;
    var index, remaining := 0, buffer.Length - 1;
    while index < |text|
      invariant index <= |text| && k <= |Points(text)| && Points(text)[k..] == Points(text[index..])
      invariant remaining >= 0 && length + remaining == buffer.Length - 1
      invariant length == |Prefix(text, k)| && buffer[..length] == Prefix(text, k)
      invariant buffer[length..] == old(buffer[..])[length..]
    {
      var point, next := ReadNext(text, index);
      PointsFrom(text, k, index, point, next);
      PrefixNext(text, k);
      EncodedSize(point);
      if EncodedLength(point) > remaining { break; }
      remaining := remaining - EncodedLength(point);
      ghost var was := buffer[length..];
      var output := PutBytes(buffer, length, point);
      assert buffer[output..] == was[output - length..];
      length, k, index := output, k + 1, next;
    }
    ghost var filled := buffer[..length];
    buffer[length] := 0;
    assert buffer[..length] == filled;
  }

  /** The whole text fits exactly when its encoding and the zero do. */
  lemma FitsWhole(text: seq<Unit>, capacity: nat, k: nat)
    requires capacity > 0 && k <= |Points(text)| && |Prefix(text, k)| < capacity
    requires k < |Points(text)| ==> |Prefix(text, k + 1)| >= capacity
    ensures k == |Points(text)| <==> |Encode(text)| < capacity
  {
    PointsRange(text);
    assert Points(text)[..|Points(text)|] == Points(text);
    if k < |Points(text)| {
      var points := Points(text);
      assert points == points[..k + 1] + points[k + 1..];
      EncodeAllJoin(points[..k + 1], points[k + 1..]);
    }
  }

  // ---- UTF-32 -------------------------------------------------------------------------------------

  datatype Option<T> = None | Some(value: T)

  const INT32_MAX := 0x7FFF_FFFF

  /** A text from one index on: a pair, an unpaired surrogate, or a unit of its own. */
  lemma FrontAt(text: seq<Unit>, index: nat)
    requires index < |text|
    ensures var u := text[index];
            if 0xD800 <= u <= 0xDBFF && index + 1 < |text| && 0xDC00 <= text[index + 1] <= 0xDFFF then
              && Points(text[index..]) ==
                   [0x1_0000 + (u - 0xD800) * 0x400 + (text[index + 1] - 0xDC00)] + Points(text[index + 2..])
              && (WellFormed16(text[index..]) <==> WellFormed16(text[index + 2..]))
            else if 0xD800 <= u <= 0xDFFF then !WellFormed16(text[index..])
            else
              && Points(text[index..]) == [u] + Points(text[index + 1..])
              && (WellFormed16(text[index..]) <==> WellFormed16(text[index + 1..]))
  {
    var rest := text[index..];
    assert rest[1..] == text[index + 1..];
    if |rest| > 1 { assert rest[2..] == text[index + 2..]; }
  }

  lemma NothingLeft(text: seq<Unit>, output: seq<int>)
    ensures Points(text[|text|..]) == [] && WellFormed16(text[|text|..]) && output + [] == output
  {
  }

  /** `string_to_utf32_string`: throws exactly on ill-formed text. */
  method ToUtf32(text: seq<Unit>) returns (result: Option<seq<int>>)
    ensures result.Some? <==> WellFormed16(text)
    ensures result.Some? ==> result.value == Points(text)
  {
    hide *;
    assert text[0..] == text;
    var output: seq<int>, index := [], 0;
    while index < |text|
      invariant index <= |text|
      invariant output + Points(text[index..]) == Points(text) && (WellFormed16(text[index..]) <==> WellFormed16(text))
    {
      var point: int, next := text[index], index + 1;
      FrontAt(text, index);
      if 0xD800 <= point <= 0xDBFF {
        if index + 1 >= |text| || text[index + 1] < 0xDC00 || text[index + 1] > 0xDFFF { return None; }
        point, next := 0x1_0000 + (point - 0xD800) * 0x400 + (text[index + 1] - 0xDC00), index + 2;
      } else if 0xDC00 <= point <= 0xDFFF {
        return None;
      }
      Associate(output, [point], Points(text[next..]));
      output, index := output + [point], next;
    }
    NothingLeft(text, output);
    result := Some(output);
  }

  /** `string_from_utf32_bytes`.  After the first check the second one can never fail. */
  method FromUtf32(characters: seq<nat>) returns (text: seq<Unit>, failed: bool)
    ensures failed <==> |characters| > INT32_MAX / 2
    ensures text == if failed then [] else AllUnits(Cleaned(characters))
  {
    if |characters| == 0 { return [], false; }
    if |characters| > INT32_MAX / 2 { return [], true; }
    var units, index := 0, 0;
    assert Cleaned(characters)[0..] == Cleaned(characters);
    hide Cleaned, Units, Scalar, AllUnits;
    while index < |characters|
      invariant index <= |characters| && index <= units <= 2 * index
      invariant units + |AllUnits(Cleaned(characters)[index..])| == |AllUnits(Cleaned(characters))|
    {
      CleanedFrom(characters, index);
      units := units + if characters[index] > 0xFFFF && characters[index] <= 0x10FFFF then 2 else 1;
      index := index + 1;
    }
    assert units <= INT32_MAX;
    CleanedEnds(characters);
    var buffer := FillFrom32(characters, units);
    return buffer[..], false;
  }

  /** What is still to be written from character i on. */
  ghost function Left32(characters: seq<nat>, i: nat): seq<Unit>
    requires i <= |characters|
  {
    AllUnits(Cleaned(characters)[i..])
  }

  method FillFrom32(characters: seq<nat>, units: nat) returns (buffer: array<Unit>)
    requires units == |AllUnits(Cleaned(characters))|
    ensures fresh(buffer) && buffer[..] == AllUnits(Cleaned(characters))
  {
    buffer := new Unit[units](_ => 0);
    var output: nat, i: nat := 0, 0;
    CleanedEnds(characters);
    ghost var all := Left32(characters, 0);
    assert units == |all| && all == AllUnits(Cleaned(characters));
    hide Cleaned, Units, AllUnits, Left32;
    while i < |characters|
      invariant i <= |characters| && output <= units
      invariant buffer[..output] + Left32(characters, i) == all
    {
      var point := characters[i];
      if 0xD800 <= point <= 0xDFFF { point := REPLACEMENT; } else if point > 0x10FFFF { point := REPLACEMENT; }
      LeftFrom(characters, i, point);
      ghost var before, rest := buffer[..output], Left32(characters, i + 1);
      Associate(before, Units(point), rest);
      Fits(before, Units(point), rest, all);
      output := Put(buffer, output, point);
      i := i + 1;
    }
    assert Left32(characters, i) == [] by { LeftEnds(characters); }
    assert buffer[..output] == buffer[..];
  }

  lemma Fits(before: seq<Unit>, units: seq<Unit>, rest: seq<Unit>, all: seq<Unit>)
    requires before + units + rest == all
    ensures |before| + |units| <= |all|
  {
  }

  lemma LeftFrom(characters: seq<nat>, i: nat, point: int)
    requires i < |characters| && point == if Scalar(characters[i]) then characters[i] else REPLACEMENT
    ensures 0 <= point <= 0x10FFFF && Left32(characters, i) == Units(point) + Left32(characters, i + 1)
  {
    CleanedFrom(characters, i);
  }

  lemma LeftEnds(characters: seq<nat>)
    ensures Left32(characters, |characters|) == []
  {
    CleanedEnds(characters);
  }

  lemma CleanedEnds(characters: seq<nat>)
    ensures Cleaned(characters)[0..] == Cleaned(characters) && AllUnits(Cleaned(characters)[|characters|..]) == []
  {
    assert Cleaned(characters)[|characters|..] == [];
  }

  lemma CleanedFrom(characters: seq<nat>, i: nat)
    requires i < |characters|
    ensures var c := Cleaned(characters)[i];
            && Scalar(c) && |Units(c)| == (if 0xFFFF < characters[i] <= 0x10FFFF then 2 else 1)
            && AllUnits(Cleaned(characters)[i..]) == Units(c) + AllUnits(Cleaned(characters)[i + 1..])
  {
    assert Cleaned(characters)[i..][1..] == Cleaned(characters)[i + 1..];
  }

  /** Text that converts to UTF-32 comes back. */
  lemma Utf32RoundTrip(text: seq<Unit>, characters: seq<nat>)
    requires WellFormed16(text) && |characters| == |Points(text)|
    requires forall i :: 0 <= i < |characters| ==> characters[i] == Points(text)[i]
    ensures AllUnits(Cleaned(characters)) == text
  {
    WellFormedPoints(text);
    assert Cleaned(characters) == Points(text);
  }
}
