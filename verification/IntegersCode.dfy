/** The integer loops: parsing, and splitting and joining whole arrays. */
module IntegersCode {
  import opened Sequences
  import opened Strings
  import opened StringsCode
  import opened Integers

  /** `string_parse_range`. */
  method Parse(text: seq<int>) returns (value: nat, end: nat)
    ensures (value, end) == ParseRange(text) && end <= |text|
  {
    var index := SpaceFrom(text, 0);
    value := 0;
    if index == |text| { return 0, index; }
    var negative := false;
    if text[index] == 43 { index := index + 1; }
    else if text[index] == MINUS {
      negative := true;
      index := index + 1;
    }
    if index == |text| { return 0, index; }
    var base: nat := 10;
    if text[index] == 37 {
      base := 2;
      index := index + 1;
    } else if text[index] == 36 {
      base := 16;
      index := index + 1;
    }
    ghost var from := index;
    while index < |text|
      invariant from <= index <= |text| && Digits(text, from, base, 0) == Digits(text, index, base, value)
      invariant value < TWO64
    {
      var digit := Digit(text[index]);
      if digit >= base { break; }
      value := (value * base + digit) % TWO64;
      index := index + 1;
    }
    return if negative then (TWO64 - value) % TWO64 else value, index;
  }

  method SpaceFrom(text: seq<int>, from: nat) returns (index: nat)
    requires from <= |text|
    ensures index == SkipSpace(text, from)
  {
    index := from;
    while index < |text| && Space(text[index])
      invariant from <= index <= |text| && SkipSpace(text, from) == SkipSpace(text, index)
    {
      index := index + 1;
    }
  }

  /** `parse_numeric_part`. */
  method ParseNumericPart(part: seq<int>) returns (value: nat)
    ensures value == ParsePart(part)
  {
    if |part| == 0 { return 0; }
    var end: nat;
    value, end := Parse(part);
    var after := SpaceFrom(part, end);
    if after != |part| { return 0; }
  }

  /** Past a position without a match nothing changes. */
  lemma NoMatch(text: seq<int>, separator: seq<int>, at: nat)
    requires separator != [] && at < |text| && !At(text, separator, at)
    ensures Find(text, separator, at) == Find(text, separator, at + 1)
  {
  }

  lemma NoneLeft(text: seq<int>, separator: seq<int>, at: nat)
    requires at > |text| - |separator|
    ensures Find(text, separator, at) == -1
  {
  }

  /** `numeric_part_count`. */
  method PartCount(text: Text, separator: Text) returns (count: nat)
    ensures count == |Parts(text, separator)|
  {
    hide *;
    PartsAre(text, separator);
    if |text| == 0 { return 0; }
    if |separator| == 0 { return 1; }
    count := 1;
    PiecesAtIs(text, separator);
    var index: nat := 0;
    ghost var begin: nat := 0;
    while index <= |text| - |separator|
      invariant begin <= index <= |text| && Find(text, separator, begin) == Find(text, separator, index)
      invariant |Pieces(text, separator)| == count - 1 + |PiecesAt(text, separator, begin)|
      decreases |text| - index
    {
      if text[index..index + |separator|] == separator {
        Found(text, separator, index);
        CountStep(text, separator, begin, index);
        count := count + 1;
        index := index + |separator|;
        begin := index;
      } else {
        Onward(text, separator, index);
        index := index + 1;
      }
    }
    NoneLeft(text, separator, index);
    PiecesAtLast(text, separator, begin);
  }

  lemma CountStep(text: seq<int>, separator: seq<int>, begin: nat, index: nat)
    requires separator != [] && begin <= |text| && Find(text, separator, begin) == index
    ensures index + |separator| <= |text|
    ensures |PiecesAt(text, separator, begin)| == 1 + |PiecesAt(text, separator, index + |separator|)|
  {
    PiecesAtStep(text, separator, begin, index);
  }

  lemma PartsAre(text: seq<int>, separator: seq<int>)
    ensures text == [] ==> Parts(text, separator) == []
    ensures text != [] && separator == [] ==> |Parts(text, separator)| == 1
    ensures text != [] && separator != [] ==> Parts(text, separator) == Pieces(text, separator)
  {
  }

  lemma Found(text: seq<int>, separator: seq<int>, index: nat)
    requires index <= |text| - |separator| && text[index..index + |separator|] == separator
    ensures Find(text, separator, index) == index
  {
  }

  /** The generated split: as many elements are written as were counted. */
  method SplitIntegers(text: Text, separator: Text, M: nat) returns (values: seq<nat>)
    requires Modulus(M)
    ensures values == Elements(Parts(text, separator), M)
  {
    var count := PartCount(text, separator);
    if count == 0 { return []; }
    if |separator| == 0 {
      var only := ParseNumericPart(text);
      ElementsOne(text, M);
      return [only % M];
    }
    var output := FillIntegers(text, separator, M, count);
    return output[..];
  }

  lemma ElementsOne(part: seq<int>, M: nat)
    requires M > 0
    ensures Elements([part], M) == [Element(part, M)]
  {
  }

  lemma ElementsStep(part: seq<int>, rest: seq<seq<int>>, M: nat)
    requires M > 0
    ensures Elements([part] + rest, M) == [Element(part, M)] + Elements(rest, M)
  {
    assert ([part] + rest)[1..] == rest;
  }

  method FillIntegers(text: Text, separator: Text, M: nat, count: nat) returns (output: array<nat>)
    requires Modulus(M) && text != [] && separator != [] && count == |Pieces(text, separator)|
    ensures fresh(output) && output[..] == Elements(Pieces(text, separator), M)
  {
    hide *;
    PiecesAtIs(text, separator);
    ModulusPositive(M);
    output := new nat[count](_ => 0);
    ghost var all, rest := Elements(PiecesAt(text, separator, 0), M), PiecesAt(text, separator, 0);
    var begin: nat, part: nat, index: nat := 0, 0, 0;
    while true
      invariant begin <= index <= |text| && Find(text, separator, begin) == Find(text, separator, index)
      invariant rest == PiecesAt(text, separator, begin)
      invariant part + |rest| == count && output[..part] + Elements(rest, M) == all
      decreases |text| - index
    {
      var match_ := index <= |text| - |separator| && text[index..index + |separator|] == separator;
      if match_ || index == |text| {
        ghost var tail := Ends(text, separator, begin, index, match_);
        NonEmpty(rest, [text[begin..index]] + tail);
        var value := ParseNumericPart(text[begin..index]);
        ghost var before := output[..part];
        ElementsStep(text[begin..index], tail, M);
        Shift(before, Element(text[begin..index], M), Elements(tail, M));
        ElementIs(text[begin..index], M);
        output[part] := value % M;
        assert output[..part + 1] == before + [value % M];
        part, rest := part + 1, tail;
        if index == |text| { break; }
        index := index + |separator|;
        begin := index;
      } else {
        Onward(text, separator, index);
        index := index + 1;
      }
    }
    Whole(output);
  }

  lemma ModulusPositive(M: nat)
    requires Modulus(M)
    ensures M > 0
  {
  }

  lemma ElementIs(part: seq<int>, M: nat)
    requires M > 0
    ensures Element(part, M) == ParsePart(part) % M
  {
  }

  lemma NonEmpty(a: seq<seq<int>>, b: seq<seq<int>>)
    requires a == b && b != []
    ensures |a| > 0
  {
  }

  lemma Onward(text: seq<int>, separator: seq<int>, index: nat)
    requires separator != [] && index < |text|
    requires !(index <= |text| - |separator| && text[index..index + |separator|] == separator)
    ensures Find(text, separator, index) == Find(text, separator, index + 1)
  {
    NoMatch(text, separator, index);
  }

  /** A part ends at a match or at the end of the text. */
  lemma Ends(text: seq<int>, separator: seq<int>, begin: nat, index: nat, match_: bool) returns (tail: seq<seq<int>>)
    requires separator != [] && begin <= index <= |text| && Find(text, separator, begin) == Find(text, separator, index)
    requires match_ == (index <= |text| - |separator| && text[index..index + |separator|] == separator)
    requires match_ || index == |text|
    ensures PiecesAt(text, separator, begin) == [text[begin..index]] + tail
    ensures index == |text| ==> tail == []
    ensures index < |text| ==> index + |separator| <= |text| && tail == PiecesAt(text, separator, index + |separator|)
  {
    if match_ {
      Found(text, separator, index);
      PiecesAtStep(text, separator, begin, index);
      tail := PiecesAt(text, separator, index + |separator|);
    } else {
      NoneLeft(text, separator, index);
      PiecesAtLast(text, separator, begin);
      assert text[begin..] == text[begin..index];
      tail := [];
    }
  }

  // ---- Joining ------------------------------------------------------------------------------------

  /** `write_unsigned`: the digits of the value, from the right. */
  method WriteUnsigned(output: array<int>, at: nat, value: nat, length: nat) returns (end: nat)
    requires length == |Decimal(value)| && at + length <= output.Length
    modifies output
    ensures end == at + length && output[..end] == old(output[..at]) + Decimal(value)
  {
    end := at + length;
    var left, rest: nat := length, value;
    ghost var before := output[..at];
    ghost var done: seq<int> := [];
    FrontStart(value);
    hide *;
    while left > 0
      invariant 0 <= left <= length && output[..at] == before
      invariant output[at + left..end] == done && |done| == length - left
      invariant left > 0 ==> left == |Decimal(rest)|
      invariant (if left > 0 then Decimal(rest) else []) + done == Decimal(value)
    {
      DigitLast(rest, left);
      ghost var was := done;
      left := left - 1;
      output[at + left] := ZERO + rest % 10;
      assert output[at + left..end] == [ZERO + rest % 10] + was;
      done := [ZERO + rest % 10] + was;
      Associate(if left > 0 then Decimal(rest / 10) else [], [ZERO + rest % 10], was);
      rest := rest / 10;
    }
    assert output[..end] == output[..at] + output[at..end];
    assert [] + done == done;
  }

  lemma FrontStart(value: nat)
    ensures |Decimal(value)| > 0 && Decimal(value) + [] == Decimal(value)
  {
  }

  lemma DigitLast(n: nat, length: nat)
    requires length == |Decimal(n)|
    ensures length > 1 ==> |Decimal(n / 10)| == length - 1
    ensures Decimal(n) == (if length > 1 then Decimal(n / 10) else []) + [ZERO + n % 10]
  {
  }

  /** The text of one element, appended. */
  method PutElement(output: array<int>, at: nat, raw: nat, M: nat, signed: bool) returns (end: nat)
    requires Modulus(M) && raw < M && at + |Written(raw, M, signed)| <= output.Length
    modifies output
    ensures end == at + |Written(raw, M, signed)| && output[..end] == old(output[..at]) + Written(raw, M, signed)
  {
    var negative := signed && raw >= M / 2;
    var magnitude := if negative then M - raw else raw;
    ghost var before := output[..at];
    WrittenIs(raw, M, signed);
    end := at;
    if negative {
      output[end] := MINUS;
      end := end + 1;
      assert output[..end] == before + [MINUS];
    }
    var length := DecimalLength(magnitude);
    end := WriteUnsigned(output, end, magnitude, length);
    assert negative ==> before + [MINUS] + Decimal(magnitude) == before + ([MINUS] + Decimal(magnitude));
    hide *;
  }

  lemma WrittenIs(raw: nat, M: nat, signed: bool)
    requires raw < M
    ensures var negative := signed && raw >= M / 2;
            Written(raw, M, signed) == if negative then [MINUS] + Decimal(M - raw) else Decimal(raw)
  {
    assert [] + Decimal(raw) == Decimal(raw);
  }

  lemma TotalStart(parts: seq<seq<int>>)
    ensures Total(parts[..0]) == 0 && Total(parts[..|parts|]) == Total(parts)
  {
    assert parts[..|parts|] == parts;
  }

  /** `join_integer`: measured first; a text longer than a string can be is refused. */
  method JoinIntegers(separator: Text, values: seq<nat>, M: nat, signed: bool) returns (result: seq<int>)
    requires Modulus(M) && forall i :: 0 <= i < |values| ==> values[i] < M
    ensures result == Capped(Join(separator, Texts(values, M, signed)))
  {
    ghost var texts := Texts(values, M, signed);
    if |values| == 0 { return []; }
    hide *;
    JoinTotal(separator, texts);
    var gaps := (|values| - 1) * |separator|;
    assert |Join(separator, texts)| == gaps + Total(texts);
    var total := TotalLength(values, M, signed, gaps);
    if total > INT32_MAX { return []; }
    var output := FillIntegerTexts(separator, values, M, signed, total);
    return output[..];
  }

  /** The digits of an element, and its sign. */
  method ElementLength(raw: nat, M: nat, signed: bool) returns (length: nat)
    requires Modulus(M) && raw < M
    ensures length == |Written(raw, M, signed)|
  {
    WrittenIs(raw, M, signed);
    var negative := signed && raw >= M / 2;
    var digits := DecimalLength(if negative then M - raw else raw);
    length := digits + if negative then 1 else 0;
  }

  /** The length of the joined text, or some number past the limit. */
  method TotalLength(values: seq<nat>, M: nat, signed: bool, gaps: nat) returns (total: nat)
    requires Modulus(M) && values != [] && forall i :: 0 <= i < |values| ==> values[i] < M
    ensures var full := gaps + Total(Texts(values, M, signed));
            if full > INT32_MAX then total > INT32_MAX else total == full
  {
    hide *;
    ghost var texts := Texts(values, M, signed);
    TotalStart(texts);
    total := gaps;
    var index: nat := 0;
    while index < |values|
      invariant 0 <= index <= |values| && total == gaps + Total(texts[..index])
    {
      var length := ElementLength(values[index], M, signed);
      TotalStep(texts, index);
      total, index := total + length, index + 1;
      if total > INT32_MAX {
        TotalMost(texts, index);
        return;
      }
    }
  }

  method FillIntegerTexts(separator: Text, values: seq<nat>, M: nat, signed: bool,
                          total: nat) returns (output: array<int>)
    requires Modulus(M) && values != [] && (forall i :: 0 <= i < |values| ==> values[i] < M)
    requires total == |Join(separator, Texts(values, M, signed))|
    ensures fresh(output) && output[..] == Join(separator, Texts(values, M, signed))
  {
    hide *;
    output := new int[total](_ => 0);
    ghost var texts := Texts(values, M, signed);
    ghost var all := Join(separator, texts);
    var index: nat, at: nat := 0, 0;
    GapsEnds(separator, texts);
    while index < |values|
      invariant index <= |values| && at <= total && output[..at] + Gaps(separator, texts, index) == all
    {
      GapsFrom(separator, texts, index);
      Room(output[..at], if index == 0 then [] else separator, texts[index], Gaps(separator, texts, index + 1), all);
      at := Copy(output, at, if index == 0 then [] else separator);
      at := PutElement(output, at, values[index], M, signed);
      index := index + 1;
    }
    Whole(output);
  }
}
