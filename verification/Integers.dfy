/** Integers as text: writing, parsing, and whole arrays joined and split. */
module Integers {
  import opened Arithmetic
  import opened Sequences
  import opened Strings

  const TWO64: nat := 0x1_0000_0000_0000_0000

  const ZERO := 48
  const MINUS := 45

  // ---- Writing ------------------------------------------------------------------------------------

  function Decimal(n: nat): (text: seq<int>)
    ensures text != [] && forall i :: 0 <= i < |text| ==> ZERO <= text[i] <= ZERO + 9
  {
    if n < 10 then [ZERO + n] else Decimal(n / 10) + [ZERO + n % 10]
  }

  function Signed(magnitude: nat, negative: bool): seq<int> { (if negative then [MINUS] else []) + Decimal(magnitude) }

  function Pow10(k: nat): nat { if k == 0 then 1 else 10 * Pow10(k - 1) }

  /** A number has as many digits as its size says. */
  lemma {:induction false} DecimalSize(n: nat, k: nat)
    requires k > 0
    ensures |Decimal(n)| <= k <==> n < Pow10(k)
    decreases n
  {
    if n >= 10 {
      if k > 1 {
        DecimalSize(n / 10, k - 1);
        assert Pow10(k) == 10 * Pow10(k - 1);
        assert n / 10 < Pow10(k - 1) <==> n < 10 * Pow10(k - 1);
      } else {
        assert Pow10(1) == 10 * Pow10(0);
      }
    } else {
      Pow10Least(k);
    }
  }

  lemma {:induction false} Pow10Least(k: nat)
    requires k > 0
    ensures Pow10(k) >= 10
  {
    if k > 1 { Pow10Least(k - 1); }
  }

  lemma TwentyDigits(n: nat)
    requires n < TWO64
    ensures |Decimal(n)| <= 20
  {
    assert Pow10(4) == 1_0000 by {
      assert Pow10(1) == 10 && Pow10(2) == 100 && Pow10(3) == 1000;
    }
    Pow10Four(4);
    Pow10Four(8);
    Pow10Four(12);
    Pow10Four(16);
    DecimalSize(n, 20);
  }

  lemma Pow10Four(k: nat)
    ensures Pow10(k + 4) == 1_0000 * Pow10(k)
  {
    assert Pow10(k + 1) == 10 * Pow10(k);
    assert Pow10(k + 2) == 10 * Pow10(k + 1);
    assert Pow10(k + 3) == 10 * Pow10(k + 2);
    assert Pow10(k + 4) == 10 * Pow10(k + 3);
  }

  /** `string_from_unsigned`: the 21-character buffer is filled from its end and always suffices. */
  method FromUnsigned(value: nat, negative: bool) returns (text: seq<int>)
    requires value < TWO64
    ensures text == Signed(value, negative) && |text| <= 21
  {
    hide *;
    var buffer := new int[21](_ => 0);
    var cursor := PutDigits(buffer, value);
    ghost var digits := buffer[cursor..];
    if negative {
      cursor := cursor - 1;
      buffer[cursor] := MINUS;
      assert buffer[cursor..] == [MINUS] + digits;
    }
    text := buffer[cursor..];
    assert text == Signed(value, negative) by { SignedIs(value, negative); }
  }

  lemma SignedIs(value: nat, negative: bool)
    ensures Signed(value, negative) == if negative then [MINUS] + Decimal(value) else Decimal(value)
  {
    assert [] + Decimal(value) == Decimal(value);
  }

  /** The digits, written backwards from the end of the buffer. */
  method PutDigits(buffer: array<int>, value: nat) returns (cursor: nat)
    requires value < TWO64 && buffer.Length == 21
    modifies buffer
    ensures 1 <= cursor <= 21 && buffer[cursor..] == Decimal(value)
  {
    cursor := 20;
    TwentyDigits(value);
    DecimalFront(value);
    buffer[20] := ZERO + value % 10;
    assert buffer[20..] == [ZERO + value % 10];
    var left: nat := value / 10;
    hide *;
    while left > 0
      invariant 1 <= cursor <= 20 && Decimal(value) == Front(left) + buffer[cursor..]
      invariant |Front(left)| + 21 - cursor <= 20
    {
      FrontStep(left);
      ghost var was := buffer[cursor..];
      cursor := PutBefore(buffer, cursor, ZERO + left % 10);
      Associate(Front(left / 10), [ZERO + left % 10], was);
      left := left / 10;
    }
    FrontEnd(buffer[cursor..]);
  }

  method PutBefore(buffer: array<int>, cursor: nat, u: int) returns (cursor': nat)
    requires 0 < cursor <= buffer.Length
    modifies buffer
    ensures cursor' == cursor - 1 && buffer[cursor'..] == [u] + old(buffer[cursor..])
  {
    cursor' := cursor - 1;
    buffer[cursor'] := u;
  }

  lemma DecimalFront(value: nat)
    ensures Decimal(value) == Front(value / 10) + [ZERO + value % 10]
  {
  }

  lemma FrontEnd(digits: seq<int>)
    ensures Front(0) + digits == digits
  {
  }

  /** The digits still to be written. */
  function Front(left: nat): seq<int> { if left == 0 then [] else Decimal(left) }

  lemma FrontStep(left: nat)
    requires left > 0
    ensures Front(left) == Front(left / 10) + [ZERO + left % 10] && |Front(left)| == |Front(left / 10)| + 1
  {
  }

  /** `decimal_length`. */
  method DecimalLength(value: nat) returns (length: nat)
    ensures length == |Decimal(value)|
  {
    length := 1;
    var left := value;
    while left >= 10
      invariant |Decimal(value)| == length - 1 + |Decimal(left)|
    {
      left := left / 10;
      length := length + 1;
    }
  }

  // ---- Parsing ------------------------------------------------------------------------------------

  predicate Space(u: int) { u == 32 || 9 <= u <= 13 }

  function Digit(u: int): int {
    if 48 <= u <= 57 then u - 48 else if 65 <= u <= 70 then u - 65 + 10 else if 97 <= u <= 102 then u - 97 + 10 else 16
  }

  /** The digits of the base from i on, in 64 bits, and where they end. */
  function Digits(text: seq<int>, i: nat, base: nat, value: nat): (nat, nat)
    requires i <= |text|
    decreases |text| - i
  {
    if i == |text| || Digit(text[i]) >= base then (value, i)
    else Digits(text, i + 1, base, (value * base + Digit(text[i])) % TWO64)
  }

  function SkipSpace(text: seq<int>, i: nat): (j: nat)
    requires i <= |text|
    ensures i <= j <= |text|
    decreases |text| - i
  {
    if i < |text| && Space(text[i]) then SkipSpace(text, i + 1) else i
  }

  /** `string_parse_range`: spaces, a sign, a base prefix, digits; and where the digits end. */
  function ParseRange(text: seq<int>): (nat, nat) {
    var a := SkipSpace(text, 0);
    if a == |text| then (0, a)
    else
      var negative := text[a] == MINUS;
      var b := if text[a] == 43 || negative then a + 1 else a;
      if b == |text| then (0, b)
      else
        var base := if text[b] == 37 then 2 else if text[b] == 36 then 16 else 10;
        var c := if base != 10 then b + 1 else b;
        var (value, end) := Digits(text, c, base, 0);
        (if negative then (TWO64 - value) % TWO64 else value, end)
  }

  /** `parse_numeric_part`: 0 unless only spaces follow the digits. */
  function ParsePart(text: seq<int>): nat {
    if text == [] then 0
    else
      var (value, end) := ParseRange(text);
      if end <= |text| && SkipSpace(text, end) == |text| then value else 0
  }

  // ---- Parsing undoes writing ---------------------------------------------------------------------

  predicate AllDigits(text: seq<int>, from: nat) { forall i :: from <= i < |text| ==> ZERO <= text[i] <= ZERO + 9 }

  lemma {:induction false} DigitsSnoc(text: seq<int>, i: nat, value: nat, d: int)
    requires i <= |text| && AllDigits(text, i) && 0 <= d <= 9
    ensures Digits(text, i, 10, value).1 == |text|
    ensures Digits(text + [ZERO + d], i, 10, value) == ((Digits(text, i, 10, value).0 * 10 + d) % TWO64, |text| + 1)
    decreases |text| - i
  {
    var more := text + [ZERO + d];
    if i < |text| {
      assert more[i] == text[i];
      DigitsSnoc(text, i + 1, (value * 10 + Digit(text[i])) % TWO64, d);
    } else {
      assert more[i] == ZERO + d;
    }
  }

  lemma {:induction false} DecimalValue(front: seq<int>, n: nat)
    requires n < TWO64
    ensures Digits(front + Decimal(n), |front|, 10, 0) == (n, |front + Decimal(n)|)
    decreases n
  {
    if n < 10 {
      DigitsSnoc(front, |front|, 0, n);
    } else {
      DecimalValue(front, n / 10);
      DigitsSnoc(front + Decimal(n / 10), |front|, 0, n % 10);
      assert front + Decimal(n) == front + Decimal(n / 10) + [ZERO + n % 10];
      assert (n / 10 * 10 + n % 10) % TWO64 == n;
    }
  }

  /** Parsing a written number gives it back modulo 2^64, sign included. */
  lemma ParseSigned(magnitude: nat, negative: bool)
    requires magnitude < TWO64
    ensures ParsePart(Signed(magnitude, negative)) == if negative then (TWO64 - magnitude) % TWO64 else magnitude
  {
    var front: seq<int> := if negative then [MINUS] else [];
    var text := Signed(magnitude, negative);
    DecimalValue(front, magnitude);
    assert text == front + Decimal(magnitude);
    assert text[|front|] == Decimal(magnitude)[0];
    assert SkipSpace(text, 0) == 0;
  }

  // ---- Elements -----------------------------------------------------------------------------------

  /** The element types hold M = 2^8, 2^16, 2^32 or 2^64 bit patterns; a signed pattern from M/2 up is
      negative. */
  predicate Modulus(M: nat) { M == 0x100 || M == 0x1_0000 || M == 0x1_0000_0000 || M == TWO64 }

  predicate Negative(raw: nat, M: nat, signed: bool) { signed && raw >= M / 2 }

  function Magnitude(raw: nat, M: nat, signed: bool): nat
    requires raw < M
  {
    if Negative(raw, M, signed) then M - raw else raw
  }

  /** The text of one element. */
  function Written(raw: nat, M: nat, signed: bool): seq<int>
    requires raw < M
  {
    Signed(Magnitude(raw, M, signed), Negative(raw, M, signed))
  }

  /** The parsed value cut to the element's width. */
  function Element(part: seq<int>, M: nat): nat
    requires M > 0
  {
    ParsePart(part) % M
  }

  /** Every element survives being written and parsed, the least signed value included. */
  lemma ElementRoundTrip(raw: nat, M: nat, signed: bool)
    requires Modulus(M) && raw < M
    ensures Element(Written(raw, M, signed), M) == raw
  {
    var m := Magnitude(raw, M, signed);
    ParseSigned(m, Negative(raw, M, signed));
    if Negative(raw, M, signed) {
      var q :=
        if M == 0x100 then 0xFF_FFFF_FFFF_FFFF
        else if M == 0x1_0000 then 0xFFFF_FFFF_FFFF
        else if M == 0x1_0000_0000 then 0xFFFF_FFFF
        else 0;
      Complement(raw, M, q);
    }
    hide ParsePart, Written;
  }

  /** Negation in 64 bits and the cut to the width undo the element's own negation. */
  lemma Complement(raw: nat, M: nat, q: nat)
    requires 0 < raw < M && TWO64 == q * M + M
    ensures (TWO64 - (M - raw)) % TWO64 % M == raw
  {
    assert TWO64 - (M - raw) == q * M + raw;
    ModUnique(M, TWO64 - (M - raw), q, raw);
  }

  // ---- Arrays -------------------------------------------------------------------------------------

  function Texts(values: seq<nat>, M: nat, signed: bool): (texts: seq<seq<int>>)
    requires forall i :: 0 <= i < |values| ==> values[i] < M
    ensures |texts| == |values| && forall i :: 0 <= i < |values| ==> texts[i] == Written(values[i], M, signed)
  {
    if values == [] then [] else [Written(values[0], M, signed)] + Texts(values[1..], M, signed)
  }

  /** How the integer split cuts a text. */
  function Parts(text: seq<int>, separator: seq<int>): seq<seq<int>> {
    if text == [] then [] else if separator == [] then [text] else Pieces(text, separator)
  }

  function Elements(parts: seq<seq<int>>, M: nat): (values: seq<nat>)
    requires M > 0
    ensures |values| == |parts| && forall i :: 0 <= i < |parts| ==> values[i] == Element(parts[i], M)
  {
    if parts == [] then [] else [Element(parts[0], M)] + Elements(parts[1..], M)
  }
}
