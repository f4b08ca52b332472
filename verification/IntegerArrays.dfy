/** When an array of integers survives being joined and split: exact conditions on the separator. */
module IntegerArrays {
  import opened Arithmetic
  import opened Sequences
  import opened Strings
  import opened StringsCode
  import opened Integers

  // ---- What the front of a written number parses to -----------------------------------------------

  /** The number that a run of digits denotes. */
  function Value(digits: seq<int>): int {
    if digits == [] then 0 else Value(digits[..|digits| - 1]) * 10 + (digits[|digits| - 1] - ZERO)
  }

  lemma ValueSnoc(digits: seq<int>, d: int)
    ensures Value(digits + [ZERO + d]) == Value(digits) * 10 + d
  {
    assert (digits + [ZERO + d])[..|digits|] == digits;
  }

  lemma {:induction false} ValueNatural(digits: seq<int>)
    requires AllDigits(digits, 0)
    ensures Value(digits) >= 0
  {
    if digits != [] { ValueNatural(digits[..|digits| - 1]); }
  }

  lemma {:induction false} ValueDecimal(n: nat)
    ensures Value(Decimal(n)) == n
    decreases n
  {
    if n >= 10 {
      ValueDecimal(n / 10);
      ValueSnoc(Decimal(n / 10), n % 10);
    } else {
      ValueSnoc([], n);
      assert [] + [ZERO + n] == Decimal(n);
    }
  }

  /** A proper front of a number's digits denotes less, and nothing at all only if it is empty. */
  lemma {:induction false} FrontLess(n: nat, i: nat)
    requires n > 0 && i < |Decimal(n)|
    ensures 0 <= Value(Decimal(n)[..i]) < n && (i > 0 ==> Value(Decimal(n)[..i]) > 0)
    decreases n
  {
    var digits := Decimal(n);
    if n >= 10 {
      var front := Decimal(n / 10);
      assert digits == front + [ZERO + n % 10];
      assert digits[..i] == front[..i];
      if i < |front| {
        FrontLess(n / 10, i);
      } else {
        assert front[..i] == front;
        ValueDecimal(n / 10);
      }
    } else {
      assert digits[..i] == [];
    }
  }

  function Zeros(k: nat): (r: seq<int>)
    ensures |r| == k && forall i :: 0 <= i < k ==> r[i] == ZERO
  {
    seq(k, _ => ZERO)
  }

  lemma NoZeros(text: seq<int>)
    ensures Zeros(0) + text == text
  {
  }

  /** Leading zeros change nothing. */
  lemma {:induction false} ValueZeros(k: nat, digits: seq<int>)
    ensures Value(Zeros(k) + digits) == Value(digits)
    decreases k, |digits|
  {
    var text := Zeros(k) + digits;
    if digits != [] {
      var n := |digits| - 1;
      assert text[..|text| - 1] == Zeros(k) + digits[..n];
      ValueZeros(k, digits[..n]);
    } else if k > 0 {
      assert text[..|text| - 1] == Zeros(k - 1) + digits;
      ValueZeros(k - 1, digits);
    }
  }

  lemma ModStep(v: nat, d: nat)
    ensures (v % TWO64 * 10 + d) % TWO64 == (v * 10 + d) % TWO64
  {
    var q, r := v / TWO64, v % TWO64;
    var x := r * 10 + d;
    assert v * 10 + d == (q * 10 + x / TWO64) * TWO64 + x % TWO64;
    ModUnique(TWO64, v * 10 + d, q * 10 + x / TWO64, x % TWO64);
  }

  /** A run of digits is read as the number it denotes, in 64 bits. */
  lemma {:induction false} DigitsValue(front: seq<int>, digits: seq<int>)
    requires AllDigits(digits, 0)
    ensures Value(digits) >= 0 && Digits(front + digits, |front|, 10, 0) == (Value(digits) % TWO64, |front + digits|)
    decreases |digits|
  {
    ValueNatural(digits);
    if digits == [] {
      assert front + digits == front;
    } else {
      var init, d := digits[..|digits| - 1], digits[|digits| - 1] - ZERO;
      DigitsValue(front, init);
      assert front + digits == (front + init) + [ZERO + d];
      DigitsSnoc(front + init, |front|, 0, d);
      ModStep(Value(init), d);
    }
  }

  /** Reading zeros up to a unit that is no digit. */
  lemma {:induction false} DigitsStop(text: seq<int>, i: nat, k: nat)
    requires i <= k <= |text| && (forall j :: i <= j < k ==> text[j] == ZERO) && (k < |text| ==> Digit(text[k]) >= 10)
    ensures Digits(text, i, 10, 0) == (0, k)
    decreases k - i
  {
    if i < k { DigitsStop(text, i + 1, k); }
  }

  lemma ParseDigits(digits: seq<int>)
    requires AllDigits(digits, 0)
    ensures Value(digits) >= 0 && ParsePart(digits) == Value(digits) % TWO64
  {
    DigitsValue([], digits);
    assert [] + digits == digits;
    if digits != [] { assert ZERO <= digits[0] <= ZERO + 9; }
  }

  lemma ParseNegative(digits: seq<int>)
    requires AllDigits(digits, 0)
    ensures Value(digits) >= 0 && ParsePart([MINUS] + digits) == (TWO64 - Value(digits) % TWO64) % TWO64
  {
    DigitsValue([MINUS], digits);
    var text := [MINUS] + digits;
    if digits != [] { assert text[1] == digits[0] && ZERO <= digits[0] <= ZERO + 9; }
  }

  /** Zeros before a minus sign spoil the part. */
  lemma ParseSpoiled(c: nat, rest: seq<int>)
    requires c > 0
    ensures ParsePart(Zeros(c) + [MINUS] + rest) == 0
  {
    var text := Zeros(c) + [MINUS] + rest;
    assert text[0] == ZERO && text[c] == MINUS;
    DigitsStop(text, 0, c);
  }

  // ---- What the front of an element parses to -----------------------------------------------------

  lemma DecimalDigits(n: nat, c: nat, i: nat)
    requires i <= |Decimal(n)|
    ensures AllDigits(Zeros(c) + Decimal(n)[..i], 0) && AllDigits(Decimal(n)[..i], 0)
  {
  }

  lemma SignedMinus(m: nat, i: nat)
    requires 0 < i <= |Signed(m, true)|
    ensures i - 1 <= |Decimal(m)| && Signed(m, true)[..i] == [MINUS] + Decimal(m)[..i - 1]
  {
    SignedIs(m, true);
  }

  lemma SmallMod(v: nat, M: nat)
    requires Modulus(M) && v < M
    ensures v % TWO64 == v && v % M == v
  {
  }

  lemma NegativeMod(v: nat, M: nat)
    requires Modulus(M) && v < M
    ensures (TWO64 - v % TWO64) % TWO64 % M == if v == 0 then 0 else M - v
  {
    SmallMod(v, M);
    if v > 0 {
      var q :=
        if M == 0x100 then 0xFF_FFFF_FFFF_FFFF
        else if M == 0x1_0000 then 0xFFFF_FFFF_FFFF
        else if M == 0x1_0000_0000 then 0xFFFF_FFFF
        else 0;
      Complement(M - v, M, q);
    }
  }

  /** Cut short, the text of an element other than 0 is read as something else, whatever zeros precede it. */
  lemma FrontDiffers(raw: nat, M: nat, signed: bool, c: nat, i: nat)
    requires Modulus(M) && 0 < raw < M && i < |Written(raw, M, signed)|
    ensures Element(Zeros(c) + Written(raw, M, signed)[..i], M) != raw
  {
    var m := Magnitude(raw, M, signed);
    if !Negative(raw, M, signed) {
      SignedIs(m, false);
      DecimalDigits(m, c, i);
      FrontLess(m, i);
      ValueZeros(c, Decimal(m)[..i]);
      ParseDigits(Zeros(c) + Decimal(m)[..i]);
      SmallMod(Value(Decimal(m)[..i]), M);
    } else if i == 0 {
      EmptyFront(Signed(m, true), c);
    } else {
      SignedMinus(m, i);
      FrontSigned(raw, M, Decimal(m)[..i - 1], c, m, i - 1);
    }
  }

  lemma EmptyFront(text: seq<int>, c: nat)
    ensures ParsePart(Zeros(c) + text[..0]) == 0
  {
    assert Zeros(c) + text[..0] == Zeros(c) + [];
    ValueZeros(c, []);
    ParseDigits(Zeros(c) + []);
  }

  lemma SpoiledElement(c: nat, rest: seq<int>, M: nat)
    requires c > 0 && M > 0
    ensures Element(Zeros(c) + ([MINUS] + rest), M) == 0
  {
    Associate(Zeros(c), [MINUS], rest);
    ParseSpoiled(c, rest);
  }

  lemma NegativeElement(digits: seq<int>, M: nat)
    requires Modulus(M) && AllDigits(digits, 0) && Value(digits) < M
    ensures 0 <= Value(digits) && Element([MINUS] + digits, M) == if Value(digits) == 0 then 0 else M - Value(digits)
  {
    ParseNegative(digits);
    NegativeMod(Value(digits), M);
  }

  lemma FrontSigned(raw: nat, M: nat, digits: seq<int>, c: nat, m: nat, i: nat)
    requires Modulus(M) && 0 < m < M && raw == M - m && i < |Decimal(m)| && digits == Decimal(m)[..i]
    ensures Element(Zeros(c) + ([MINUS] + digits), M) != raw
  {
    assert M > 0;
    hide *;
    if c > 0 {
      SpoiledElement(c, digits, M);
    } else {
      assert Zeros(0) + ([MINUS] + digits) == [MINUS] + digits;
      DecimalDigits(m, 0, i);
      FrontLess(m, i);
      NegativeElement(digits, M);
    }
  }

  /** Zeros in front of the whole text change nothing, unless it has a sign. */
  lemma WholeSame(raw: nat, M: nat, signed: bool, c: nat)
    requires Modulus(M) && 0 < raw < M
    ensures Element(Zeros(c) + Written(raw, M, signed), M) == raw <==> c == 0 || !Negative(raw, M, signed)
  {
    var m := Magnitude(raw, M, signed);
    if c == 0 {
      NoZeros(Written(raw, M, signed));
      ElementRoundTrip(raw, M, signed);
    } else if Negative(raw, M, signed) {
      SignedIs(m, true);
      SpoiledElement(c, Decimal(m), M);
    } else {
      SignedIs(m, false);
      var digits := Decimal(m);
      assert digits[..|digits|] == digits;
      DecimalDigits(m, c, |digits|);
      ValueZeros(c, digits);
      ValueDecimal(m);
      ParseDigits(Zeros(c) + digits);
      SmallMod(m, M);
    }
  }

  // ---- Arrays -------------------------------------------------------------------------------------

  predicate InRange(values: seq<nat>, M: nat) { forall i :: 0 <= i < |values| ==> values[i] < M }

  predicate AllZero(separator: seq<int>) { forall i :: 0 <= i < |separator| ==> separator[i] == ZERO }

  /** What a separator of n zeros keeps apart, c zero elements having just gone by: the zeros of the
      elements in a row must not make up another separator, and no sign may follow them. */
  predicate Carried(values: seq<nat>, M: nat, signed: bool, n: nat, c: nat)
    requires InRange(values, M)
  {
    if values == [] then true
    else if values[0] == 0 then c + 1 < n && Carried(values[1..], M, signed, n, c + 1)
    else
      var text := Written(values[0], M, signed);
      && (c > 0 ==> !Negative(values[0], M, signed))
      && (if |values| == 1 then Find(text, Zeros(n), 0) == -1 else Clean(text, Zeros(n)))
      && Carried(values[1..], M, signed, n, 0)
  }

  /** The arrays that a separator keeps. */
  predicate Survives(values: seq<nat>, M: nat, signed: bool, separator: seq<int>)
    requires InRange(values, M)
  {
    if values == [] then true
    else if separator == [] then |values| == 1
    else if AllZero(separator) then Carried(values, M, signed, |separator|, 0)
    else Separable(Texts(values, M, signed), separator)
  }

  /** The parts are read as these values. */
  predicate Gives(parts: seq<seq<int>>, M: nat, values: seq<nat>)
    requires M > 0
  {
    Elements(parts, M) == values
  }

  lemma HeadAndTail(part: seq<int>, parts: seq<seq<int>>, M: nat, values: seq<nat>)
    requires M > 0 && values != []
    ensures Gives([part] + parts, M, values) <==> Element(part, M) == values[0] && Gives(parts, M, values[1..])
  {
    assert values == [values[0]] + values[1..];
    assert ([part] + parts)[1..] == parts;
  }

  lemma TailRange(values: seq<nat>, M: nat)
    requires values != [] && InRange(values, M)
    ensures values[0] < M && InRange(values[1..], M) && (0 !in values ==> values[0] > 0 && 0 !in values[1..])
    ensures |values| == 1 ==> values == [values[0]]
  {
  }

  lemma TextsHead(values: seq<nat>, M: nat, signed: bool)
    requires InRange(values, M) && values != []
    ensures Texts(values, M, signed) == [Written(values[0], M, signed)] + Texts(values[1..], M, signed)
    ensures Written(values[0], M, signed) != []
  {
  }

  lemma WrittenZero(M: nat, signed: bool)
    requires Modulus(M)
    ensures Written(0, M, signed) == [ZERO] && Element([], M) == 0
  {
  }

  lemma WrittenFirst(raw: nat, M: nat, signed: bool)
    requires Modulus(M) && 0 < raw < M
    ensures Written(raw, M, signed) != [] && Written(raw, M, signed)[0] != ZERO
  {
    DecimalFirst(Magnitude(raw, M, signed));
    SignedIs(Magnitude(raw, M, signed), Negative(raw, M, signed));
  }

  lemma {:induction false} DecimalFirst(n: nat)
    requires n > 0
    ensures Decimal(n)[0] != ZERO
    decreases n
  {
    if n >= 10 { DecimalFirst(n / 10); }
  }

  /** A single element comes back exactly if the separator is not found in its text. */
  lemma OnePiece(text: seq<int>, separator: seq<int>, M: nat, raw: nat)
    requires separator != [] && M > 0
    ensures Gives(Pieces(text, separator), M, [raw]) <==> Find(text, separator, 0) == -1 && Element(text, M) == raw
  {
    if Find(text, separator, 0) == -1 {
      PiecesLast(text, separator);
    } else {
      PiecesStep(text, separator, Find(text, separator, 0));
    }
  }

  /** Only zeros can begin in the single digit of a 0. */
  lemma ZeroClean(separator: seq<int>)
    requires separator != [] && !AllZero(separator)
    ensures Clean([ZERO], separator)
  {
    var text := [ZERO] + separator;
    assert text[1..1 + |separator|] == separator;
    if text[0..|separator|] == separator {
      SameUnits(separator);
    }
    assert At(text, separator, 1);
    FindIs(text, separator, 0, 1);
  }

  lemma SameUnits(separator: seq<int>)
    requires separator != [] && ([ZERO] + separator)[..|separator|] == separator
    ensures AllZero(separator)
  {
    var text := [ZERO] + separator;
    var k := 0;
    while k < |separator|
      invariant k <= |separator| && forall i :: 0 <= i < k ==> separator[i] == ZERO
    {
      assert separator[k] == text[..|separator|][k] == text[k];
      k := k + 1;
    }
  }

  /** The first cut of part + separator + rest, as parts. */
  lemma CutPieces(part: seq<int>, separator: seq<int>, rest: seq<int>) returns (i: nat)
    requires separator != []
    ensures i <= |part| && (Clean(part, separator) <==> i == |part|)
    ensures Find(part + separator + rest, separator, 0) == i
    ensures i == |part| ==> (part + separator + rest)[i + |separator|..] == rest
    ensures (part + separator + rest)[..i] == part[..i]
  {
    var front;
    i, front := FirstCut(part, separator, rest);
    FindInFront(part, separator, rest);
    hide *;
    assert (part + separator + rest)[..i] == part[..i];
    assert (part + separator + rest)[|part| + |separator|..] == rest;
  }

  /** One step of the split: the first piece is the first element exactly if the cut is where its text
      ends, unless the element is 0. */
  lemma CutDecides(raw: nat, M: nat, signed: bool, i: nat, c: nat)
    requires Modulus(M) && 0 < raw < M && i <= |Written(raw, M, signed)|
    ensures Element(Zeros(c) + Written(raw, M, signed)[..i], M) == raw
       <==> i == |Written(raw, M, signed)| && (c == 0 || !Negative(raw, M, signed))
  {
    var text := Written(raw, M, signed);
    if i < |text| {
      FrontDiffers(raw, M, signed, c, i);
    } else {
      assert text[..i] == text;
      WholeSame(raw, M, signed, c);
    }
  }

  lemma JoinHead(values: seq<nat>, M: nat, signed: bool, separator: seq<int>)
    requires InRange(values, M) && |values| > 1
    ensures Join(separator, Texts(values, M, signed))
         == Written(values[0], M, signed) + separator + Join(separator, Texts(values[1..], M, signed))
  {
    var texts := Texts(values, M, signed);
    TextsHead(values, M, signed);
    assert texts[1..] == Texts(values[1..], M, signed);
  }

  lemma SeparableStep(values: seq<nat>, M: nat, signed: bool, separator: seq<int>)
    requires InRange(values, M) && |values| > 1
    ensures Separable(Texts(values, M, signed), separator)
       <==> Clean(Written(values[0], M, signed), separator) && Separable(Texts(values[1..], M, signed), separator)
  {
    TextsHead(values, M, signed);
    assert Texts(values, M, signed)[1..] == Texts(values[1..], M, signed);
  }

  lemma OneElement(raw: nat, M: nat, signed: bool, separator: seq<int>)
    requires Modulus(M) && raw < M && separator != []
    ensures Gives(Pieces(Join(separator, Texts([raw], M, signed)), separator), M, [raw])
       <==> Separable(Texts([raw], M, signed), separator)
  {
    TextsHead([raw], M, signed);
    ElementRoundTrip(raw, M, signed);
    OnePiece(Written(raw, M, signed), separator, M, raw);
  }

  lemma FirstDecides(raw: nat, M: nat, signed: bool, separator: seq<int>, i: nat)
    requires Modulus(M) && raw < M && M > 0 && separator != [] && (AllZero(separator) ==> raw > 0)
    requires i <= |Written(raw, M, signed)|
    requires Clean(Written(raw, M, signed), separator) <==> i == |Written(raw, M, signed)|
    ensures Element(Written(raw, M, signed)[..i], M) == raw <==> i == |Written(raw, M, signed)|
  {
    hide *;
    if raw > 0 {
      NoZeros(Written(raw, M, signed)[..i]);
      CutDecides(raw, M, signed, i, 0);
    } else {
      WrittenZero(M, signed);
      ZeroClean(separator);
      ElementRoundTrip(raw, M, signed);
      assert Written(raw, M, signed)[..i] == Written(raw, M, signed);
    }
  }

  /** A separator with a unit other than '0', or an array without 0: the elements come back exactly if
      their texts do. */
  lemma {:induction false} OtherSeparator(values: seq<nat>, M: nat, signed: bool, separator: seq<int>)
    requires Modulus(M) && values != [] && InRange(values, M) && separator != []
    requires AllZero(separator) ==> 0 !in values
    ensures Gives(Pieces(Join(separator, Texts(values, M, signed)), separator), M, values)
       <==> Separable(Texts(values, M, signed), separator)
    decreases |values|
  {
    assert M > 0;
    hide *;
    TailRange(values, M);
    if |values| == 1 {
      OneElement(values[0], M, signed, separator);
    } else {
      var rest := Join(separator, Texts(values[1..], M, signed));
      JoinHead(values, M, signed, separator);
      SeparableStep(values, M, signed, separator);
      var written := Written(values[0], M, signed);
      var i := CutPieces(written, separator, rest);
      PiecesStep(written + separator + rest, separator, i);
      var after := Pieces((written + separator + rest)[i + |separator|..], separator);
      HeadAndTail(written[..i], after, M, values);
      FirstDecides(values[0], M, signed, separator, i);
      OtherSeparator(values[1..], M, signed, separator);
    }
  }

  // ---- Separators of zeros ------------------------------------------------------------------------

  lemma AtUnit(text: seq<int>, sub: seq<int>, p: nat, j: nat)
    requires j < |sub|
    ensures At(text, sub, p) ==> p + j < |text| && text[p + j] == sub[j]
  {
    if At(text, sub, p) { assert text[p..p + |sub|][j] == text[p + j]; }
  }

  /** Fewer zeros than the separator has cannot start one in front of another unit. */
  lemma SkipZeros(c: nat, n: nat, text: seq<int>)
    requires c < n && text != [] && text[0] != ZERO
    ensures Find(Zeros(c) + text, Zeros(n), 0) ==
              if Find(text, Zeros(n), 0) == -1 then -1 else c + Find(text, Zeros(n), 0)
  {
    var whole, sep := Zeros(c) + text, Zeros(n);
    assert whole[c] == text[0] && whole[c..] == text;
    forall j: nat | j < c ensures !At(whole, sep, j) {
      AtUnit(whole, sep, j, c - j);
    }
    FindShift(whole, sep, c, 0);
    Leftmost(whole, sep, 0);
    Leftmost(whole, sep, c);
  }

  /** Zeros only: a zero element follows the c that have gone by. */
  lemma LastZero(c: nat, n: nat, M: nat)
    requires c < n && M > 0
    ensures Gives(Pieces(Zeros(c) + [ZERO], Zeros(n)), M, [0]) <==> c + 1 < n
  {
    assert Zeros(c) + [ZERO] == Zeros(c + 1);
    var text, sep := Zeros(c + 1), Zeros(n);
    ValueZeros(c + 1, []);
    assert text + [] == text;
    ParseDigits(text);
    OnePiece(text, sep, M, 0);
    if c + 1 == n { assert text[0..n] == sep; }
  }

  /** A zero element is cut off as an empty part, and its own zero goes on to the next. */
  lemma ZeroCut(c: nat, n: nat, rest: seq<int>)
    requires c < n
    ensures var text := Zeros(c) + ([ZERO] + Zeros(n) + rest);
            Find(text, Zeros(n), 0) == 0 && n <= |text| && text[n..] == Zeros(c + 1) + rest
  {
    var text := Zeros(c) + ([ZERO] + Zeros(n) + rest);
    assert text == Zeros(c + 1 + n) + rest;
    assert text[0..n] == Zeros(n);
    assert text[n..] == Zeros(c + 1) + rest;
  }

  lemma TooMany(parts: seq<seq<int>>, M: nat, values: seq<nat>)
    requires M > 0 && |parts| > |values|
    ensures !Gives(parts, M, values)
  {
  }

  /** A whole separator left over makes one part too many. */
  lemma OnePartMore(n: nat, parts: seq<seq<int>>)
    requires n > 0 && parts != []
    ensures |Pieces(Zeros(n) + Join(Zeros(n), parts), Zeros(n))| > |parts|
  {
    var more := [[]] + parts;
    NoFewerPieces([], more, Zeros(n));
    assert more[1..] == parts;
    assert [] + Join(Zeros(n), more) == Zeros(n) + Join(Zeros(n), parts);
  }

  /** The rest of an array after c zero elements, for a separator of n zeros. */
  lemma {:induction false} ZeroSeparator(values: seq<nat>, M: nat, signed: bool, n: nat, c: nat)
    requires Modulus(M) && InRange(values, M) && values != [] && c < n
    ensures Gives(Pieces(Zeros(c) + Join(Zeros(n), Texts(values, M, signed)), Zeros(n)), M, values)
       <==> Carried(values, M, signed, n, c)
    decreases |values|
  {
    var texts := Texts(values, M, signed);
    TextsHead(values, M, signed);
    WrittenZero(M, signed);
    if values[0] == 0 {
      if |values| == 1 {
        LastZero(c, n, M);
      } else {
        AfterZero(values, M, signed, n, c);
      }
    } else if |values| == 1 {
      LastNumber(values[0], M, signed, n, c);
    } else {
      AfterNumber(values, M, signed, n, c);
    }
  }

  lemma CarriedStep(values: seq<nat>, M: nat, signed: bool, n: nat, c: nat)
    requires InRange(values, M) && |values| > 1
    ensures Carried(values, M, signed, n, c) <==>
              if values[0] == 0 then c + 1 < n && Carried(values[1..], M, signed, n, c + 1)
              else ((c > 0 ==> !Negative(values[0], M, signed)) && Clean(Written(values[0], M, signed), Zeros(n))
                    && Carried(values[1..], M, signed, n, 0))
  {
  }

  lemma CutAfter(front: seq<int>, text: seq<int>, i: nat, n: nat)
    requires i + n <= |text|
    ensures (front + text)[..|front| + i] == front + text[..i]
    ensures (front + text)[|front| + i + n..] == text[i + n..]
  {
  }

  /** The first cut of front + text, as elements. */
  lemma CutGives(front: seq<int>, text: seq<int>, sep: seq<int>, i: nat, M: nat, values: seq<nat>)
    requires M > 0 && values != [] && sep != [] && Find(front + text, sep, 0) == |front| + i
    ensures i + |sep| <= |text|
    ensures Gives(Pieces(front + text, sep), M, values)
       <==> Element(front + text[..i], M) == values[0] && Gives(Pieces(text[i + |sep|..], sep), M, values[1..])
  {
    hide *;
    CutAfter(front, text, i, |sep|);
    var whole, k := front + text, |front| + i;
    PiecesStep(whole, sep, k);
    var part, after := whole[..k], whole[k + |sep|..];
    assert part == front + text[..i] && after == text[i + |sep|..];
    HeadAndTail(part, Pieces(after, sep), M, values);
  }

  lemma CutFirst(text: seq<int>, sep: seq<int>, M: nat, values: seq<nat>)
    requires M > 0 && values != [] && sep != [] && Find(text, sep, 0) == 0
    ensures |sep| <= |text|
    ensures Gives(Pieces(text, sep), M, values) <==>
              Element([], M) == values[0] && Gives(Pieces(text[|sep|..], sep), M, values[1..])
  {
    hide *;
    PiecesStep(text, sep, 0);
    NoFront(text);
    var after := text[|sep|..];
    assert after == text[0 + |sep|..];
    HeadAndTail([], Pieces(after, sep), M, values);
  }

  /** A zero element in front leaves its zero to the rest of the array. */
  lemma ZeroPassed(values: seq<nat>, M: nat, signed: bool, n: nat, c: nat)
    requires Modulus(M) && |values| > 1 && InRange(values, M) && InRange(values[1..], M) && values[0] == 0 && c < n
    ensures Gives(Pieces(Zeros(c) + Join(Zeros(n), Texts(values, M, signed)), Zeros(n)), M, values)
       <==> Gives(Pieces(Zeros(c + 1) + Join(Zeros(n), Texts(values[1..], M, signed)), Zeros(n)), M, values[1..])
  {
    assert M > 0;
    hide *;
    var sep := Zeros(n);
    var rest := Join(sep, Texts(values[1..], M, signed));
    JoinHead(values, M, signed, sep);
    WrittenZero(M, signed);
    ZeroCut(c, n, rest);
    CutFirst(Zeros(c) + ([ZERO] + sep + rest), sep, M, values);
  }

  lemma {:induction false} AfterZero(values: seq<nat>, M: nat, signed: bool, n: nat, c: nat)
    requires Modulus(M) && |values| > 1 && InRange(values, M) && values[0] == 0 && c < n
    ensures Gives(Pieces(Zeros(c) + Join(Zeros(n), Texts(values, M, signed)), Zeros(n)), M, values)
       <==> Carried(values, M, signed, n, c)
    decreases |values|, 0
  {
    assert M > 0;
    hide *;
    TailRange(values, M);
    CarriedStep(values, M, signed, n, c);
    ZeroPassed(values, M, signed, n, c);
    if c + 1 < n {
      ZeroSeparator(values[1..], M, signed, n, c + 1);
    } else {
      var texts := Texts(values[1..], M, signed);
      OnePartMore(n, texts);
      TooMany(Pieces(Zeros(n) + Join(Zeros(n), texts), Zeros(n)), M, values[1..]);
    }
  }

  lemma LastNumber(raw: nat, M: nat, signed: bool, n: nat, c: nat)
    requires Modulus(M) && 0 < raw < M && c < n
    ensures Gives(Pieces(Zeros(c) + Written(raw, M, signed), Zeros(n)), M, [raw])
       <==> Find(Written(raw, M, signed), Zeros(n), 0) == -1 && (c > 0 ==> !Negative(raw, M, signed))
  {
    var text := Written(raw, M, signed);
    WrittenFirst(raw, M, signed);
    SkipZeros(c, n, text);
    OnePiece(Zeros(c) + text, Zeros(n), M, raw);
    WholeSame(raw, M, signed, c);
  }

  /** Another element in front is cut off where its text ends, or comes back as something else. */
  lemma NumberPassed(values: seq<nat>, M: nat, signed: bool, n: nat, c: nat)
    requires Modulus(M) && |values| > 1 && InRange(values, M) && InRange(values[1..], M) && values[0] > 0 && c < n
    ensures Gives(Pieces(Zeros(c) + Join(Zeros(n), Texts(values, M, signed)), Zeros(n)), M, values)
       <==> ((c > 0 ==> !Negative(values[0], M, signed)) && Clean(Written(values[0], M, signed), Zeros(n))
             && Gives(Pieces(Join(Zeros(n), Texts(values[1..], M, signed)), Zeros(n)), M, values[1..]))
  {
    assert M > 0 && values[0] < M;
    hide *;
    var sep := Zeros(n);
    var rest := Join(sep, Texts(values[1..], M, signed));
    JoinHead(values, M, signed, sep);
    var written := Written(values[0], M, signed);
    WrittenFirst(values[0], M, signed);
    var inner := written + sep + rest;
    var i := CutPieces(written, sep, rest);
    FirstUnit(written, sep + rest);
    Associate(written, sep, rest);
    SkipZeros(c, n, inner);
    CutGives(Zeros(c), inner, sep, i, M, values);
    CutDecides(values[0], M, signed, i, c);
  }

  lemma {:induction false} AfterNumber(values: seq<nat>, M: nat, signed: bool, n: nat, c: nat)
    requires Modulus(M) && |values| > 1 && InRange(values, M) && values[0] > 0 && c < n
    ensures Gives(Pieces(Zeros(c) + Join(Zeros(n), Texts(values, M, signed)), Zeros(n)), M, values)
       <==> Carried(values, M, signed, n, c)
    decreases |values|, 0
  {
    assert M > 0;
    hide *;
    TailRange(values, M);
    CarriedStep(values, M, signed, n, c);
    NumberPassed(values, M, signed, n, c);
    NoZeros(Join(Zeros(n), Texts(values[1..], M, signed)));
    ZeroSeparator(values[1..], M, signed, n, 0);
  }

  lemma NoFront(text: seq<int>)
    ensures text[..0] == []
  {
  }

  lemma FirstUnit(a: seq<int>, b: seq<int>)
    requires a != []
    ensures a + b != [] && (a + b)[0] == a[0]
  {
  }

  // ---- The theorems -------------------------------------------------------------------------------

  lemma JoinNonEmpty(separator: seq<int>, parts: seq<seq<int>>)
    requires parts != [] && parts[0] != []
    ensures Join(separator, parts) != []
  {
  }

  lemma NoSeparator(values: seq<nat>, M: nat, signed: bool)
    requires Modulus(M) && InRange(values, M)
    ensures Elements(Parts(Join([], Texts(values, M, signed)), []), M) == values <==> |values| <= 1
  {
    if values != [] {
      TextsHead(values, M, signed);
      JoinNonEmpty([], Texts(values, M, signed));
      ElementRoundTrip(values[0], M, signed);
    }
  }

  /** The text as such, however long, gives the array back exactly if `Survives`. */
  lemma JoinedRoundTripIff(values: seq<nat>, M: nat, signed: bool, separator: seq<int>)
    requires Modulus(M) && InRange(values, M)
    ensures Elements(Parts(Join(separator, Texts(values, M, signed)), separator), M) == values
       <==> Survives(values, M, signed, separator)
  {
    if separator == [] {
      NoSeparator(values, M, signed);
    } else if values != [] {
      TextsHead(values, M, signed);
      var texts := Texts(values, M, signed);
      JoinNonEmpty(separator, texts);
      if AllZero(separator) {
        assert Zeros(|separator|) == separator;
        NoZeros(Join(separator, texts));
        ZeroSeparator(values, M, signed, |separator|, 0);
      } else {
        OtherSeparator(values, M, signed, separator);
      }
    }
  }

  /** The array that comes back from splitting the text that the join of `values` hands out. */
  function Returned(values: seq<nat>, M: nat, signed: bool, separator: seq<int>): seq<nat>
    requires Modulus(M) && InRange(values, M)
  {
    Elements(Parts(Capped(Join(separator, Texts(values, M, signed))), separator), M)
  }

  predicate Fits(values: seq<nat>, M: nat, signed: bool, separator: seq<int>)
    requires Modulus(M) && InRange(values, M)
  {
    |Join(separator, Texts(values, M, signed))| <= INT32_MAX
  }

  /** Too long a join is refused, so nothing comes back of the array. */
  lemma Unfit(values: seq<nat>, M: nat, signed: bool, separator: seq<int>)
    requires Modulus(M) && InRange(values, M)
    ensures Fits(values, M, signed, separator) ==>
              Returned(values, M, signed, separator) ==
                Elements(Parts(Join(separator, Texts(values, M, signed)), separator), M)
    ensures !Fits(values, M, signed, separator) ==> Returned(values, M, signed, separator) != values
  {
    hide Texts, Written;
    if values == [] { NoTexts(M, signed); }
  }

  lemma NoTexts(M: nat, signed: bool)
    requires Modulus(M)
    ensures Texts([], M, signed) == []
  {
  }

  /** Joining an array of integers and splitting the text gives the array back, for every width and
      sign, exactly if the text fits and `Survives`: whatever the array and the separator. */
  lemma ArrayRoundTripIff(values: seq<nat>, M: nat, signed: bool, separator: seq<int>)
    requires Modulus(M) && InRange(values, M)
    ensures Returned(values, M, signed, separator) == values
       <==> Fits(values, M, signed, separator) && Survives(values, M, signed, separator)
  {
    JoinedRoundTripIff(values, M, signed, separator);
    Unfit(values, M, signed, separator);
    hide *;
  }

  /** Without an element 0 the elements come back exactly if their texts do, also for zeros. */
  lemma NonZeroRoundTrip(values: seq<nat>, M: nat, signed: bool, separator: seq<int>)
    requires Modulus(M) && InRange(values, M) && values != [] && separator != [] && 0 !in values
    ensures Returned(values, M, signed, separator) == values
       <==> Fits(values, M, signed, separator) && Separable(Texts(values, M, signed), separator)
  {
    Unfit(values, M, signed, separator);
    TextsHead(values, M, signed);
    JoinNonEmpty(separator, Texts(values, M, signed));
    OtherSeparator(values, M, signed, separator);
  }

  // ---- Separators that always work, and one that does not -----------------------------------------

  /** A unit that no written integer contains. */
  predicate Foreign(u: int) { u != MINUS && !(ZERO <= u <= ZERO + 9) }

  predicate Native(text: seq<int>) { forall i :: 0 <= i < |text| ==> !Foreign(text[i]) }

  lemma WrittenNative(raw: nat, M: nat, signed: bool)
    requires raw < M
    ensures Written(raw, M, signed) != [] && Native(Written(raw, M, signed))
  {
  }

  /** Integers cannot run into a separator that has a foreign unit. */
  lemma NativeClean(part: seq<int>, separator: seq<int>, j: nat)
    requires Native(part) && j < |separator| && Foreign(separator[j]) && Native(separator[..j])
    ensures Clean(part, separator) && Find(part, separator, 0) == -1
  {
    var text := part + separator;
    assert forall q :: 0 <= q < |part| + j ==> !Foreign(text[q]) by {
      assert forall q :: |part| <= q < |part| + j ==> text[q] == separator[..j][q - |part|];
    }
    forall p: nat
      ensures At(text, separator, p) ==> p + j < |text| && text[p + j] == separator[j]
    {
      AtUnit(text, separator, p, j);
    }
    forall p: nat
      ensures At(part, separator, p) ==> p + j < |part| && part[p + j] == separator[j]
    {
      AtUnit(part, separator, p, j);
    }
    assert At(text, separator, |part|);
    FindIs(text, separator, 0, |part|);
    Leftmost(part, separator, 0);
  }

  lemma {:induction false} NativeSeparable(parts: seq<seq<int>>, separator: seq<int>, j: nat)
    requires parts != [] && forall i :: 0 <= i < |parts| ==> Native(parts[i])
    requires j < |separator| && Foreign(separator[j]) && Native(separator[..j])
    ensures Separable(parts, separator)
  {
    NativeClean(parts[0], separator, j);
    if |parts| > 1 { NativeSeparable(parts[1..], separator, j); }
  }

  lemma FirstForeign(separator: seq<int>, k: nat) returns (j: nat)
    requires k < |separator| && Foreign(separator[k])
    ensures j <= k && Foreign(separator[j]) && Native(separator[..j])
  {
    j := 0;
    while !Foreign(separator[j])
      invariant j <= k && Native(separator[..j])
      decreases k - j
    {
      j := j + 1;
    }
  }

  /** If the separator has some unit that is neither a digit nor '-', every array comes back whose text
      fits. */
  lemma ArrayRoundTrip(values: seq<nat>, M: nat, signed: bool, separator: seq<int>, k: nat)
    requires Modulus(M) && InRange(values, M)
    requires k < |separator| && Foreign(separator[k])
    ensures Returned(values, M, signed, separator) == values <==> Fits(values, M, signed, separator)
  {
    ArrayRoundTripIff(values, M, signed, separator);
    if values != [] {
      var texts := Texts(values, M, signed);
      forall i | 0 <= i < |texts| ensures Native(texts[i]) { WrittenNative(values[i], M, signed); }
      var j := FirstForeign(separator, k);
      NativeSeparable(texts, separator, j);
    }
  }

  /** Zeros as separator: leading zeros are no part of a number, so 0 and 7 come back, although the
      text 0007 is not split into their texts. */
  lemma ZerosExample()
    ensures Returned([0, 7], 0x100, false, Zeros(2)) == [0, 7]
    ensures !Separable(Texts([0, 7], 0x100, false), Zeros(2))
  {
    var values: seq<nat>, sep := [0, 7], Zeros(2);
    var seven := [ZERO + 7];
    assert Written(7, 0x100, false) == seven && Written(0, 0x100, false) == [ZERO];
    assert values[1..] == [7];
    assert Find(seven, sep, 0) == -1;
    assert Carried([7], 0x100, false, 2, 1);
    assert Carried(values, 0x100, false, 2, 0);
    JoinedRoundTripIff(values, 0x100, false, sep);
    Unfit(values, 0x100, false, sep);
    assert Join(sep, Texts(values, 0x100, false)) == [ZERO] + sep + seven;
    var text := [ZERO] + sep;
    assert text[0..2] == sep;
    assert Find(text, sep, 0) == 0;
  }

  /** A separator of digits can be taken for part of a number. */
  lemma DigitSeparator()
    ensures Returned([11, 2], 0x100, false, [ZERO + 1]) != [11, 2]
  {
    var texts := Texts([11, 2], 0x100, false);
    assert texts[0] == [ZERO + 1, ZERO + 1] by { assert Decimal(11) == Decimal(1) + [ZERO + 1]; }
    assert texts[1] == [ZERO + 2];
    Unfit([11, 2], 0x100, false, [ZERO + 1]);
    var text := Join([ZERO + 1], texts);
    assert text[0] == ZERO + 1;
    assert At(text, [ZERO + 1], 0);
    FindIs(text, [ZERO + 1], 0, 0);
    assert Pieces(text, [ZERO + 1])[0] == [];
  }
}
