/** Expanding the shortest scientific text of a float into positional text. */
module Floats {

  const DASH := 45
  const POINT := 46
  const ZERO := 48
  const UPPER_E := 69

  /** A decimal in scientific form: digits with the point after the first `point` of them (written only
      if dotted), and a power of ten with its sign. */
  datatype Scientific = Scientific(negative: bool, digits: seq<int>, point: nat, dotted: bool, minus: bool,
                                   power: seq<int>) {
    predicate Valid() {
      && 0 < |digits| <= 17 && (forall i :: 0 <= i < |digits| ==> 0 <= digits[i] <= 9)
      && point <= |digits| && (!dotted ==> point == |digits|)
      && 0 < |power| && (forall i :: 0 <= i < |power| ==> 0 <= power[i] <= 9)
    }

    function Exponent(): int { if minus then -Nat(power) else Nat(power) }

    function Mantissa(): seq<int>
      requires Valid()
    {
      if dotted then Chars(digits[..point]) + [POINT] + Chars(digits[point..]) else Chars(digits)
    }

    function Sign(): seq<int> { if negative then [DASH] else [] }

    /** The text the shortest-digits routine produces. */
    function Text(): seq<int>
      requires Valid()
    {
      Sign() + Mantissa() + [UPPER_E] + (if minus then [DASH] else []) + Chars(power)
    }
  }

  function Nat(digits: seq<int>): int {
    if digits == [] then 0 else Nat(digits[..|digits| - 1]) * 10 + digits[|digits| - 1]
  }

  function Chars(digits: seq<int>): (text: seq<int>)
    ensures |text| == |digits| && forall i :: 0 <= i < |text| ==> text[i] == ZERO + digits[i]
  {
    seq(|digits|, i requires 0 <= i < |digits| => ZERO + digits[i])
  }

  function Zeros(n: nat): (z: seq<int>)
    ensures |z| == n && forall i :: 0 <= i < n ==> z[i] == 0
  {
    seq(n, _ => 0)
  }

  // ---- The value of a decimal ---------------------------------------------------------------------

  ghost function Power(k: int): real
    decreases if k < 0 then -k else k
  {
    if k == 0 then 1.0 else if k > 0 then 10.0 * Power(k - 1) else Power(k + 1) / 10.0
  }

  /** The digits as a whole number, times ten to the scale. */
  ghost function Value(digits: seq<int>, scale: int): real { Nat(digits) as real * Power(scale) }

  lemma PowerNext(k: int)
    ensures Power(k + 1) == 10.0 * Power(k)
  {
  }

  /** A zero more at the end, one less in the scale. */
  lemma ValueZero(digits: seq<int>, scale: int)
    ensures Value(digits + [0], scale - 1) == Value(digits, scale)
  {
    assert (digits + [0])[..|digits|] == digits;
    PowerNext(scale - 1);
    var n, p := Nat(digits), Power(scale - 1);
    assert (n * 10) as real == n as real * 10.0;
    assert n as real * 10.0 * p == n as real * (10.0 * p);
  }

  lemma {:induction false} ValueZeros(digits: seq<int>, scale: int, n: nat)
    ensures Value(digits + Zeros(n), scale - n) == Value(digits, scale)
  {
    if n == 0 {
      assert digits + Zeros(0) == digits;
    } else {
      ValueZeros(digits, scale, n - 1);
      ValueZero(digits + Zeros(n - 1), scale - (n - 1));
      assert digits + Zeros(n - 1) + [0] == digits + Zeros(n);
    }
  }

  lemma {:induction false} LeadingZero(digits: seq<int>)
    ensures Nat([0] + digits) == Nat(digits)
  {
    var n := |digits|;
    if n > 0 {
      LeadingZero(digits[..n - 1]);
      assert ([0] + digits)[..n] == [0] + digits[..n - 1];
    } else {
      assert [0] + digits == [0];
      assert [0][..0] == [];
      assert Nat([]) == 0;
    }
  }

  lemma {:induction false} LeadingZeros(n: nat, digits: seq<int>)
    ensures Nat(Zeros(n) + digits) == Nat(digits)
  {
    if n == 0 {
      assert Zeros(0) + digits == digits;
    } else {
      LeadingZeros(n - 1, digits);
      LeadingZero(Zeros(n - 1) + digits);
      assert [0] + (Zeros(n - 1) + digits) == Zeros(n) + digits;
    }
  }

  // ---- Positional text ----------------------------------------------------------------------------

  /** Digits before and after the point. */
  datatype Positional = Positional(whole: seq<int>, fraction: seq<int>) {
    ghost function Worth(): real { Value(whole + fraction, -|fraction|) }
  }

  /** Where the digits go when the point belongs at `at`. */
  function Layout(digits: seq<int>, at: int): Positional {
    if at <= 0 then Positional([0], Zeros(-at) + digits)
    else if at >= |digits| then Positional(digits + Zeros(at - |digits|), [0])
    else Positional(digits[..at], digits[at..])
  }

  /** Trailing zeros go, but for the digit right after the point. */
  function Trim(fraction: seq<int>): (t: seq<int>)
    ensures fraction != [] ==> 0 < |t| <= |fraction| && t == fraction[..|t|]
  {
    if |fraction| > 1 && fraction[|fraction| - 1] == 0 then Trim(fraction[..|fraction| - 1]) else fraction
  }

  function Trimmed(p: Positional): Positional { p.(fraction := Trim(p.fraction)) }

  /** `expand_ryu`: refused (empty) outside the exponent range. */
  function Expanded(s: Scientific, minimum: int, maximum: int): seq<int>
    requires s.Valid()
  {
    if s.Exponent() < minimum || s.Exponent() > maximum then []
    else
      var p := Trimmed(Layout(s.digits, s.point + s.Exponent()));
      s.Sign() + Chars(p.whole) + [POINT] + Chars(p.fraction)
  }

  lemma SmallWorth(digits: seq<int>, n: nat)
    ensures Value([0] + (Zeros(n) + digits), -(n + |digits|)) == Value(digits, -(n + |digits|))
  {
    LeadingZeros(n, digits);
    LeadingZero(Zeros(n) + digits);
    hide Power, Nat, Zeros;
  }

  lemma LargeWorth(digits: seq<int>, n: nat)
    ensures Value(digits + Zeros(n) + [0], -1) == Value(digits, n)
  {
    ValueZero(digits + Zeros(n), 0);
    ValueZeros(digits, n, n);
    hide Value, Zeros;
  }

  lemma LayoutWorth(digits: seq<int>, at: int)
    ensures Layout(digits, at).Worth() == Value(digits, at - |digits|)
    ensures digits != [] ==> Layout(digits, at).fraction != [] && Layout(digits, at).whole != []
  {
    hide Value, Zeros;
    if at <= 0 {
      SmallWorth(digits, -at);
      assert Layout(digits, at) == Positional([0], Zeros(-at) + digits);
      assert -|Zeros(-at) + digits| == at - |digits|;
    } else if at >= |digits| {
      LargeWorth(digits, at - |digits|);
    } else {
      assert digits[..at] + digits[at..] == digits;
    }
  }

  lemma {:induction false} TrimWorth(whole: seq<int>, fraction: seq<int>)
    ensures Value(whole + Trim(fraction), -|Trim(fraction)|) == Value(whole + fraction, -|fraction|)
  {
    var n := |fraction|;
    if n > 1 && fraction[n - 1] == 0 {
      TrimWorth(whole, fraction[..n - 1]);
      ValueZero(whole + fraction[..n - 1], -(n - 1));
      assert whole + fraction[..n - 1] + [0] == whole + fraction;
    }
  }

  /** The expanded text denotes the value of the scientific text, exactly; it has a digit before and
      after the point, and no trailing zero beyond the first fraction digit. */
  lemma ExpandedWorth(s: Scientific, minimum: int, maximum: int)
    requires s.Valid() && minimum <= s.Exponent() <= maximum
    ensures var p := Trimmed(Layout(s.digits, s.point + s.Exponent()));
            && Expanded(s, minimum, maximum) == s.Sign() + Chars(p.whole) + [POINT] + Chars(p.fraction)
            && p.Worth() == Value(s.digits, s.Exponent() + s.point - |s.digits|)
            && |p.whole| > 0 && |p.fraction| > 0
            && (|p.fraction| > 1 ==> p.fraction[|p.fraction| - 1] != 0)
  {
    var at := s.point + s.Exponent();
    var p := Layout(s.digits, at);
    LayoutWorth(s.digits, at);
    TrimWorth(p.whole, p.fraction);
    TrimEnd(p.fraction);
    hide Layout, Trim, Value, Nat;
  }

  lemma {:induction false} TrimEnd(fraction: seq<int>)
    ensures |Trim(fraction)| > 1 ==> Trim(fraction)[|Trim(fraction)| - 1] != 0
  {
    if |fraction| > 1 && fraction[|fraction| - 1] == 0 { TrimEnd(fraction[..|fraction| - 1]); }
  }

  /** The value of the mantissa and power as the scientific text writes them. */
  ghost function Meaning(s: Scientific): real
    requires s.Valid()
  {
    Value(s.digits, s.point - |s.digits|) * Power(s.Exponent())
  }

  lemma Swap(x: real, y: real)
    ensures x * (10.0 * y) == 10.0 * (x * y)
  {
  }

  lemma Group(x: real, y: real, z: real)
    ensures x * y * z == x * (y * z)
  {
  }

  lemma {:induction false} PowerSum(a: int, b: int)
    ensures Power(a + b) == Power(a) * Power(b)
    decreases if b < 0 then -b else b
  {
    if b > 0 {
      PowerSum(a, b - 1);
      PowerNext(a + b - 1);
      PowerNext(b - 1);
      hide Power;
      Swap(Power(a), Power(b - 1));
    } else if b < 0 {
      PowerSum(a, b + 1);
      PowerNext(a + b);
      PowerNext(b);
      hide Power;
      Swap(Power(a), Power(b));
    }
  }

  lemma ScientificMeaning(s: Scientific)
    requires s.Valid()
    ensures Meaning(s) == Value(s.digits, s.Exponent() + s.point - |s.digits|)
  {
    hide Power, Nat;
    var scale := s.point - |s.digits|;
    PowerSum(scale, s.Exponent());
    Group(Nat(s.digits) as real, Power(scale), Power(s.Exponent()));
    assert s.Exponent() + s.point - |s.digits| == scale + s.Exponent();
  }

  /** It fits the 64-byte buffer with room to spare. */
  lemma ExpandedFits(s: Scientific, minimum: int, maximum: int)
    requires s.Valid() && -20 <= minimum && maximum <= 20
    ensures |Expanded(s, minimum, maximum)| <= 60
  {
  }

  // ---- The scan -----------------------------------------------------------------------------------

  function Prefix(s: Scientific): seq<int>
    requires s.Valid()
  {
    s.Sign() + s.Mantissa()
  }

  /** The sign of the power of ten. */
  method ReadPower(input: seq<int>, from: nat, ghost s: Scientific) returns (ok: bool, exponent: int)
    requires s.Valid() && from <= |input| && input[from..] == (if s.minus then [DASH] else []) + Chars(s.power)
    ensures ok ==> exponent == s.Exponent()
    ensures !ok ==> Nat(s.power) > 1000
  {
    PowerStart(input[from..], s);
    assert input[from] == input[from..][0];
    var negative := input[from] == DASH;
    var start := if input[from] == 43 || input[from] == DASH then from + 1 else from;
    assert input[start..] == input[from..][start - from..];
    hide *;
    var number: int;
    ok, number := ReadNumber(input, start, s.power);
    exponent := if negative then -number else number;
    assert ok ==> exponent == s.Exponent() by { ExponentIs(s); }
  }

  lemma PowerStart(rest: seq<int>, s: Scientific)
    requires s.Valid() && rest == (if s.minus then [DASH] else []) + Chars(s.power)
    ensures rest != [] && rest[0] != 43 && (rest[0] == DASH <==> s.minus)
    ensures Chars(s.power) == rest[if s.minus then 1 else 0..]
  {
    assert !s.minus ==> rest[0] == Chars(s.power)[0];
  }

  lemma ExponentIs(s: Scientific)
    ensures s.Exponent() == if s.minus then -Nat(s.power) else Nat(s.power)
  {
  }

  /** Its digits; a power past 1000 is refused at once. */
  method ReadNumber(input: seq<int>, start: nat, ghost power: seq<int>) returns (ok: bool, number: int)
    requires start <= |input| && input[start..] == Chars(power) && power != []
    requires forall i :: 0 <= i < |power| ==> 0 <= power[i] <= 9
    ensures if ok then number == Nat(power) else Nat(power) > 1000
  {
    var cursor, exponent, seen := start, 0, false;
    assert Nat(power[..0]) == 0;
    while cursor < |input|
      invariant start <= cursor <= |input| && |input| - start == |power|
      invariant exponent == Nat(power[..cursor - start]) >= 0 && (seen <==> cursor > start)
    {
      assert input[cursor] == input[start..][cursor - start];
      if input[cursor] < ZERO || input[cursor] > ZERO + 9 { return false, 0; }
      seen := true;
      assert power[..cursor - start + 1][..cursor - start] == power[..cursor - start];
      exponent := exponent * 10 + input[cursor] - ZERO;
      cursor := cursor + 1;
      if exponent > 1000 {
        NatGrows(power, cursor - start);
        return false, 0;
      }
    }
    assert power[..cursor - start] == power;
    if !seen { return false, 0; }
    return true, exponent;
  }

  lemma {:induction false} NatGrows(digits: seq<int>, k: nat)
    requires k <= |digits| && forall i :: 0 <= i < |digits| ==> 0 <= digits[i]
    ensures 0 <= Nat(digits[..k]) <= Nat(digits)
    decreases |digits|
  {
    var n := |digits|;
    if n == 0 {
      assert digits[..k] == digits;
    } else if k < n {
      NatGrows(digits[..n - 1], k);
      assert digits[..n - 1][..k] == digits[..k];
    } else {
      NatGrows(digits[..n - 1], n - 1);
      assert digits[..n - 1][..n - 1] == digits[..n - 1];
      assert digits[..k] == digits;
    }
  }

  /** Collect the digits before the power and note where the point stands. */
  method ReadDigits(input: seq<int>, from: nat, end: nat, ghost s: Scientific) returns (digits: seq<int>, point: int)
    requires s.Valid() && from <= end <= |input| && input[from..end] == s.Mantissa()
    ensures digits == Chars(s.digits) && point == s.point
  {
    digits, point := [], -1;
    var at := from;
    ghost var mantissa := s.Mantissa();
    while at < end
      invariant from <= at <= end
      invariant s.dotted && at - from > s.point ==> point == s.point && digits == Chars(s.digits)[..at - from - 1]
      invariant !(s.dotted && at - from > s.point) ==> point == -1 && digits == Chars(s.digits)[..at - from]
    {
      assert input[at] == mantissa[at - from];
      if input[at] == POINT { point := |digits|; } else { digits := digits + [input[at]]; }
      at := at + 1;
    }
    assert digits == Chars(s.digits);
    if point < 0 { point := |digits|; }
  }

  lemma TextSplit(s: Scientific)
    requires s.Valid()
    ensures var front, text := Prefix(s), s.Text();
            && |front| < |text| && text[..|front|] == front && text[|front|] == UPPER_E
            && text[|front| + 1..] == (if s.minus then [DASH] else []) + Chars(s.power)
            && forall i :: 0 <= i < |front| ==> text[i] != UPPER_E && text[i] != 101
  {
    var front, text := Prefix(s), s.Text();
    var tail := (if s.minus then [DASH] else []) + Chars(s.power);
    assert text == front + ([UPPER_E] + tail);
    assert forall i :: 0 <= i < |front| ==> text[i] == front[i];
    assert forall i :: 0 <= i < |s.Mantissa()| ==> s.Mantissa()[i] != UPPER_E && s.Mantissa()[i] != 101;
  }

  /** Where the power of ten begins. */
  method FindPower(input: seq<int>, ghost s: Scientific) returns (at: int)
    requires s.Valid() && input == s.Text()
    ensures at == |Prefix(s)| < |input| && input[..at] == Prefix(s) && input[at] == UPPER_E
    ensures input[at + 1..] == (if s.minus then [DASH] else []) + Chars(s.power)
  {
    ghost var front := Prefix(s);
    TextSplit(s);
    hide *;
    var index := 0;
    while index < |input|
      invariant 0 <= index <= |front|
    {
      if input[index] == UPPER_E || input[index] == 101 { return index; }
      index := index + 1;
    }
    at := -1;
  }

  // ---- The fill -----------------------------------------------------------------------------------

  /** Append one character. */
  method Put(output: array<int>, at: nat, u: int) returns (end: nat)
    requires at < output.Length
    modifies output
    ensures end == at + 1 && output[..end] == old(output[..at]) + [u]
  {
    output[at] := u;
    end := at + 1;
  }

  /** Append zeros, with the code's check for the end of the buffer, which never fires here. */
  method PutZeros(output: array<int>, at: nat, count: nat) returns (end: int)
    requires output.Length == 64 && at + count <= 63
    modifies output
    ensures end == at + count && output[..end] == old(output[..at]) + Chars(Zeros(count))
  {
    end := at;
    var zeros := count;
    ghost var before := output[..at];
    while zeros > 0
      invariant 0 <= zeros <= count && end == at + (count - zeros)
      invariant output[..end] == before + Chars(Zeros(count - zeros))
    {
      if end >= 63 { return -1; }
      output[end] := ZERO;
      end, zeros := end + 1, zeros - 1;
      assert Chars(Zeros(count - zeros)) == Chars(Zeros(count - zeros - 1)) + [ZERO];
    }
  }

  /** Append digits. */
  method PutDigits(output: array<int>, at: nat, digits: seq<int>) returns (end: int)
    requires output.Length == 64 && at + |digits| <= 63
    modifies output
    ensures end == at + |digits| && output[..end] == old(output[..at]) + digits
  {
    end := at;
    var index := 0;
    ghost var before := output[..at];
    while index < |digits|
      invariant 0 <= index <= |digits| && end == at + index && output[..end] == before + digits[..index]
    {
      if end >= 63 { return -1; }
      output[end] := digits[index];
      end, index := end + 1, index + 1;
      assert digits[..index] == digits[..index - 1] + [digits[index - 1]];
    }
    assert digits[..index] == digits;
  }

  lemma CharsJoin(a: seq<int>, b: seq<int>)
    ensures Chars(a + b) == Chars(a) + Chars(b)
  {
  }

  lemma LayoutCases(digits: seq<int>, at: int)
    ensures at <= 0 ==> Layout(digits, at) == Positional([0], Zeros(-at) + digits)
    ensures 0 < at < |digits| ==> Layout(digits, at) == Positional(digits[..at], digits[at..])
    ensures at > 0 && at >= |digits| ==> Layout(digits, at) == Positional(digits + Zeros(at - |digits|), [0])
  {
  }

  /** Sign, whole part, point and fraction, before trimming. */
  function Full(sign: seq<int>, p: Positional): seq<int> { sign + Chars(p.whole) + [POINT] + Chars(p.fraction) }

  lemma FullIs(sign: seq<int>, p: Positional, whole: seq<int>, fraction: seq<int>)
    requires whole == Chars(p.whole) && fraction == Chars(p.fraction)
    ensures Full(sign, p) == sign + whole + [POINT] + fraction
  {
  }

  method FillSmall(output: array<int>, at: nat, chars: seq<int>, position: int,
                   ghost digits: seq<int>) returns (end: int)
    requires output.Length == 64 && at <= 1 && chars == Chars(digits) && 0 < |digits| <= 17 && -20 <= position <= 0
    modifies output
    ensures 0 < end <= 63 && output[..end] == Full(old(output[..at]), Layout(digits, position))
  {
    ghost var sign := output[..at];
    LayoutCases(digits, position);
    CharsJoin(Zeros(-position), digits);
    FullIs(sign, Layout(digits, position), [ZERO], Chars(Zeros(-position)) + chars);
    hide *;
    end := Put(output, at, ZERO);
    end := Put(output, end, POINT);
    end := PutZeros(output, end, -position);
    end := PutDigits(output, end, chars);
    assert sign + [ZERO] + [POINT] + Chars(Zeros(-position)) + chars ==
      sign + [ZERO] + [POINT] + (Chars(Zeros(-position)) + chars);
  }

  method FillLarge(output: array<int>, at: nat, chars: seq<int>, position: int,
                   ghost digits: seq<int>) returns (end: int)
    requires output.Length == 64 && at <= 1 && chars == Chars(digits) && 0 < |digits| <= 17
    requires |digits| <= position <= 40
    modifies output
    ensures 0 < end <= 63 && output[..end] == Full(old(output[..at]), Layout(digits, position))
  {
    ghost var sign := output[..at];
    var more := position - |chars|;
    LayoutCases(digits, position);
    CharsJoin(digits, Zeros(more));
    FullIs(sign, Layout(digits, position), chars + Chars(Zeros(more)), [ZERO]);
    hide *;
    end := PutDigits(output, at, chars);
    end := PutZeros(output, end, more);
    if end + 2 >= 64 { return 0; }
    end := Put(output, end, POINT);
    end := Put(output, end, ZERO);
    assert sign + chars + Chars(Zeros(more)) == sign + (chars + Chars(Zeros(more)));
  }

  method FillMiddle(output: array<int>, at: nat, chars: seq<int>, position: int,
                    ghost digits: seq<int>) returns (end: int)
    requires output.Length == 64 && at <= 1 && chars == Chars(digits) && 0 < position < |digits| <= 17
    modifies output
    ensures 0 < end <= 63 && output[..end] == Full(old(output[..at]), Layout(digits, position))
  {
    ghost var sign := output[..at];
    LayoutCases(digits, position);
    assert chars[..position] == Chars(digits[..position]) && chars[position..] == Chars(digits[position..]);
    FullIs(sign, Layout(digits, position), chars[..position], chars[position..]);
    hide *;
    end := PutDigits(output, at, chars[..position]);
    end := Put(output, end, POINT);
    end := PutDigits(output, end, chars[position..]);
  }

  lemma FullPoint(sign: seq<int>, p: Positional)
    requires p.fraction != [] && POINT !in sign && (forall i :: 0 <= i < |p.whole| ==> 0 <= p.whole[i] <= 9)
    ensures var text, at := Full(sign, p), |sign| + |p.whole|;
            && at + 1 + |p.fraction| == |text| && text[at] == POINT
            && (forall i :: 0 <= i < at ==> text[i] != POINT)
            && (forall i :: 0 <= i < |p.fraction| ==> text[at + 1 + i] == ZERO + p.fraction[i])
  {
  }

  lemma TrimStep(fraction: seq<int>, n: nat)
    requires 1 < n <= |fraction| && fraction[n - 1] == 0
    ensures Trim(fraction[..n]) == Trim(fraction[..n - 1])
  {
    assert fraction[..n][..n - 1] == fraction[..n - 1];
  }

  lemma FullCut(sign: seq<int>, p: Positional, n: nat)
    requires n <= |p.fraction|
    ensures |Full(sign, p)| >= |sign| + |p.whole| + 1 + n
    ensures Full(sign, p)[..|sign| + |p.whole| + 1 + n] == Full(sign, p.(fraction := p.fraction[..n]))
  {
  }

  /** Drop trailing zeros, but keep one digit after the point at `index`. */
  method Strip(output: array<int>, index: nat, end: nat, ghost fraction: seq<int>) returns (end': nat)
    requires end == index + 1 + |fraction| <= output.Length && fraction != []
    requires forall i :: 0 <= i < |fraction| ==> output[index + 1 + i] == ZERO + fraction[i]
    ensures end' == index + 1 + |Trim(fraction)|
  {
    end' := end;
    ghost var n := |fraction|;
    assert fraction[..n] == fraction;
    while end' > index + 2 && output[end' - 1] == ZERO
      invariant 1 <= n <= |fraction| && end' == index + 1 + n && Trim(fraction[..n]) == Trim(fraction)
    {
      TrimStep(fraction, n);
      end', n := end' - 1, n - 1;
    }
  }

  /** Find the point and strip the fraction behind it. */
  method TrimZeros(output: array<int>, end: nat, ghost sign: seq<int>, ghost p: Positional) returns (end': nat)
    requires end <= output.Length && output[..end] == Full(sign, p) && p.fraction != [] && POINT !in sign
    requires forall i :: 0 <= i < |p.whole| ==> 0 <= p.whole[i] <= 9
    ensures end' <= output.Length && output[..end'] == Full(sign, Trimmed(p))
  {
    FullPoint(sign, p);
    ghost var point, full := |sign| + |p.whole|, output[..end];
    assert forall i :: 0 <= i < end ==> output[i] == full[i];
    var index: nat := 0;
    hide *;
    while output[index] != POINT
      invariant index <= point
      decreases point - index
    {
      index := index + 1;
    }
    end' := Strip(output, index, end, p.fraction);
    TrimmedCut(sign, p);
    CutAgain(output, end, end');
  }

  lemma CutAgain(a: array<int>, end: nat, n: nat)
    requires n <= end <= a.Length
    ensures a[..end][..n] == a[..n]
  {
  }

  lemma TrimmedCut(sign: seq<int>, p: Positional)
    requires p.fraction != []
    ensures var n := |sign| + |p.whole| + 1 + |Trim(p.fraction)|;
            n <= |Full(sign, p)| && Full(sign, p)[..n] == Full(sign, Trimmed(p))
  {
    FullCut(sign, p, |Trim(p.fraction)|);
  }

  /** `expand_ryu` on the text of the shortest-digits routine. */
  method Expand(input: seq<int>, minimum: int, maximum: int, ghost s: Scientific) returns (result: seq<int>)
    requires s.Valid() && input == s.Text() && -20 <= minimum && maximum <= 20
    ensures result == Expanded(s, minimum, maximum)
  {
    hide *;
    var end := FindPower(input, s);
    var ok, exponent := ReadPower(input, end + 1, s);
    RefusedIs(s, minimum, maximum);
    if !ok { return []; }
    if exponent < minimum || exponent > maximum { return []; }
    var negative, chars, point := ReadMantissa(input, end, s);
    ExpandedIs(s, minimum, maximum);
    result := Lay(negative, chars, point + exponent, s);
  }

  lemma RefusedIs(s: Scientific, minimum: int, maximum: int)
    requires s.Valid() && -20 <= minimum && maximum <= 20
    ensures s.Exponent() < minimum || s.Exponent() > maximum ==> Expanded(s, minimum, maximum) == []
    ensures Nat(s.power) > 1000 ==> s.Exponent() < minimum || s.Exponent() > maximum
  {
  }

  /** The sign and the digits before the power. */
  method ReadMantissa(input: seq<int>, end: nat,
                      ghost s: Scientific) returns (negative: bool, chars: seq<int>, point: int)
    requires s.Valid() && input == s.Text() && end == |Prefix(s)| < |input| && input[..end] == Prefix(s)
    ensures negative == s.negative && chars == Chars(s.digits) && point == s.point
  {
    SignFirst(s);
    hide *;
    negative := input[0] == DASH;
    var from := if negative then 1 else 0;
    assert input[from..end] == input[..end][from..];
    chars, point := ReadDigits(input, from, end, s);
  }

  /** Lay out, trim, and give the text back. */
  method Lay(negative: bool, chars: seq<int>, position: int, ghost s: Scientific) returns (result: seq<int>)
    requires s.Valid() && negative == s.negative && chars == Chars(s.digits) && -20 <= position <= 40
    ensures result == Full(s.Sign(), Trimmed(Layout(s.digits, position)))
  {
    SignFirst(s);
    WholeDigits(s, position);
    hide *;
    var output := new int[64](_ => 0);
    var at: nat := 0;
    if negative { at := Put(output, 0, DASH); }
    assert output[..at] == s.Sign();
    var filled: int;
    if position <= 0 { filled := FillSmall(output, at, chars, position, s.digits); }
    else if position >= |chars| { filled := FillLarge(output, at, chars, position, s.digits); }
    else { filled := FillMiddle(output, at, chars, position, s.digits); }
    var length := TrimZeros(output, filled, s.Sign(), Layout(s.digits, position));
    result := output[..length];
  }

  lemma ExpandedIs(s: Scientific, minimum: int, maximum: int)
    requires s.Valid() && minimum <= s.Exponent() <= maximum
    ensures Expanded(s, minimum, maximum) == Full(s.Sign(), Trimmed(Layout(s.digits, s.point + s.Exponent())))
    ensures 0 <= s.point <= 17
  {
  }

  lemma WholeDigits(s: Scientific, position: int)
    requires s.Valid()
    ensures var p := Layout(s.digits, position);
            p.fraction != [] && POINT !in s.Sign() && forall i :: 0 <= i < |p.whole| ==> 0 <= p.whole[i] <= 9
    ensures 0 < |s.digits| <= 17 && 0 <= s.point <= 17
  {
  }

  lemma SignFirst(s: Scientific)
    requires s.Valid()
    ensures s.Text()[0] == DASH <==> s.negative
    ensures |Prefix(s)| > 0 && Prefix(s)[if s.negative then 1 else 0..] == s.Mantissa()
    ensures s.Sign() == if s.negative then [DASH] else []
  {
    var front := Prefix(s);
    var tail := (if s.minus then [DASH] else []) + Chars(s.power);
    assert s.Text() == front + ([UPPER_E] + tail);
    assert s.dotted && s.point == 0 ==> s.Mantissa()[0] == POINT;
    assert !(s.dotted && s.point == 0) ==> s.Mantissa()[0] == ZERO + s.digits[0];
    assert s.Text()[0] == front[0];
  }
}
