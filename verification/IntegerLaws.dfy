/** What a number in a text is: spaces, a sign, a base prefix and digits, read as the digits are worth. */
module IntegerLaws {
  import opened Arithmetic
  import opened Integers

  /** The digits in the order of their worth, in either case. */
  function Numerals(): seq<char> { "0123456789ABCDEF" }

  predicate Numeral(u: int, d: nat) {
    d < 16 && (u == Numerals()[d] as int || (d >= 10 && u == Numerals()[d] as int + 32))
  }

  /** What digits are worth by their places, however many they are. */
  function Worth(ds: seq<nat>, base: nat): nat {
    if ds == [] then 0 else Worth(ds[..|ds| - 1], base) * base + ds[|ds| - 1]
  }

  /** text spells the digits ds of the base. */
  predicate Spells(text: seq<int>, ds: seq<nat>, base: nat) {
    |text| == |ds| && forall i :: 0 <= i < |ds| ==> ds[i] < base && Numeral(text[i], ds[i])
  }

  predicate NoDigit(u: int, base: nat) { forall d: nat :: d < base ==> !Numeral(u, d) }

  lemma DigitIs(u: int, d: nat)
    ensures Numeral(u, d) <==> d < 16 && Digit(u) == d
  {
    if d < 16 { assert Numerals()[d] as int == if d < 10 then 48 + d else 55 + d; }
  }

  lemma NoDigitIs(u: int, base: nat)
    requires base <= 16
    ensures NoDigit(u, base) <==> Digit(u) >= base
  {
    forall d: nat ensures Numeral(u, d) <==> d < 16 && Digit(u) == d { DigitIs(u, d); }
    if Digit(u) < base { assert Numeral(u, Digit(u)); }
  }

  lemma ModStep(M: nat, w: nat, r: nat, base: nat, d: nat)
    requires M > 0 && r == w % M
    ensures (r * base + d) % M == (w * base + d) % M
  {
    var q := w / M;
    var x := r * base + d;
    var p, s := x / M, x % M;
    assert w == q * M + r;
    assert w * base + d == (q * M + r) * base + d;
    Spread(q, M, r, base);
    assert w * base + d == (q * base) * M + x;
    assert x == p * M + s;
    Gather(q * base, p, M);
    ModUnique(M, w * base + d, q * base + p, s);
  }

  lemma Spread(q: nat, M: nat, r: nat, base: nat)
    ensures (q * M + r) * base == (q * base) * M + r * base
  {
  }

  lemma Gather(a: nat, b: nat, M: nat)
    ensures a * M + b * M == (a + b) * M
  {
  }

  /** The digit loop computes the worth of the digits in 64 bits and stops behind them. */
  lemma {:induction false} DigitsIs(text: seq<int>, i: nat, base: nat, before: seq<nat>, ds: seq<nat>, value: nat)
    requires 0 < base <= 16 && i + |ds| <= |text| && Spells(text[i..i + |ds|], ds, base)
    requires i + |ds| < |text| ==> NoDigit(text[i + |ds|], base)
    requires value == Worth(before, base) % TWO64
    ensures Digits(text, i, base, value) == (Worth(before + ds, base) % TWO64, i + |ds|)
    decreases |ds|
  {
    hide *;
    if ds == [] {
      assert before + ds == before;
      DigitsEnd(text, i, base, value);
    } else {
      var more, rest := before + [ds[0]], ds[1..];
      SpellsOn(text, i, ds, base);
      assert more + rest == before + ds;
      var next := DigitsOn(text, i, base, before, ds[0], value);
      DigitsIs(text, i + 1, base, more, rest, next);
    }
  }

  /** One digit more. */
  lemma DigitsOn(text: seq<int>, i: nat, base: nat, before: seq<nat>, d: nat, value: nat) returns (next: nat)
    requires i < |text| && d < base <= 16 && Numeral(text[i], d) && value == Worth(before, base) % TWO64
    ensures next == Worth(before + [d], base) % TWO64 && Digits(text, i, base, value) == Digits(text, i + 1, base, next)
  {
    next := (value * base + d) % TWO64;
    WorthStep(before, d, base, value);
    DigitsStep(text, i, base, value, d);
    hide Digits, Numeral, Worth;
  }

  lemma WorthStep(ds: seq<nat>, d: nat, base: nat, value: nat)
    requires value == Worth(ds, base) % TWO64
    ensures (value * base + d) % TWO64 == Worth(ds + [d], base) % TWO64
  {
    WorthSnoc(ds, d, base);
    ModStep(TWO64, Worth(ds, base), value, base, d);
    hide Worth;
  }

  lemma Segment(text: seq<int>, i: nat, n: nat)
    requires 0 < n && i + n <= |text|
    ensures text[i..i + n][0] == text[i] && text[i..i + n][1..] == text[i + 1..i + n]
  {
  }

  lemma DigitsEnd(text: seq<int>, i: nat, base: nat, value: nat)
    requires i <= |text| && base <= 16 && (i < |text| ==> NoDigit(text[i], base))
    ensures Digits(text, i, base, value) == (value, i)
  {
    if i < |text| { NoDigitIs(text[i], base); }
  }

  lemma DigitsStep(text: seq<int>, i: nat, base: nat, value: nat, d: nat)
    requires i < |text| && d < base <= 16 && Numeral(text[i], d)
    ensures Digits(text, i, base, value) == Digits(text, i + 1, base, (value * base + d) % TWO64)
  {
    DigitIs(text[i], d);
  }

  lemma WorthSnoc(ds: seq<nat>, d: nat, base: nat)
    ensures Worth(ds + [d], base) == Worth(ds, base) * base + d
  {
    assert (ds + [d])[..|ds|] == ds;
  }

  lemma SpellsOn(text: seq<int>, i: nat, ds: seq<nat>, base: nat)
    requires ds != [] && i + |ds| <= |text| && Spells(text[i..i + |ds|], ds, base)
    ensures Spells(text[i + 1..i + 1 + |ds[1..]|], ds[1..], base) && ds[0] < base && Numeral(text[i], ds[0])
    ensures i + 1 + |ds[1..]| == i + |ds|
  {
    Segment(text, i, |ds|);
    SpellsRest(text[i..i + |ds|], ds, base);
    hide Spells, Numeral;
  }

  lemma SpellsRest(text: seq<int>, ds: seq<nat>, base: nat)
    requires Spells(text, ds, base) && ds != []
    ensures Spells(text[1..], ds[1..], base) && ds[0] < base && Numeral(text[0], ds[0])
  {
    hide Numeral;
  }

  predicate Blank(u: int) { u == ' ' as int || '\t' as int <= u <= '\r' as int }

  /** Up to a there are blanks, up to b a sign, up to c a base prefix, up to d the digits ds of the base; each as
      far as it goes. */
  predicate Reads(text: seq<int>, a: nat, b: nat, c: nat, d: nat, negative: bool, base: nat, ds: seq<nat>) {
    && a <= b <= c <= d <= |text|
    && (forall i :: 0 <= i < a ==> Blank(text[i])) && (a < |text| ==> !Blank(text[a]))
    && Signed(text, a, b, negative) && Prefixed(text, b, c, base)
    && Spells(text[c..d], ds, base) && (d < |text| ==> NoDigit(text[d], base))
  }

  predicate Signed(text: seq<int>, a: nat, b: nat, negative: bool)
    requires a <= b <= |text|
  {
    if a < |text| && text[a] == '+' as int then b == a + 1 && !negative
    else if a < |text| && text[a] == '-' as int then b == a + 1 && negative
    else b == a && !negative
  }

  predicate Prefixed(text: seq<int>, b: nat, c: nat, base: nat)
    requires b <= c <= |text|
  {
    if b < |text| && text[b] == '%' as int then c == b + 1 && base == 2
    else if b < |text| && text[b] == '$' as int then c == b + 1 && base == 16
    else c == b && base == 10
  }

  lemma {:induction false} SkipIs(text: seq<int>, i: nat, k: nat)
    requires i <= k <= |text| && (forall j :: i <= j < k ==> Blank(text[j])) && (k < |text| ==> !Blank(text[k]))
    ensures SkipSpace(text, i) == k
    decreases k - i
  {
    if i < k { SkipIs(text, i + 1, k); }
  }

  /** Such a text is read as the worth of its digits, with its sign, in 64 bits, and the digits end at d. */
  lemma ReadIs(text: seq<int>, a: nat, b: nat, c: nat, d: nat, negative: bool, base: nat, ds: seq<nat>)
    requires Reads(text, a, b, c, d, negative, base, ds)
    ensures ParseRange(text) == ((if negative then 0 - Worth(ds, base) else Worth(ds, base)) % TWO64, d)
  {
    assert |ds| == d - c && Worth([], base) == 0 && [] + ds == ds && text[c..c + |ds|] == text[c..d];
    hide Spells, NoDigit, Worth, Digits;
    SkipIs(text, 0, a);
    DigitsIs(text, c, base, [], ds, 0);
    Negated(Worth(ds, base));
    hide SkipSpace;
    if b == |text| { assert ds == [] && d == b; }
  }

  lemma Negated(n: nat)
    ensures (TWO64 - n % TWO64) % TWO64 == (0 - n) % TWO64
  {
    var q, r := n / TWO64, n % TWO64;
    assert 0 - n == (0 - q) * TWO64 - r;
  }

  /** A whole part is its number if nothing but blanks follows it, and 0 otherwise. */
  lemma PartIs(text: seq<int>, a: nat, b: nat, c: nat, d: nat, negative: bool, base: nat, ds: seq<nat>)
    requires Reads(text, a, b, c, d, negative, base, ds)
    ensures ParsePart(text) ==
              if forall i :: d <= i < |text| ==> Blank(text[i]) then
                (if negative then 0 - Worth(ds, base) else Worth(ds, base)) % TWO64
              else 0
  {
    ReadIs(text, a, b, c, d, negative, base, ds);
    SkipsAll(text, d);
    assert text == [] ==> ds == [] && !negative && Worth([], base) == 0;
    hide Reads, ParseRange, SkipSpace, Worth, Blank;
  }

  lemma {:induction false} SkipsAll(text: seq<int>, i: nat)
    requires i <= |text|
    ensures SkipSpace(text, i) == |text| <==> forall j :: i <= j < |text| ==> Blank(text[j])
    decreases |text| - i
  {
    if i < |text| { SkipsAll(text, i + 1); }
  }

  /** Every text reads so. */
  lemma AllRead(text: seq<int>) returns (a: nat, b: nat, c: nat, d: nat, negative: bool, base: nat, ds: seq<nat>)
    ensures Reads(text, a, b, c, d, negative, base, ds)
  {
    a := FirstNot(text, 0);
    negative := a < |text| && text[a] == '-' as int;
    b := if a < |text| && (text[a] == '+' as int || negative) then a + 1 else a;
    base := if b < |text| && text[b] == '%' as int then 2 else if b < |text| && text[b] == '$' as int then 16 else 10;
    c := if base == 10 then b else b + 1;
    d, ds := Spelling(text, c, base);
  }

  lemma {:induction false} FirstNot(text: seq<int>, i: nat) returns (a: nat)
    requires i <= |text|
    ensures i <= a <= |text| && (forall j :: i <= j < a ==> Blank(text[j])) && (a < |text| ==> !Blank(text[a]))
    decreases |text| - i
  {
    a := i;
    if i < |text| && Blank(text[i]) { a := FirstNot(text, i + 1); }
  }

  lemma {:induction false} Spelling(text: seq<int>, c: nat, base: nat) returns (d: nat, ds: seq<nat>)
    requires c <= |text| && base <= 16
    ensures c <= d <= |text| && Spells(text[c..d], ds, base) && (d < |text| ==> NoDigit(text[d], base))
    decreases |text| - c
  {
    d, ds := c, [];
    if c < |text| {
      NoDigitIs(text[c], base);
      if Digit(text[c]) < base {
        var rest;
        d, rest := Spelling(text, c + 1, base);
        ds := [Digit(text[c])] + rest;
        DigitIs(text[c], Digit(text[c]));
        assert text[c..d] == [text[c]] + text[c + 1..d];
      }
    }
  }
}
