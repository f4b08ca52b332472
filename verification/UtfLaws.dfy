/** What the UTF-8 decoder gives for every front, what mending does to every unit, and that the numbers of code
    points follow the order of their encodings: so each is the only one it can be. */
module UtfLaws {
  import opened Utf

  // ---- Decoding -----------------------------------------------------------------------------------

  lemma TwoRejects(b: seq<Byte>)
    requires b != [] && 0x80 <= b[0] <= 0xDF && Sequence(b) == 0
    ensures DecodeOne(b) == (REPLACEMENT, 1)
  {
  }

  lemma FourRejects(b: seq<Byte>)
    requires b != [] && 0xF0 <= b[0] && DecodeOne(b).1 == 1
    ensures DecodeOne(b) == (REPLACEMENT, 1)
  {
  }

  /** Lead bytes from 0xF8 on are read as those 8 below. */
  lemma LeadLowered(b: seq<Byte>)
    requires b != [] && b[0] >= 0xF8
    ensures DecodeOne(b) == DecodeOne(b[0 := b[0] - 8])
  {
    var c := b[0 := b[0] - 8];
    assert forall k :: 1 <= k < |b| ==> c[k] == b[k];
    if |b| >= 4 && Tail(b[1]) && Tail(b[2]) && Tail(b[3]) {
      FourBits(b, b[0], b[1], b[2], b[3]);
      FourBits(c, c[0], c[1], c[2], c[3]);
    }
  }

  /** What the decoder gives for every front: a well-formed sequence is taken whole and is the encoding of the
      result; one that is well formed but for a lead byte 8 too high counts as if it were not; and of anything
      else one byte is taken, for U+FFFD. */
  lemma DecodeOneIs(b: seq<Byte>)
    requires b != []
    ensures var (c, n) := DecodeOne(b);
            if Sequence(b) > 0 then n == Sequence(b) <= |b| && Scalar(c) && EncodeOne(c) == b[..n]
            else if b[0] >= 0xF8 && Sequence(b[0 := b[0] - 8]) == 4 then (c, n) == DecodeOne(b[0 := b[0] - 8])
            else c == 0xFFFD && n == 1
  {
    DecodeOneScalar(b);
    if Sequence(b) > 0 {
      SequenceDecodes(b);
    } else if b[0] >= 0xF0 {
      FourAccepts(b);
      if b[0] >= 0xF8 { LeadLowered(b); }
      if DecodeOne(b).1 == 1 { FourRejects(b); }
    } else if b[0] >= 0xE0 {
      ThreeRejects(b);
    } else {
      TwoRejects(b);
    }
    hide DecodeOne, Sequence, EncodeOne;
  }

  /** Unit i is half of a surrogate pair. */
  predicate Paired(text: seq<Unit>, i: nat)
    requires i < |text|
  {
    (High(text[i]) && i + 1 < |text| && Low(text[i + 1])) || (Low(text[i]) && i > 0 && High(text[i - 1]))
  }

  /** Mending keeps every unit but the unpaired surrogates, which become U+FFFD where they stand. */
  lemma {:induction false} MendedAt(text: seq<Unit>, i: nat)
    requires i < |text|
    ensures |Mended(text)| == |text|
    ensures Mended(text)[i] == if (High(text[i]) || Low(text[i])) && !Paired(text, i) then 0xFFFD else text[i]
  {
    var n := if High(text[0]) && |text| > 1 && Low(text[1]) then 2 else 1;
    if i >= n {
      MendedAt(text[n..], i - n);
      assert Paired(text[n..], i - n) <==> Paired(text, i);
    } else if n < |text| {
      MendedAt(text[n..], 0);
    }
  }

  // ---- Order --------------------------------------------------------------------------------------

  /** a comes before b in the order of their first difference. */
  predicate Before(a: seq<int>, b: seq<int>) {
    if b == [] then false
    else if a == [] then true
    else a[0] < b[0] || (a[0] == b[0] && Before(a[1..], b[1..]))
  }

  /** Surrogate pairs number the planes beyond the first in order and without a gap. */
  lemma PairOrder(hi: Unit, lo: Unit, hi': Unit, lo': Unit)
    requires High(hi) && Low(lo) && High(hi') && Low(lo')
    ensures Pair(hi, lo) < Pair(hi', lo') <==> Before([hi, lo], [hi', lo'])
    ensures Pair(0xD800, 0xDC00) == 0x1_0000 <= Pair(hi, lo) <= 0x10FFFF == Pair(0xDBFF, 0xDFFF)
  {
    TwoBefore(hi, lo, hi', lo');
    hide Before;
  }

  lemma BeforeCons(x: int, s: seq<int>, y: int, t: seq<int>)
    ensures Before([x] + s, [y] + t) <==> x < y || (x == y && Before(s, t))
  {
    assert ([x] + s)[1..] == s && ([y] + t)[1..] == t;
  }

  lemma TwoBefore(a: int, b: int, a': int, b': int)
    ensures Before([a, b], [a', b']) <==> a < a' || (a == a' && b < b')
  {
    BeforeCons(a, [b], a', [b']);
    BeforeCons(b, [], b', []);
    assert [a] + [b] == [a, b] && [a'] + [b'] == [a', b'] && [b] + [] == [b] && [b'] + [] == [b'];
  }

  lemma ThreeBefore(a: int, b: int, c: int, a': int, b': int, c': int)
    ensures Before([a, b, c], [a', b', c']) <==> a < a' || (a == a' && (b < b' || (b == b' && c < c')))
  {
    hide Before;
    BeforeCons(a, [b, c], a', [b', c']);
    TwoBefore(b, c, b', c');
    assert [a] + [b, c] == [a, b, c] && [a'] + [b', c'] == [a', b', c'];
  }

  lemma FourBefore(a: int, b: int, c: int, d: int, a': int, b': int, c': int, d': int)
    ensures Before([a, b, c, d], [a', b', c', d']) <==>
              a < a' || (a == a' && (b < b' || (b == b' && (c < c' || (c == c' && d < d')))))
  {
    hide Before;
    BeforeCons(a, [b, c, d], a', [b', c', d']);
    ThreeBefore(b, c, d, b', c', d');
    assert [a] + [b, c, d] == [a, b, c, d] && [a'] + [b', c', d'] == [a', b', c', d'];
  }

  /** The bytes of code points are in the order of the code points. */
  lemma EncodeOrder(c: int, d: int)
    requires 0 <= c < d <= 0x10FFFF
    ensures Before(EncodeOne(c), EncodeOne(d))
  {
    var a, b := EncodeOne(c), EncodeOne(d);
    Sextets(c);
    Sextets(d);
    if |a| != |b| {
      assert a[0] < b[0];
    } else if |a| == 2 {
      TwoBefore(a[0], a[1], b[0], b[1]);
      assert a == [a[0], a[1]] && b == [b[0], b[1]];
    } else if |a| == 3 {
      ThreeBefore(a[0], a[1], a[2], b[0], b[1], b[2]);
      assert a == [a[0], a[1], a[2]] && b == [b[0], b[1], b[2]];
    } else if |a| == 4 {
      FourBefore(a[0], a[1], a[2], a[3], b[0], b[1], b[2], b[3]);
      assert a == [a[0], a[1], a[2], a[3]] && b == [b[0], b[1], b[2], b[3]];
    }
  }
}
