/** Unbiased ranges by rejection.  M = 2^32 or 2^64 is the number of words; a word is a number below M. */
module Random {
  import opened Arithmetic

  datatype Option<T> = None | Some(value: T)

  predicate Words(M: nat) { M == 0x1_0000_0000 || M == 0x1_0000_0000_0000_0000 }

  function Least(a: nat, b: nat): nat { if a > b then b else a }

  function Greatest(a: nat, b: nat): nat { if a > b then a else b }

  /** `hi - lo + 1` in a word: 0 for the full range. */
  function Span(M: nat, lo: nat, hi: nat): nat
    requires lo < M && hi < M
  {
    (Greatest(lo, hi) - Least(lo, hi) + 1) % M
  }

  /** One more than the last word that is accepted. */
  function Bound(M: nat, span: nat): nat
    requires 0 < span < M
  {
    (M - 1) / span * span
  }

  /** What one word of the source gives: nothing if it is rejected. */
  function Draw(M: nat, lo: nat, hi: nat, word: nat): Option<nat>
    requires lo < M && hi < M && word < M
  {
    var span := Span(M, lo, hi);
    if span == 0 then Some(word)
    else if word > Bound(M, span) - 1 then None
    else Some((Least(lo, hi) + word % span) % M)
  }

  lemma SpanIs(M: nat, lo: nat, hi: nat)
    requires lo < M && hi < M
    ensures Span(M, lo, hi) == 0 <==> Least(lo, hi) == 0 && Greatest(lo, hi) == M - 1
    ensures Span(M, lo, hi) != 0 ==> Span(M, lo, hi) == Greatest(lo, hi) - Least(lo, hi) + 1
  {
  }

  lemma Remainder(n: nat, span: nat)
    requires span > 0
    ensures 0 <= n % span < span
  {
  }

  lemma Small(n: nat, M: nat)
    requires n < M
    ensures n % M == n
  {
  }

  /** The sum never wraps. */
  lemma DrawIs(M: nat, lo: nat, hi: nat, word: nat)
    requires lo < M && hi < M && word < M && Span(M, lo, hi) != 0
    ensures var span := Span(M, lo, hi);
            Draw(M, lo, hi, word) == if word >= Bound(M, span) then None else Some(Least(lo, hi) + word % span)
    ensures word % Span(M, lo, hi) <= Greatest(lo, hi) - Least(lo, hi)
  {
    SpanIs(M, lo, hi);
    Remainder(word, Span(M, lo, hi));
    hide Span, Bound;
    Small(Least(lo, hi) + word % Span(M, lo, hi), M);
  }

  /** Whatever is drawn lies in the closed interval, whichever way round it is given. */
  lemma DrawInside(M: nat, lo: nat, hi: nat, word: nat)
    requires lo < M && hi < M && word < M
    ensures Draw(M, lo, hi, word).Some? ==> Least(lo, hi) <= Draw(M, lo, hi, word).value <= Greatest(lo, hi)
  {
    SpanIs(M, lo, hi);
    if Span(M, lo, hi) == 0 {
      assert Draw(M, lo, hi, word) == Some(word);
    } else {
      DrawIs(M, lo, hi, word);
      hide Draw, Span, Bound;
    }
  }

  // ---- Counting -----------------------------------------------------------------------------------

  /** How many of the first n words draw v. */
  ghost function Draws(M: nat, lo: nat, hi: nat, v: nat, n: nat): nat
    requires lo < M && hi < M && n <= M
  {
    if n == 0 then 0 else Draws(M, lo, hi, v, n - 1) + (if Draw(M, lo, hi, n - 1) == Some(v) then 1 else 0)
  }

  /** Word k * span + i draws the i-th value of the interval. */
  lemma DrawAt(M: nat, lo: nat, hi: nat, k: nat, i: nat)
    requires lo < M && hi < M && Span(M, lo, hi) != 0 && i < Span(M, lo, hi)
    requires k < (M - 1) / Span(M, lo, hi)
    ensures var word := k * Span(M, lo, hi) + i;
            word < Bound(M, Span(M, lo, hi)) < M && Draw(M, lo, hi, word) == Some(Least(lo, hi) + i)
  {
    SpanIs(M, lo, hi);
    var span := Span(M, lo, hi);
    BoundIs(M, span);
    hide Span, Draw, Bound;
    Rows(k, (M - 1) / span, span);
    ModUnique(span, k * span + i, k, i);
    DrawIs(M, lo, hi, k * span + i);
  }

  lemma BoundIs(M: nat, span: nat)
    requires 0 < span < M
    ensures Bound(M, span) == (M - 1) / span * span <= M - 1
  {
  }

  lemma Rows(k: nat, q: nat, span: nat)
    requires k < q
    ensures k * span + span <= q * span
  {
    assert (k + 1) * span == k * span + span;
    Grow(q - k - 1, span);
    assert q * span == (k + 1) * span + (q - k - 1) * span;
  }

  lemma Grow(n: nat, span: nat)
    ensures n * span >= 0
  {
  }

  /** Within one row of span words exactly one draws v. */
  lemma {:induction false} RowDraws(M: nat, lo: nat, hi: nat, v: nat, k: nat, j: nat)
    requires lo < M && hi < M && Span(M, lo, hi) != 0 && Least(lo, hi) <= v <= Greatest(lo, hi)
    requires k < (M - 1) / Span(M, lo, hi) && j <= Span(M, lo, hi)
    requires k * Span(M, lo, hi) + j <= M
    ensures Draws(M, lo, hi, v, k * Span(M, lo, hi) + j) ==
              Draws(M, lo, hi, v, k * Span(M, lo, hi)) + if j > v - Least(lo, hi) then 1 else 0
  {
    SpanIs(M, lo, hi);
    if j > 0 {
      RowDraws(M, lo, hi, v, k, j - 1);
      DrawAt(M, lo, hi, k, j - 1);
      hide Draw;
    }
  }

  lemma {:induction false} RowsDraw(M: nat, lo: nat, hi: nat, v: nat, k: nat)
    requires lo < M && hi < M && Span(M, lo, hi) != 0 && Least(lo, hi) <= v <= Greatest(lo, hi)
    requires k <= (M - 1) / Span(M, lo, hi)
    ensures k * Span(M, lo, hi) <= M && Draws(M, lo, hi, v, k * Span(M, lo, hi)) == k
  {
    SpanIs(M, lo, hi);
    var span := Span(M, lo, hi);
    BoundIs(M, span);
    hide Draw, Span, Bound;
    if k > 0 {
      RowsDraw(M, lo, hi, v, k - 1);
      hide Draws;
      Rows(k - 1, (M - 1) / span, span);
      assert (k - 1) * span + span == k * span;
      RowDraws(M, lo, hi, v, k - 1, span);
    } else {
      assert 0 * span == 0;
    }
  }

  /** The words past the bound draw nothing. */
  lemma {:induction false} TailDraws(M: nat, lo: nat, hi: nat, v: nat, n: nat)
    requires lo < M && hi < M && Span(M, lo, hi) != 0 && Bound(M, Span(M, lo, hi)) <= n <= M
    ensures Draws(M, lo, hi, v, n) == Draws(M, lo, hi, v, Bound(M, Span(M, lo, hi)))
  {
    if n > Bound(M, Span(M, lo, hi)) { TailDraws(M, lo, hi, v, n - 1); }
  }

  lemma {:induction false} FullDraws(M: nat, lo: nat, hi: nat, v: nat, n: nat)
    requires lo < M && hi < M && Span(M, lo, hi) == 0 && n <= M
    ensures Draws(M, lo, hi, v, n) == if v < n then 1 else 0
  {
    if n > 0 { FullDraws(M, lo, hi, v, n - 1); }
  }

  /** Every value of the interval is drawn by the same number of words: floor((M - 1) / span) of them,
      or by one if the interval is the whole word; and no other value is drawn at all. */
  lemma Unbiased(M: nat, lo: nat, hi: nat, v: nat)
    requires lo < M && hi < M && v < M
    ensures Draws(M, lo, hi, v, M) ==
              if v < Least(lo, hi) || v > Greatest(lo, hi) then 0
              else if Span(M, lo, hi) == 0 then 1 else (M - 1) / Span(M, lo, hi)
  {
    SpanIs(M, lo, hi);
    if v < Least(lo, hi) || v > Greatest(lo, hi) {
      Outside(M, lo, hi, v, M);
    } else if Span(M, lo, hi) == 0 {
      FullDraws(M, lo, hi, v, M);
    } else {
      var span := Span(M, lo, hi);
      RowsDraw(M, lo, hi, v, (M - 1) / span);
      TailDraws(M, lo, hi, v, M);
    }
  }

  lemma {:induction false} Outside(M: nat, lo: nat, hi: nat, v: nat, n: nat)
    requires lo < M && hi < M && n <= M && (v < Least(lo, hi) || v > Greatest(lo, hi))
    ensures Draws(M, lo, hi, v, n) == 0
  {
    if n > 0 {
      Outside(M, lo, hi, v, n - 1);
      DrawInside(M, lo, hi, n - 1);
      hide Draw;
    }
  }

  /** At least half of the words are accepted, so the loop is not expected to run twice. */
  lemma HalfAccepted(M: nat, span: nat)
    requires 0 < span < M
    ensures 2 * Bound(M, span) >= M - 1
  {
    var q, r := (M - 1) / span, (M - 1) % span;
    assert M - 1 == q * span + r;
    if q > 1 { Rows(1, q, span); } else { assert q == 1; }
  }

  // ---- The loop -----------------------------------------------------------------------------------

  /** `RangeUInt` and `RangeULong`, on the words the source delivers; None while it has delivered only
      words that are rejected. */
  method Range(M: nat, lo: nat, hi: nat, words: seq<nat>) returns (value: Option<nat>, used: nat)
    requires Words(M) && lo < M && hi < M && forall i :: 0 <= i < |words| ==> words[i] < M
    ensures value.Some? ==> 0 < used <= |words| && Draw(M, lo, hi, words[used - 1]) == value
    ensures value.None? ==> used == |words|
    ensures forall i :: 0 <= i < (if value.Some? then used - 1 else used) ==> Draw(M, lo, hi, words[i]).None?
  {
    used := 0;
    var a, b := lo, hi;
    if a > b { a, b := b, a; }
    var span := (b - a + 1) % M;
    assert span == Span(M, lo, hi);
    if span == 0 {
      if |words| == 0 { return None, 0; }
      return Some(words[0]), 1;
    }
    var limit := (M - 1) / span * span - 1;
    while used < |words|
      invariant used <= |words| && forall i :: 0 <= i < used ==> Draw(M, lo, hi, words[i]).None?
    {
      var word := words[used];
      used := used + 1;
      if word <= limit { return Some((a + word % span) % M), used; }
    }
    return None, used;
  }

  // ---- Signed ranges ------------------------------------------------------------------------------

  /** The bit pattern of a signed number, and back. */
  function Pattern(M: nat, x: int): nat
    requires M > 0 && 0 <= x + M && x < M
  {
    if x < 0 then x + M else x
  }

  function SignedOf(M: nat, u: nat): int { if u < M / 2 then u else u - M }

  /** `~ SIGNBIT`. */
  function Flip(M: nat, u: nat): nat
    requires u < M && M % 2 == 0
  {
    if u < M / 2 then u + M / 2 else u - M / 2
  }

  /** Flipping the sign bit turns signed order into word order. */
  lemma FlipOrders(M: nat, x: int)
    requires M > 0 && M % 2 == 0 && 0 <= M / 2 + x < M
    ensures Flip(M, Pattern(M, x)) == x + M / 2 && SignedOf(M, Flip(M, Flip(M, Pattern(M, x)))) == x
  {
  }

  /** `RandomInt` and `RandomLong`, one word at a time. */
  function DrawSigned(M: nat, lo: int, hi: int, word: nat): Option<int>
    requires Words(M) && 0 <= M / 2 + lo < M && 0 <= M / 2 + hi < M && word < M
  {
    FlipOrders(M, lo);
    FlipOrders(M, hi);
    var drawn := Draw(M, Flip(M, Pattern(M, lo)), Flip(M, Pattern(M, hi)), word);
    DrawInside(M, Flip(M, Pattern(M, lo)), Flip(M, Pattern(M, hi)), word);
    if drawn.None? then None else Some(SignedOf(M, Flip(M, drawn.value)))
  }

  ghost function SignedDraws(M: nat, lo: int, hi: int, v: int, n: nat): nat
    requires Words(M) && 0 <= M / 2 + lo < M && 0 <= M / 2 + hi < M && n <= M
  {
    if n == 0 then 0 else SignedDraws(M, lo, hi, v, n - 1) + (if DrawSigned(M, lo, hi, n - 1) == Some(v) then 1 else 0)
  }

  lemma FlipBack(M: nat, u: nat)
    requires M > 0 && M % 2 == 0 && u < M
    ensures SignedOf(M, Flip(M, u)) == u - M / 2
  {
  }

  /** A signed draw is the word draw moved down by half the range. */
  lemma DrawSignedIs(M: nat, lo: int, hi: int, word: nat, v: int)
    requires Words(M) && 0 <= M / 2 + lo < M && 0 <= M / 2 + hi < M && word < M && 0 <= M / 2 + v < M
    ensures DrawSigned(M, lo, hi, word) == Some(v) <==> Draw(M, lo + M / 2, hi + M / 2, word) == Some(v + M / 2)
  {
    hide Draw, Flip, SignedOf, Pattern;
    FlipOrders(M, lo);
    FlipOrders(M, hi);
    var drawn := Draw(M, lo + M / 2, hi + M / 2, word);
    DrawInside(M, lo + M / 2, hi + M / 2, word);
    if drawn.Some? { FlipBack(M, drawn.value); }
  }

  lemma {:induction false} SignedDrawsAre(M: nat, lo: int, hi: int, v: int, n: nat)
    requires Words(M) && 0 <= M / 2 + lo < M && 0 <= M / 2 + hi < M && n <= M && 0 <= M / 2 + v < M
    ensures SignedDraws(M, lo, hi, v, n) == Draws(M, lo + M / 2, hi + M / 2, v + M / 2, n)
  {
    if n > 0 {
      SignedDrawsAre(M, lo, hi, v, n - 1);
      DrawSignedIs(M, lo, hi, n - 1, v);
      hide Draw, DrawSigned;
    }
  }

  /** The signed ranges are unbiased too: every value from the lesser to the greater bound, and no
      other, is drawn by the same number of words. */
  lemma SignedUnbiased(M: nat, lo: int, hi: int, v: int)
    requires Words(M) && 0 <= M / 2 + lo < M && 0 <= M / 2 + hi < M && 0 <= M / 2 + v < M
    ensures var least, greatest := if lo > hi then hi else lo, if lo > hi then lo else hi;
            SignedDraws(M, lo, hi, v, M) ==
              if v < least || v > greatest then 0
              else if greatest - least + 1 == M then 1 else (M - 1) / (greatest - least + 1)
  {
    SignedDrawsAre(M, lo, hi, v, M);
    Unbiased(M, lo + M / 2, hi + M / 2, v + M / 2);
    SpanIs(M, lo + M / 2, hi + M / 2);
  }
}
