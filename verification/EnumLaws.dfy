/** Names are found in any case, and the greedy choice of names leaves nothing that an item could still name. */
module EnumLaws {
  import opened Strings
  import opened Enums

  predicate SameLetter(a: int, b: int) {
    || a == b
    || ('A' as int <= a <= 'Z' as int && b == a + 32) || ('a' as int <= a <= 'z' as int && b == a - 32)
  }

  /** The same letters, in whatever case. */
  predicate SameLetters(a: seq<int>, b: seq<int>) {
    |a| == |b| && forall i :: 0 <= i < |a| ==> SameLetter(a[i], b[i])
  }

  /** `enum_name_equals` compares without regard to ASCII case, and to nothing else. */
  lemma SameNameIff(a: seq<int>, b: seq<int>)
    ensures SameName(a, b) <==> SameLetters(a, b)
  {
    if |a| == |b| { forall i | 0 <= i < |a| ensures Fold(a[i]) == Fold(b[i]) <==> SameLetter(a[i], b[i]) { } }
  }

  /** Names in any case. */
  predicate Recased(names: seq<seq<int>>, texts: seq<seq<int>>, chosen: seq<nat>) {
    |texts| == |chosen|
    && forall k :: 0 <= k < |chosen| ==> chosen[k] < |names| && SameLetters(names[chosen[k]], texts[k])
  }

  lemma {:induction false} ReadRecased(e: Enum, texts: seq<seq<int>>, chosen: seq<nat>)
    requires e.Valid() && Distinguishable(e) && Recased(e.names, texts, chosen)
    ensures Read(e, texts) == Value(Union(e.values, chosen))
  {
    if chosen != [] {
      ReadRecased(e, texts[1..], chosen[1..]);
      Found(e, texts[0], chosen[0]);
    }
  }

  lemma Found(e: Enum, text: seq<int>, i: nat)
    requires e.Valid() && Distinguishable(e) && i < |e.names| && SameLetters(e.names[i], text)
    ensures text != [] && Candidate(e.names, text, 0) == i
  {
    SameNameIff(e.names[i], text);
    forall j | 0 <= j < |e.names| && j != i ensures !SameName(e.names[j], text) {
      SameNames(e.names[j], e.names[i], text);
    }
  }

  lemma SameNames(a: seq<int>, b: seq<int>, c: seq<int>)
    ensures SameName(a, c) && SameName(b, c) ==> SameName(a, b) && SameName(b, a)
  {
  }

  lemma RecasedClean(e: Enum, texts: seq<seq<int>>, chosen: seq<nat>)
    requires Distinguishable(e) && Recased(e.names, texts, chosen)
    ensures forall k :: 0 <= k < |texts| ==> texts[k] != [] && BAR !in texts[k]
  {
    forall k | 0 <= k < |texts| ensures texts[k] != [] && BAR !in texts[k] {
      var name, text := e.names[chosen[k]], texts[k];
      forall i | 0 <= i < |text| ensures text[i] != BAR { assert SameLetter(name[i], text[i]) && name[i] in name; }
    }
  }

  /** Any names between bars, each in any case, give the bits of their items together. */
  lemma AnyCase(e: Enum, texts: seq<seq<int>>, chosen: seq<nat>)
    requires e.Valid() && Distinguishable(e) && Recased(e.names, texts, chosen) && texts != []
    ensures FromFlagText(e, Join([BAR], texts)) == Value(Union(e.values, chosen))
  {
    RecasedClean(e, texts, chosen);
    SingleSeparable(texts, BAR);
    PiecesJoinIff(texts, [BAR]);
    ReadRecased(e, texts, chosen);
    assert Join([BAR], texts) != [] by { assert texts[0] != []; }
    hide Read, Pieces, SameLetters, Union;
  }

  /** A text is refused exactly if it is empty or some segment has the letters of no name. */
  lemma RefusedIff(e: Enum, text: seq<int>)
    requires e.Valid() && forall i :: 0 <= i < |e.names| ==> e.names[i] != []
    ensures FromFlagText(e, text).Failed? <==>
              text == []
              || exists k :: 0 <= k < |Pieces(text, [BAR])| && Unknown(e, Pieces(text, [BAR])[k])
  {
    ReadRefused(e, Pieces(text, [BAR]));
    hide Pieces, Read, Unknown;
  }

  predicate Unknown(e: Enum, segment: seq<int>) {
    forall i :: 0 <= i < |e.names| ==> !SameLetters(e.names[i], segment)
  }

  lemma {:induction false} ReadRefused(e: Enum, segments: seq<seq<int>>)
    requires e.Valid() && forall i :: 0 <= i < |e.names| ==> e.names[i] != []
    ensures Read(e, segments).Failed? <==> exists k :: 0 <= k < |segments| && Unknown(e, segments[k])
  {
    if segments != [] {
      ReadRefused(e, segments[1..]);
      UnknownIs(e, segments[0]);
      forall k | 0 < k < |segments| ensures segments[k] == segments[1..][k - 1] { }
      if k :| 0 <= k < |segments[1..]| && Unknown(e, segments[1..][k]) { assert Unknown(e, segments[k + 1]); }
    }
    hide Unknown;
  }

  lemma UnknownIs(e: Enum, segment: seq<int>)
    requires e.Valid() && forall i :: 0 <= i < |e.names| ==> e.names[i] != []
    ensures Unknown(e, segment) <==> segment == [] || Candidate(e.names, segment, 0) == -1
  {
    forall i | 0 <= i < |e.names| ensures SameName(e.names[i], segment) <==> SameLetters(e.names[i], segment) {
      SameNameIff(e.names[i], segment);
    }
    hide SameName;
  }

  // ---- The choice ---------------------------------------------------------------------------------

  /** No item fits what is left unnamed. */
  lemma {:induction false} NothingLeft(values: seq<Bits>, i: nat, remaining: Bits, k: nat)
    requires i <= k < |values| && values[k] != {}
    ensures !(values[k] <= Unnamed(values, i, remaining))
    decreases |values| - i
  {
    var next := if values[i] != {} && values[i] <= remaining then remaining - values[i] else remaining;
    UnnamedLess(values, i + 1, next);
    if i < k {
      NothingLeft(values, i + 1, next, k);
    } else {
      var bit :| bit in values[k];
      assert values[k] <= remaining ==> bit !in next;
    }
  }

  predicate Increasing(c: seq<nat>) { forall a, b :: 0 <= a < b < |c| ==> c[a] < c[b] }

  lemma IncreasingCons(i: nat, rest: seq<nat>)
    requires Increasing(rest) && forall k :: 0 <= k < |rest| ==> i < rest[k]
    ensures Increasing([i] + rest)
  {
    var c := [i] + rest;
    forall a, b | 0 <= a < b < |c| ensures c[a] < c[b] {
      assert c[b] == rest[b - 1];
      if a > 0 { assert c[a] == rest[a - 1] && rest[a - 1] < rest[b - 1]; }
    }
  }

  /** The names come in the order of their declaration, none twice. */
  lemma {:induction false} ChosenInOrder(values: seq<Bits>, value: Bits, i: nat, remaining: Bits, any: bool)
    requires i <= |values|
    ensures Increasing(Choose(values, value, i, remaining, any))
    decreases |values| - i
  {
    if i < |values| {
      if Chosen(values[i], value, remaining, any) {
        ChosenInOrder(values, value, i + 1, remaining - values[i], true);
        IncreasingCons(i, Choose(values, value, i + 1, remaining - values[i], true));
      } else {
        ChosenInOrder(values, value, i + 1, remaining, any);
      }
    }
  }

  predicate AllZero(values: seq<Bits>, chosen: seq<nat>) {
    forall k :: 0 <= k < |chosen| ==> chosen[k] < |values| && values[chosen[k]] == {}
  }

  predicate NoneZero(values: seq<Bits>, chosen: seq<nat>) {
    forall k :: 0 <= k < |chosen| ==> chosen[k] < |values| && values[chosen[k]] != {}
  }

  lemma ZeroCons(values: seq<Bits>, i: nat, rest: seq<nat>)
    requires i < |values|
    ensures AllZero(values, [i] + rest) <==> values[i] == {} && AllZero(values, rest)
    ensures NoneZero(values, [i] + rest) <==> values[i] != {} && NoneZero(values, rest)
  {
    var c := [i] + rest;
    assert c[0] == i && forall k :: 0 < k < |c| ==> c[k] == rest[k - 1];
    assert forall k :: 0 <= k < |rest| ==> rest[k] == c[k + 1];
  }

  /** An item 0 is named for the value 0 alone, and then only one. */
  lemma {:induction false} ZeroNamed(values: seq<Bits>, value: Bits, i: nat, remaining: Bits, any: bool)
    requires i <= |values| && remaining <= value
    ensures var c := Choose(values, value, i, remaining, any);
            && (value != {} ==> NoneZero(values, c))
            && (value == {} ==> |c| <= (if any then 0 else 1) && AllZero(values, c))
    decreases |values| - i
  {
    if i < |values| {
      if Chosen(values[i], value, remaining, any) {
        ZeroNamed(values, value, i + 1, remaining - values[i], true);
        ZeroCons(values, i, Choose(values, value, i + 1, remaining - values[i], true));
      } else {
        ZeroNamed(values, value, i + 1, remaining, any);
      }
    }
    hide AllZero, NoneZero;
  }

  /** If no two items share a bit, a value other than 0 is accepted exactly if it is made up of items. */
  lemma DisjointAccepted(e: Enum, value: Bits)
    requires e.Valid() && value != {}
    requires forall i, j :: 0 <= i < j < |e.values| ==> e.values[i] !! e.values[j]
    ensures Accepted(e, value) <==> forall bit :: bit in value ==>
              exists i :: 0 <= i < |e.values| && bit in e.values[i] && e.values[i] <= value
  {
    if Accepted(e, value) {
      forall bit | bit in value ensures exists i :: 0 <= i < |e.values| && bit in e.values[i] && e.values[i] <= value {
        Named(e.values, 0, value, bit);
      }
    } else {
      var bit :| bit in Unnamed(e.values, 0, value);
      UnnamedLess(e.values, 0, value);
      if i :| 0 <= i < |e.values| && bit in e.values[i] && e.values[i] <= value { Whole(e.values, 0, value, i, bit); }
    }
  }

  /** A bit that is not left was in an item that fitted. */
  lemma {:induction false} Named(values: seq<Bits>, i: nat, remaining: Bits, bit: nat)
    requires i <= |values| && bit in remaining && bit !in Unnamed(values, i, remaining)
    ensures exists k :: i <= k < |values| && bit in values[k] && values[k] <= remaining
    decreases |values| - i
  {
    if values[i] != {} && values[i] <= remaining {
      if bit in values[i] { assert bit in values[i] && values[i] <= remaining; }
      else { Named(values, i + 1, remaining - values[i], bit); }
    } else {
      Named(values, i + 1, remaining, bit);
    }
  }

  /** An item that shares no bit with others is not broken by them. */
  lemma {:induction false} Whole(values: seq<Bits>, i: nat, remaining: Bits, k: nat, bit: nat)
    requires i <= k < |values| && bit in values[k] && values[k] <= remaining
    requires forall a, b :: 0 <= a < b < |values| ==> values[a] !! values[b]
    ensures bit !in Unnamed(values, i, remaining)
    decreases |values| - i
  {
    var next := if values[i] != {} && values[i] <= remaining then remaining - values[i] else remaining;
    if i == k {
      UnnamedLess(values, i + 1, next);
    } else {
      assert values[i] !! values[k];
      Whole(values, i + 1, next, k, bit);
    }
  }
}
