/** Flag enums as text.  A 64-bit mask is the set of its bits. */
module Enums {
  import opened Sequences
  import opened Strings
  import opened StringsCode
  import I = IntegersCode

  type Bits = set<nat>

  const BAR := 124

  datatype Enum = Enum(names: seq<seq<int>>, values: seq<Bits>) {
    predicate Valid() { |names| == |values| }
  }

  function Fold(u: int): int { if 65 <= u <= 90 then u + 32 else u }

  predicate SameName(a: seq<int>, b: seq<int>) {
    |a| == |b| && forall i :: 0 <= i < |a| ==> Fold(a[i]) == Fold(b[i])
  }

  // ---- Choosing the names -------------------------------------------------------------------------

  /** Whether item i is written: all its bits are still to be named; or it is the first zero, and the
      value is zero. */
  predicate Chosen(item: Bits, value: Bits, remaining: Bits, any: bool) {
    if item != {} then item <= remaining else value == {} && !any
  }

  /** The items written from position i on. */
  function Choose(values: seq<Bits>, value: Bits, i: nat, remaining: Bits, any: bool): (chosen: seq<nat>)
    requires i <= |values|
    ensures forall k :: 0 <= k < |chosen| ==> i <= chosen[k] < |values|
    decreases |values| - i
  {
    if i == |values| then []
    else if Chosen(values[i], value, remaining, any) then
      [i] + Choose(values, value, i + 1, remaining - values[i], true)
    else Choose(values, value, i + 1, remaining, any)
  }

  /** The bits no item named. */
  function Unnamed(values: seq<Bits>, i: nat, remaining: Bits): Bits
    requires i <= |values|
    decreases |values| - i
  {
    if i == |values| then remaining
    else Unnamed(values, i + 1, if values[i] != {} && values[i] <= remaining then remaining - values[i] else remaining)
  }

  function Union(values: seq<Bits>, chosen: seq<nat>): Bits
    requires forall k :: 0 <= k < |chosen| ==> chosen[k] < |values|
  {
    if chosen == [] then {} else values[chosen[0]] + Union(values, chosen[1..])
  }

  /** The chosen items and the unnamed bits make up the value, without overlap. */
  lemma {:induction false} ChooseUnion(values: seq<Bits>, value: Bits, i: nat, remaining: Bits, any: bool)
    requires i <= |values|
    ensures Union(values, Choose(values, value, i, remaining, any)) + Unnamed(values, i, remaining) == remaining
    ensures Union(values, Choose(values, value, i, remaining, any)) !! Unnamed(values, i, remaining)
    decreases |values| - i
  {
    if i < |values| {
      var item := values[i];
      if Chosen(item, value, remaining, any) {
        assert item <= remaining;
        assert item == {} ==> remaining - item == remaining;
        ChooseUnion(values, value, i + 1, remaining - item, true);
        var rest := Choose(values, value, i + 1, remaining - item, true);
        assert ([i] + rest)[1..] == rest;
        UnnamedLess(values, i + 1, remaining - item);
      } else {
        ChooseUnion(values, value, i + 1, remaining, any);
      }
    }
  }

  lemma {:induction false} UnnamedLess(values: seq<Bits>, i: nat, remaining: Bits)
    requires i <= |values|
    ensures Unnamed(values, i, remaining) <= remaining
    decreases |values| - i
  {
    if i < |values| {
      UnnamedLess(values, i + 1,
                  if values[i] != {} && values[i] <= remaining then remaining - values[i] else remaining);
    }
  }

  /** `enum_try_convert` for flags. */
  predicate Accepted(e: Enum, value: Bits) {
    Unnamed(e.values, 0, value) == {} && (value == {} ==> {} in e.values)
  }

  lemma {:induction false} ZeroChosen(values: seq<Bits>, i: nat)
    requires i <= |values|
    ensures Choose(values, {}, i, {}, false) != [] <==> {} in values[i..]
    decreases |values| - i
  {
    if i < |values| {
      assert values[i..] == [values[i]] + values[i + 1..];
      if values[i] != {} { ZeroChosen(values, i + 1); }
    }
  }

  // ---- Text ---------------------------------------------------------------------------------------

  function Named(names: seq<seq<int>>, chosen: seq<nat>): (texts: seq<seq<int>>)
    requires forall k :: 0 <= k < |chosen| ==> chosen[k] < |names|
    ensures |texts| == |chosen| && forall k :: 0 <= k < |chosen| ==> texts[k] == names[chosen[k]]
  {
    if chosen == [] then [] else [names[chosen[0]]] + Named(names, chosen[1..])
  }

  /** The chosen names with bars between them. */
  function FlagText(e: Enum, value: Bits): seq<int>
    requires e.Valid()
  {
    Join([BAR], Named(e.names, Choose(e.values, value, 0, value, false)))
  }

  /** The first name equal to a segment, or -1. */
  function Candidate(names: seq<seq<int>>, text: seq<int>, i: nat): (c: int)
    requires i <= |names|
    ensures c == -1 || (i <= c < |names| && SameName(names[c], text))
    ensures forall j :: i <= j && (j < c || (c == -1 && j < |names|)) ==> !SameName(names[j], text)
    decreases |names| - i
  {
    if i == |names| then -1 else if SameName(names[i], text) then i else Candidate(names, text, i + 1)
  }

  /** What `enum_from_string` does: it records a failure and returns 0, or it returns a value. */
  datatype Result = Failed | Value(bits: Bits)

  function Returned(r: Result): Bits { if r.Failed? then {} else r.bits }

  /** Every segment must name an item. */
  function Read(e: Enum, segments: seq<seq<int>>): Result
    requires e.Valid()
  {
    if segments == [] then Value({})
    else
      var c := if segments[0] == [] then -1 else Candidate(e.names, segments[0], 0);
      var rest := Read(e, segments[1..]);
      if c == -1 || rest.Failed? then Failed else Value(e.values[c] + rest.bits)
  }

  /** `enum_from_string` for flags. */
  function FromFlagText(e: Enum, text: seq<int>): Result
    requires e.Valid()
  {
    if text == [] then Failed else Read(e, Pieces(text, [BAR]))
  }

  /** Names that can be told apart and found again. */
  predicate Distinguishable(e: Enum) {
    && (forall i :: 0 <= i < |e.names| ==> e.names[i] != [] && BAR !in e.names[i])
    && forall i, j :: 0 <= i < j < |e.names| ==> !SameName(e.names[i], e.names[j])
  }

  lemma {:induction false} ReadNamed(e: Enum, chosen: seq<nat>)
    requires e.Valid() && Distinguishable(e) && forall k :: 0 <= k < |chosen| ==> chosen[k] < |e.names|
    ensures Read(e, Named(e.names, chosen)) == Value(Union(e.values, chosen))
  {
    if chosen != [] {
      var texts := Named(e.names, chosen);
      ReadNamed(e, chosen[1..]);
      assert texts[1..] == Named(e.names, chosen[1..]);
      assert SameName(e.names[chosen[0]], texts[0]);
      var c := Candidate(e.names, texts[0], 0);
      assert c == chosen[0];
    }
  }

  /** Whatever `enum_try_convert` accepts comes back from its text, if the names are distinguishable. */
  lemma FlagRoundTrip(e: Enum, value: Bits)
    requires e.Valid() && Distinguishable(e) && Accepted(e, value)
    ensures FromFlagText(e, FlagText(e, value)) == Value(value)
  {
    var chosen := Choose(e.values, value, 0, value, false);
    var texts := Named(e.names, chosen);
    ChooseUnion(e.values, value, 0, value, false);
    if value == {} {
      ZeroChosen(e.values, 0);
      assert e.values[0..] == e.values;
    } else {
      assert Union(e.values, chosen) == value;
      assert Union(e.values, []) == {};
    }
    assert chosen != [];
    SingleSeparable(texts, BAR);
    PiecesJoinIff(texts, [BAR]);
    ReadNamed(e, chosen);
    assert texts[0] != [];
  }

  /** What is not accepted does not come back: its text names other bits, or none. */
  lemma FlagRejected(e: Enum, value: Bits)
    requires e.Valid() && Distinguishable(e) && !Accepted(e, value)
    ensures FromFlagText(e, FlagText(e, value)) != Value(value)
  {
    var chosen := Choose(e.values, value, 0, value, false);
    var texts := Named(e.names, chosen);
    ChooseUnion(e.values, value, 0, value, false);
    if value == {} {
      ZeroChosen(e.values, 0);
      assert e.values[0..] == e.values;
      UnnamedLess(e.values, 0, {});
      assert chosen == [];
    } else if chosen != [] {
      SingleSeparable(texts, BAR);
      PiecesJoinIff(texts, [BAR]);
      ReadNamed(e, chosen);
      assert Unnamed(e.values, 0, value) != {};
    }
  }

  predicate Fits(e: Enum, value: Bits)
    requires e.Valid()
  {
    |FlagText(e, value)| <= INT32_MAX
  }

  /** So a value survives the text that `enum_to_string` hands out, with no failure recorded, if and only if
      `enum_try_convert` accepts it and the text fits. */
  lemma FlagRoundTripIff(e: Enum, value: Bits)
    requires e.Valid() && Distinguishable(e)
    ensures FromFlagText(e, Capped(FlagText(e, value))) == Value(value) <==> Accepted(e, value) && Fits(e, value)
  {
    if !Fits(e, value) { EmptyFlagText(e); }
    else if Accepted(e, value) { FlagRoundTrip(e, value); }
    else { FlagRejected(e, value); }
  }

  /** The returned bits alone cannot tell a 0 that is no item from one that is. */
  lemma ReturnedIff(e: Enum, value: Bits)
    requires e.Valid() && Distinguishable(e)
    ensures Returned(FromFlagText(e, Capped(FlagText(e, value)))) == value <==>
              (Accepted(e, value) && Fits(e, value)) || value == {}
  {
    FlagRoundTripIff(e, value);
    EmptyFlagText(e);
    if value == {} && !Accepted(e, value) {
      UnnamedLess(e.values, 0, {});
      ZeroChosen(e.values, 0);
      assert e.values[0..] == e.values;
      assert Choose(e.values, {}, 0, {}, false) == [];
    }
  }

  // ---- The loops ----------------------------------------------------------------------------------

  /** The measuring pass of `enum_to_string`. */
  method Measure(e: Enum, value: Bits) returns (length: nat, count: nat)
    requires e.Valid()
    ensures count == |Choose(e.values, value, 0, value, false)| && (count > 0 ==> length == |FlagText(e, value)|)
  {
    var remaining, index := value, 0;
    length, count := 0, 0;
    ghost var all := Choose(e.values, value, 0, value, false);
    ghost var left := all;
    TotalNamed(e.names, all);
    while index < |e.values|
      invariant 0 <= index <= |e.values| && left == Choose(e.values, value, index, remaining, count > 0)
      invariant count + |left| == |all|
      invariant length + Spread(e.names, left, count > 0) == Spread(e.names, all, false)
    {
      var item := e.values[index];
      var selected := if item != {} then item <= remaining else value == {} && count == 0;
      if selected {
        left := left[1..];
        if count > 0 { length := length + 1; }
        length := length + |e.names[index]|;
        count := count + 1;
        if item != {} { remaining := remaining - item; } else { assert remaining - item == remaining; }
      }
      index := index + 1;
    }
  }

  /** The length of the names still to come, with the bar before each but the first of all. */
  ghost function Spread(names: seq<seq<int>>, chosen: seq<nat>, any: bool): nat
    requires forall k :: 0 <= k < |chosen| ==> chosen[k] < |names|
  {
    if chosen == [] then 0 else (if any then 1 else 0) + |names[chosen[0]]| + Spread(names, chosen[1..], true)
  }

  lemma {:induction false} TotalNamed(names: seq<seq<int>>, chosen: seq<nat>)
    requires forall k :: 0 <= k < |chosen| ==> chosen[k] < |names|
    ensures chosen != [] ==> |Join([BAR], Named(names, chosen))| == Spread(names, chosen, false)
  {
    if |chosen| > 1 {
      var texts := Named(names, chosen);
      TotalNamed(names, chosen[1..]);
      assert texts[1..] == Named(names, chosen[1..]);
      assert Spread(names, chosen[1..], true) == 1 + Spread(names, chosen[1..], false);
    }
  }

  /** What is still to be written: the chosen names, each after a bar except the first of all. */
  ghost function Rest(names: seq<seq<int>>, chosen: seq<nat>, any: bool): seq<int>
    requires forall k :: 0 <= k < |chosen| ==> chosen[k] < |names|
  {
    if chosen == [] then [] else (if any then [BAR] else []) + names[chosen[0]] + Rest(names, chosen[1..], true)
  }

  lemma {:induction false} RestJoin(names: seq<seq<int>>, chosen: seq<nat>)
    requires chosen != [] && forall k :: 0 <= k < |chosen| ==> chosen[k] < |names|
    ensures Join([BAR], Named(names, chosen)) == Rest(names, chosen, false)
  {
    var texts := Named(names, chosen);
    assert texts[1..] == Named(names, chosen[1..]);
    if |chosen| > 1 {
      RestJoin(names, chosen[1..]);
      var tail := chosen[1..];
      assert Rest(names, tail, true) == [BAR] + Rest(names, tail, false) by {
        assert [BAR] + names[tail[0]] + Rest(names, tail[1..], true) ==
          [BAR] + ([] + names[tail[0]] + Rest(names, tail[1..], true));
      }
    }
  }

  /** `enum_to_string` for flags: the second pass chooses the same names and fills the buffer exactly. */
  method ToFlagText(e: Enum, value: Bits) returns (text: seq<int>)
    requires e.Valid()
    ensures text == Capped(FlagText(e, value))
  {
    var length, count := Measure(e, value);
    if count == 0 || length > INT32_MAX { return []; }
    ghost var all := Choose(e.values, value, 0, value, false);
    RestJoin(e.names, all);
    var buffer := FillFlags(e, value, length);
    text := buffer[..];
  }

  method FillFlags(e: Enum, value: Bits, length: nat) returns (buffer: array<int>)
    requires e.Valid() && length == |Rest(e.names, Choose(e.values, value, 0, value, false), false)|
    ensures fresh(buffer) && buffer[..] == Rest(e.names, Choose(e.values, value, 0, value, false), false)
  {
    buffer := new int[length](_ => 0);
    var remaining, index, offset: nat, any := value, 0, 0, false;
    ghost var left := Choose(e.values, value, 0, value, false);
    ghost var full := Rest(e.names, left, false);
    while index < |e.values|
      invariant 0 <= index <= |e.values| && left == Choose(e.values, value, index, remaining, any)
      invariant offset <= length && buffer[..offset] + Rest(e.names, left, any) == full
    {
      var item := e.values[index];
      var selected := if item != {} then item <= remaining else value == {} && !any;
      if selected {
        ghost var bar, rest := if any then [BAR] else [], Rest(e.names, left[1..], true);
        Room(buffer[..offset], bar, e.names[index], rest, full);
        offset := Copy(buffer, offset, if any then [BAR] else []);
        offset := Copy(buffer, offset, e.names[index]);
        left, any := left[1..], true;
        if item != {} { remaining := remaining - item; } else { assert remaining - item == remaining; }
      }
      index := index + 1;
    }
    Whole(buffer);
  }

  /** `enum_try_convert` for flags. */
  method TryConvert(e: Enum, value: Bits) returns (accepted: bool)
    requires e.Valid()
    ensures accepted <==> Accepted(e, value)
  {
    var remaining, zero, index := value, false, 0;
    while index < |e.values|
      invariant 0 <= index <= |e.values| && Unnamed(e.values, index, remaining) == Unnamed(e.values, 0, value)
      invariant zero <==> {} in e.values[..index]
    {
      var item := e.values[index];
      assert e.values[..index + 1] == e.values[..index] + [item];
      if item == {} { zero := true; } else if item <= remaining { remaining := remaining - item; }
      index := index + 1;
    }
    assert e.values[..index] == e.values;
    return !(remaining != {} || (value == {} && !zero));
  }

  /** The candidate loop of `enum_from_string`. */
  method Lookup(e: Enum, segment: seq<int>) returns (index: int)
    requires e.Valid()
    ensures index == if segment == [] then -1 else Candidate(e.names, segment, 0)
  {
    if |segment| == 0 { return -1; }
    index := 0;
    while index < |e.names|
      invariant 0 <= index <= |e.names| && Candidate(e.names, segment, 0) == Candidate(e.names, segment, index)
    {
      if SameName(e.names[index], segment) { return; }
      index := index + 1;
    }
    return -1;
  }

  ghost function With(bits: Bits, r: Result): Result { if r.Failed? then Failed else Value(bits + r.bits) }

  lemma ReadStep(e: Enum, segment: seq<int>, rest: seq<seq<int>>)
    requires e.Valid()
    ensures var c := if segment == [] then -1 else Candidate(e.names, segment, 0);
            Read(e, [segment] + rest) == if c == -1 then Failed else With(e.values[c], Read(e, rest))
  {
    assert ([segment] + rest)[1..] == rest;
  }

  lemma WithTwice(a: Bits, b: Bits, r: Result)
    ensures With(a, With(b, r)) == With(a + b, r)
  {
    if r.Value? { assert a + (b + r.bits) == a + b + r.bits; }
  }

  lemma BarHere(text: seq<int>, index: nat)
    requires index < |text|
    ensures text[index] == BAR <==> text[index..index + 1] == [BAR]
  {
    assert text[index..index + 1] == [text[index]];
  }

  lemma FlagTextIs(e: Enum, text: seq<int>)
    requires e.Valid() && text != []
    ensures FromFlagText(e, text) == Read(e, PiecesAt(text, [BAR], 0)) == With({}, Read(e, PiecesAt(text, [BAR], 0)))
  {
    PiecesAtIs(text, [BAR]);
    var r := Read(e, PiecesAt(text, [BAR], 0));
    if r.Value? { assert {} + r.bits == r.bits; }
  }

  lemma EmptyFlagText(e: Enum)
    requires e.Valid()
    ensures FromFlagText(e, []) == Failed
  {
  }

  lemma ReadNone(e: Enum, bits: Bits)
    requires e.Valid()
    ensures With(bits, Read(e, [])) == Value(bits)
  {
    assert bits + {} == bits;
  }

  /** `enum_from_string` for flags: every segment between bars must be a name. */
  method FromString(e: Enum, text: Text) returns (result: Result)
    requires e.Valid()
    ensures result == FromFlagText(e, text)
  {
    assert |e.values| == |e.names|;
    hide *;
    if |text| == 0 {
      EmptyFlagText(e);
      return Failed;
    }
    FlagTextIs(e, text);
    var bits: Bits, start: nat, index: nat := {}, 0, 0;
    ghost var rest := PiecesAt(text, [BAR], 0);
    while index <= |text|
      invariant index <= |text| + 1 && (index > |text| ==> rest == [])
      invariant index <= |text| ==> start <= index && rest == PiecesAt(text, [BAR], start)
      invariant index <= |text| ==> Find(text, [BAR], start) == Find(text, [BAR], index)
      invariant FromFlagText(e, text) == With(bits, Read(e, rest))
    {
      if index < |text| { BarHere(text, index); }
      if index != |text| && text[index] != BAR {
        I.Onward(text, [BAR], index);
        index := index + 1;
        continue;
      }
      ghost var tail := I.Ends(text, [BAR], start, index, index < |text|);
      ReadStep(e, text[start..index], tail);
      var c := Lookup(e, text[start..index]);
      if c == -1 {
        FailedIs(bits);
        return Failed;
      }
      WithTwice(bits, e.values[c], Read(e, tail));
      bits := bits + e.values[c];
      rest, start, index := tail, index + 1, index + 1;
    }
    ReadNone(e, bits);
    return Value(bits);
  }

  lemma FailedIs(bits: Bits)
    ensures With(bits, Failed) == Failed
  {
  }
}
