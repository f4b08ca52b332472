/** The string loops: find, replace, split and join, each counting before it fills. */
module StringsCode {
  import opened Sequences
  import opened Strings

  const INT32_MAX := 0x7FFF_FFFF

  /** A text pointer, which may be null; a text has an int32 length. */
  type Text = t: seq<int> | |t| <= INT32_MAX witness []

  /** A text that would be longer than the int32 length can say is given up for the empty one. */
  function Capped(s: seq<int>): (r: Text) { if |s| > INT32_MAX then [] else s }

  datatype Str = Null | Str(text: Text)

  /** `string_find`. */
  method FindFrom(text: Str, sub: Str, from: int) returns (index: int)
    ensures text.Null? || sub.Null? ==> index == -1
    ensures text.Str? && sub.Str? ==> index == Find(text.text, sub.text, if from < 0 then 0 else from)
  {
    if text.Null? || sub.Null? { return -1; }
    var t, s := text.text, sub.text;
    var start := if from < 0 then 0 else from;
    if |s| == 0 {
      assert start <= |t| ==> t[start..start] == s;
      return if start <= |t| then start else -1;
    }
    if start > |t| - |s| { return -1; }
    index := start;
    while index <= |t| - |s|
      invariant start <= index <= |t| - |s| + 1
      invariant Find(t, s, start) == Find(t, s, index)
    {
      if t[index..index + |s|] == s { return; }
      index := index + 1;
    }
    return -1;
  }

  /** How many parts the counting loops find. */
  method CountPieces(text: Text, sep: Text) returns (count: nat)
    requires sep != []
    ensures count == |Pieces(text, sep)|
  {
    count := 1;
    var at: nat := 0;
    var index := FindFrom(Str(text), Str(sep), 0);
    while index != -1
      invariant at <= |text| && index == Find(text, sep, at)
      invariant |PiecesAt(text, sep, 0)| == count - 1 + |PiecesAt(text, sep, at)|
      decreases |text| - at
    {
      count := count + 1;
      at := index + |sep|;
      index := FindFrom(Str(text), Str(sep), at);
    }
    PiecesAtIs(text, sep);
  }

  /** `string_replace`: every leftmost non-overlapping match goes, unless the result is too long. */
  method Replace(text: Str, sub: Str, rep: Str) returns (result: seq<int>, failed: bool)
    ensures text.Null? ==> result == [] && !failed
    ensures text.Str? && (sub.Null? || rep.Null? || sub.text == []) ==> result == text.text && !failed
    ensures text.Str? && sub.Str? && rep.Str? && sub.text != [] ==>
              var joined := Join(rep.text, Pieces(text.text, sub.text));
              (failed <==> |joined| > INT32_MAX) && result == if failed then [] else joined
  {
    if text.Null? { return [], false; }
    if sub.Null? || rep.Null? || |sub.text| == 0 { return text.text, false; }
    var t, s, r := text.text, sub.text, rep.text;
    var pieces := CountPieces(t, s);
    var matches := pieces - 1;
    JoinPieces(t, s);
    JoinLengths(r, s, Pieces(t, s));
    if matches == 0 { return t, false; }
    var length := |t| + (|r| - |s|) * matches;
    assert length == |Join(r, Pieces(t, s))|;
    if length < 0 || length > INT32_MAX { return [], true; }
    var output := FillReplaced(t, s, r, length);
    return output[..], false;
  }

  method FillReplaced(t: Text, s: Text, r: Text, length: nat) returns (output: array<int>)
    requires s != [] && length == |Join(r, Pieces(t, s))|
    ensures fresh(output) && output[..] == Join(r, Pieces(t, s))
  {
    output := new int[length](_ => 0);
    PiecesAtIs(t, s);
    hide *;
    ghost var all := Join(r, Pieces(t, s));
    var source, destination := FillMatches(t, s, r, output, all);
    ghost var tail := t[source..];
    Fits(output[..destination], tail, all);
    destination := Copy(output, destination, t[source..]);
    Whole(output);
  }

  lemma Fits(before: seq<int>, tail: seq<int>, all: seq<int>)
    requires before + tail == all
    ensures |before| + |tail| == |all|
  {
  }

  /** Copy up to the last match. */
  method FillMatches(t: Text, s: Text, r: Text, output: array<int>,
                     ghost all: seq<int>) returns (source: nat, destination: nat)
    requires s != [] && output.Length == |all| && all == Join(r, PiecesAt(t, s, 0))
    modifies output
    ensures source <= |t| && destination <= output.Length && output[..destination] + t[source..] == all
  {
    source, destination := 0, 0;
    var m := FindFrom(Str(t), Str(s), 0);
    hide *;
    while m != -1
      invariant source <= |t| && destination <= output.Length && m == Find(t, s, source)
      invariant output[..destination] + Join(r, PiecesAt(t, s, source)) == all
      decreases |t| - source
    {
      PiecesAtStep(t, s, source, m);
      JoinFirst(r, t[source..m], PiecesAt(t, s, m + |s|));
      Room(output[..destination], t[source..m], r, Join(r, PiecesAt(t, s, m + |s|)), all);
      destination := Copy(output, destination, t[source..m]);
      destination := Copy(output, destination, r);
      source := m + |s|;
      m := FindFrom(Str(t), Str(s), source);
    }
    PiecesAtLast(t, s, source);
    JoinOne(r, t[source..]);
  }

  lemma JoinFirst(sep: seq<int>, part: seq<int>, rest: seq<seq<int>>)
    requires rest != []
    ensures Join(sep, [part] + rest) == part + sep + Join(sep, rest)
  {
    assert ([part] + rest)[1..] == rest;
  }

  lemma JoinOne(sep: seq<int>, part: seq<int>)
    ensures Join(sep, [part]) == part
  {
  }

  lemma Room(before: seq<int>, part: seq<int>, sep: seq<int>, rest: seq<int>, all: seq<int>)
    requires before + (part + sep + rest) == all
    ensures |before| + |part| + |sep| <= |all| && before + part + sep + rest == all
  {
  }

  /** `memcpy` of a run of units. */
  method Copy(output: array<int>, at: nat, units: seq<int>) returns (end: nat)
    requires at + |units| <= output.Length
    modifies output
    ensures end == at + |units| && output[..end] == old(output[..at]) + units
    ensures output[end..] == old(output[at + |units|..])
  {
    var i := 0;
    ghost var before, after := output[..at], output[at + |units|..];
    while i < |units|
      invariant 0 <= i <= |units| && output[..at + i] == before + units[..i]
      invariant output[at + |units|..] == after
    {
      output[at + i] := units[i];
      i := i + 1;
    }
    assert units[..i] == units;
    end := at + |units|;
  }

  /** `string_split` with a separator. */
  method Split(text: Str, separator: Text) returns (parts: seq<seq<int>>, failed: bool)
    requires separator != []
    ensures var t := if text.Null? then [] else text.text;
            (failed <==> |Pieces(t, separator)| > INT32_MAX) && parts == if failed then [] else Pieces(t, separator)
  {
    var t: Text := if text.Null? then [] else text.text;
    var count := CountPieces(t, separator);
    if count > INT32_MAX { return [], true; }
    var output := FillPieces(t, separator, count);
    return output[..], false;
  }

  method FillPieces(t: Text, separator: Text, count: nat) returns (output: array<seq<int>>)
    requires separator != [] && count == |Pieces(t, separator)|
    ensures fresh(output) && output[..] == Pieces(t, separator)
  {
    hide *;
    PiecesAtIs(t, separator);
    ghost var all, rest := PiecesAt(t, separator, 0), PiecesAt(t, separator, 0);
    output := new seq<int>[count](_ => []);
    var part: nat, begin: nat := 0, 0;
    while part < count
      invariant part <= count && |rest| == count - part && output[..part] + rest == all
      invariant part < count ==> begin <= |t| && rest == PiecesAt(t, separator, begin)
    {
      var end: nat;
      end, rest := NextPiece(t, separator, begin, rest);
      ghost var before := output[..part];
      Shift(before, t[begin..end], rest);
      output[part] := t[begin..end];
      assert output[..part + 1] == before + [t[begin..end]];
      part, begin := part + 1, end + |separator|;
    }
    Whole(output);
  }

  /** Where the part that begins at `begin` ends, and the parts after it. */
  method NextPiece(t: Text, separator: Text, begin: nat,
                   ghost rest: seq<seq<int>>) returns (end: nat, ghost tail: seq<seq<int>>)
    requires separator != [] && begin <= |t| && rest == PiecesAt(t, separator, begin)
    ensures begin <= end <= |t| && rest == [t[begin..end]] + tail
    ensures tail != [] ==> end + |separator| <= |t| && tail == PiecesAt(t, separator, end + |separator|)
  {
    var found := FindFrom(Str(t), Str(separator), begin);
    hide *;
    if found == -1 {
      PiecesAtLast(t, separator, begin);
      end, tail := |t|, [];
      assert t[begin..] == t[begin..end];
    } else {
      PiecesAtStep(t, separator, begin, found);
      end, tail := found, PiecesAt(t, separator, found + |separator|);
    }
  }

  lemma Shift<T>(before: seq<T>, x: T, tail: seq<T>)
    ensures before + ([x] + tail) == before + [x] + tail
  {
  }

  /** `string_split` without a separator: the words. */
  method SplitWords(text: Text) returns (parts: seq<seq<int>>)
    ensures parts == Words(text, 0)
  {
    var count, index: nat := 0, 0;
    while index < |text|
      invariant index <= |text| && count + |Words(text, index)| == |Words(text, 0)|
    {
      var begin := SeekFrom(text, index, false);
      if begin == |text| { index := begin; break; }
      count := count + 1;
      index := SeekFrom(text, begin, true);
    }
    assert Words(text, |text|) == [];
    if count == 0 { return []; }
    var output := FillWords(text, count);
    return output[..];
  }

  method FillWords(text: Text, count: nat) returns (output: array<seq<int>>)
    requires count == |Words(text, 0)|
    ensures fresh(output) && output[..] == Words(text, 0)
  {
    output := new seq<int>[count](_ => []);
    var part: nat, index: nat := 0, 0;
    ghost var all, rest := Words(text, 0), Words(text, 0);
    hide Words, Seek;
    while part < count
      invariant part <= count && index <= |text| && rest == Words(text, index)
      invariant |rest| == count - part && output[..part] + rest == all
    {
      WordsFrom(text, index);
      var begin := SkipBlanks(text, index);
      index := SeekFrom(text, begin, true);
      ghost var before := output[..part];
      rest := Words(text, index);
      Shift(before, text[begin..index], rest);
      output[part] := text[begin..index];
      part := part + 1;
      assert output[..part] == before + [text[begin..index]];
    }
    assert output[..part] == output[..];
  }

  /** The fill's own skip has no bound check: that a word is left keeps it inside the text. */
  method SkipBlanks(text: Text, from: nat) returns (index: nat)
    requires from <= |text| && Words(text, from) != []
    ensures from <= index == Seek(text, from, false) < |text|
  {
    index := from;
    WordsFrom(text, from);
    while text[index] < 33
      invariant from <= index <= Seek(text, from, false) < |text| && Seek(text, from, false) == Seek(text, index, false)
      decreases |text| - index
    {
      index := index + 1;
    }
  }

  method SeekFrom(text: Text, from: nat, blank: bool) returns (index: nat)
    requires from <= |text|
    ensures index == Seek(text, from, blank)
  {
    index := from;
    while index < |text| && (text[index] < 33) != blank
      invariant from <= index <= |text| && Seek(text, from, blank) == Seek(text, index, blank)
    {
      index := index + 1;
    }
  }

  function Shown(parts: seq<Str>): (r: seq<seq<int>>)
    ensures |r| == |parts| && forall i :: 0 <= i < |r| ==> r[i] == if parts[i].Null? then [] else parts[i].text
  {
    seq(|parts|, i requires 0 <= i < |parts| => if parts[i].Null? then [] else parts[i].text)
  }

  ghost function Total(parts: seq<seq<int>>): nat {
    if parts == [] then 0 else Total(parts[..|parts| - 1]) + |parts[|parts| - 1]|
  }

  lemma {:induction false} JoinTotal(sep: seq<int>, parts: seq<seq<int>>)
    requires parts != []
    ensures |Join(sep, parts)| == (|parts| - 1) * |sep| + Total(parts)
  {
    if |parts| > 1 {
      JoinTotal(sep, parts[1..]);
      TotalFront(parts);
      Distribute(|sep|, |parts| - 1);
    } else {
      assert parts[..0] == [];
    }
  }

  lemma {:induction false} TotalFront(parts: seq<seq<int>>)
    requires parts != []
    ensures Total(parts) == |parts[0]| + Total(parts[1..])
  {
    var n := |parts| - 1;
    if n > 0 {
      TotalFront(parts[..n]);
      assert parts[..n][1..] == parts[1..][..n - 1];
    } else {
      assert parts[..0] == [] && parts[1..] == [];
    }
  }

  lemma TotalStep(parts: seq<seq<int>>, k: nat)
    requires k < |parts|
    ensures Total(parts[..k + 1]) == Total(parts[..k]) + |parts[k]|
  {
    assert parts[..k + 1][..k] == parts[..k];
  }

  /** `string_join`: null parts count as empty; a result longer than a text can be is refused. */
  method JoinParts(separator: Str, parts: seq<Str>) returns (result: seq<int>, failed: bool)
    ensures var s := if separator.Null? then [] else separator.text;
            var joined := Join(s, Shown(parts));
            (failed <==> |joined| > INT32_MAX) && result == if failed then [] else joined
  {
    var s := if separator.Null? then [] else separator.text;
    ghost var shown := Shown(parts);
    if |parts| == 0 { return [], false; }
    JoinTotal(s, shown);
    assert Total(shown[..0]) == 0;
    hide Join, Total, Shown;
    var length, index := (|parts| - 1) * |s|, 0;
    while index < |parts|
      invariant 0 <= index <= |parts| && length == (|parts| - 1) * |s| + Total(shown[..index])
      invariant index > 0 ==> length <= INT32_MAX
    {
      var part := if parts[index].Null? then [] else parts[index].text;
      TotalStep(shown, index);
      length := length + |part|;
      TotalMost(shown, index + 1);
      if length > INT32_MAX { return [], true; }
      index := index + 1;
    }
    assert shown[..index] == shown;
    var output := FillJoined(s, parts, length);
    return output[..], false;
  }

  lemma {:induction false} TotalMost(parts: seq<seq<int>>, k: nat)
    requires k <= |parts|
    ensures Total(parts[..k]) <= Total(parts)
    decreases |parts| - k
  {
    if k < |parts| {
      TotalMost(parts, k + 1);
      assert parts[..k + 1][..k] == parts[..k];
    } else {
      assert parts[..k] == parts;
    }
  }

  method FillJoined(s: seq<int>, parts: seq<Str>, length: nat) returns (output: array<int>)
    requires parts != [] && length == |Join(s, Shown(parts))|
    ensures fresh(output) && output[..] == Join(s, Shown(parts))
  {
    output := new int[length](_ => 0);
    ghost var shown := Shown(parts);
    ghost var all := Join(s, shown);
    var index: nat, at: nat := 0, 0;
    GapsEnds(s, shown);
    hide *;
    while index < |parts|
      invariant index <= |parts| && at <= length && output[..at] + Gaps(s, shown, index) == all
    {
      var gap := if index == 0 then [] else s;
      var part := if parts[index].Null? then [] else parts[index].text;
      GapsFrom(s, shown, index);
      Room(output[..at], gap, part, Gaps(s, shown, index + 1), all);
      at := Copy(output, at, gap);
      at := Copy(output, at, part);
      index := index + 1;
    }
    assert output[..at] == output[..];
  }

  /** What is still to be written from part i on, the separator before it included. */
  ghost function Gaps(s: seq<int>, parts: seq<seq<int>>, i: nat): seq<int>
    requires i <= |parts|
  {
    if i == |parts| then [] else (if i == 0 then [] else s) + Join(s, parts[i..])
  }

  lemma GapsEnds(s: seq<int>, parts: seq<seq<int>>)
    ensures Gaps(s, parts, 0) == Join(s, parts) && Gaps(s, parts, |parts|) == []
  {
    assert parts[0..] == parts;
  }

  lemma GapsFrom(s: seq<int>, parts: seq<seq<int>>, i: nat)
    requires i < |parts|
    ensures Gaps(s, parts, i) == (if i == 0 then [] else s) + parts[i] + Gaps(s, parts, i + 1)
  {
    assert parts[i..][1..] == parts[i + 1..];
    if i + 1 < |parts| {
      assert Join(s, parts[i..]) == parts[i] + s + Join(s, parts[i + 1..]);
    }
  }

}
