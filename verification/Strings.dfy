/** Finding, splitting, joining and replacing: what the loops over texts compute. */
module Strings {

  /** sub stands at position i of text. */
  predicate At<T(==)>(text: seq<T>, sub: seq<T>, i: int) {
    0 <= i <= |text| - |sub| && text[i..i + |sub|] == sub
  }

  /** The leftmost position at or after start, or -1. */
  function Find<T(==)>(text: seq<T>, sub: seq<T>, start: nat): (i: int)
    ensures i == -1 || start <= i <= |text| - |sub|
    decreases |text| - start
  {
    if start > |text| - |sub| then -1
    else if text[start..start + |sub|] == sub then start
    else Find(text, sub, start + 1)
  }

  /** It is the leftmost occurrence, and -1 means there is none. */
  lemma {:induction false} Leftmost<T>(text: seq<T>, sub: seq<T>, start: nat)
    ensures var i := Find(text, sub, start);
            && (i != -1 ==> At(text, sub, i))
            && forall j :: start <= j && (j < i || i == -1) ==> !At(text, sub, j)
    decreases |text| - start
  {
    if start <= |text| - |sub| && text[start..start + |sub|] != sub { Leftmost(text, sub, start + 1); }
  }

  /** The parts between the leftmost non-overlapping separators. */
  function Pieces<T(==)>(text: seq<T>, sep: seq<T>): (parts: seq<seq<T>>)
    requires sep != []
    ensures parts != []
    decreases |text|
  {
    var i := Find(text, sep, 0);
    if i == -1 then [text] else [text[..i]] + Pieces(text[i + |sep|..], sep)
  }

  function Join<T>(sep: seq<T>, parts: seq<seq<T>>): seq<T> {
    if parts == [] then []
    else if |parts| == 1 then parts[0]
    else parts[0] + sep + Join(sep, parts[1..])
  }

  /** Splitting and joining gives the text back. */
  lemma {:induction false} JoinPieces<T>(text: seq<T>, sep: seq<T>)
    requires sep != []
    ensures Join(sep, Pieces(text, sep)) == text
    decreases |text|
  {
    var i := Find(text, sep, 0);
    Leftmost(text, sep, 0);
    if i != -1 {
      var rest := text[i + |sep|..];
      JoinPieces(rest, sep);
      assert Pieces(text, sep)[1..] == Pieces(rest, sep);
      assert text == text[..i] + sep + rest;
    }
  }

  // ---- The same, by position ----------------------------------------------------------------------

  /** The parts of what follows position `at`. */
  function PiecesAt(text: seq<int>, sep: seq<int>, at: nat): (parts: seq<seq<int>>)
    requires sep != [] && at <= |text|
    ensures parts != []
    decreases |text| - at
  {
    var i := Find(text, sep, at);
    if i == -1 then [text[at..]] else [text[at..i]] + PiecesAt(text, sep, i + |sep|)
  }

  lemma {:induction false} FindShift(text: seq<int>, sub: seq<int>, at: nat, k: nat)
    requires at <= |text|
    ensures Find(text[at..], sub, k) == if Find(text, sub, at + k) == -1 then -1 else Find(text, sub, at + k) - at
    decreases |text| - k
  {
    if k <= |text| - at - |sub| {
      assert text[at..][k..k + |sub|] == text[at + k..at + k + |sub|];
      if text[at + k..at + k + |sub|] != sub { FindShift(text, sub, at, k + 1); }
    }
  }

  lemma PiecesStep<T>(text: seq<T>, sep: seq<T>, i: nat)
    requires sep != [] && Find(text, sep, 0) == i
    ensures i + |sep| <= |text| && Pieces(text, sep) == [text[..i]] + Pieces(text[i + |sep|..], sep)
  {
    hide Find;
  }

  lemma PiecesLast<T>(text: seq<T>, sep: seq<T>)
    requires sep != [] && Find(text, sep, 0) == -1
    ensures Pieces(text, sep) == [text]
  {
    hide Find;
  }

  lemma PiecesAtStep(text: seq<int>, sep: seq<int>, at: nat, i: nat)
    requires sep != [] && at <= |text| && Find(text, sep, at) == i
    ensures at <= i && i + |sep| <= |text| && PiecesAt(text, sep, at) == [text[at..i]] + PiecesAt(text, sep, i + |sep|)
  {
    hide Find;
  }

  lemma PiecesAtLast(text: seq<int>, sep: seq<int>, at: nat)
    requires sep != [] && at <= |text| && Find(text, sep, at) == -1
    ensures PiecesAt(text, sep, at) == [text[at..]]
  {
  }

  lemma TailSlices(text: seq<int>, at: nat, i: nat, n: nat)
    requires at <= i && i + n <= |text|
    ensures text[at..][..i - at] == text[at..i] && text[at..][i - at + n..] == text[i + n..]
  {
  }

  lemma {:induction false} PiecesAtFrom(text: seq<int>, sep: seq<int>, at: nat)
    requires sep != [] && at <= |text|
    ensures PiecesAt(text, sep, at) == Pieces(text[at..], sep)
    decreases |text| - at
  {
    hide *;
    FindShift(text, sep, at, 0);
    var i := Find(text, sep, at);
    if i == -1 {
      PiecesAtLast(text, sep, at);
      PiecesLast(text[at..], sep);
    } else {
      PiecesStep(text[at..], sep, i - at);
      PiecesAtStep(text, sep, at, i);
      PiecesAtFrom(text, sep, i + |sep|);
      TailSlices(text, at, i, |sep|);
    }
  }

  lemma PiecesAtIs(text: seq<int>, sep: seq<int>)
    requires sep != []
    ensures PiecesAt(text, sep, 0) == Pieces(text, sep)
  {
    PiecesAtFrom(text, sep, 0);
    assert text[0..] == text;
  }

  /** A part that a separator may follow: the first separator in part + sep is the one at its end. */
  predicate Clean<T(==)>(part: seq<T>, sep: seq<T>) { Find(part + sep, sep, 0) == |part| }

  /** Parts that a join keeps apart. */
  predicate Separable<T(==)>(parts: seq<seq<T>>, sep: seq<T>) {
    if parts == [] then false
    else if |parts| == 1 then Find(parts[0], sep, 0) == -1
    else Clean(parts[0], sep) && Separable(parts[1..], sep)
  }

  lemma {:induction false} FindIs<T>(text: seq<T>, sub: seq<T>, start: nat, i: nat)
    requires start <= i && At(text, sub, i) && forall j :: start <= j < i ==> !At(text, sub, j)
    ensures Find(text, sub, start) == i
  {
    Leftmost(text, sub, start);
  }

  /** What comes after the first separator does not matter to where it is. */
  lemma FindInFront<T>(part: seq<T>, sep: seq<T>, rest: seq<T>)
    requires sep != []
    ensures Clean(part, sep) <==> Find(part + sep + rest, sep, 0) == |part|
  {
    var short, long := part + sep, part + sep + rest;
    Leftmost(short, sep, 0);
    Leftmost(long, sep, 0);
    forall j | 0 <= j <= |part| ensures At(short, sep, j) <==> At(long, sep, j) {
      assert long[j..j + |sep|] == short[j..j + |sep|];
    }
    assert At(short, sep, |part|);
    assert Find(short, sep, 0) <= |part| && Find(long, sep, 0) <= |part|;
  }

  /** Joining and splitting gives the parts back if and only if they are separable. */
  lemma {:induction false} PiecesJoinIff<T>(parts: seq<seq<T>>, sep: seq<T>)
    requires sep != [] && parts != []
    ensures Pieces(Join(sep, parts), sep) == parts <==> Separable(parts, sep)
  {
    var text := Join(sep, parts);
    var i := Find(text, sep, 0);
    if |parts| == 1 {
      assert Pieces(text, sep) == parts ==> i == -1;
    } else {
      var rest := Join(sep, parts[1..]);
      FindInFront(parts[0], sep, rest);
      PiecesJoinIff(parts[1..], sep);
      if i == |parts[0]| {
        assert text[i + |sep|..] == rest && text[..i] == parts[0];
        assert Pieces(text, sep)[1..] == Pieces(rest, sep);
        assert parts == [parts[0]] + parts[1..];
      } else if i != -1 {
        assert Pieces(text, sep)[0] == text[..i];
        assert |Pieces(text, sep)[0]| == i;
      }
    }
  }

  /** Where the first separator of part + sep + rest ends, it is followed by rest, and perhaps by a
      front left over from part + sep. */
  lemma FirstCut<T>(part: seq<T>, sep: seq<T>, rest: seq<T>) returns (i: nat, front: seq<T>)
    requires sep != []
    ensures i <= |part| && Find(part + sep + rest, sep, 0) == i && (part + sep + rest)[i + |sep|..] == front + rest
  {
    var text := part + sep + rest;
    assert text[|part|..|part| + |sep|] == sep;
    assert At(text, sep, |part|);
    Leftmost(text, sep, 0);
    hide Find;
    i := Find(text, sep, 0);
    front := text[i + |sep|..|part| + |sep|];
  }

  lemma JoinAfter<T>(front: seq<T>, sep: seq<T>, parts: seq<seq<T>>)
    requires |parts| > 1
    ensures front + Join(sep, parts) == (front + parts[0]) + sep + Join(sep, parts[1..])
  {
    var rest := Join(sep, parts[1..]);
    assert Join(sep, parts) == parts[0] + sep + rest;
    hide *;
    assert front + (parts[0] + sep + rest) == (front + parts[0]) + sep + rest;
  }

  /** The greedy split finds at least as many separators as a join put in, whatever stands in front. */
  lemma {:induction false} NoFewerPieces<T>(front: seq<T>, parts: seq<seq<T>>, sep: seq<T>)
    requires sep != [] && parts != []
    ensures |Pieces(front + Join(sep, parts), sep)| >= |parts|
    decreases |parts|
  {
    hide *;
    if |parts| > 1 {
      JoinAfter(front, sep, parts);
      var i, front' := FirstCut(front + parts[0], sep, Join(sep, parts[1..]));
      NoFewerPieces(front', parts[1..], sep);
      PiecesStep(front + Join(sep, parts), sep, i);
    }
  }

  /** No part contains a separator. */
  lemma {:induction false} PiecesFree<T>(text: seq<T>, sep: seq<T>)
    requires sep != []
    ensures Separable(Pieces(text, sep), sep)
  {
    JoinPieces(text, sep);
    PiecesJoinIff(Pieces(text, sep), sep);
  }

  lemma {:induction false} SeparableFree<T>(parts: seq<seq<T>>, sep: seq<T>, k: nat)
    requires sep != [] && Separable(parts, sep) && k < |parts|
    ensures Find(parts[k], sep, 0) == -1
  {
    if k > 0 {
      SeparableFree(parts[1..], sep, k - 1);
    } else if |parts| > 1 {
      var p := parts[0];
      Leftmost(p + sep, sep, 0);
      Leftmost(p, sep, 0);
      forall j | 0 <= j <= |p| - |sep| ensures !At(p, sep, j) {
        assert !At(p + sep, sep, j);
        assert (p + sep)[j..j + |sep|] == p[j..j + |sep|];
      }
    }
  }

  /** For a separator of one unit the condition is that no part contains it. */
  lemma {:induction false} SingleSeparable<T>(parts: seq<seq<T>>, c: T)
    requires parts != []
    ensures Separable(parts, [c]) <==> forall k :: 0 <= k < |parts| ==> c !in parts[k]
  {
    SingleFind(parts[0], c);
    if |parts| > 1 {
      SingleClean(parts[0], c);
      SingleSeparable(parts[1..], c);
      assert forall k :: 0 < k < |parts| ==> parts[k] == parts[1..][k - 1];
    }
  }

  lemma SingleAt<T>(text: seq<T>, c: T, i: nat)
    ensures At(text, [c], i) <==> i < |text| && text[i] == c
  {
    if i < |text| { assert text[i..i + 1] == [text[i]]; }
  }

  lemma SingleFind<T>(part: seq<T>, c: T)
    ensures Find(part, [c], 0) == -1 <==> c !in part
  {
    Leftmost(part, [c], 0);
    forall i: nat ensures At(part, [c], i) <==> i < |part| && part[i] == c { SingleAt(part, c, i); }
    if c in part { var i :| 0 <= i < |part| && part[i] == c; assert At(part, [c], i); }
  }

  lemma SingleClean<T>(part: seq<T>, c: T)
    ensures Clean(part, [c]) <==> c !in part
  {
    var text := part + [c];
    Leftmost(text, [c], 0);
    forall i: nat ensures At(text, [c], i) <==> i < |text| && text[i] == c { SingleAt(text, c, i); }
    if c in part {
      var i :| 0 <= i < |part| && part[i] == c;
      assert At(text, [c], i);
    } else {
      FindIs(text, [c], 0, |part|);
    }
  }

  // ---- Lengths ------------------------------------------------------------------------------------

  /** Joining the same parts with two separators differs in length by their difference, once per gap. */
  lemma {:induction false} JoinLengths<T>(a: seq<T>, b: seq<T>, parts: seq<seq<T>>)
    requires parts != []
    ensures |Join(a, parts)| == |Join(b, parts)| + (|a| - |b|) * (|parts| - 1)
  {
    if |parts| > 1 {
      JoinLengths(a, b, parts[1..]);
      Distribute(|a| - |b|, |parts| - 1);
    }
  }

  lemma Distribute(d: int, n: int)
    ensures d * n == d * (n - 1) + d
  {
  }

  // ---- Words --------------------------------------------------------------------------------------

  /** The units that separate words when no separator is given. */
  predicate Blank(u: int) { u < 33 }

  /** The first position from i on whose unit is blank, or is not; or the end. */
  function Seek(text: seq<int>, i: nat, blank: bool): (j: nat)
    requires i <= |text|
    ensures i <= j <= |text| && (j < |text| ==> Blank(text[j]) == blank)
    ensures forall k :: i <= k < j ==> Blank(text[k]) != blank
    decreases |text| - i
  {
    if i == |text| || Blank(text[i]) == blank then i else Seek(text, i + 1, blank)
  }

  function Words(text: seq<int>, i: nat): seq<seq<int>>
    requires i <= |text|
    decreases |text| - i
  {
    var begin := Seek(text, i, false);
    if begin == |text| then []
    else
      var end := Seek(text, begin, true);
      [text[begin..end]] + Words(text, end)
  }

  predicate Word(w: seq<int>) { w != [] && forall k :: 0 <= k < |w| ==> !Blank(w[k]) }

  lemma {:induction false} WordsAreWords(text: seq<int>, i: nat)
    requires i <= |text|
    ensures forall w :: w in Words(text, i) ==> Word(w)
    decreases |text| - i
  {
    var begin := Seek(text, i, false);
    if begin < |text| {
      var end := Seek(text, begin, true);
      WordsAreWords(text, end);
      assert Word(text[begin..end]);
    }
  }

  lemma WordsFrom(text: seq<int>, i: nat)
    requires i <= |text|
    ensures var begin := Seek(text, i, false);
            var end := Seek(text, begin, true);
            Words(text, i) == if begin == |text| then [] else [text[begin..end]] + Words(text, end)
  {
  }

  lemma {:induction false} WordsShift(front: seq<int>, text: seq<int>, i: nat)
    requires i <= |text|
    ensures Words(front + text, |front| + i) == Words(text, i)
    decreases |text| - i
  {
    hide *;
    SeekShift(front, text, i, false);
    var begin := Seek(text, i, false);
    SeekShift(front, text, begin, true);
    var end := Seek(text, begin, true);
    WordsFrom(text, i);
    WordsFrom(front + text, |front| + i);
    if begin < |text| {
      SliceShift(front, text, begin, end);
      Onward(text, i, begin, end);
      WordsShift(front, text, end);
    }
  }

  lemma Onward(text: seq<int>, i: nat, begin: nat, end: nat)
    requires i <= |text| && begin == Seek(text, i, false) < |text| && end == Seek(text, begin, true)
    ensures i <= begin < end
  {
  }

  lemma SliceShift(front: seq<int>, text: seq<int>, begin: nat, end: nat)
    requires begin <= end <= |text|
    ensures (front + text)[|front| + begin..|front| + end] == text[begin..end]
  {
  }

  lemma {:induction false} SeekShift(front: seq<int>, text: seq<int>, i: nat, blank: bool)
    requires i <= |text|
    ensures Seek(front + text, |front| + i, blank) == |front| + Seek(text, i, blank)
    decreases |text| - i
  {
    if i < |text| && Blank(text[i]) != blank { SeekShift(front, text, i + 1, blank); }
  }

  lemma SeekIs(text: seq<int>, i: nat, blank: bool, j: nat)
    requires i <= j <= |text| && (j < |text| ==> Blank(text[j]) == blank)
    requires forall k :: i <= k < j ==> Blank(text[k]) != blank
    ensures Seek(text, i, blank) == j
  {
  }

  /** Words joined by blanks split into the same words. */
  lemma {:induction false} WordsJoin(words: seq<seq<int>>)
    requires forall w :: w in words ==> Word(w)
    ensures Words(Join([32], words), 0) == words
  {
    if words != [] {
      var w := words[0];
      assert Word(w);
      var text := Join([32], words);
      assert text[..|w|] == w;
      assert forall k :: 0 <= k < |w| ==> text[k] == w[k];
      SeekIs(text, 0, false, 0);
      SeekIs(text, 0, true, |w|);
      if |words| > 1 {
        var rest := Join([32], words[1..]);
        WordsJoin(words[1..]);
        assert text == (w + [32]) + rest;
        WordsShift(w + [32], rest, 0);
        WordsSkip(text, |w|);
      } else {
        assert Words(text, |w|) == [];
      }
      assert words == [w] + words[1..];
    }
  }

  lemma WordsSkip(text: seq<int>, i: nat)
    requires i < |text| && Blank(text[i])
    ensures Words(text, i) == Words(text, i + 1)
  {
  }
}
