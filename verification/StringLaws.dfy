/** What a split at blanks keeps: every unit that is no blank, in order. */
module StringLaws {
  import opened Strings

  /** The units above the space. */
  function Solid(text: seq<int>): seq<int> {
    if text == [] then [] else (if text[0] > ' ' as int then [text[0]] else []) + Solid(text[1..])
  }

  function Flat(words: seq<seq<int>>): seq<int> { if words == [] then [] else words[0] + Flat(words[1..]) }

  lemma {:induction false} SolidJoin(a: seq<int>, b: seq<int>)
    ensures Solid(a + b) == Solid(a) + Solid(b)
  {
    if a == [] {
      assert a + b == b;
    } else {
      assert (a + b)[1..] == a[1..] + b;
      SolidJoin(a[1..], b);
    }
  }

  lemma {:induction false} SolidAll(text: seq<int>)
    ensures (forall k :: 0 <= k < |text| ==> text[k] > ' ' as int) ==> Solid(text) == text
    ensures (forall k :: 0 <= k < |text| ==> text[k] <= ' ' as int) ==> Solid(text) == []
  {
    if text != [] {
      SolidAll(text[1..]);
      assert text == [text[0]] + text[1..];
    }
  }

  /** The words together are the text without its blanks, which are the units up to the space. */
  lemma {:induction false} WordsKeep(text: seq<int>, i: nat)
    requires i <= |text|
    ensures Flat(Words(text, i)) == Solid(text[i..])
    decreases |text| - i
  {
    hide *;
    var begin := Seek(text, i, false);
    var end := Seek(text, begin, true);
    WordsFrom(text, i);
    Skipped(text, i, begin);
    FlatNone();
    if begin < |text| {
      Onward(text, i, begin, end);
      Kept(text, begin, end);
      WordsKeep(text, end);
      FlatCons(text[begin..end], Words(text, end));
    } else {
      assert text[begin..] == [];
      SolidNone();
    }
  }

  lemma FlatNone()
    ensures Flat([]) == []
  {
  }

  lemma SolidNone()
    ensures Solid([]) == []
  {
  }

  lemma FlatCons(w: seq<int>, words: seq<seq<int>>)
    ensures Flat([w] + words) == w + Flat(words)
  {
    assert ([w] + words)[1..] == words;
  }

  lemma Skipped(text: seq<int>, i: nat, begin: nat)
    requires i <= |text| && begin == Seek(text, i, false)
    ensures i <= begin <= |text| && Solid(text[i..]) == Solid(text[begin..])
  {
    assert text[i..] == text[i..begin] + text[begin..];
    SolidAll(text[i..begin]);
    SolidJoin(text[i..begin], text[begin..]);
    hide Solid;
  }

  lemma Kept(text: seq<int>, begin: nat, end: nat)
    requires begin <= |text| && end == Seek(text, begin, true)
    ensures begin <= end <= |text| && Solid(text[begin..]) == text[begin..end] + Solid(text[end..])
  {
    assert text[begin..] == text[begin..end] + text[end..];
    SolidAll(text[begin..end]);
    SolidJoin(text[begin..end], text[end..]);
    hide Solid;
  }
}
