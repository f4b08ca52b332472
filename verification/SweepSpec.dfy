/** Sweeping as a function of the cells, and why it equals releasing every dead block one by one. */
module SweepSpec {
  import opened HeapModel
  import opened HeapSpec

  /** A managed block that the current mark epoch did not reach. */
  predicate Dead(c: Cell, epoch: int) {
    !IsFree(c) && c.mark != epoch && (OBJECT in c.flags || ARRAY in c.flags || STRING in c.flags)
  }

  function Reaped(c: Cell, epoch: int): Cell { if Dead(c, epoch) then Freed(c) else c }

  function ReapAll(cells: seq<Cell>, epoch: int): seq<Cell> {
    if cells == [] then []
    else ReapAll(cells[..|cells| - 1], epoch) + [Reaped(cells[|cells| - 1], epoch)]
  }

  /** Append a cell, merging it into a free last cell when it is itself free. */
  function Snoc(cfg: Config, cells: seq<Cell>, c: Cell): seq<Cell> {
    var n := |cells|;
    if n > 0 && IsFree(cells[n - 1]) && IsFree(c) then cells[..n - 1] + [Absorbed(cfg, cells[n - 1], c)]
    else cells + [c]
  }

  /** Merge every run of free cells. */
  function Coalesce(cfg: Config, cells: seq<Cell>): seq<Cell> {
    if cells == [] then []
    else Snoc(cfg, Coalesce(cfg, cells[..|cells| - 1]), cells[|cells| - 1])
  }

  function Swept(cfg: Config, cells: seq<Cell>, epoch: int): seq<Cell> {
    Coalesce(cfg, ReapAll(cells, epoch))
  }

  /** The offsets of the free cells, highest address first: the list the sweep builds. */
  function FreeListOf(cells: seq<Cell>): seq<int> {
    if cells == [] then []
    else
      var n := |cells| - 1;
      (if IsFree(cells[n]) then [cells[n].at] else []) + FreeListOf(cells[..n])
  }

  lemma {:induction false} ReapAllAt(cells: seq<Cell>, epoch: int)
    ensures |ReapAll(cells, epoch)| == |cells|
    ensures forall i :: 0 <= i < |cells| ==> ReapAll(cells, epoch)[i] == Reaped(cells[i], epoch)
  {
    if cells != [] { ReapAllAt(cells[..|cells| - 1], epoch); }
  }

  // ---- Coalescing is a homomorphism -----------------------------------------------------------

  function Join(cfg: Config, p: seq<Cell>, q: seq<Cell>): seq<Cell> {
    if p != [] && q != [] && IsFree(p[|p| - 1]) && IsFree(q[0]) then
      p[..|p| - 1] + [Absorbed(cfg, p[|p| - 1], q[0])] + q[1..]
    else p + q
  }

  lemma JoinSnoc(cfg: Config, p: seq<Cell>, q: seq<Cell>, c: Cell)
    requires q != []
    ensures Snoc(cfg, Join(cfg, p, q), c) == Join(cfg, p, Snoc(cfg, q, c))
  {
    var j := Join(cfg, p, q);
    var s := Snoc(cfg, q, c);
    if p != [] && IsFree(p[|p| - 1]) && IsFree(q[0]) && IsFree(q[|q| - 1]) && IsFree(c) && |q| > 1 {
      assert s[1..] == q[1..|q| - 1] + [Absorbed(cfg, q[|q| - 1], c)];
      assert j[..|j| - 1] == p[..|p| - 1] + [Absorbed(cfg, p[|p| - 1], q[0])] + q[1..|q| - 1];
    }
  }

  lemma {:induction false} CoalesceConcat(cfg: Config, a: seq<Cell>, b: seq<Cell>)
    ensures Coalesce(cfg, a + b) == Join(cfg, Coalesce(cfg, a), Coalesce(cfg, b))
    ensures b != [] ==> Coalesce(cfg, b) != []
  {
    if b == [] {
      assert a + b == a;
    } else {
      var n := |b| - 1;
      assert (a + b)[..|a + b| - 1] == a + b[..n];
      CoalesceConcat(cfg, a, b[..n]);
      if b[..n] != [] {
        JoinSnoc(cfg, Coalesce(cfg, a), Coalesce(cfg, b[..n]), b[n]);
      }
    }
  }

  lemma {:induction false} CoalesceFixed(cfg: Config, cells: seq<Cell>)
    requires Coalesced(cells)
    ensures Coalesce(cfg, cells) == cells
  {
    if cells != [] {
      var n := |cells| - 1;
      CoalesceFixed(cfg, cells[..n]);
      assert n > 0 ==> !(IsFree(cells[n - 1]) && IsFree(cells[n]));
      assert cells == cells[..n] + [cells[n]];
    }
  }

  /** Coalescing leaves no two free neighbours. */
  lemma {:induction false} CoalesceCoalesced(cfg: Config, cells: seq<Cell>)
    ensures Coalesced(Coalesce(cfg, cells))
    ensures cells != [] ==> Coalesce(cfg, cells) != []
    ensures cells != [] ==> (IsFree(Coalesce(cfg, cells)[|Coalesce(cfg, cells)| - 1]) <==> IsFree(cells[|cells| - 1]))
  {
    if cells != [] {
      var n := |cells| - 1;
      CoalesceCoalesced(cfg, cells[..n]);
      var p := Coalesce(cfg, cells[..n]);
      var r := Coalesce(cfg, cells);
      assert r == Snoc(cfg, p, cells[n]);
      forall i, j | 0 <= i && j == i + 1 && j < |r| ensures !(IsFree(r[i]) && IsFree(r[j])) {
        if j < |p| { assert IsFree(r[i]) == IsFree(p[i]) && IsFree(r[j]) == IsFree(p[j]); }
      }
    }
  }

  /** A live cell is a fixed point around which the two sides coalesce independently. */
  lemma CoalesceAround(cfg: Config, a: seq<Cell>, c: Cell, b: seq<Cell>)
    ensures Coalesce(cfg, [c]) == [c]
    ensures !IsFree(c) ==> Coalesce(cfg, a + [c] + b) == Coalesce(cfg, a) + [c] + Coalesce(cfg, b)
    ensures Coalesce(cfg, a + [c] + b)
         == Join(cfg, Join(cfg, Coalesce(cfg, a), [c]), Coalesce(cfg, b))
  {
    assert [c][..0] == [];
    CoalesceConcat(cfg, a + [c], b);
    CoalesceConcat(cfg, a, [c]);
  }

  lemma CoalesceIdempotent(cfg: Config, cells: seq<Cell>)
    ensures Coalesce(cfg, Coalesce(cfg, cells)) == Coalesce(cfg, cells)
  {
    CoalesceCoalesced(cfg, cells);
    CoalesceFixed(cfg, Coalesce(cfg, cells));
  }

  // ---- One release ----------------------------------------------------------------------------

  lemma MergeInMiddle(cfg: Config, a: seq<Cell>, c: Cell, d: Cell, b: seq<Cell>)
    ensures MergeAt(cfg, a + [c, d] + b, |a|) == a + [Absorbed(cfg, c, d)] + b
  {
    var s := a + [c, d] + b;
    assert s[..|a|] == a && s[|a| + 2..] == b;
  }

  lemma AbsorbRightAt(cfg: Config, a: seq<Cell>, f: Cell, b: seq<Cell>)
    ensures AbsorbRight(cfg, a + [f] + b, |a|)
         == if b != [] && IsFree(b[0]) then a + [Absorbed(cfg, f, b[0])] + b[1..] else a + [f] + b
  {
    if b != [] && IsFree(b[0]) {
      assert a + [f] + b == a + [f, b[0]] + b[1..];
      MergeInMiddle(cfg, a, f, b[0], b[1..]);
    }
  }

  lemma AbsorbLeftAt(cfg: Config, a: seq<Cell>, f: Cell, b: seq<Cell>)
    ensures AbsorbLeft(cfg, a + [f] + b, |a|)
         == if a != [] && IsFree(a[|a| - 1]) then a[..|a| - 1] + [Absorbed(cfg, a[|a| - 1], f)] + b else a + [f] + b
  {
    if a != [] && IsFree(a[|a| - 1]) {
      var n := |a| - 1;
      assert a + [f] + b == a[..n] + [a[n], f] + b;
      MergeInMiddle(cfg, a[..n], a[n], f, b);
    }
  }

  lemma JoinFree(cfg: Config, a: seq<Cell>, f: Cell, b: seq<Cell>)
    requires IsFree(f)
    ensures Join(cfg, Join(cfg, a, [f]), b) ==
      (var g := if a != [] && IsFree(a[|a| - 1]) then Absorbed(cfg, a[|a| - 1], f) else f;
       var l := if a != [] && IsFree(a[|a| - 1]) then a[..|a| - 1] else a;
       if b != [] && IsFree(b[0]) then l + [Absorbed(cfg, g, b[0])] + b[1..] else l + [g] + b)
  {
    var l := if a != [] && IsFree(a[|a| - 1]) then a[..|a| - 1] else a;
    var j := Join(cfg, a, [f]);
    assert j[..|j| - 1] == l;
  }

  lemma AbsorbBoth(cfg: Config, a: seq<Cell>, f: Cell, b: seq<Cell>)
    requires IsFree(f)
    ensures AbsorbLeft(cfg, AbsorbRight(cfg, a + [f] + b, |a|), |a|) == Join(cfg, Join(cfg, a, [f]), b)
  {
    JoinFree(cfg, a, f, b);
    AbsorbRightAt(cfg, a, f, b);
    if b != [] && IsFree(b[0]) {
      AbsorbLeftAt(cfg, a, Absorbed(cfg, f, b[0]), b[1..]);
    } else {
      AbsorbLeftAt(cfg, a, f, b);
    }
  }

  /** Releasing cell i of a coalesced chain is freeing it and coalescing again. */
  lemma ReleasedIsCoalesce(cfg: Config, a: seq<Cell>, c: Cell, b: seq<Cell>)
    requires Coalesced(a) && Coalesced(b)
    ensures Released(cfg, a + [c] + b, |a|) == Coalesce(cfg, a + [Freed(c)] + b)
  {
    var f := Freed(c);
    assert (a + [c] + b)[|a| := f] == a + [f] + b;
    CoalesceAround(cfg, a, f, b);
    CoalesceFixed(cfg, a);
    CoalesceFixed(cfg, b);
    AbsorbBoth(cfg, a, f, b);
  }

  // ---- Releasing every dead block ---------------------------------------------------------------

  /** Free the cells at these offsets, without coalescing. */
  function FreeOff(cells: seq<Cell>, off: set<int>): seq<Cell> {
    if cells == [] then []
    else
      var n := |cells| - 1;
      FreeOff(cells[..n], off) + [if cells[n].at in off then Freed(cells[n]) else cells[n]]
  }

  lemma {:induction false} FreeOffAt(cells: seq<Cell>, off: set<int>)
    ensures |FreeOff(cells, off)| == |cells|
    ensures forall i :: 0 <= i < |cells| ==>
              FreeOff(cells, off)[i] == if cells[i].at in off then Freed(cells[i]) else cells[i]
  {
    if cells != [] { FreeOffAt(cells[..|cells| - 1], off); }
  }

  /** Release the blocks at these offsets, one after the other. */
  ghost function ReleaseEach(cfg: Config, cells: seq<Cell>, order: seq<int>): seq<Cell>
    decreases |order|
  {
    if order == [] then cells
    else
      var i := IndexOf(cells, order[0]);
      ReleaseEach(cfg, if i < |cells| then Released(cfg, cells, i) else cells, order[1..])
  }

  ghost predicate DistinctOffsets(cells: seq<Cell>) {
    forall i, j :: 0 <= i < |cells| && 0 <= j < |cells| && i != j ==> cells[i].at != cells[j].at
  }

  lemma {:induction false} CoalesceOffsets(cfg: Config, cells: seq<Cell>, x: int)
    requires forall i :: 0 <= i < |cells| ==> cells[i].at != x
    ensures forall i :: 0 <= i < |Coalesce(cfg, cells)| ==> Coalesce(cfg, cells)[i].at != x
  {
    if cells != [] { CoalesceOffsets(cfg, cells[..|cells| - 1], x); }
  }

  lemma IndexInMiddle(a: seq<Cell>, c: Cell, b: seq<Cell>)
    requires forall i :: 0 <= i < |a| ==> a[i].at != c.at
    ensures IndexOf(a + [c] + b, c.at) == |a|
  {
    var s := a + [c] + b;
    assert s[|a|] == c;
    assert forall i :: 0 <= i < |a| ==> s[i] == a[i];
  }

  /** Releasing live block c inside a coalesced heap is coalescing the heap with c freed. */
  lemma ReleaseInCoalesced(cfg: Config, a: seq<Cell>, c: Cell, b: seq<Cell>)
    requires !IsFree(c) && forall i :: 0 <= i < |a| ==> a[i].at != c.at
    ensures var k := Coalesce(cfg, a + [c] + b);
            && IndexOf(k, c.at) < |k|
            && Released(cfg, k, IndexOf(k, c.at)) == Coalesce(cfg, a + [Freed(c)] + b)
  {
    var ka, kb := Coalesce(cfg, a), Coalesce(cfg, b);
    CoalesceAround(cfg, a, c, b);
    CoalesceOffsets(cfg, a, c.at);
    IndexInMiddle(ka, c, kb);
    CoalesceCoalesced(cfg, a);
    CoalesceCoalesced(cfg, b);
    ReleasedIsCoalesce(cfg, ka, c, kb);
    CoalesceAround(cfg, ka, Freed(c), kb);
    CoalesceIdempotent(cfg, a);
    CoalesceIdempotent(cfg, b);
    CoalesceAround(cfg, a, Freed(c), b);
  }

  /** Freeing one more block before coalescing. */
  lemma ReleaseOneMore(cfg: Config, cells: seq<Cell>, off: set<int>, d: int)
    requires DistinctOffsets(cells) && d !in off
    requires exists j :: 0 <= j < |cells| && cells[j].at == d && !IsFree(cells[j])
    ensures var k := Coalesce(cfg, FreeOff(cells, off));
            && IndexOf(k, d) < |k|
            && Released(cfg, k, IndexOf(k, d)) == Coalesce(cfg, FreeOff(cells, off + {d}))
  {
    var j :| 0 <= j < |cells| && cells[j].at == d && !IsFree(cells[j]);
    FreeOffAt(cells, off);
    FreeOffAt(cells, off + {d});
    var x, y := FreeOff(cells, off), FreeOff(cells, off + {d});
    assert x == x[..j] + [x[j]] + x[j + 1..];
    assert y == x[..j] + [Freed(x[j])] + x[j + 1..];
    ReleaseInCoalesced(cfg, x[..j], x[j], x[j + 1..]);
  }

  lemma OrderRest(off: set<int>, order: seq<int>)
    requires order != [] && Distinct(order)
    ensures order[0] in order && Distinct(order[1..])
    ensures forall x :: x in order[1..] ==> x in order && x != order[0]
    ensures off + (set y | y in order) == (off + {order[0]}) + (set y | y in order[1..])
  {
    var rest := order[1..];
    forall x | x in rest ensures x in order && x != order[0] {
      var k :| 0 <= k < |rest| && rest[k] == x;
      assert order[k + 1] == x;
    }
  }

  lemma {:induction false} ReleaseEachFrom(cfg: Config, cells: seq<Cell>, off: set<int>, order: seq<int>)
    requires DistinctOffsets(cells) && Distinct(order)
    requires forall x :: x in order ==>
               x !in off && exists i :: 0 <= i < |cells| && cells[i].at == x && !IsFree(cells[i])
    ensures ReleaseEach(cfg, Coalesce(cfg, FreeOff(cells, off)), order)
         == Coalesce(cfg, FreeOff(cells, off + set x | x in order))
    decreases |order|
  {
    if order == [] {
      assert off + (set x | x in order) == off;
    } else {
      var d, rest := order[0], order[1..];
      OrderRest(off, order);
      ReleaseOneMore(cfg, cells, off, d);
      hide Released, Coalesce, FreeOff, Distinct, IndexOf;
      ReleaseEachFrom(cfg, cells, off + {d}, rest);
    }
  }

  /** Offset x is that of a block the sweep reclaims. */
  ghost predicate DeadAt(cells: seq<Cell>, x: int, epoch: int) {
    exists i :: 0 <= i < |cells| && cells[i].at == x && Dead(cells[i], epoch)
  }

  lemma FreeOffIsReap(cells: seq<Cell>, off: set<int>, epoch: int)
    requires DistinctOffsets(cells)
    requires forall x :: x in off <==> DeadAt(cells, x, epoch)
    ensures FreeOff(cells, off) == ReapAll(cells, epoch)
  {
    FreeOffAt(cells, off);
    ReapAllAt(cells, epoch);
    forall i | 0 <= i < |cells| ensures FreeOff(cells, off)[i] == ReapAll(cells, epoch)[i] {
      if cells[i].at in off {
        var j :| 0 <= j < |cells| && cells[j].at == cells[i].at && Dead(cells[j], epoch);
        assert i == j;
      }
    }
  }

  lemma SweepOrder(cfg: Config, cells: seq<Cell>, epoch: int, order: seq<int>)
    requires DistinctOffsets(cells) && Coalesced(cells) && Distinct(order)
    requires forall x :: x in order <==> DeadAt(cells, x, epoch)
    ensures ReleaseEach(cfg, cells, order) == Swept(cfg, cells, epoch)
  {
    var off := set x | x in order;
    CoalesceFixed(cfg, cells);
    FreeOffAt(cells, {});
    assert FreeOff(cells, {}) == cells;
    ReleaseEachFrom(cfg, cells, {}, order);
    FreeOffIsReap(cells, off, epoch);
    assert {} + off == off;
  }

  /** The one-pass sweep yields the same blocks as releasing each dead block in turn, in any order. */
  lemma SweepIsRepeatedRelease(cfg: Config, cells: seq<Cell>, list: seq<int>, top: int, epoch: int, order: seq<int>)
    requires Shape(cfg, cells, list, top) && Distinct(order)
    requires forall x :: x in order <==> DeadAt(cells, x, epoch)
    ensures ReleaseEach(cfg, cells, order) == Swept(cfg, cells, epoch)
  {
    TiledFacts(cfg, cells, top);
    SweepOrder(cfg, cells, epoch, order);
  }

  // ---- What survives ----------------------------------------------------------------------------

  lemma {:induction false} CoalesceLive(cfg: Config, cells: seq<Cell>, c: Cell)
    requires !IsFree(c)
    ensures c in Coalesce(cfg, cells) <==> c in cells
  {
    if cells != [] {
      var n := |cells| - 1;
      var p := Coalesce(cfg, cells[..n]);
      CoalesceLive(cfg, cells[..n], c);
      assert c in cells <==> c in cells[..n] || c == cells[n];
      SnocLive(cfg, p, cells[n], c);
    }
  }

  lemma SnocLive(cfg: Config, p: seq<Cell>, x: Cell, c: Cell)
    requires !IsFree(c)
    ensures c in Snoc(cfg, p, x) <==> c in p || c == x
  {
    var n := |p|;
    if n > 0 && IsFree(p[n - 1]) && IsFree(x) {
      assert c in p <==> c in p[..n - 1] || c == p[n - 1];
    }
  }

  /** After a sweep the live blocks are the live blocks of before that were RAW or carried the
      epoch, each with the same offset, capacity, size, flags and mark. */
  lemma SweepSurvivors(cfg: Config, cells: seq<Cell>, epoch: int, c: Cell)
    requires !IsFree(c)
    ensures c in Swept(cfg, cells, epoch) <==> c in cells && !Dead(c, epoch)
  {
    CoalesceLive(cfg, ReapAll(cells, epoch), c);
    ReapAllAt(cells, epoch);
    var r := ReapAll(cells, epoch);
    if c in r {
      var i :| 0 <= i < |r| && r[i] == c;
      assert c == Reaped(cells[i], epoch);
    }
    if c in cells && !Dead(c, epoch) {
      var i :| 0 <= i < |cells| && cells[i] == c;
      assert r[i] == c;
    }
  }
}
