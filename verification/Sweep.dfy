/** The sweep: one pass in address order that frees dead blocks and rebuilds the free list. */
module Sweep {
  import opened HeapModel
  import opened HeapSpec
  import opened SweepSpec
  import opened Heap

  // ---- The rebuilt list -----------------------------------------------------------------------

  lemma {:induction false} FreeListOfAt(cells: seq<Cell>, y: int)
    ensures y in FreeListOf(cells) <==> FreeAt(cells, y)
  {
    if cells != [] {
      var n := |cells| - 1;
      FreeListOfAt(cells[..n], y);
      SplitFreeAt(cells, n, n, y);
      assert cells[n..n] == [] && cells[n..] == [cells[n]];
      assert FreeAt([cells[n]], y) <==> IsFree(cells[n]) && cells[n].at == y by {
        if IsFree(cells[n]) && cells[n].at == y { assert [cells[n]][0].at == y; }
      }
    }
  }

  lemma {:induction false} FreeListOfLists(cells: seq<Cell>)
    requires DistinctOffsets(cells)
    ensures Lists(FreeListOf(cells), cells)
  {
    forall y ensures y in FreeListOf(cells) <==> FreeAt(cells, y) { FreeListOfAt(cells, y); }
    if cells != [] {
      var n := |cells| - 1;
      FreeListOfLists(cells[..n]);
      FreeListOfAt(cells[..n], cells[n].at);
      if IsFree(cells[n]) { PrependDistinct(cells[n].at, FreeListOf(cells[..n])); }
    }
  }

  lemma FreeListOfSnoc(cfg: Config, p: seq<Cell>, c: Cell)
    ensures FreeListOf(Snoc(cfg, p, c)) ==
      if IsFree(c) && !(p != [] && IsFree(p[|p| - 1])) then [c.at] + FreeListOf(p) else FreeListOf(p)
  {
    var s := Snoc(cfg, p, c);
    var n := |p|;
    if n > 0 && IsFree(p[n - 1]) && IsFree(c) {
      assert s[..n - 1] == p[..n - 1];
    } else {
      assert s[..n] == p;
    }
  }

  // ---- The counters ---------------------------------------------------------------------------

  /** The kind by which the collector counts a block. */
  function KindOf(c: Cell): Flag {
    if OBJECT in c.flags then OBJECT else if ARRAY in c.flags then ARRAY else STRING
  }

  lemma OnlyKind(c: Cell, k: Flag)
    requires Wellformed(c) && !IsFree(c) && k in MANAGED
    requires OBJECT in c.flags || ARRAY in c.flags || STRING in c.flags
    ensures k in c.flags <==> k == KindOf(c)
  {
    var only :| only in KINDS && c.flags * KINDS == {only};
    assert k in c.flags ==> k in c.flags * KINDS;
    assert KindOf(c) in c.flags * KINDS;
  }

  lemma RetireTallied(cells: seq<Cell>, i: nat, count: map<Flag, int>, bytes: map<Flag, int>)
    requires AllWellformed(cells) && Tallied(cells, count, bytes) && i < |cells| && !IsFree(cells[i])
    requires OBJECT in cells[i].flags || ARRAY in cells[i].flags || STRING in cells[i].flags
    ensures var k := KindOf(cells[i]);
            Tallied(cells[i := Freed(cells[i])], count[k := count[k] - 1], bytes[k := bytes[k] - cells[i].requested])
  {
    var f := Freed(cells[i]);
    var c := cells[i := f];
    assert c == cells[..i] + [f] + cells[i + 1..];
    forall k | k in MANAGED
      ensures Count(c, k) == Count(cells, k) - (if k == KindOf(cells[i]) then 1 else 0)
      ensures Bytes(c, k) == Bytes(cells, k) - (if k == KindOf(cells[i]) then cells[i].requested else 0)
    {
      CountSplice(cells, i, [f], k);
      CountSingle(f, k);
      CountSingle(cells[i], k);
      assert Wellformed(cells[i]);
      OnlyKind(cells[i], k);
      assert k != FREE by { assert FREE !in MANAGED; }
    }
  }

  lemma RetireWellformed(cells: seq<Cell>, i: nat)
    requires AllWellformed(cells) && i < |cells|
    ensures AllWellformed(cells[i := Freed(cells[i])])
  {
    var c := cells[i := Freed(cells[i])];
    forall j | 0 <= j < |c| ensures Wellformed(c[j]) { if j != i { assert Wellformed(cells[j]); } }
  }

  lemma MergeTallied(cfg: Config, cells: seq<Cell>, i: nat, count: map<Flag, int>, bytes: map<Flag, int>)
    requires Tallied(cells, count, bytes) && i + 1 < |cells|
    requires cells[i].flags == {FREE} && cells[i + 1].flags == {FREE}
    ensures Tallied(MergeAt(cfg, cells, i), count, bytes)
  {
    forall k | k in MANAGED
      ensures Count(MergeAt(cfg, cells, i), k) == Count(cells, k) && Bytes(MergeAt(cfg, cells, i), k) == Bytes(cells, k)
    {
      assert k != FREE by { assert FREE !in MANAGED; }
      MergeCounts(cfg, cells, i, k);
    }
  }

  lemma MergeCounts(cfg: Config, cells: seq<Cell>, i: nat, k: Flag)
    requires i + 1 < |cells| && k != FREE
    requires cells[i].flags == {FREE} && cells[i + 1].flags == {FREE}
    ensures Count(MergeAt(cfg, cells, i), k) == Count(cells, k) && Bytes(MergeAt(cfg, cells, i), k) == Bytes(cells, k)
  {
    var a, b := cells[..i], cells[i + 2..];
    var m := Absorbed(cfg, cells[i], cells[i + 1]);
    CountConcat(a + [m], b, k);
    CountConcat(a, [m], k);
    CountSingle(m, k);
    assert cells == a + [cells[i], cells[i + 1]] + b;
    CountConcat(a + [cells[i], cells[i + 1]], b, k);
    CountConcat(a, [cells[i], cells[i + 1]], k);
    assert [cells[i], cells[i + 1]] == [cells[i]] + [cells[i + 1]];
    CountConcat([cells[i]], [cells[i + 1]], k);
    CountSingle(cells[i], k);
    CountSingle(cells[i + 1], k);
  }

  // ---- The pass -------------------------------------------------------------------------------

  /** Sweep the remaining cells onto an already swept prefix. */
  function SweepOnto(cfg: Config, p: seq<Cell>, rest: seq<Cell>, epoch: int): seq<Cell>
    decreases |rest|
  {
    if rest == [] then p else SweepOnto(cfg, Snoc(cfg, p, Reaped(rest[0], epoch)), rest[1..], epoch)
  }

  lemma {:induction false} SweepOntoIsSwept(cfg: Config, a: seq<Cell>, b: seq<Cell>, epoch: int)
    ensures SweepOnto(cfg, Swept(cfg, a, epoch), b, epoch) == Swept(cfg, a + b, epoch)
    decreases |b|
  {
    if b == [] {
      assert a + b == a;
    } else {
      var c := a + [b[0]];
      assert c[..|a|] == a;
      assert c + b[1..] == a + b;
      var r := ReapAll(c, epoch);
      assert r[..|r| - 1] == ReapAll(a, epoch);
      SweepOntoIsSwept(cfg, c, b[1..], epoch);
    }
  }

  /** A run in progress: the last swept cell when it is free. */
  function RunAt(p: seq<Cell>): int {
    if p != [] && IsFree(p[|p| - 1]) then p[|p| - 1].at else NULL
  }

  /** Accounts of what the pass has reclaimed so far, by kind. */
  ghost predicate Accounted(cells: seq<Cell>, h: Arena, gone: map<Flag, int>, goneBytes: map<Flag, int>)
    reads h
  {
    && Tallied(h.cells, h.count, h.bytes)
    && forall k :: k in MANAGED ==>
         && k in gone && gone[k] == Count(cells, k) - h.count[k]
         && k in goneBytes && goneBytes[k] == Bytes(cells, k) - h.bytes[k]
  }

  /** First half of an iteration: a dead block leaves the counters and becomes free. */
  method Reap(h: Arena, epoch: int, block: int, gone: map<Flag, int>, goneBytes: map<Flag, int>,
              ghost cells: seq<Cell>, ghost i: nat)
      returns (gone': map<Flag, int>, goneBytes': map<Flag, int>)
    requires h.Chained() && FreeChain(h.mem, h.free, h.list) && AllWellformed(h.cells)
    requires i < |h.cells| && h.cells[i].at == block && Accounted(cells, h, gone, goneBytes)
    modifies h`mem, h`cells, h`count, h`bytes
    ensures h.Chained() && FreeChain(h.mem, h.free, h.list) && AllWellformed(h.cells)
    ensures h.cells == old(h.cells)[i := Reaped(old(h.cells)[i], epoch)]
    ensures Accounted(cells, h, gone', goneBytes')
  {
    gone', goneBytes' := gone, goneBytes;
    assert LinkedAt(h.mem, h.cells, i);
    var flags := h.mem[block].flags;
    if FREE !in flags && h.mem[block].mark != epoch && (OBJECT in flags || ARRAY in flags || STRING in flags) {
      var reclaimed := h.mem[block].requested;
      var k := if OBJECT in flags then OBJECT else if ARRAY in flags then ARRAY else STRING;
      RetireTallied(h.cells, i, h.count, h.bytes);
      RetireWellformed(h.cells, i);
      gone', goneBytes' := gone[k := gone[k] + 1], goneBytes[k := goneBytes[k] + reclaimed];
      h.count, h.bytes := h.count[k := h.count[k] - 1], h.bytes[k := h.bytes[k] - reclaimed];
      h.Retire(block, i);
    }
  }

  lemma MergeWellformed(cfg: Config, cells: seq<Cell>, i: nat)
    requires AllWellformed(cells) && i + 1 < |cells| && IsFree(cells[i]) && IsFree(cells[i + 1])
    ensures AllWellformed(MergeAt(cfg, cells, i))
  {
    var m := MergeAt(cfg, cells, i);
    forall j | 0 <= j < |m| ensures Wellformed(m[j]) {
      if j < i { assert m[j] == cells[j]; }
      if j == i { assert Wellformed(cells[i]); }
      if j > i { assert m[j] == cells[j + 1]; }
    }
  }

  lemma SnocInPlace(cfg: Config, cells: seq<Cell>, i: nat)
    requires i < |cells|
    ensures RunAt(cells[..i]) != NULL && IsFree(cells[i]) ==>
              i > 0 && MergeAt(cfg, cells, i - 1) == Snoc(cfg, cells[..i], cells[i]) + cells[i + 1..]
    ensures !(i > 0 && IsFree(cells[i - 1]) && IsFree(cells[i])) ==>
              cells == Snoc(cfg, cells[..i], cells[i]) + cells[i + 1..]
    ensures RunAt(Snoc(cfg, cells[..i], cells[i])) ==
              if !IsFree(cells[i]) then NULL
              else if i > 0 && IsFree(cells[i - 1]) then cells[i - 1].at else cells[i].at
  {
    if i > 0 {
      assert cells[..i][..i - 1] == cells[..i - 1] && cells[..i][i - 1] == cells[i - 1];
    }
  }

  /** Grow the current run over a free block. */
  method Extend(h: Arena, block: int, run: int, ghost i: nat)
    requires h.Chained() && FreeChain(h.mem, h.free, h.list) && AllWellformed(h.cells)
    requires 0 < i < |h.cells| && h.cells[i].at == block && h.cells[i - 1].at == run
    requires IsFree(h.cells[i - 1]) && IsFree(h.cells[i]) && Tallied(h.cells, h.count, h.bytes)
    modifies h`mem, h`last, h`cells
    ensures h.Chained() && FreeChain(h.mem, h.free, h.list) && AllWellformed(h.cells)
    ensures h.cells == MergeAt(h.cfg, old(h.cells), i - 1) && Tallied(h.cells, h.count, h.bytes)
  {
    assert Wellformed(h.cells[i - 1]) && Wellformed(h.cells[i]);
    MergeTallied(h.cfg, h.cells, i - 1, h.count, h.bytes);
    MergeWellformed(h.cfg, h.cells, i - 1);
    h.Absorb(run, block, i - 1);
  }

  /** Second half: a free block extends the current run, or starts one and joins the new list. */
  method Thread(h: Arena, block: int, run: int, ghost i: nat) returns (run': int)
    requires h.Chained() && FreeChain(h.mem, h.free, h.list) && AllWellformed(h.cells)
    requires i < |h.cells| && h.cells[i].at == block
    requires run == RunAt(h.cells[..i]) && h.list == FreeListOf(h.cells[..i])
    requires Tallied(h.cells, h.count, h.bytes)
    modifies h`mem, h`free, h`last, h`cells, h`list
    ensures h.Chained() && FreeChain(h.mem, h.free, h.list) && AllWellformed(h.cells)
    ensures var p := Snoc(h.cfg, old(h.cells)[..i], old(h.cells)[i]);
            h.cells == p + old(h.cells)[i + 1..] && run' == RunAt(p) && h.list == FreeListOf(p)
    ensures Tallied(h.cells, h.count, h.bytes)
  {
    TiledFacts(h.cfg, h.cells, h.top);
    assert LinkedAt(h.mem, h.cells, i);
    FreeListOfSnoc(h.cfg, h.cells[..i], h.cells[i]);
    SnocInPlace(h.cfg, h.cells, i);
    if FREE in h.mem[block].flags {
      if run != NULL {
        Extend(h, block, run, i);
        run' := run;
      } else {
        FreeListOfAt(h.cells[..i], block);
        assert i > 0 ==> !IsFree(h.cells[i - 1]);
        run' := block;
        ghost var was := h.mem;
        h.FreeAdd(block);
        LinkedFrame(was, h.mem, h.cells);
      }
    } else {
      run' := NULL;
    }
  }

  /** One iteration, seen from the swept prefix p and the cells still to visit. */
  method SweepStep(h: Arena, epoch: int, block: int, run: int, gone: map<Flag, int>, goneBytes: map<Flag, int>,
                   ghost cells: seq<Cell>, ghost p: seq<Cell>, ghost rest: seq<Cell>)
      returns (next: int, run': int, gone': map<Flag, int>, goneBytes': map<Flag, int>)
    requires h.Chained() && FreeChain(h.mem, h.free, h.list) && AllWellformed(h.cells)
    requires rest != [] && h.cells == p + rest && block == rest[0].at
    requires run == RunAt(p) && h.list == FreeListOf(p) && Accounted(cells, h, gone, goneBytes)
    modifies h`mem, h`free, h`last, h`count, h`bytes, h`cells, h`list
    ensures h.Chained() && FreeChain(h.mem, h.free, h.list) && AllWellformed(h.cells)
    ensures h.cells == Snoc(h.cfg, p, Reaped(rest[0], epoch)) + rest[1..] && next == FirstAt(rest[1..])
    ensures run' == RunAt(Snoc(h.cfg, p, Reaped(rest[0], epoch)))
    ensures h.list == FreeListOf(Snoc(h.cfg, p, Reaped(rest[0], epoch)))
    ensures Accounted(cells, h, gone', goneBytes')
  {
    ghost var i := |p|;
    assert h.cells[i] == rest[0] && h.cells[..i] == p && h.cells[i + 1..] == rest[1..];
    assert LinkedAt(h.mem, h.cells, i);
    next := h.mem[block].next;
    gone', goneBytes' := Reap(h, epoch, block, gone, goneBytes, cells, i);
    assert h.cells[..i] == p && h.cells[i + 1..] == rest[1..];
    run' := Thread(h, block, run, i);
  }

  lemma SweptShape(cfg: Config, cells: seq<Cell>, epoch: int, top: int)
    requires cfg.Valid() && top <= cfg.size
    requires Tiled(cfg, Swept(cfg, cells, epoch), top) && AllWellformed(Swept(cfg, cells, epoch))
    ensures Shape(cfg, Swept(cfg, cells, epoch), FreeListOf(Swept(cfg, cells, epoch)), top)
  {
    var s := Swept(cfg, cells, epoch);
    CoalesceCoalesced(cfg, ReapAll(cells, epoch));
    TiledFacts(cfg, s, top);
    FreeListOfLists(s);
  }

  lemma FirstIsReal(cfg: Config, cells: seq<Cell>, top: int, p: seq<Cell>, rest: seq<Cell>)
    requires cfg.Valid() && Tiled(cfg, cells, top) && cells == p + rest
    ensures rest != [] ==> FirstAt(rest) >= 0
  {
    TiledFacts(cfg, cells, top);
    if rest != [] { assert rest[0] == cells[|p|]; }
  }

  /** The pass itself. */
  method SweepAll(h: Arena, epoch: int) returns (gone: map<Flag, int>, goneBytes: map<Flag, int>)
    requires h.Chained() && AllWellformed(h.cells) && Tallied(h.cells, h.count, h.bytes)
    modifies h`mem, h`free, h`last, h`count, h`bytes, h`cells, h`list
    ensures h.Chained() && FreeChain(h.mem, h.free, h.list) && AllWellformed(h.cells)
    ensures h.cells == SweepOnto(h.cfg, [], old(h.cells), epoch) && h.list == FreeListOf(h.cells)
    ensures Accounted(old(h.cells), h, gone, goneBytes)
  {
    gone := map[OBJECT := 0, ARRAY := 0, STRING := 0];
    goneBytes := map[OBJECT := 0, ARRAY := 0, STRING := 0];
    ghost var cells := h.cells;
    ghost var p, rest := [], h.cells;
    h.free, h.list := NULL, [];
    var run := NULL;
    var block := h.first;
    while block != NULL
      invariant block == FirstAt(rest) && h.cells == p + rest
      invariant SweepOnto(h.cfg, p, rest, epoch) == SweepOnto(h.cfg, [], cells, epoch)
      invariant h.Chained() && FreeChain(h.mem, h.free, h.list) && AllWellformed(h.cells)
      invariant run == RunAt(p) && h.list == FreeListOf(p)
      invariant Accounted(cells, h, gone, goneBytes)
      decreases |rest|
    {
      block, run, gone, goneBytes := SweepStep(h, epoch, block, run, gone, goneBytes, cells, p, rest);
      p, rest := Snoc(h.cfg, p, Reaped(rest[0], epoch)), rest[1..];
    }
    FirstIsReal(h.cfg, h.cells, h.top, p, rest);
  }

  /** `collect_objects`, lines 2341-2385: reclaim what the epoch did not reach. */
  method SweepHeap(h: Arena, epoch: int) returns (gone: map<Flag, int>, goneBytes: map<Flag, int>)
    requires h.Valid()
    modifies h`mem, h`free, h`last, h`count, h`bytes, h`cells, h`list
    ensures h.Valid()
    ensures h.cells == Swept(h.cfg, old(h.cells), epoch) && h.list == FreeListOf(h.cells)
    ensures Accounted(old(h.cells), h, gone, goneBytes)
  {
    assert Swept(h.cfg, [], epoch) == [] && [] + h.cells == h.cells;
    SweepOntoIsSwept(h.cfg, [], h.cells, epoch);
    gone, goneBytes := SweepAll(h, epoch);
    SweptShape(h.cfg, old(h.cells), epoch, h.top);
  }
}
