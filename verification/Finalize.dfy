/** The flag passes of a collection: queueing finalizers, taking the next one, and clearing after an escape. */
module Finalize {
  import opened HeapModel
  import opened MarkSpec
  import opened Heap

  /** An unreached Object whose finalizer has not been entered yet. */
  predicate Due(c: Cell, payloads: Payloads, epoch: int) {
    && !IsFree(c) && OBJECT in c.flags && c.mark != epoch
    && c.at in payloads && payloads[c.at].finalizer && FINALIZED !in c.flags
  }

  function Queued(c: Cell, payloads: Payloads, epoch: int): Cell {
    if Due(c, payloads, epoch) then c.(flags := c.flags + {PENDING}) else c
  }

  function Entered(c: Cell): Cell { c.(flags := c.flags - {PENDING} + {FINALIZED}) }

  function Cleared(c: Cell): Cell { c.(flags := c.flags - {PENDING}) }

  ghost predicate AllQueued(a: seq<Cell>, b: seq<Cell>, payloads: Payloads, epoch: int) {
    |a| == |b| && forall i :: 0 <= i < |a| ==> b[i] == Queued(a[i], payloads, epoch)
  }

  ghost predicate AllCleared(a: seq<Cell>, b: seq<Cell>) {
    |a| == |b| && forall i :: 0 <= i < |a| ==> b[i] == Cleared(a[i])
  }

  function DueCount(cells: seq<Cell>, payloads: Payloads, epoch: int): nat {
    if cells == [] then 0
    else DueCount(cells[..|cells| - 1], payloads, epoch) + (if Due(cells[|cells| - 1], payloads, epoch) then 1 else 0)
  }

  /** Two chains that differ at most in marks and finalizer flags. */
  ghost predicate SameBlocks(a: seq<Cell>, b: seq<Cell>) {
    |a| == |b| && forall i :: 0 <= i < |a| ==> SameBlock(a[i], b[i])
  }

  predicate SameBlock(c: Cell, d: Cell) {
    && c.at == d.at && c.capacity == d.capacity && c.requested == d.requested
    && c.flags - {PENDING, FINALIZED} == d.flags - {PENDING, FINALIZED}
  }

  lemma SameBlockWellformed(c: Cell, d: Cell)
    requires SameBlock(c, d) && Wellformed(c)
    requires PENDING in d.flags || FINALIZED in d.flags ==> OBJECT in c.flags && !IsFree(c)
    ensures Wellformed(d) && (IsFree(c) <==> IsFree(d))
    ensures forall k :: k in KINDS ==> (k in c.flags <==> k in d.flags)
  {
    var off := {PENDING, FINALIZED};
    assert forall f :: f !in off ==> (f in c.flags <==> f in c.flags - off);
    assert forall f :: f !in off ==> (f in d.flags <==> f in d.flags - off);
    assert c.flags * KINDS == d.flags * KINDS;
    if IsFree(c) { assert d.flags == {FREE}; }
  }

  /** The finalizer flags of every Object, and of nothing else, may change without harm. */
  ghost predicate FlagsProper(cells: seq<Cell>) {
    forall i :: 0 <= i < |cells| && (PENDING in cells[i].flags || FINALIZED in cells[i].flags) ==>
      OBJECT in cells[i].flags && !IsFree(cells[i])
  }

  lemma SameBlocksShape(cfg: Config, a: seq<Cell>, b: seq<Cell>, list: seq<int>, top: int)
    requires Shape(cfg, a, list, top) && SameBlocks(a, b) && FlagsProper(b)
    ensures Shape(cfg, b, list, top)
  {
    forall i | 0 <= i < |b| ensures TiledAt(cfg, b, i) { assert TiledAt(cfg, a, i); }
    forall i | 0 <= i < |b| ensures Wellformed(b[i]) && (IsFree(a[i]) <==> IsFree(b[i])) {
      ProperObject(a[i], b[i]);
      SameBlockWellformed(a[i], b[i]);
    }
    forall y ensures FreeAt(a, y) <==> FreeAt(b, y) {
      if FreeAt(a, y) { var i :| 0 <= i < |a| && IsFree(a[i]) && a[i].at == y; assert IsFree(b[i]) && b[i].at == y; }
      if FreeAt(b, y) { var i :| 0 <= i < |b| && IsFree(b[i]) && b[i].at == y; assert IsFree(a[i]) && a[i].at == y; }
    }
  }

  lemma ProperObject(c: Cell, d: Cell)
    requires SameBlock(c, d)
    ensures IsFree(c) <==> IsFree(d)
    ensures forall k :: k in KINDS ==> (k in c.flags <==> k in d.flags)
  {
    var off := {PENDING, FINALIZED};
    assert forall f :: f !in off ==> (f in c.flags <==> f in c.flags - off);
    assert forall f :: f !in off ==> (f in d.flags <==> f in d.flags - off);
  }

  lemma {:induction false} SameBlocksCount(a: seq<Cell>, b: seq<Cell>, k: Flag)
    requires SameBlocks(a, b) && k in KINDS
    ensures Count(a, k) == Count(b, k) && Bytes(a, k) == Bytes(b, k)
  {
    if a != [] {
      var n := |a| - 1;
      SameBlocksCount(a[..n], b[..n], k);
      ProperObject(a[n], b[n]);
    }
  }

  lemma SameBlocksTallied(a: seq<Cell>, b: seq<Cell>, count: map<Flag, int>, bytes: map<Flag, int>)
    requires SameBlocks(a, b) && Tallied(a, count, bytes)
    ensures Tallied(b, count, bytes)
  {
    forall k | k in MANAGED ensures Count(a, k) == Count(b, k) && Bytes(a, k) == Bytes(b, k) {
      assert k in KINDS;
      SameBlocksCount(a, b, k);
    }
  }

  lemma SameBlocksValid(h: Arena, before: seq<Cell>)
    requires h.Chained() && FreeChain(h.mem, h.free, h.list) && h.top <= h.highWater <= h.cfg.size
    requires Shape(h.cfg, before, h.list, h.top) && Tallied(before, h.count, h.bytes)
    requires SameBlocks(before, h.cells) && FlagsProper(h.cells)
    ensures h.Valid()
  {
    SameBlocksShape(h.cfg, before, h.cells, h.list, h.top);
    SameBlocksTallied(before, h.cells, h.count, h.bytes);
  }

  lemma Proper(cells: seq<Cell>)
    requires AllWellformed(cells)
    ensures FlagsProper(cells)
  {
    forall i | 0 <= i < |cells| && (PENDING in cells[i].flags || FINALIZED in cells[i].flags)
      ensures OBJECT in cells[i].flags && !IsFree(cells[i])
    {
      assert Wellformed(cells[i]);
    }
  }

  lemma DueStep(cells: seq<Cell>, n: nat, payloads: Payloads, epoch: int)
    requires n < |cells|
    ensures DueCount(cells[..n + 1], payloads, epoch)
         == DueCount(cells[..n], payloads, epoch) + if Due(cells[n], payloads, epoch) then 1 else 0
  {
    assert cells[..n + 1][..n] == cells[..n];
  }

  lemma AllQueuedSame(a: seq<Cell>, b: seq<Cell>, payloads: Payloads, epoch: int)
    requires AllWellformed(a) && AllQueued(a, b, payloads, epoch)
    ensures SameBlocks(a, b) && FlagsProper(b)
  {
    Proper(a);
  }

  /** One block of the pass. */
  method QueueBlock(h: Arena, payloads: Payloads, epoch: int, block: int, ghost n: nat) returns (due: bool, next: int)
    requires h.Chained() && FreeChain(h.mem, h.free, h.list) && Contents(h.cells, payloads)
    requires n < |h.cells| && h.cells[n].at == block
    modifies h`mem, h`cells
    ensures h.Chained() && FreeChain(h.mem, h.free, h.list)
    ensures due == Due(old(h.cells)[n], payloads, epoch) && next == CellAt(old(h.cells), n + 1)
    ensures h.cells == old(h.cells)[n := Queued(old(h.cells)[n], payloads, epoch)]
  {
    h.Visit(n);
    var flags := h.mem[block].flags;
    next := h.mem[block].next;
    due := FREE !in flags && OBJECT in flags && h.mem[block].mark != epoch
      && payloads[block].finalizer && FINALIZED !in flags;
    if due { h.Rewrite(block, flags + {PENDING}, h.mem[block].mark, n); }
  }

  /** Lines 2274-2282: flag every unreached finalizable Object before any finalizer runs. */
  method QueueFinalizers(h: Arena, payloads: Payloads, epoch: int) returns (pending: nat)
    requires h.Valid() && Contents(h.cells, payloads)
    modifies h`mem, h`cells
    ensures h.Valid() && AllQueued(old(h.cells), h.cells, payloads, epoch)
    ensures pending == DueCount(old(h.cells), payloads, epoch)
  {
    ghost var cells := h.cells;
    ghost var n := 0;
    pending := 0;
    assert Shape(h.cfg, cells, h.list, h.top) && Tallied(cells, h.count, h.bytes);
    assert AllWellformed(cells);
    assert DueCount(cells[..0], payloads, epoch) == 0;
    hide Shape, Tallied, DueCount, Due, Queued;
    var block := h.first;
    while block != NULL
      invariant 0 <= n <= |cells| && block == CellAt(cells, n)
      invariant h.Chained() && FreeChain(h.mem, h.free, h.list)
      invariant |h.cells| == |cells|
      invariant forall i :: 0 <= i < n ==> h.cells[i] == Queued(cells[i], payloads, epoch)
      invariant forall i :: n <= i < |cells| ==> h.cells[i] == cells[i]
      invariant pending == DueCount(cells[..n], payloads, epoch)
      decreases |cells| - n
    {
      DueStep(cells, n, payloads, epoch);
      var due, next := QueueBlock(h, payloads, epoch, block, n);
      if due { pending := pending + 1; }
      block, n := next, n + 1;
    }
    if n < |cells| { h.Visit(n); }
    assert cells[..n] == cells;
    AllQueuedSame(cells, h.cells, payloads, epoch);
    SameBlocksValid(h, cells);
  }

  /** Lines 2292-2305: the first pending block after `previous` becomes the one whose finalizer runs. */
  method NextFinalizer(h: Arena, previous: int, ghost from: nat) returns (block: int, ghost i: nat)
    requires h.Valid() && from <= |h.cells|
    requires if from == 0 then previous == NULL else h.cells[from - 1].at == previous
    modifies h`mem, h`cells
    ensures h.Valid() && from <= i <= |h.cells| && block == CellAt(h.cells, i)
    ensures forall j :: from <= j < i ==> PENDING !in h.cells[j].flags
    ensures |h.cells| == |old(h.cells)|
    ensures i < |h.cells| ==> PENDING in old(h.cells)[i].flags && h.cells == old(h.cells)[i := Entered(old(h.cells)[i])]
    ensures i == |h.cells| ==> block == NULL && unchanged(h)
  {
    ghost var cells := h.cells;
    i := from;
    assert Shape(h.cfg, cells, h.list, h.top) && Tallied(cells, h.count, h.bytes);
    Proper(cells);
    hide Shape, Tallied;
    if from > 0 { h.Visit(from - 1); }
    block := if previous != NULL then h.mem[previous].next else h.first;
    if from < |cells| { h.Visit(from); }
    while block != NULL && PENDING !in h.mem[block].flags
      invariant unchanged(h)
      invariant from <= i <= |cells| && block == CellAt(cells, i) && (block != NULL ==> block in h.mem)
      invariant forall j :: from <= j < i ==> PENDING !in cells[j].flags
      decreases |cells| - i
    {
      h.Visit(i);
      block, i := h.mem[block].next, i + 1;
      if i < |cells| { h.Visit(i); }
    }
    if i < |cells| { h.Visit(i); }
    if block != NULL {
      h.Rewrite(block, h.mem[block].flags - {PENDING} + {FINALIZED}, h.mem[block].mark, i);
      assert SameBlocks(cells, h.cells);
      SameBlocksValid(h, cells);
    }
  }

  /** `abort_collection`: an escaping exception clears every pending flag and keeps every entered one. */
  method ClearPending(h: Arena)
    requires h.Valid()
    modifies h`mem, h`cells
    ensures h.Valid() && AllCleared(old(h.cells), h.cells)
  {
    ghost var cells := h.cells;
    ghost var n := 0;
    assert Shape(h.cfg, cells, h.list, h.top) && Tallied(cells, h.count, h.bytes);
    Proper(cells);
    hide Shape, Tallied;
    var block := h.first;
    while block != NULL
      invariant 0 <= n <= |cells| && block == CellAt(cells, n)
      invariant h.Chained() && FreeChain(h.mem, h.free, h.list)
      invariant |h.cells| == |cells|
      invariant forall i :: 0 <= i < n ==> h.cells[i] == Cleared(cells[i])
      invariant forall i :: n <= i < |cells| ==> h.cells[i] == cells[i]
      decreases |cells| - n
    {
      h.Visit(n);
      var next := h.mem[block].next;
      h.Rewrite(block, h.mem[block].flags - {PENDING}, h.mem[block].mark, n);
      block, n := next, n + 1;
    }
    if n < |cells| { h.Visit(n); }
    assert SameBlocks(cells, h.cells);
    SameBlocksValid(h, cells);
  }
}
