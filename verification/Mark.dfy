/** The audit: breadth-first marking with a queue threaded through the free links of live blocks. */
module Mark {
  import opened HeapModel
  import opened HeapSpec
  import opened MarkSpec
  import opened Heap

  /** How many blocks of a kind carry the epoch. */
  function MarkedCount(cells: seq<Cell>, kind: Flag, epoch: int): int {
    if cells == [] then 0
    else
      var c := cells[|cells| - 1];
      MarkedCount(cells[..|cells| - 1], kind, epoch) + (if kind in c.flags && c.mark == epoch then 1 else 0)
  }

  lemma {:induction false} MarkedCountUpdate(cells: seq<Cell>, i: nat, kind: Flag, epoch: int)
    requires i < |cells| && cells[i].mark != epoch
    ensures MarkedCount(cells[i := cells[i].(mark := epoch)], kind, epoch)
         == MarkedCount(cells, kind, epoch) + (if kind in cells[i].flags then 1 else 0)
  {
    var n := |cells| - 1;
    var d := cells[i := cells[i].(mark := epoch)];
    if i < n {
      assert d[..n] == cells[..n][i := cells[i].(mark := epoch)];
      MarkedCountUpdate(cells[..n], i, kind, epoch);
    } else {
      assert d[..n] == cells[..n];
    }
  }

  lemma {:induction false} MarkedNone(cells: seq<Cell>, kind: Flag, epoch: int)
    requires forall i :: 0 <= i < |cells| ==> cells[i].mark != epoch
    ensures MarkedCount(cells, kind, epoch) == 0
  {
    if cells != [] { MarkedNone(cells[..|cells| - 1], kind, epoch); }
  }

  /** Offset x is that of some cell. */
  ghost predicate OnChain(cells: seq<Cell>, x: int) {
    exists i :: 0 <= i < |cells| && cells[i].at == x
  }

  /** Marked blocks that have slots to trace are queued once or done. */
  ghost predicate Queued(cells: seq<Cell>, payloads: Payloads, marked: set<int>, queue: seq<int>, done: set<int>) {
    && Distinct(queue)
    && (forall x :: x in queue ==> x in marked && x !in done && Traced(cells, x))
    && (forall x :: x in done ==> x in marked && Traced(cells, x))
    && (forall x :: x in marked && Traced(cells, x) ==>
          (x in queue || x in done) && x in payloads && payloads[x].accepted)
  }

  lemma QueuedAdmit(cells: seq<Cell>, payloads: Payloads, marked: set<int>, queue: seq<int>, done: set<int>, x: int)
    requires Queued(cells, payloads, marked, queue, done) && x !in marked && Traced(cells, x)
    requires x in payloads && payloads[x].accepted
    ensures Queued(cells, payloads, marked + {x}, queue + [x], done) && x !in queue
  {
    AppendDistinct(queue, x);
    assert forall y :: y in queue + [x] <==> y in queue || y == x;
  }

  lemma QueuedString(cells: seq<Cell>, payloads: Payloads, marked: set<int>, queue: seq<int>, done: set<int>, x: int)
    requires Queued(cells, payloads, marked, queue, done) && !Traced(cells, x)
    ensures Queued(cells, payloads, marked + {x}, queue, done)
  {}

  /** The reachability context of one audit. */
  class Auditor {
    const h: Arena
    const payloads: Payloads
    var epoch: int
    var reachable: map<Flag, int>
    var invalid: int
    var first: int
    var last: int
    var low: int               // lookup_cursor_low
    var high: int              // lookup_cursor_high
    ghost var cells0: seq<Cell>
    ghost var marked: set<int>
    ghost var queue: seq<int>
    ghost var done: set<int>

    /** The heap below the audit: only marks and the free links of live blocks have changed. */
    ghost predicate HeapKept()
      reads this`cells0, h
    {
      && h.Chained() && FreeChain(h.mem, h.free, h.list)
      && SameButMark(cells0, h.cells) && AllWellformed(cells0) && Tiled(h.cfg, cells0, h.top)
      && (forall x :: x in h.list ==> FreeAt(cells0, x))
      && Contents(cells0, payloads)
    }

    ghost predicate CursorsKept()
      reads this`cells0, this`low, this`high
    {
      cells0 != [] ==> OnChain(cells0, low) && OnChain(cells0, high)
    }

    /** The mark fields are the set `marked`, and the counters count it. */
    ghost predicate MarksKept()
      reads this`cells0, this`epoch, this`marked, this`reachable, h`cells
    {
      && |cells0| == |h.cells|
      && (forall i :: 0 <= i < |cells0| ==> (h.cells[i].mark == epoch <==> cells0[i].at in marked))
      && (forall i :: 0 <= i < |cells0| ==> h.cells[i].mark == epoch || h.cells[i].mark == cells0[i].mark)
      && (forall x :: x in marked ==> Managed(cells0, x))
      && (forall k :: k in MANAGED ==> k in reachable && reachable[k] == MarkedCount(h.cells, k, epoch))
    }

    ghost predicate QueueKept()
      reads this`cells0, this`marked, this`first, this`last, this`queue, this`done, h`mem
    {
      && FreeChain(h.mem, first, queue) && last == (if queue == [] then NULL else queue[|queue| - 1])
      && Queued(cells0, payloads, marked, queue, done)
    }

    ghost predicate Valid()
      reads this, h
    {
      HeapKept() && CursorsKept() && MarksKept() && QueueKept()
    }

    constructor (h: Arena, payloads: Payloads, epoch: int)
      requires h.Sound() && Contents(h.cells, payloads)
      requires forall i :: 0 <= i < |h.cells| ==> h.cells[i].mark != epoch
      ensures Valid() && this.h == h && this.payloads == payloads && this.epoch == epoch
      ensures cells0 == h.cells && marked == {} && done == {} && queue == [] && invalid == 0
    {
      this.h, this.payloads, this.epoch := h, payloads, epoch;
      reachable := map[OBJECT := 0, ARRAY := 0, STRING := 0];
      invalid, first, last, low, high := 0, NULL, NULL, h.first, h.last;
      cells0, marked, queue, done := h.cells, {}, [], {};
      new;
      TiledFacts(h.cfg, h.cells, h.top);
      forall k ensures MarkedCount(h.cells, k, epoch) == 0 { MarkedNone(h.cells, k, epoch); }
      if cells0 != [] {
        assert cells0[0].at == low && cells0[|cells0| - 1].at == high;
      }
    }

    /** The nearer cursor, and whether it is the upper one. */
    method Nearer(address: int) returns (upper: bool, block: int, ghost i: nat)
      requires CursorsKept() && cells0 != []
      ensures block == (if upper then high else low) && i < |cells0| && cells0[i].at == block
    {
      var lowAddress, highAddress := low + h.cfg.header, high + h.cfg.header;
      var lowDistance := if address >= lowAddress then address - lowAddress else lowAddress - address;
      var highDistance := if address >= highAddress then address - highAddress else highAddress - address;
      upper := highDistance < lowDistance;
      block := if upper then high else low;
      i :| 0 <= i < |cells0| && cells0[i].at == block;
    }

    /** What the header of a block says. */
    lemma HeaderSays(i: nat)
      requires HeapKept() && i < |cells0|
      ensures cells0[i].at in h.mem && h.mem[cells0[i].at].flags == cells0[i].flags && h.first != NULL
      ensures h.cfg.Valid() && Tiled(h.cfg, cells0, h.top)
    {
      assert LinkedAt(h.mem, h.cells, i) && LinkedAt(h.mem, h.cells, 0);
    }

    /** An empty chain. */
    lemma FirstSays()
      requires HeapKept()
      ensures h.first == NULL <==> cells0 == []
      ensures cells0 == [] ==> forall address, kind :: Lookup(h.cfg, cells0, address, kind) == NULL
      ensures h.cfg.Valid() && Tiled(h.cfg, cells0, h.top)
    {
      assert cells0 != [] ==> LinkedAt(h.mem, h.cells, 0);
    }

    /** The block at a payload address, found by walking from the nearer cursor. */
    method MarkAllocation(address: int, kind: Flag) returns (block: int, ghost i: nat)
      requires HeapKept() && CursorsKept() && kind != FREE
      modifies this`low, this`high
      ensures CursorsKept()
      ensures block == Lookup(h.cfg, cells0, address, kind)
      ensures block != NULL ==> i < |cells0| && cells0[i].at == block && !IsFree(cells0[i]) && kind in cells0[i].flags
    {
      i := 0;
      FirstSays();
      hide HeapKept, Tiled, Lookup, Nearest;
      if h.first == NULL { return NULL, i; }
      if address < h.cfg.header || address >= h.top || address % 16 != 0 {
        OutsideHeap(h.cfg, cells0, h.top, address, kind);
        return NULL, i;
      }
      var upper;
      upper, block, i := Nearer(address);
      if address > block + h.cfg.header {
        block, i := Forward(address, block, i);
      } else {
        block, i := Backward(address, block, i);
      }
      if upper { high := block; } else { low := block; }
      HeaderSays(i);
      LookupNearest(h.cfg, cells0, h.top, i, address, kind);
      if block + h.cfg.header != address || FREE in h.mem[block].flags || kind !in h.mem[block].flags {
        block := NULL;
      }
    }

    /** Write the epoch into one header. */
    method WriteMark(block: int, ghost i: nat)
      requires HeapKept() && i < |cells0| && cells0[i].at == block && FreeChain(h.mem, first, queue)
      modifies h`mem, h`cells
      ensures HeapKept() && FreeChain(h.mem, first, queue)
      ensures h.cells == old(h.cells)[i := old(h.cells)[i].(mark := epoch)]
    {
      assert LinkedAt(h.mem, h.cells, i);
      ghost var c := h.cells[i].(mark := epoch);
      UpdateLinked(h.cfg, h.mem, h.cells, h.top, i, c);
      ghost var was := h.mem;
      h.mem := h.mem[block := h.mem[block].(mark := epoch)];
      FreeChainFrame(was, h.mem, h.free, h.list);
      FreeChainFrame(was, h.mem, first, queue);
      h.cells := h.cells[i := c];
    }

    /** Stamp a block with the epoch and count it. */
    method Stamp(block: int, kind: Flag, ghost i: nat)
      requires HeapKept() && MarksKept() && i < |cells0| && cells0[i].at == block && block !in marked
      requires !IsFree(cells0[i]) && kind in cells0[i].flags && kind in MANAGED
      requires FreeChain(h.mem, first, queue)
      modifies h`mem, h`cells, this`reachable, this`marked
      ensures HeapKept() && MarksKept() && marked == old(marked) + {block}
      ensures FreeChain(h.mem, first, queue)
    {
      OwnOffset(h.cfg, cells0, h.top, i);
      StampCounts(cells0, h.cells, i, kind, epoch);
      WriteMark(block, i);
      reachable := reachable[kind := reachable[kind] + 1];
      marked := marked + {block};
      assert Managed(cells0, block) by { assert Holds(cells0, block, kind); }
    }

    /** `mark_enqueue`: append a live block to the queue. */
    method Enqueue(block: int, ghost i: nat)
      requires HeapKept() && MarksKept() && i < |cells0| && cells0[i].at == block && !IsFree(cells0[i])
      requires FreeChain(h.mem, first, queue) && last == (if queue == [] then NULL else queue[|queue| - 1])
      requires block !in queue && Distinct(queue) && forall x :: x in queue ==> Traced(cells0, x)
      modifies h`mem, this`first, this`last, this`queue
      ensures HeapKept() && MarksKept() && queue == old(queue) + [block]
      ensures FreeChain(h.mem, first, queue) && last == block
    {
      Enqueueable(block, i);
      hide Linked, LinkedAt, Tiled, FreeChain, FreeLinkAt, SameButMark, AllWellformed, FreeAt, Contents, Traced,
           MarksKept, Distinct;
      ghost var was := h.mem;
      var m := h.mem[block := h.mem[block].(freeNext := NULL)];
      if last != NULL { m := m[last := m[last].(freeNext := block)]; }
      Appended(was, m, queue, block, h.free, h.list, h.cells);
      h.mem := m;
      if last == NULL { first := block; }
      last := block;
      queue := queue + [block];
    }

    /** The block and the queue are clear of the free list. */
    lemma Enqueueable(block: int, i: nat)
      requires HeapKept() && i < |cells0| && cells0[i].at == block && !IsFree(cells0[i])
      requires FreeChain(h.mem, first, queue) && last == (if queue == [] then NULL else queue[|queue| - 1])
      requires forall x :: x in queue ==> Traced(cells0, x)
      ensures block in h.mem && block >= 0 && block !in h.list && first == Entry(queue, 0)
      ensures queue != [] ==> last in h.mem && last != NULL
      ensures forall x :: x in queue ==> x !in h.list
    {
      OwnOffset(h.cfg, cells0, h.top, i);
      assert LinkedAt(h.mem, h.cells, i);
      assert queue != [] ==> FreeLinkAt(h.mem, queue, |queue| - 1);
      hide Traced, SameButMark, Contents;
      forall x | x in queue ensures x !in h.list { TracedNotFree(h.cfg, cells0, h.top, x); }
    }

    /** What marking through one slot achieves. */
    twostate predicate Marks(r: Ref)
      reads this, h
    {
      var t := Target(h.cfg, cells0, payloads, r);
      && marked == old(marked) + (if t == NULL then {} else {t})
      && invalid == old(invalid) + (if Wrong(h.cfg, cells0, payloads, r) then 1 else 0)
    }

    /** A newly found block with slots is stamped and queued. */
    method Admit(block: int, kind: Flag, ghost i: nat)
      requires Valid() && (kind == OBJECT || kind == ARRAY) && block !in marked
      requires i < |cells0| && cells0[i].at == block && !IsFree(cells0[i]) && kind in cells0[i].flags
      requires block in payloads && payloads[block].accepted
      modifies this`reachable, this`marked, this`first, this`last, this`queue, h`mem, h`cells
      ensures Valid() && marked == old(marked) + {block}
    {
      hide HeapKept, MarksKept, CursorsKept;
      assert Traced(cells0, block);
      QueuedAdmit(cells0, payloads, marked, queue, done, block);
      Stamp(block, kind, i);
      Enqueue(block, i);
    }

    /** The mark field of a block answers whether the block is marked. */
    lemma ReadMark(block: int, i: nat)
      requires HeapKept() && MarksKept() && i < |cells0| && cells0[i].at == block
      ensures block in h.mem && (h.mem[block].mark == epoch <==> block in marked)
    {
      assert LinkedAt(h.mem, h.cells, i);
    }

    lemma HasPayload(i: nat)
      requires HeapKept() && i < |cells0| && (OBJECT in cells0[i].flags || ARRAY in cells0[i].flags)
      ensures cells0[i].at in payloads
    {}

    /** `mark_reference` and `mark_array`. */
    method MarkBlock(address: int, kind: Flag)
      requires Valid() && (kind == OBJECT || kind == ARRAY)
      modifies this`low, this`high, this`invalid, this`reachable, this`marked, this`first, this`last, this`queue,
               h`mem, h`cells
      ensures Valid() && Marks(To(kind, address))
    {
      var block;
      ghost var i;
      hide HeapKept, MarksKept, CursorsKept;
      block, i := MarkAllocation(address, kind);
      if block == NULL {
        invalid := invalid + 1;
        return;
      }
      assert Traced(cells0, block);
      ReadMark(block, i);
      HasPayload(i);
      if h.mem[block].mark != epoch {
        if !payloads[block].accepted {
          invalid := invalid + 1;
          return;
        }
        Admit(block, kind, i);
      }
    }

    /** `mark_string`: a string that is not a block is a literal, and a string has nothing to trace. */
    method MarkString(address: int)
      requires Valid()
      modifies this`low, this`high, this`reachable, this`marked, h`mem, h`cells
      ensures Valid() && Marks(To(STRING, address))
    {
      var block;
      ghost var i;
      hide HeapKept, MarksKept, CursorsKept;
      block, i := MarkAllocation(address, STRING);
      if block == NULL { return; }
      ReadMark(block, i);
      if h.mem[block].mark != epoch {
        StringIsLeaf(i);
        QueuedString(cells0, payloads, marked, queue, done, block);
        Stamp(block, STRING, i);
      }
    }

    lemma StringIsLeaf(i: nat)
      requires HeapKept() && i < |cells0| && !IsFree(cells0[i]) && STRING in cells0[i].flags
      ensures !Traced(cells0, cells0[i].at)
    {
      StringNotTraced(h.cfg, cells0, h.top, i);
    }

    method MarkSlot(r: Ref)
      requires Valid() && Typed(r)
      modifies this`low, this`high, this`invalid, this`reachable, this`marked, this`first, this`last, this`queue,
               h`mem, h`cells
      ensures Valid() && Marks(r)
    {
      match r
      case NIL =>
      case BAD => invalid := invalid + 1;
      case To(kind, address) =>
        if kind == STRING { MarkString(address); } else { MarkBlock(address, kind); }
    }

    method MarkSlots(refs: seq<Ref>)
      requires Valid() && forall r :: r in refs ==> Typed(r)
      modifies this`low, this`high, this`invalid, this`reachable, this`marked, this`first, this`last, this`queue,
               h`mem, h`cells
      ensures Valid()
      ensures marked == old(marked) + Targets(h.cfg, cells0, payloads, refs)
      ensures invalid == old(invalid) + WrongCount(h.cfg, cells0, payloads, refs)
    {
      hide Auditor.Valid;
      var n := 0;
      while n < |refs|
        invariant n <= |refs| && Valid()
        invariant marked + Targets(h.cfg, cells0, payloads, refs[n..]) ==
                    old(marked) + Targets(h.cfg, cells0, payloads, refs)
        invariant invalid + WrongCount(h.cfg, cells0, payloads, refs[n..]) ==
                    old(invalid) + WrongCount(h.cfg, cells0, payloads, refs)
      {
        assert refs[n] in refs && refs[n..][0] == refs[n] && refs[n..][1..] == refs[n + 1..];
        MarkSlot(refs[n]);
        n := n + 1;
      }
    }

    /** Clear the free link of a live block. */
    method ClearLink(block: int, ghost i: nat)
      requires HeapKept() && i < |cells0| && cells0[i].at == block && !IsFree(cells0[i])
      modifies h`mem
      ensures HeapKept() && block in old(h.mem) && block in h.mem && h.mem[block].flags == cells0[i].flags
      ensures forall x :: x in old(h.mem) && x != block ==> x in h.mem && h.mem[x].freeNext == old(h.mem)[x].freeNext
      ensures h.mem[block].freeNext == NULL
    {
      assert LinkedAt(h.mem, h.cells, i);
      OwnOffset(h.cfg, cells0, h.top, i);
      ghost var was := h.mem;
      h.mem := h.mem[block := h.mem[block].(freeNext := NULL)];
      FreeChainFrame(was, h.mem, h.free, h.list);
      LinkedFrame(was, h.mem, h.cells);
    }

    /** Take the oldest block off the queue; it counts as done from here on. */
    method Dequeue() returns (block: int)
      requires Valid() && queue != []
      modifies this`first, this`last, this`queue, this`done, h`mem
      ensures Valid() && block == old(queue)[0] && done == old(done) + {block} && block !in old(done)
      ensures block in marked && Traced(cells0, block) && block in payloads && block in h.mem
      ensures OBJECT in h.mem[block].flags || ARRAY in h.mem[block].flags
      ensures h.mem[block].freeNext == NULL
    {
      hide HeapKept, MarksKept, CursorsKept;
      block := first;
      assert FreeLinkAt(h.mem, queue, 0);
      assert |queue| > 1 ==> FreeLinkAt(h.mem, queue, 1);
      QueuedPop(cells0, payloads, marked, queue, done);
      ghost var i := TracedCell(cells0, block);
      first := h.mem[block].freeNext;
      if first == NULL { last := NULL; }
      ghost var was := h.mem;
      ClearLink(block, i);
      PopChain(was, h.mem, queue);
      done := done + {block};
      queue := queue[1..];
    }

    /** The main loop: every queued block is expanded once, and the loop ends. */
    method Drain(ghost roots: set<int>, ghost refs: seq<Ref>)
      requires Valid() && AllTyped(payloads) && Progress(h.cfg, cells0, payloads, roots, marked, done)
      requires invalid >= 0 && (invalid == 0 <==> Clean(h.cfg, cells0, payloads, refs, done))
      modifies this`low, this`high, this`invalid, this`reachable, this`marked, this`first, this`last, this`queue,
               this`done, h`mem, h`cells
      ensures Valid() && queue == [] && Progress(h.cfg, cells0, payloads, roots, marked, done)
      ensures invalid >= 0 && (invalid == 0 <==> Clean(h.cfg, cells0, payloads, refs, done))
    {
      hide HeapKept, MarksKept, CursorsKept;
      QueueHead();
      while first != NULL
        invariant Valid() && Progress(h.cfg, cells0, payloads, roots, marked, done)
        invariant invalid >= 0 && (invalid == 0 <==> Clean(h.cfg, cells0, payloads, refs, done))
        invariant first == NULL <==> queue == []
        decreases Offsets(cells0) - done
      {
        hide Auditor.Valid, Progress, Clean;
        ghost var before := done;
        var block := Dequeue();
        TracedOffset(cells0, block);
        ProgressStep(h.cfg, cells0, payloads, roots, marked, before, block);
        CleanStep(h.cfg, cells0, payloads, refs, before, block);
        if OBJECT in h.mem[block].flags || ARRAY in h.mem[block].flags {
          forall r | r in payloads[block].refs ensures Typed(r) {}
          MarkSlots(payloads[block].refs);
        }
        QueueHead();
      }
    }

    lemma QueueHead()
      requires Valid()
      ensures first == NULL <==> queue == []
    {
      if queue != [] { assert FreeLinkAt(h.mem, queue, 0); }
    }

    method Forward(address: int, from: int, ghost i0: nat) returns (block: int, ghost i: nat)
      requires HeapKept() && i0 < |cells0| && cells0[i0].at == from && from + h.cfg.header <= address
      ensures i < |cells0| && cells0[i].at == block
      ensures Nearest(h.cfg, cells0, i, address)
    {
      block, i := from, i0;
      while true
        invariant i < |cells0| && cells0[i].at == block && block + h.cfg.header <= address
        decreases |cells0| - i
      {
        assert LinkedAt(h.mem, h.cells, i);
        assert i + 1 < |cells0| ==> LinkedAt(h.mem, h.cells, i + 1);
        var next := h.mem[block].next;
        if next == NULL || next + h.cfg.header > address { break; }
        block, i := next, i + 1;
      }
    }

    method Backward(address: int, from: int, ghost i0: nat) returns (block: int, ghost i: nat)
      requires HeapKept() && i0 < |cells0| && cells0[i0].at == from && address <= from + h.cfg.header
      ensures i < |cells0| && cells0[i].at == block
      ensures Nearest(h.cfg, cells0, i, address)
    {
      block, i := from, i0;
      TiledFacts(h.cfg, cells0, h.top);
      while true
        invariant i < |cells0| && cells0[i].at == block
        invariant i + 1 < |cells0| ==> cells0[i + 1].at + h.cfg.header > address
        decreases i
      {
        assert LinkedAt(h.mem, h.cells, i);
        assert i > 0 ==> LinkedAt(h.mem, h.cells, i - 1);
        var previous := h.mem[block].previous;
        if previous == NULL || block + h.cfg.header <= address { break; }
        block, i := previous, i - 1;
      }
    }
  }

  /** No payload before cell i is past the address, and none after it is at or before the address. */
  ghost predicate Nearest(cfg: Config, cells: seq<Cell>, i: nat, address: int)
    requires i < |cells|
  {
    && (i > 0 ==> cells[i].at + cfg.header <= address)
    && (i + 1 < |cells| ==> cells[i + 1].at + cfg.header > address)
  }

  lemma LookupNearest(cfg: Config, cells: seq<Cell>, top: int, i: nat, address: int, kind: Flag)
    requires cfg.Valid() && Tiled(cfg, cells, top) && i < |cells| && Nearest(cfg, cells, i, address)
    ensures Lookup(cfg, cells, address, kind) ==
      if cells[i].at + cfg.header == address && !IsFree(cells[i]) && kind in cells[i].flags then cells[i].at else NULL
  {
    TiledFacts(cfg, cells, top);
    forall k | 0 <= k < |cells| ensures cells[k].at + cfg.header == address ==> k == i {
      NearestOnly(cfg, cells, top, i, address, k);
    }
    hide Tiled, Ordered, Nearest;
  }

  lemma NearestOnly(cfg: Config, cells: seq<Cell>, top: int, i: nat, address: int, k: nat)
    requires Ordered(cfg, cells, top) && i < |cells| && k < |cells| && Nearest(cfg, cells, i, address)
    requires cfg.header > 0
    ensures cells[k].at + cfg.header == address ==> k == i
  {
    if k < i {
      assert End(cfg, cells[k]) <= cells[i].at;
    } else if k > i + 1 {
      assert End(cfg, cells[i + 1]) <= cells[k].at;
    }
  }

  lemma OutsideHeap(cfg: Config, cells: seq<Cell>, top: int, address: int, kind: Flag)
    requires Tiled(cfg, cells, top) && cfg.Valid()
    requires address < cfg.header || address >= top || address % 16 != 0
    ensures Lookup(cfg, cells, address, kind) == NULL
  {
    TiledFacts(cfg, cells, top);
    forall i | 0 <= i < |cells| ensures cells[i].at != address - cfg.header {
      TiledAligned(cfg, cells, top, i);
      assert TiledAt(cfg, cells, i);
    }
  }

  lemma AppendDistinct(q: seq<int>, x: int)
    requires Distinct(q) && x !in q
    ensures Distinct(q + [x])
  {
    var s := q + [x];
    forall i, j | 0 <= i < j < |s| ensures s[i] != s[j] {
      assert s[i] == q[i] && q[i] in q;
    }
  }

  lemma StringNotTraced(cfg: Config, cells: seq<Cell>, top: int, i: nat)
    requires cfg.Valid() && Tiled(cfg, cells, top) && AllWellformed(cells)
    requires i < |cells| && !IsFree(cells[i]) && STRING in cells[i].flags
    ensures !Traced(cells, cells[i].at)
  {
    OwnOffset(cfg, cells, top, i);
    assert Wellformed(cells[i]);
    OneKind(cells[i], OBJECT, STRING);
    OneKind(cells[i], ARRAY, STRING);
  }

  lemma TracedCell(cells: seq<Cell>, x: int) returns (i: nat)
    requires Traced(cells, x)
    ensures i < |cells| && cells[i].at == x && !IsFree(cells[i])
    ensures OBJECT in cells[i].flags || ARRAY in cells[i].flags
  {
    i :| 0 <= i < |cells| && cells[i].at == x && !IsFree(cells[i])
            && (OBJECT in cells[i].flags || ARRAY in cells[i].flags);
  }

  lemma TracedOffset(cells: seq<Cell>, x: int)
    requires Traced(cells, x)
    ensures x in Offsets(cells)
  {}

  lemma PopChain(m: Memory, m': Memory, queue: seq<int>)
    requires queue != [] && FreeChain(m, queue[0], queue) && Distinct(queue)
    requires forall x :: x in m && x != queue[0] ==> x in m' && m'[x].freeNext == m[x].freeNext
    ensures FreeLinkAt(m, queue, 0) && FreeChain(m', m[queue[0]].freeNext, queue[1..])
  {
    assert FreeLinkAt(m, queue, 0);
    var q := queue[1..];
    forall k | 0 <= k < |q| ensures FreeLinkAt(m', q, k) {
      assert FreeLinkAt(m, queue, k + 1);
      assert Entry(q, k + 1) == Entry(queue, k + 2);
    }
  }

  lemma QueuedPop(cells: seq<Cell>, payloads: Payloads, marked: set<int>, queue: seq<int>, done: set<int>)
    requires Queued(cells, payloads, marked, queue, done) && queue != []
    ensures Queued(cells, payloads, marked, queue[1..], done + {queue[0]})
    ensures queue[0] !in done && queue[0] in marked && Traced(cells, queue[0]) && queue[0] in payloads
  {
    var x := queue[0];
    assert x in queue;
    assert forall y :: y in queue <==> y == x || y in queue[1..];
  }

  lemma TracedNotFree(cfg: Config, cells: seq<Cell>, top: int, x: int)
    requires cfg.Valid() && Tiled(cfg, cells, top) && Traced(cells, x)
    ensures !FreeAt(cells, x)
  {
    var i :| 0 <= i < |cells| && cells[i].at == x && !IsFree(cells[i]);
    OwnOffset(cfg, cells, top, i);
  }

  /** Appending to the queue touches neither the free list nor the chain. */
  lemma Appended(m: Memory, m': Memory, queue: seq<int>, block: int, free: int, list: seq<int>, cells: seq<Cell>)
    requires FreeChain(m, Entry(queue, 0), queue) && FreeChain(m, free, list) && Linked(m, cells)
    requires block in m && block >= 0 && block !in queue && block !in list && Distinct(queue)
    requires queue != [] ==> queue[|queue| - 1] in m
    requires forall x :: x in queue ==> x !in list
    requires var base := m[block := m[block].(freeNext := NULL)];
             m' == if queue == [] then base
                   else base[queue[|queue| - 1] := base[queue[|queue| - 1]].(freeNext := block)]
    ensures FreeChain(m', Entry(queue + [block], 0), queue + [block]) && FreeChain(m', free, list) && Linked(m', cells)
    ensures m'.Keys == m.Keys
  {
    AppendChain(m, m', queue, block);
    FreeChainFrame(m, m', free, list);
    LinkedFrame(m, m', cells);
  }

  lemma AppendChain(m: Memory, m': Memory, queue: seq<int>, block: int)
    requires FreeChain(m, Entry(queue, 0), queue) && block !in queue && block >= 0 && block in m' && Distinct(queue)
    requires m'[block].freeNext == NULL
    requires forall x :: x in m && x != block && !(queue != [] && x == queue[|queue| - 1]) ==>
               x in m' && m'[x].freeNext == m[x].freeNext
    requires queue != [] && queue[|queue| - 1] in m ==>
               queue[|queue| - 1] in m' && m'[queue[|queue| - 1]].freeNext == block
    ensures FreeChain(m', Entry(queue + [block], 0), queue + [block])
  {
    var q := queue + [block];
    forall k | 0 <= k < |q| ensures FreeLinkAt(m', q, k) {
      if k < |queue| {
        assert FreeLinkAt(m, queue, k);
        assert queue[k] in queue;
        assert Entry(q, k + 1) == if k + 1 < |queue| then Entry(queue, k + 1) else block;
      }
    }
  }

  /** Marking one cell raises the count of its kind by one. */
  lemma StampCounts(cells0: seq<Cell>, cells: seq<Cell>, i: nat, kind: Flag, epoch: int)
    requires SameButMark(cells0, cells) && AllWellformed(cells0) && i < |cells| && cells[i].mark != epoch
    requires !IsFree(cells0[i]) && kind in cells0[i].flags && kind in MANAGED
    ensures var d := cells[i := cells[i].(mark := epoch)];
            forall k :: k in MANAGED ==>
              MarkedCount(d, k, epoch) == MarkedCount(cells, k, epoch) + (if k == kind then 1 else 0)
  {
    forall k | k in MANAGED
      ensures MarkedCount(cells[i := cells[i].(mark := epoch)], k, epoch)
           == MarkedCount(cells, k, epoch) + (if k == kind then 1 else 0)
    {
      MarkedCountUpdate(cells, i, k, epoch);
      assert Wellformed(cells0[i]);
      OneKind(cells0[i], k, kind);
    }
  }

  lemma OneKind(c: Cell, k: Flag, kind: Flag)
    requires Wellformed(c) && !IsFree(c) && k in MANAGED && kind in MANAGED && kind in c.flags
    ensures k in c.flags <==> k == kind
  {
    var only :| only in KINDS && c.flags * KINDS == {only};
    assert kind in c.flags * KINDS;
    assert k in c.flags ==> k in c.flags * KINDS;
  }
}
