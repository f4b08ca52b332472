/** The arena allocator: first fit over an intrusive free list, splitting, coalescing and a bump tail. */
module Heap {
  import opened HeapModel
  import opened HeapSpec

  class Arena {
    const cfg: Config
    var mem: Memory            // block headers by offset
    var first: int             // heap_first
    var last: int              // heap_last
    var free: int              // heap_free
    var top: int               // arena_offset
    var highWater: int
    var count: map<Flag, int>  // live_objects, live_arrays, live_strings
    var bytes: map<Flag, int>  // live_object_bytes, live_array_bytes, live_string_bytes
    ghost var cells: seq<Cell>
    ghost var list: seq<int>

    /** The chain pointers in memory spell out `cells`. */
    ghost predicate Chained()
      reads this
    {
      && cfg.Valid() && NULL !in mem && Linked(mem, cells) && Tiled(cfg, cells, top)
      && first == FirstAt(cells) && last == LastAt(cells)
    }

    ghost predicate Sound()
      reads this
    {
      && Chained() && FreeChain(mem, free, list)
      && Shape(cfg, cells, list, top) && top <= highWater <= cfg.size
    }

    ghost predicate Valid()
      reads this
    {
      Sound() && Tallied(cells, count, bytes)
    }

    constructor (cfg: Config)
      requires cfg.Valid()
      ensures Valid() && this.cfg == cfg && cells == [] && list == [] && top == 0
    {
      this.cfg := cfg;
      mem, first, last, free, top, highWater := map[], NULL, NULL, NULL, 0, 0;
      count := map[OBJECT := 0, ARRAY := 0, STRING := 0];
      bytes := map[OBJECT := 0, ARRAY := 0, STRING := 0];
      cells, list := [], [];
    }

    method FreeRemove(block: int)
      requires block in mem && Distinct(list) && FreeChain(mem, free, list) && NULL !in mem
      modifies this`mem, this`free, this`list
      ensures list == Without(old(list), block) && FreeChain(mem, free, list)
      ensures SameButFreeNext(old(mem), mem)
    {
      var before, link := NULL, free;
      ghost var k := 0;
      while link != NULL && link != block
        invariant 0 <= k <= |list|
        invariant link == Entry(list, k)
        invariant before == (if k == 0 then NULL else list[k - 1])
        invariant block !in list[..k]
        decreases |list| - k
      {
        assert FreeLinkAt(mem, list, k);
        before, link := link, mem[link].freeNext;
        k := k + 1;
      }
      ghost var was, head := mem, free;
      assert k < |list| ==> FreeLinkAt(mem, list, k);
      assert k > 0 ==> FreeLinkAt(mem, list, k - 1);
      if link != NULL {
        if before == NULL { free := mem[block].freeNext; }
        else { mem := mem[before := mem[before].(freeNext := mem[block].freeNext)]; }
      }
      mem := mem[block := mem[block].(freeNext := NULL)];
      if k < |list| {
        UnlinkChain(was, head, list, k, mem, free);
        WithoutIndex(list, k);
        list := list[..k] + list[k + 1..];
      } else {
        assert list[..k] == list;
        WithoutAbsent(list, block);
        forall j | 0 <= j < |list| ensures FreeLinkAt(mem, list, j) {
          assert FreeLinkAt(was, list, j);
          assert list[j] in list;
        }
      }
    }

    method FreeAdd(block: int)
      requires block in mem && block >= 0 && block !in list && FreeChain(mem, free, list)
      modifies this`mem, this`free, this`list
      ensures list == [block] + old(list) && FreeChain(mem, free, list)
      ensures SameButFreeNext(old(mem), mem)
    {
      PushChain(mem, free, list, block);
      mem := mem[block := mem[block].(freeNext := free)];
      free := block;
      list := [block] + list;
    }

    /** Grow block b over its successor n and take n out of the chain. */
    method Absorb(b: int, n: int, ghost i: nat)
      requires Chained() && i + 1 < |cells| && cells[i].at == b && cells[i + 1].at == n
      requires FreeChain(mem, free, list)
      modifies this`mem, this`last, this`cells
      ensures Chained() && cells == MergeAt(cfg, old(cells), i)
      ensures FreeChain(mem, free, list) && mem.Keys == old(mem).Keys
    {
      assert LinkedAt(mem, cells, i) && LinkedAt(mem, cells, i + 1);
      MergeLinked(cfg, mem, cells, top, i);
      MergeTiled(cfg, cells, top, i);
      assert LastAt(MergeAt(cfg, cells, i)) == if i + 2 < |cells| then LastAt(cells) else b;
      assert i + 2 < |cells| ==> LinkedAt(mem, cells, i + 2);
      ghost var was := mem;
      mem := mem[b := mem[b].(capacity := mem[b].capacity + cfg.header + mem[n].capacity, next := mem[n].next)];
      if mem[b].next != NULL {
        mem := mem[mem[b].next := mem[mem[b].next].(previous := b)];
      } else {
        last := b;
      }
      FreeChainFrame(was, mem, free, list);
      cells := MergeAt(cfg, cells, i);
    }

    /** First half of `heap_release`: a free successor is unlisted and absorbed. */
    method MergeNext(block: int, ghost i: nat)
      requires Chained() && i < |cells| && cells[i].at == block
      requires FreeChain(mem, free, list) && Distinct(list)
      modifies this`mem, this`free, this`list, this`last, this`cells
      ensures Chained() && FreeChain(mem, free, list)
      ensures cells == AbsorbRight(cfg, old(cells), i)
      ensures list == if RunEnd(old(cells), i) == i + 2 then Without(old(list), old(cells)[i + 1].at) else old(list)
    {
      assert LinkedAt(mem, cells, i);
      assert i + 1 < |cells| ==> LinkedAt(mem, cells, i + 1);
      var next := mem[block].next;
      if next != NULL {
        if FREE in mem[next].flags {
          ghost var was := mem;
          FreeRemove(next);
          LinkedFrame(was, mem, cells);
          Absorb(block, next, i);
        }
      }
    }

    /** Second half: the block is absorbed by a free predecessor. */
    method MergePrevious(block: int, ghost i: nat) returns (freed: int)
      requires Chained() && i < |cells| && cells[i].at == block
      requires FreeChain(mem, free, list) && Distinct(list)
      modifies this`mem, this`free, this`list, this`last, this`cells
      ensures Chained() && FreeChain(mem, free, list)
      ensures cells == AbsorbLeft(cfg, old(cells), i) && freed == ReleasedAt(old(cells), i) && freed in mem
      ensures freed >= 0
      ensures list == if RunStart(old(cells), i) < i then Without(old(list), old(cells)[i - 1].at) else old(list)
    {
      TiledFacts(cfg, cells, top);
      assert LinkedAt(mem, cells, i);
      var previous := mem[block].previous;
      freed := block;
      if previous != NULL {
        assert LinkedAt(mem, cells, i - 1);
        if FREE in mem[previous].flags {
          ghost var was := mem;
          FreeRemove(previous);
          LinkedFrame(was, mem, cells);
          Absorb(previous, block, i - 1);
          freed := previous;
        }
      }
    }

    /** Clear the header fields of a block that is no longer in use. */
    method Retire(block: int, ghost i: nat)
      requires Chained() && FreeChain(mem, free, list) && i < |cells| && cells[i].at == block
      modifies this`mem, this`cells
      ensures Chained() && FreeChain(mem, free, list)
      ensures cells == old(cells)[i := Freed(old(cells)[i])]
    {
      assert LinkedAt(mem, cells, i);
      UpdateLinked(cfg, mem, cells, top, i, Freed(cells[i]));
      ghost var was := mem;
      mem := mem[block := mem[block].(requested := 0, flags := {FREE}, mark := 0)];
      FreeChainFrame(was, mem, free, list);
      cells := cells[i := Freed(cells[i])];
    }

    /** Give one block back, merging it with free neighbours. */
    method Release(block: int, ghost i: nat) returns (freed: int)
      requires Sound() && i < |cells| && cells[i].at == block && !IsFree(cells[i])
      modifies this`mem, this`free, this`list, this`last, this`cells
      ensures Sound() && freed == ReleasedAt(old(cells), i)
      ensures cells == Released(cfg, old(cells), i) && list == ReleasedList(old(cells), old(list), i)
    {
      ReleaseKeepsShape(cfg, cells, list, top, i);
      ReleasedUnlisted(cfg, cells, list, top, i);
      ReleaseSides(cfg, cells, i);
      assert Lists(list, cells) && Distinct(list);
      hide Shape, Lists, FreeChain, Tiled, Released, ReleasedList, ReleasedAt, AbsorbRight, AbsorbLeft, RunStart,
           RunEnd;
      Retire(block, i);
      MergeNext(block, i);
      assert Distinct(list) by { if list != old(list) { WithoutProperties(old(list), old(cells)[i + 1].at); } }
      freed := MergePrevious(block, i);
      assert list == Unlisted(old(cells), old(list), i);
      ghost var was := mem;
      FreeAdd(freed);
      LinkedFrame(was, mem, cells);
    }

    /** Where a walk along the `next` links stands at cell n. */
    lemma Visit(n: nat)
      requires Chained() && n < |cells|
      ensures cells[n].at in mem && HeaderOf(mem[cells[n].at], cells, n)
      ensures cells[n].at != NULL && mem[cells[n].at].next == CellAt(cells, n + 1)
    {
      assert LinkedAt(mem, cells, n);
    }

    /** Rewrite the flags and mark of one header. */
    method Rewrite(block: int, flags: set<Flag>, mark: int, ghost i: nat)
      requires Chained() && FreeChain(mem, free, list) && i < |cells| && cells[i].at == block
      modifies this`mem, this`cells
      ensures Chained() && FreeChain(mem, free, list)
      ensures cells == old(cells)[i := old(cells)[i].(flags := flags, mark := mark)]
    {
      assert LinkedAt(mem, cells, i);
      ghost var c := cells[i].(flags := flags, mark := mark);
      UpdateLinked(cfg, mem, cells, top, i, c);
      ghost var was := mem;
      mem := mem[block := mem[block].(flags := flags, mark := mark)];
      FreeChainFrame(was, mem, free, list);
      cells := cells[i := c];
    }

    /** Walk the free list two entries per iteration, keeping the predecessor of the first fit. */
    method Search(need: int) returns (before: int, block: int, ghost k: nat)
      requires FreeChain(mem, free, list) && NULL !in mem
      ensures k <= |list| && block == Entry(list, k)
      ensures before == (if k == 0 then NULL else list[k - 1])
      ensures forall j :: 0 <= j < k ==> list[j] in mem && mem[list[j]].capacity < need
      ensures k < |list| ==> list[k] in mem && mem[list[k]].capacity >= need
    {
      before, block, k := NULL, free, 0;
      assert 0 < |list| ==> FreeLinkAt(mem, list, 0);
      if block != NULL && mem[block].capacity < need {
        while true
          invariant k < |list| && block == list[k]
          invariant forall j :: 0 <= j <= k ==> list[j] in mem && mem[list[j]].capacity < need
          decreases |list| - k
        {
          assert FreeLinkAt(mem, list, k);
          var next := mem[block].freeNext;
          assert k + 1 < |list| ==> FreeLinkAt(mem, list, k + 1);
          if next == NULL || mem[next].capacity >= need {
            before, block, k := block, next, k + 1;
            break;
          }
          block, k := mem[next].freeNext, k + 2;
          assert k < |list| ==> FreeLinkAt(mem, list, k);
          if block == NULL || mem[block].capacity >= need {
            before := next;
            break;
          }
        }
      }
    }

    /** Cut `need` bytes off the front of a free block; the caller lists the remainder. */
    method Split(block: int, need: int, ghost i: nat) returns (remainder: int)
      requires Chained() && FreeChain(mem, free, list) && i < |cells| && cells[i].at == block
      requires need > 0 && need % 16 == 0 && Splits(cfg, cells[i].capacity, need)
      requires forall x :: x in list ==> FreeAt(cells, x)
      modifies this`mem, this`last, this`cells
      ensures Chained() && FreeChain(mem, free, list)
      ensures cells == old(cells[..i] + [cells[i].(capacity := need), Remainder(cfg, cells[i], need)] + cells[i + 1..])
      ensures remainder == block + cfg.header + need && remainder in mem && remainder >= 0 && remainder !in list
    {
      ghost var a, b := cells[i].(capacity := need), Remainder(cfg, cells[i], need);
      ghost var c := cells[..i] + [a, b] + cells[i + 1..];
      TiledFacts(cfg, cells, top);
      assert LinkedAt(mem, cells, i);
      assert i + 1 < |cells| ==> LinkedAt(mem, cells, i + 1);
      SplitLinked(cfg, mem, cells, top, i, need, a, b);
      SplitTiled(cfg, cells, top, i, need, a, b);
      SplitFrame(cfg, mem, cells, top, list, i, need);
      SplitEnds(cells, i, a, b);
      ghost var was := mem;
      var next := mem[block].next;
      remainder := block + cfg.header + need;
      var m := mem[remainder := Header(block, next, NULL, mem[block].capacity - need - cfg.header, 0, {FREE}, 0)];
      if next != NULL { m := m[next := m[next].(previous := remainder)]; }
      m := m[block := m[block].(next := remainder, capacity := need)];
      assert m == SplitNext(cfg, was, block, need);
      FreeChainFrame(was, m, free, list);
      mem := m;
      if next == NULL { last := remainder; }
      cells := c;
    }

    /** Take entry k off the free list, given its predecessor. */
    method Unlist(before: int, block: int, ghost k: nat)
      requires FreeChain(mem, free, list) && Distinct(list) && NULL !in mem
      requires k < |list| && block == list[k] && before == (if k == 0 then NULL else list[k - 1])
      modifies this`mem, this`free, this`list
      ensures FreeChain(mem, free, list) && list == old(list[..k] + list[k + 1..])
      ensures SameButFreeNext(old(mem), mem)
    {
      assert FreeLinkAt(mem, list, k);
      assert k > 0 ==> FreeLinkAt(mem, list, k - 1);
      if before != NULL { mem := mem[before := mem[before].(freeNext := mem[block].freeNext)]; }
      else { free := mem[block].freeNext; }
      UnlinkChain(old(mem), old(free), list, k, mem, free);
      list := list[..k] + list[k + 1..];
    }

    /** Write the header fields of a block that is now in use. */
    method Stamp(block: int, size: int, kind: Flag, ghost i: nat)
      requires Chained() && FreeChain(mem, free, list) && i < |cells| && cells[i].at == block && block !in list
      modifies this`mem, this`cells
      ensures Chained() && FreeChain(mem, free, list)
      ensures cells == old(cells)[i := Used(old(cells)[i], old(cells)[i].capacity, size, kind)]
      ensures block in mem && mem[block].freeNext == NULL
    {
      assert LinkedAt(mem, cells, i);
      ghost var was := mem;
      mem := mem[block := mem[block].(freeNext := NULL)];
      LinkedFrame(was, mem, cells);
      FreeChainFrame(was, mem, free, list);
      assert LinkedAt(mem, cells, i);
      ghost var c := Used(cells[i], cells[i].capacity, size, kind);
      UpdateLinked(cfg, mem, cells, top, i, c);
      was := mem;
      mem := mem[block := mem[block].(requested := size, flags := {kind}, mark := 0)];
      FreeChainFrame(was, mem, free, list);
      cells := cells[i := c];
    }

    /** Split the block when the remainder is worth keeping, and list the remainder. */
    method Trim(block: int, need: int, ghost i: nat)
      requires Chained() && FreeChain(mem, free, list) && i < |cells| && cells[i].at == block
      requires need > 0 && need % 16 == 0 && need <= cells[i].capacity && top <= cfg.size
      requires forall x :: x in list ==> FreeAt(cells, x)
      modifies this`mem, this`free, this`list, this`last, this`cells
      ensures Chained() && FreeChain(mem, free, list)
      ensures cells == Trimmed(cfg, old(cells), i, need)
      ensures list ==
                if Splits(cfg, old(cells)[i].capacity, need) then [block + cfg.header + need] + old(list) else old(list)
    {
      TiledFacts(cfg, cells, top);
      assert LinkedAt(mem, cells, i);
      assert Add32(need, cfg.header + cfg.maxAlign) == need + cfg.header + cfg.maxAlign;
      if mem[block].capacity >= Add32(need, cfg.header + cfg.maxAlign) {
        var remainder := Split(block, need, i);
        ghost var was := mem;
        FreeAdd(remainder);
        LinkedFrame(was, mem, cells);
      }
    }

    /** Unlink the first fit, split it when worthwhile, and stamp it. */
    method Take(before: int, block: int, need: int, ghost i: nat, ghost k: nat, size: int, kind: Flag)
      requires Sound() && k < |list| && block == list[k] && before == (if k == 0 then NULL else list[k - 1])
      requires i < |cells| && cells[i].at == block && IsFree(cells[i]) && cells[i].capacity >= need
      requires kind in KINDS && need % 16 == 0 && 0 < size <= need
      modifies this`mem, this`free, this`list, this`last, this`cells
      ensures Sound()
      ensures cells == Taken(cfg, old(cells), i, need, size, kind)
      ensures list == TakenList(cfg, old(cells), old(list), i, k, need)
      ensures block in mem && mem[block].freeNext == NULL
    {
      TakenKeepsShape(cfg, cells, list, top, i, k, need, size, kind);
      assert Lists(list, cells) && top <= cfg.size;
      hide Shape, FreeChain;
      TrimmedTaken(cfg, cells, list, i, k, need, size, kind);
      Unlist(before, block, k);
      LinkedFrame(old(mem), mem, cells);
      assert forall x :: x in list ==> x in old(list);
      Trim(block, need, i);
      Stamp(block, size, kind, i);
    }

    /** Extend the chain by a block cut from the unused tail of the arena. */
    method Grow(need: int, size: int, kind: Flag) returns (block: int)
      requires Sound() && kind in KINDS && need % 16 == 0 && 0 < size <= need
      requires top + cfg.header + need <= cfg.size
      modifies this`mem, this`first, this`last, this`top, this`cells
      ensures Chained() && FreeChain(mem, free, list) && Shape(cfg, cells, list, top)
      ensures block == old(top) && top == old(top) + cfg.header + need
      ensures cells == Grown(old(cells), old(top), need, size, kind)
      ensures block in mem && mem[block].freeNext == NULL
    {
      GrownKeepsShape(cfg, cells, list, top, need, size, kind);
      GrownLinked(cfg, mem, cells, top, need, size, kind);
      TiledFacts(cfg, cells, top);
      GrownFrame(cfg, cells, top, list);
      ghost var was := mem;
      block := top;
      top := top + cfg.header + need;
      mem := mem[block := Header(last, NULL, NULL, need, size, {kind}, 0)];
      if last != NULL {
        assert LinkedAt(was, cells, |cells| - 1);
        mem := mem[last := mem[last].(next := block)];
      } else {
        first := block;
      }
      FreeChainFrame(was, mem, free, list);
      last := block;
      cells := Grown(cells, block, need, size, kind);
    }

    /** The high-water mark follows the top. */
    method Raise()
      requires Chained() && FreeChain(mem, free, list) && Shape(cfg, cells, list, top)
      requires top <= cfg.size && highWater <= cfg.size
      modifies this`highWater
      ensures Sound() && highWater == if top > old(highWater) then top else old(highWater)
    {
      if top > highWater { highWater := top; }
    }

    /** First fit, else the tail, else NULL. */
    method Obtain(need: int, size: int, kind: Flag) returns (block: int)
      requires Sound() && kind in KINDS && need % 16 == 0 && 0 < size <= need < WORD
      modifies this`mem, this`first, this`last, this`free, this`top, this`highWater, this`cells, this`list
      ensures Sound() && (View(cells, list, top), block) == Served(cfg, old(View(cells, list, top)), need, size, kind)
      ensures if block == NULL then unchanged(this) else block >= 0 && block in mem && mem[block].freeNext == NULL
      ensures highWater == if top > old(highWater) then top else old(highWater)
    {
      var before;
      ghost var k;
      before, block, k := Search(need);
      SearchIsFirstFit(mem, cells, list, need, k);
      if block != NULL {
        ghost var i := FreeIndex(cfg, cells, list, top, k);
        assert LinkedAt(mem, cells, i);
        Take(before, block, need, i, k, size, kind);
      } else {
        assert 0 <= top by { TiledAligned(cfg, cells, top, |cells|); }
        if need > WORD - 1 - cfg.header { return; }
        var total := Add32(cfg.header, need);
        if total > cfg.size - top { return; }
        block := Grow(need, size, kind);
        Raise();
      }
    }

    /** A block for an aligned size, and the counters that move with it. */
    method Supply(need: int, size: int, kind: Flag) returns (block: int)
      requires Sound() && Tallied(cells, count, bytes) && kind in KINDS && need % 16 == 0 && 0 < size <= need < WORD
      modifies this`mem, this`first, this`last, this`free, this`top, this`highWater, this`count, this`bytes,
               this`cells, this`list
      ensures Sound() && Tallied(cells, count, bytes)
      ensures (View(cells, list, top), block) == Served(cfg, old(View(cells, list, top)), need, size, kind)
      ensures if block == NULL then unchanged(this) else block >= 0 && block in mem && mem[block].freeNext == NULL
      ensures highWater == if top > old(highWater) then top else old(highWater)
    {
      ghost var v, counts, sizes := View(cells, list, top), count, bytes;
      assert Shape(cfg, cells, list, top);
      hide *;
      block := Obtain(need, size, kind);
      if block == NULL { return; }
      SuppliedTallied(cfg, v, View(cells, list, top), block, need, size, kind, counts, sizes);
      if kind in MANAGED { CountOne(size, kind); }
    }

    /** One more live block of the kind. */
    method CountOne(size: int, kind: Flag)
      requires Sound() && kind in count && kind in bytes
      modifies this`count, this`bytes
      ensures Sound() && count == old(count)[kind := old(count)[kind] + 1]
      ensures bytes == old(bytes)[kind := old(bytes)[kind] + size]
    {
      count := count[kind := count[kind] + 1];
      bytes := bytes[kind := bytes[kind] + size];
    }

    /** `heap_allocate_unlocked`: the payload address, or NULL. */
    method Allocate(size: int, kind: Flag) returns (address: int)
      requires Valid() && 0 <= size < WORD && kind in KINDS
      modifies this`mem, this`first, this`last, this`free, this`top, this`highWater, this`count, this`bytes,
               this`cells, this`list
      ensures Valid()
      ensures size == 0 ==> address == NULL
      ensures address == NULL ==> unchanged(this)
      ensures size > 0 ==>
                var (v, block) := Served(cfg, old(View(cells, list, top)), Need(size), size, kind);
                && View(cells, list, top) == v
                && address == (if block == NULL then NULL else block + cfg.header)
      ensures address != NULL ==> address - cfg.header in mem && mem[address - cfg.header].freeNext == NULL
      ensures highWater == if top > old(highWater) then top else old(highWater)
    {
      if size == 0 { return NULL; }
      AlignExact(size);
      var need := Align32(size);
      if need < size {
        NothingFits(cfg, cells, list, top, Need(size));
        return NULL;
      }
      var block := Supply(need, size, kind);
      if block == NULL { return NULL; }
      address := block + cfg.header;
    }
  }

  /** How the counters must move with the block that is handed out. */
  lemma SuppliedTallied(cfg: Config, v: View, w: View, block: int, need: int, size: int, kind: Flag,
                        count: map<Flag, int>, bytes: map<Flag, int>)
    requires Shape(cfg, v.cells, v.list, v.top) && Tallied(v.cells, count, bytes) && kind in KINDS
    requires (w, block) == Served(cfg, v, need, size, kind) && block != NULL
    ensures kind in MANAGED ==>
              && kind in count && kind in bytes
              && Tallied(w.cells, count[kind := count[kind] + 1], bytes[kind := bytes[kind] + size])
    ensures kind !in MANAGED ==> Tallied(w.cells, count, bytes)
  {
    ServedTallied(cfg, v, need, size, kind, count, bytes);
    hide Served, Shape;
  }
}
