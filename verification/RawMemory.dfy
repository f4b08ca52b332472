/** Manual memory in the shared arena: MemAlloc, MemFree, MemExtend, and buffers handed to native code. */
module RawMemory {
  import opened HeapModel
  import opened HeapSpec
  import opened Heap
  import SweepSpec

  /** Payload address `memory` is that of a live RAW block. */
  ghost predicate IsRaw(cfg: Config, cells: seq<Cell>, memory: int) {
    exists i :: 0 <= i < |cells| && RawCell(cfg, cells[i], memory)
  }

  predicate RawCell(cfg: Config, c: Cell, memory: int) {
    !IsFree(c) && RAW in c.flags && c.at + cfg.header == memory
  }

  /** `raw_block`: the block whose payload starts at `memory`, or NULL. */
  method RawBlock(h: Arena, memory: int) returns (block: int, ghost i: nat)
    requires h.Valid()
    ensures block == NULL <==> !IsRaw(h.cfg, h.cells, memory)
    ensures block != NULL ==> i < |h.cells| && h.cells[i].at == block && RawCell(h.cfg, h.cells[i], memory)
  {
    block, i := h.first, 0;
    if |h.cells| > 0 { h.Visit(0); }
    while block != NULL
      invariant 0 <= i <= |h.cells| && block == CellAt(h.cells, i)
      invariant forall j :: 0 <= j < i ==> !RawCell(h.cfg, h.cells[j], memory)
      decreases |h.cells| - i
    {
      h.Visit(i);
      if FREE !in h.mem[block].flags && RAW in h.mem[block].flags && block + h.cfg.header == memory { return; }
      block, i := h.mem[block].next, i + 1;
      if i < |h.cells| { h.Visit(i); }
    }
    if i < |h.cells| { h.Visit(i); }
  }

  lemma RawUncounted(cfg: Config, cells: seq<Cell>, i: nat, count: map<Flag, int>, bytes: map<Flag, int>)
    requires i < |cells| && AllWellformed(cells) && RAW in cells[i].flags && !IsFree(cells[i])
    requires Tallied(cells, count, bytes)
    ensures Tallied(Released(cfg, cells, i), count, bytes)
  {
    assert Wellformed(cells[i]);
    var only :| only in KINDS && cells[i].flags * KINDS == {only};
    assert RAW in cells[i].flags * KINDS;
    forall k | k in MANAGED
      ensures Count(Released(cfg, cells, i), k) == Count(cells, k)
      ensures Bytes(Released(cfg, cells, i), k) == Bytes(cells, k)
    {
      assert k in KINDS && k != RAW;
      assert k in cells[i].flags <==> k in cells[i].flags * KINDS;
      ReleaseCounts(cfg, cells, i, k);
      CountSingle(cells[i], k);
    }
  }

  /** The live blocks of before, without the one whose payload is at `memory`. */
  ghost predicate Dropped(cfg: Config, before: seq<Cell>, after: seq<Cell>, memory: int) {
    forall c: Cell :: !IsFree(c) ==> (c in after <==> c in before && c.at + cfg.header != memory)
  }

  lemma ReleasedGone(cfg: Config, cells: seq<Cell>, top: int, i: nat)
    requires i < |cells| && AllWellformed(cells) && Ordered(cfg, cells, top) && cfg.header >= 0 && !IsFree(cells[i])
    ensures cells[i] !in Released(cfg, cells, i)
  {
    var mid := ReleasedIsSplice(cfg, cells, i);
    var lo, hi := RunStart(cells, i), RunEnd(cells, i);
    hide Released, Wellformed;
    assert mid != cells[i];
    assert forall k :: 0 <= k < |cells| && k != i ==> cells[k].at != cells[i].at;
    assert cells[i] !in cells[..lo] && cells[i] !in cells[hi..];
  }

  /** Releasing the block at `memory` drops it and no other. */
  lemma ReleasedDrops(cfg: Config, cells: seq<Cell>, list: seq<int>, top: int, i: nat, memory: int)
    requires Shape(cfg, cells, list, top) && i < |cells| && RawCell(cfg, cells[i], memory)
    ensures Dropped(cfg, cells, Released(cfg, cells, i), memory)
  {
    TiledFacts(cfg, cells, top);
    ReleasedGone(cfg, cells, top, i);
    hide Released, Shape;
    forall c: Cell | !IsFree(c)
      ensures c in Released(cfg, cells, i) <==> c in cells && c.at + cfg.header != memory
    {
      if c != cells[i] { ReleasedLive(cfg, cells, i, c); }
      if c in cells {
        var j :| 0 <= j < |cells| && cells[j] == c;
        assert j != i ==> cells[j].at != cells[i].at;
      }
    }
  }

  datatype Freed = Nothing | Panic | Done

  /** `bbMemFree`: an address that is not a live RAW payload is refused with the heap untouched. */
  method MemFree(h: Arena, memory: int) returns (r: Freed, ghost i: nat)
    requires h.Valid()
    modifies h`mem, h`free, h`list, h`last, h`cells
    ensures h.Valid()
    ensures memory == NULL ==> r == Nothing && unchanged(h)
    ensures memory != NULL ==>
              (r == Panic <==> !IsRaw(h.cfg, old(h.cells), memory)) && (r == Panic ==> unchanged(h)) && r != Nothing
    ensures r == Done ==>
              && i < |old(h.cells)| && RawCell(h.cfg, old(h.cells)[i], memory)
              && h.cells == Released(h.cfg, old(h.cells), i) && h.list == ReleasedList(old(h.cells), old(h.list), i)
              && Dropped(h.cfg, old(h.cells), h.cells, memory)
  {
    i := 0;
    if memory == NULL { return Nothing, i; }
    var block;
    block, i := RawBlock(h, memory);
    if block == NULL { return Panic, i; }
    RawUncounted(h.cfg, h.cells, i, h.count, h.bytes);
    ReleasedDrops(h.cfg, h.cells, h.list, h.top, i, memory);
    var freed := h.Release(block, i);
    r := Done;
  }

  // ---- Buffers for native code ------------------------------------------------------------------

  /** Bytes [first, first + bytes) lie inside the requested part of one live RAW block. */
  ghost predicate InsideRaw(cfg: Config, cells: seq<Cell>, first: int, bytes: int) {
    exists i :: 0 <= i < |cells| && Covers(cfg, cells[i], first, bytes)
  }

  predicate Covers(cfg: Config, c: Cell, first: int, bytes: int) {
    && c.flags == {RAW} && c.at + cfg.header <= first
    && first + bytes <= c.at + cfg.header + c.requested
  }

  /** `gc_buffer_stable`, with addresses relative to the arena and `highest` the last address. */
  method BufferStable(h: Arena, buffer: int, isNull: bool, bytes: nat, highest: int) returns (stable: bool)
    requires h.Valid() && h.cfg.size <= highest
    ensures stable <==>
      || bytes == 0
      || (!isNull && buffer + bytes <= highest
          && (buffer + bytes <= 0 || buffer >= h.cfg.size || InsideRaw(h.cfg, h.cells, buffer, bytes)))
  {
    TiledFacts(h.cfg, h.cells, h.top);
    if bytes == 0 { return true; }
    if isNull || bytes > highest - buffer { return false; }
    if buffer + bytes <= 0 || buffer >= h.cfg.size { return true; }
    SizesFit(h.cells);
    if buffer < 0 || buffer + bytes > h.cfg.size { return false; }
    var block := h.first;
    ghost var i := 0;
    while block != NULL
      invariant 0 <= i <= |h.cells| && block == CellAt(h.cells, i)
      invariant forall j :: 0 <= j < i ==> !Covers(h.cfg, h.cells[j], buffer, bytes)
      decreases |h.cells| - i
    {
      h.Visit(i);
      var payload := block + h.cfg.header;
      if payload > buffer { return false; }
      if h.mem[block].flags == {RAW} && buffer - payload <= h.mem[block].requested
        && bytes <= h.mem[block].requested - (buffer - payload) {
        assert Covers(h.cfg, h.cells[i], buffer, bytes);
        return true;
      }
      block, i := h.mem[block].next, i + 1;
    }
    if i < |h.cells| { h.Visit(i); }
    return false;
  }

  lemma SizesFit(cells: seq<Cell>)
    requires AllWellformed(cells)
    ensures forall i :: 0 <= i < |cells| ==> cells[i].requested <= cells[i].capacity || IsFree(cells[i])
  {
    forall i | 0 <= i < |cells| ensures cells[i].requested <= cells[i].capacity || IsFree(cells[i]) {
      assert Wellformed(cells[i]);
    }
  }

  /** A stable buffer inside the arena survives every sweep: no collection moves or frees its block. */
  lemma StableSurvives(cfg: Config, cells: seq<Cell>, c: Cell, first: int, bytes: int, epoch: int)
    requires c in cells && Covers(cfg, c, first, bytes)
    ensures InsideRaw(cfg, SweepSpec.Swept(cfg, cells, epoch), first, bytes)
  {
    SweepSpec.SweepSurvivors(cfg, cells, epoch, c);
    var s := SweepSpec.Swept(cfg, cells, epoch);
    var i :| 0 <= i < |s| && s[i] == c;
    assert Covers(cfg, s[i], first, bytes);
  }

  // ---- Allocating and extending -----------------------------------------------------------------

  /** The live blocks of before, and u, a RAW block of `size` bytes with its payload at `address`. */
  ghost predicate Added(cfg: Config, before: seq<Cell>, after: seq<Cell>, u: Cell, address: int, size: int) {
    && u.flags == {RAW} && u.requested == size && u.at + cfg.header == address
    && (forall c :: c in before && !IsFree(c) ==> c.at != u.at)
    && forall c: Cell :: !IsFree(c) ==> (c in after <==> c in before || c == u)
  }

  /** The arena has room for a block of this size. */
  ghost predicate Room(cfg: Config, v: View, size: int) {
    0 < size < WORD && Served(cfg, v, Need(size), size, RAW).1 != NULL
  }

  /** `bbMemAlloc`, without the collection that a full arena causes. */
  method MemAlloc(h: Arena, size: nat) returns (address: int, ghost u: Cell)
    requires h.Valid()
    modifies h`mem, h`first, h`last, h`free, h`top, h`highWater, h`count, h`bytes, h`cells, h`list
    ensures h.Valid()
    ensures address == NULL <==> !Room(h.cfg, old(View(h.cells, h.list, h.top)), size)
    ensures address == NULL ==> unchanged(h)
    ensures address != NULL ==> Added(h.cfg, old(h.cells), h.cells, u, address, size)
  {
    u := Cell(0, 0, 0, {}, 0);
    if size == 0 || size > WORD - 1 { return NULL, u; }
    ShapeOf(h);
    hide *;
    ghost var before := View(h.cells, h.list, h.top);
    address := h.Allocate(size, RAW);
    AlignExact(size);
    u := ServedRaw(h.cfg, before, size);
  }

  lemma ServedRaw(cfg: Config, v: View, size: nat) returns (u: Cell)
    requires Shape(cfg, v.cells, v.list, v.top) && 0 < size < WORD
    ensures var (w, block) := Served(cfg, v, Need(size), size, RAW);
            && (Room(cfg, v, size) <==> block != NULL)
            && (block != NULL ==>
                  block + cfg.header != NULL && Added(cfg, v.cells, w.cells, u, block + cfg.header, size))
  {
    AlignExact(size);
    u := ServedLive(cfg, v, Need(size), size, RAW);
    TiledFacts(cfg, v.cells, v.top);
    TiledAligned(cfg, v.cells, v.top, |v.cells|);
    if FirstFit(v.cells, v.list, Need(size)) < |v.list| {
      var i := FreeIndex(cfg, v.cells, v.list, v.top, FirstFit(v.cells, v.list, Need(size)));
    }
    hide Shape;
  }

  datatype Extended = Null | Refused | At(address: int)

  function Least(a: int, b: int): int { if a < b then a else b }

  /** The live blocks of before, but u in place of the block at `memory`. */
  ghost predicate Swapped(cfg: Config, before: seq<Cell>, after: seq<Cell>, memory: int, u: Cell) {
    forall c: Cell :: !IsFree(c) ==> (c in after <==> (c in before && c.at + cfg.header != memory) || c == u)
  }

  /** `bbMemExtend` with `data` the bytes of the RAW payloads by address.  A failed allocation leaves
      the old block in place; a successful one carries over the common prefix and gives the old block
      back; and no other block and no other data changes. */
  method MemExtend(h: Arena, data: map<int, seq<int>>, memory: int, size: nat, newSize: nat)
      returns (r: Extended, data': map<int, seq<int>>, ghost u: Cell)
    requires h.Valid()
    requires forall i :: 0 <= i < |h.cells| && RawCell(h.cfg, h.cells[i], memory) ==>
               memory in data && |data[memory]| == h.cells[i].requested
    modifies h`mem, h`first, h`last, h`free, h`top, h`highWater, h`count, h`bytes, h`cells, h`list
    ensures h.Valid()
    ensures r == Refused <==> memory != NULL && !IsRaw(h.cfg, old(h.cells), memory)
    ensures r == Refused ==> unchanged(h) && data' == data
    ensures r.At? <==> r != Refused && Room(h.cfg, old(View(h.cells, h.list, h.top)), newSize)
    ensures r.Null? && (newSize > 0 || memory == NULL) ==> unchanged(h) && data' == data
    ensures r.Null? && newSize == 0 && memory != NULL ==>
              data' == data - {memory} && Dropped(h.cfg, old(h.cells), h.cells, memory)
    ensures r.At? ==>
              && r.address != memory && u.at + h.cfg.header == r.address && u.flags == {RAW} && u.requested == newSize
              && (forall c :: c in old(h.cells) && !IsFree(c) ==> c.at != u.at)
              && Swapped(h.cfg, old(h.cells), h.cells, memory, u)
              && data'.Keys == data.Keys - {memory} + {r.address} && |data'[r.address]| == newSize
              && (forall a :: a in data' && a != r.address ==> data'[a] == data[a])
    ensures r.At? && memory != NULL ==>
              var kept := Least(Least(size, |data[memory]|), newSize);
              data'[r.address][..kept] == data[memory][..kept]
  {
    u := Cell(0, 0, 0, {}, 0);
    var address;
    if memory == NULL {
      NothingAtNull(h);
      address, u := MemAlloc(h, newSize);
      r := if address == NULL then Null else At(address);
      data' := if address == NULL then data else (data - {memory})[address := seq(newSize, _ => 0)];
      return;
    }
    var f;
    ghost var n;
    if newSize == 0 {
      f, n := MemFree(h, memory);
      r, data' := if f == Panic then Refused else Null, if f == Panic then data else data - {memory};
      return;
    }
    var block;
    block, n := RawBlock(h, memory);
    if block == NULL { return Refused, data, u; }
    h.Visit(n);
    SizeOf(h, n, memory);
    hide *;
    address, data', u := Move(h, data, memory, h.mem[block].requested, size, newSize);
    r := if address == NULL then Null else At(address);
  }

  /** The rest of `bbMemExtend`, for a valid block of `oldSize` bytes. */
  method Move(h: Arena, data: map<int, seq<int>>, memory: int, oldSize: nat, size: nat, newSize: nat)
      returns (address: int, data': map<int, seq<int>>, ghost u: Cell)
    requires h.Valid() && memory != NULL && IsRaw(h.cfg, h.cells, memory)
    requires memory in data && |data[memory]| == oldSize
    modifies h`mem, h`first, h`last, h`free, h`top, h`highWater, h`count, h`bytes, h`cells, h`list
    ensures h.Valid()
    ensures address == NULL <==> !Room(h.cfg, old(View(h.cells, h.list, h.top)), newSize)
    ensures address == NULL ==> unchanged(h) && data' == data
    ensures address != NULL ==>
              && address != memory && u.at + h.cfg.header == address && u.flags == {RAW} && u.requested == newSize
              && (forall c :: c in old(h.cells) && !IsFree(c) ==> c.at != u.at)
              && Swapped(h.cfg, old(h.cells), h.cells, memory, u)
              && data'.Keys == data.Keys - {memory} + {address} && |data'[address]| == newSize
              && (forall a :: a in data' && a != address ==> data'[a] == data[a])
              && var kept := Least(Least(size, oldSize), newSize); data'[address][..kept] == data[memory][..kept]
  {
    hide *;
    ghost var before := h.cells;
    address, u := MemAlloc(h, newSize);
    if address == NULL { return NULL, data, u; }
    ghost var middle := h.cells;
    RawKept(h.cfg, before, middle, memory, u, address, newSize);
    var kept := Least(Least(size, oldSize), newSize);
    LeastBound(size, oldSize, newSize);
    var bytes := data[memory][..kept] + seq(newSize - kept, _ => 0);
    assert bytes[..kept] == data[memory][..kept];
    data' := (data - {memory})[address := bytes];
    var f;
    ghost var n;
    f, n := MemFree(h, memory);
    SwappedIs(h.cfg, before, middle, h.cells, memory, u, address, newSize);
  }

  lemma NothingAtNull(h: Arena)
    requires h.Valid()
    ensures forall c :: c in h.cells ==> c.at + h.cfg.header != NULL
  {
    TiledFacts(h.cfg, h.cells, h.top);
  }

  lemma LeastBound(a: nat, b: nat, c: nat)
    ensures 0 <= Least(Least(a, b), c) <= b && Least(Least(a, b), c) <= c
  {}

  lemma SizeOf(h: Arena, n: nat, memory: int)
    requires h.Valid() && n < |h.cells| && RawCell(h.cfg, h.cells[n], memory)
    ensures h.cells[n].at in h.mem && h.mem[h.cells[n].at].requested == h.cells[n].requested >= 0
    ensures IsRaw(h.cfg, h.cells, memory)
  {
    assert LinkedAt(h.mem, h.cells, n) && Wellformed(h.cells[n]);
  }

  lemma ShapeOf(h: Arena)
    requires h.Valid()
    ensures Shape(h.cfg, h.cells, h.list, h.top) && AllWellformed(h.cells) && RAW in KINDS
  {}

  /** The old block is still there after the allocation, and the new one is elsewhere. */
  lemma RawKept(cfg: Config, before: seq<Cell>, after: seq<Cell>, memory: int, u: Cell, address: int, size: int)
    requires IsRaw(cfg, before, memory) && Added(cfg, before, after, u, address, size)
    ensures address != memory && IsRaw(cfg, after, memory)
  {
    var i :| 0 <= i < |before| && RawCell(cfg, before[i], memory);
    assert before[i] in before && before[i] in after;
    var j :| 0 <= j < |after| && after[j] == before[i];
    assert RawCell(cfg, after[j], memory);
  }

  lemma SwappedIs(cfg: Config, before: seq<Cell>, middle: seq<Cell>, after: seq<Cell>, memory: int, u: Cell,
                  address: int, size: int)
    requires Added(cfg, before, middle, u, address, size) && Dropped(cfg, middle, after, memory) && address != memory
    ensures Swapped(cfg, before, after, memory, u)
    ensures u.at + cfg.header == address && u.flags == {RAW} && u.requested == size
    ensures forall c :: c in before && !IsFree(c) ==> c.at != u.at
  {}
}
