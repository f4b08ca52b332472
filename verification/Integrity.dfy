/** The integrity checker: from raw headers alone, decide whether the heap invariant holds. */
module Integrity {
  import opened Heap
  import opened HeapModel
  import opened SweepSpec

  /** The globals that the checker reads. */
  datatype Globals = Globals(first: int, last: int, free: int, top: int, highWater: int,
                             count: map<Flag, int>, bytes: map<Flag, int>)

  /** Every aligned header position below the arena offset can be read. */
  ghost predicate Readable(cfg: Config, mem: Memory, top: int) {
    forall x {:trigger x in mem} :: 0 <= x && x % 16 == 0 && x + cfg.header <= top ==> x in mem
  }

  /** The chain half of the heap invariant, for given cells. */
  ghost predicate ChainBuilt(cfg: Config, mem: Memory, g: Globals, cells: seq<Cell>) {
    && Tiled(cfg, cells, g.top) && Linked(mem, cells)
    && g.first == FirstAt(cells) && g.last == LastAt(cells)
    && AllWellformed(cells) && Coalesced(cells)
    && (g.top > 0 ==> Tallied(cells, g.count, g.bytes))
  }

  /** The whole invariant that the allocator keeps, read off some chain and some free list. */
  ghost predicate Built(cfg: Config, mem: Memory, g: Globals, cells: seq<Cell>, list: seq<int>) {
    && 0 <= g.top <= g.highWater <= cfg.size
    && ChainBuilt(cfg, mem, g, cells)
    && FreeChain(mem, g.free, list) && Lists(list, cells)
  }

  // ---- The chain is determined by memory --------------------------------------------------------

  function ReadCell(mem: Memory, x: int): Cell
    requires x in mem
  {
    Cell(x, mem[x].capacity, mem[x].requested, mem[x].flags, mem[x].mark)
  }

  /** Cells read one after the other from offset 0. */
  ghost predicate ReadFrom(cfg: Config, mem: Memory, cells: seq<Cell>, top: int) {
    forall i {:trigger TiledAt(cfg, cells, i)} :: 0 <= i < |cells| ==>
      && TiledAt(cfg, cells, i) && cells[i].at in mem && cells[i] == ReadCell(mem, cells[i].at)
      && cells[i].at < top && End(cfg, cells[i]) <= top
      && mem[cells[i].at].previous == PrevAt(cells, i)
      && mem[cells[i].at].next == (if End(cfg, cells[i]) < top then End(cfg, cells[i]) else NULL)
  }

  lemma {:induction false} PrefixUnique(cfg: Config, mem: Memory, cells: seq<Cell>, any: seq<Cell>, top: int, n: nat)
    requires ReadFrom(cfg, mem, cells, top) && Tiled(cfg, any, top) && Linked(mem, any) && n <= |cells|
    ensures n <= |any| && any[..n] == cells[..n]
  {
    if n > 0 {
      PrefixUnique(cfg, mem, cells, any, top, n - 1);
      assert TiledAt(cfg, cells, n - 1);
      assert n > 1 ==> any[n - 2] == any[..n - 1][n - 2] && cells[n - 2] == cells[..n - 1][n - 2];
      assert Start(cfg, any, n - 1) == Start(cfg, cells, n - 1);
      assert n - 1 < |any|;
      assert TiledAt(cfg, any, n - 1) && LinkedAt(mem, any, n - 1);
      assert any[n - 1] == cells[n - 1];
      assert any[..n] == any[..n - 1] + [any[n - 1]] && cells[..n] == cells[..n - 1] + [cells[n - 1]];
    }
  }

  /** Every check the loop makes on one block (lines 2516-2541). */
  predicate Accepts(cfg: Config, mem: Memory, top: int, cursor: int, previous: int)
    requires cursor in mem && (previous == NULL || previous in mem)
  {
    var b := mem[cursor];
    && b.previous == previous
    && b.capacity % 16 == 0 && b.capacity > 0
    && UNKNOWN !in b.flags
    && b.capacity <= top - (cursor + cfg.header)
    && b.next == (if cursor + cfg.header + b.capacity < top then cursor + cfg.header + b.capacity else NULL)
    && (if FREE in b.flags then
          b.flags == {FREE} && b.requested == 0 && !(previous != NULL && FREE in mem[previous].flags)
        else
          && SingleKind(b.flags) && 0 < b.requested <= b.capacity
          && (PENDING in b.flags || FINALIZED in b.flags ==> OBJECT in b.flags))
  }

  /** `kind && !(kind & (kind - 1))`: exactly one kind bit. */
  predicate SingleKind(flags: set<Flag>) {
    (if OBJECT in flags then 1 else 0) + (if ARRAY in flags then 1 else 0)
      + (if STRING in flags then 1 else 0) + (if RAW in flags then 1 else 0) == 1
  }

  lemma SingleKindIsOne(flags: set<Flag>)
    ensures SingleKind(flags) <==> exists k :: k in KINDS && flags * KINDS == {k}
  {
    if SingleKind(flags) {
      var k :=
        if OBJECT in flags then OBJECT else if ARRAY in flags then ARRAY else if STRING in flags then STRING else RAW;
      assert flags * KINDS == {k};
    }
    if k :| k in KINDS && flags * KINDS == {k} {
      assert forall f :: f in KINDS ==> (f in flags <==> f in flags * KINDS);
    }
  }

  /** The next block of any well-built chain passes every check. */
  lemma AcceptsBuilt(cfg: Config, mem: Memory, g: Globals, any: seq<Cell>, n: nat)
    requires cfg.Valid() && ChainBuilt(cfg, mem, g, any) && n < |any|
    ensures any[n].at in mem && (n > 0 ==> any[n - 1].at in mem)
    ensures PrevAt(any, n) == NULL <==> n == 0
    ensures Accepts(cfg, mem, g.top, any[n].at, PrevAt(any, n))
  {
    TiledFacts(cfg, any, g.top);
    assert TiledAt(cfg, any, n) && LinkedAt(mem, any, n) && Wellformed(any[n]);
    SingleKindIsOne(any[n].flags);
    if n > 0 { assert LinkedAt(mem, any, n - 1); }
    if n + 1 < |any| { assert TiledAt(cfg, any, n + 1); }
  }

  /** A block that passes every check extends the chain read so far. */
  lemma AcceptsReads(cfg: Config, mem: Memory, g: Globals, cells: seq<Cell>, cursor: int)
    requires cfg.Valid() && ReadFrom(cfg, mem, cells, g.top) && cursor == Start(cfg, cells, |cells|) && cursor < g.top
    requires cursor in mem && (|cells| > 0 ==> PrevAt(cells, |cells|) in mem)
    requires Accepts(cfg, mem, g.top, cursor, PrevAt(cells, |cells|))
    ensures ReadFrom(cfg, mem, cells + [ReadCell(mem, cursor)], g.top)
  {
    var n := |cells|;
    var c := cells + [ReadCell(mem, cursor)];
    forall i | 0 <= i < |c|
      ensures TiledAt(cfg, c, i) && c[i].at in mem && c[i] == ReadCell(mem, c[i].at) && c[i].at < g.top
      ensures End(cfg, c[i]) <= g.top && mem[c[i].at].previous == PrevAt(c, i)
      ensures mem[c[i].at].next == if End(cfg, c[i]) < g.top then End(cfg, c[i]) else NULL
    {
      if i < n { assert TiledAt(cfg, cells, i); }
    }
  }

  lemma AcceptsExtends(cfg: Config, mem: Memory, g: Globals, cells: seq<Cell>, cursor: int)
    requires cfg.Valid() && ReadFrom(cfg, mem, cells, g.top) && cursor == Start(cfg, cells, |cells|) && cursor < g.top
    requires cursor in mem && (|cells| > 0 ==> PrevAt(cells, |cells|) in mem && cells[|cells| - 1].at >= 0)
    requires AllWellformed(cells) && Coalesced(cells)
    requires Accepts(cfg, mem, g.top, cursor, PrevAt(cells, |cells|))
    ensures var c := cells + [ReadCell(mem, cursor)];
            ReadFrom(cfg, mem, c, g.top) && AllWellformed(c) && Coalesced(c)
  {
    AcceptsReads(cfg, mem, g, cells, cursor);
    var n := |cells|;
    var x := ReadCell(mem, cursor);
    SingleKindIsOne(x.flags);
    assert Wellformed(x);
    if n > 0 { assert TiledAt(cfg, cells, n - 1); }
    ExtendProper(cells, x);
  }

  lemma ExtendProper(cells: seq<Cell>, x: Cell)
    requires AllWellformed(cells) && Coalesced(cells) && Wellformed(x)
    requires cells != [] ==> !(IsFree(cells[|cells| - 1]) && IsFree(x))
    ensures AllWellformed(cells + [x]) && Coalesced(cells + [x])
  {
    var n := |cells|;
    var c := cells + [x];
    forall i | 0 <= i < |c| ensures Wellformed(c[i]) { if i < n { assert Wellformed(cells[i]); } }
    forall i, j | 0 <= i && j == i + 1 && j < |c| ensures !(IsFree(c[i]) && IsFree(c[j])) {
      if j < n { assert c[i] == cells[i] && c[j] == cells[j]; }
    }
  }

  /** Where the walk stands, any well-built chain has its next block. */
  lemma ChainNext(cfg: Config, mem: Memory, g: Globals, cells: seq<Cell>, any: seq<Cell>, cursor: int)
    requires cfg.Valid() && ReadFrom(cfg, mem, cells, g.top) && cursor == Start(cfg, cells, |cells|) && cursor < g.top
    requires ChainBuilt(cfg, mem, g, any)
    requires |cells| > 0 ==> PrevAt(cells, |cells|) in mem
    ensures cursor + cfg.header <= g.top && cursor in mem
    ensures PrevAt(cells, |cells|) == NULL <==> |cells| == 0
    ensures Accepts(cfg, mem, g.top, cursor, PrevAt(cells, |cells|))
  {
    var n := |cells|;
    PrefixUnique(cfg, mem, cells, any, g.top, n);
    assert n > 0 ==> any[n - 1] == any[..n][n - 1];
    assert Start(cfg, any, n) == cursor;
    assert n < |any|;
    TiledFacts(cfg, any, g.top);
    assert TiledAt(cfg, any, n);
    AcceptsBuilt(cfg, mem, g, any, n);
  }

  /** At the end of the walk there is only one candidate chain. */
  lemma ChainUnique(cfg: Config, mem: Memory, g: Globals, cells: seq<Cell>, any: seq<Cell>)
    requires cfg.Valid() && ReadFrom(cfg, mem, cells, g.top) && g.top == Start(cfg, cells, |cells|)
    requires ChainBuilt(cfg, mem, g, any)
    ensures any == cells
  {
    var n := |cells|;
    PrefixUnique(cfg, mem, cells, any, g.top, n);
    assert n > 0 ==> any[n - 1] == any[..n][n - 1];
    assert any[..n] == cells[..n];
    TiledFacts(cfg, any, g.top);
    AtStart(cfg, any, g.top, n);
  }

  lemma AtStart(cfg: Config, any: seq<Cell>, top: int, n: nat)
    requires Tiled(cfg, any, top) && n <= |any|
    ensures n < |any| ==> any[n].at == Start(cfg, any, n)
  {
    if n < |any| { assert TiledAt(cfg, any, n); }
  }

  lemma ReadFromLinked(cfg: Config, mem: Memory, cells: seq<Cell>, top: int)
    requires ReadFrom(cfg, mem, cells, top) && top == Start(cfg, cells, |cells|)
    ensures Tiled(cfg, cells, top) && Linked(mem, cells)
    ensures top > 0 ==> FirstAt(cells) == 0
  {
    assert |cells| > 0 ==> TiledAt(cfg, cells, 0);
    forall i | 0 <= i < |cells| ensures TiledAt(cfg, cells, i) && LinkedAt(mem, cells, i) {
      assert TiledAt(cfg, cells, i);
      if i + 1 < |cells| { assert TiledAt(cfg, cells, i + 1); }
    }
  }

  function FreeCount(cells: seq<Cell>): nat {
    if cells == [] then 0 else FreeCount(cells[..|cells| - 1]) + (if IsFree(cells[|cells| - 1]) then 1 else 0)
  }

  /** The first loop (lines 2515-2562). */
  method CheckChain(cfg: Config, mem: Memory,
                    g: Globals) returns (ok: bool, blocks: nat, freeBlocks: nat, ghost cells: seq<Cell>)
    requires cfg.Valid() && 0 < g.top && Readable(cfg, mem, g.top) && g.first == 0
    requires forall k :: k in MANAGED ==> k in g.count && k in g.bytes
    ensures ok ==> ChainBuilt(cfg, mem, g, cells) && blocks == |cells| && freeBlocks == FreeCount(cells)
    ensures !ok ==> forall any :: !ChainBuilt(cfg, mem, g, any)
  {
    var cursor, previous := 0, NULL;
    blocks, freeBlocks, cells := 0, 0, [];
    var count := map[OBJECT := 0, ARRAY := 0, STRING := 0];
    var bytes := map[OBJECT := 0, ARRAY := 0, STRING := 0];
    while cursor < g.top
      invariant blocks == |cells| && freeBlocks == FreeCount(cells)
      invariant cursor == Start(cfg, cells, |cells|) && 0 <= cursor <= g.top && cursor % 16 == 0
      invariant previous == PrevAt(cells, |cells|) && (cells != [] ==> previous in mem && previous >= 0)
      invariant ReadFrom(cfg, mem, cells, g.top) && AllWellformed(cells) && Coalesced(cells)
      invariant Tallied(cells, count, bytes)
      decreases g.top - cursor
    {
      if g.top - cursor < cfg.header || !Accepts(cfg, mem, g.top, cursor, previous) {
        forall any ensures !ChainBuilt(cfg, mem, g, any) {
          if ChainBuilt(cfg, mem, g, any) { ChainNext(cfg, mem, g, cells, any, cursor); }
        }
        return false, blocks, freeBlocks, cells;
      }
      var b := mem[cursor];
      ghost var c := ReadCell(mem, cursor);
      AcceptsExtends(cfg, mem, g, cells, cursor);
      AppendTallied(cells, c, count, bytes);
      assert (cells + [c])[..blocks] == cells;
      if FREE in b.flags {
        freeBlocks := freeBlocks + 1;
      } else if OBJECT in b.flags {
        count, bytes := count[OBJECT := count[OBJECT] + 1], bytes[OBJECT := bytes[OBJECT] + b.requested];
      } else if ARRAY in b.flags {
        count, bytes := count[ARRAY := count[ARRAY] + 1], bytes[ARRAY := bytes[ARRAY] + b.requested];
      } else if STRING in b.flags {
        count, bytes := count[STRING := count[STRING] + 1], bytes[STRING := bytes[STRING] + b.requested];
      }
      previous := cursor;
      cursor := cursor + cfg.header + b.capacity;
      blocks, cells := blocks + 1, cells + [c];
    }
    ReadFromLinked(cfg, mem, cells, g.top);
    ok := previous == g.last
       && count[OBJECT] == g.count[OBJECT] && bytes[OBJECT] == g.bytes[OBJECT]
       && count[ARRAY] == g.count[ARRAY] && bytes[ARRAY] == g.bytes[ARRAY]
       && count[STRING] == g.count[STRING] && bytes[STRING] == g.bytes[STRING];
    SameCounters(cells, count, bytes, g.count, g.bytes);
    if !ok {
      forall any ensures !ChainBuilt(cfg, mem, g, any) {
        if ChainBuilt(cfg, mem, g, any) { ChainUnique(cfg, mem, g, cells, any); }
      }
    }
  }

  lemma SameCounters(cells: seq<Cell>, count: map<Flag, int>, bytes: map<Flag, int>, c: map<Flag, int>,
                     b: map<Flag, int>)
    requires Tallied(cells, count, bytes) && forall k :: k in MANAGED ==> k in c && k in b
    ensures Tallied(cells, c, b) <==>
      && count[OBJECT] == c[OBJECT] && bytes[OBJECT] == b[OBJECT]
      && count[ARRAY] == c[ARRAY] && bytes[ARRAY] == b[ARRAY]
      && count[STRING] == c[STRING] && bytes[STRING] == b[STRING]
  {
    assert forall k :: k in MANAGED <==> k == OBJECT || k == ARRAY || k == STRING;
  }

  /** Counting one more block, by the first kind it carries. */
  lemma AppendTallied(cells: seq<Cell>, c: Cell, count: map<Flag, int>, bytes: map<Flag, int>)
    requires Tallied(cells, count, bytes) && Wellformed(c)
    ensures var k := if OBJECT in c.flags then OBJECT else if ARRAY in c.flags then ARRAY else STRING;
            if IsFree(c) || !(k in c.flags) then Tallied(cells + [c], count, bytes)
            else Tallied(cells + [c], count[k := count[k] + 1], bytes[k := bytes[k] + c.requested])
  {
    var kind := if OBJECT in c.flags then OBJECT else if ARRAY in c.flags then ARRAY else STRING;
    forall k | k in MANAGED
      ensures Count(cells + [c], k) == Count(cells, k) + (if !IsFree(c) && kind in c.flags && k == kind then 1 else 0)
      ensures Bytes(cells + [c], k) ==
                Bytes(cells, k) + (if !IsFree(c) && kind in c.flags && k == kind then c.requested else 0)
    {
      CountConcat(cells, [c], k);
      CountSingle(c, k);
      if !IsFree(c) {
        var only :| only in KINDS && c.flags * KINDS == {only};
        assert forall f :: f in KINDS ==> (f in c.flags <==> f in c.flags * KINDS);
      }
    }
  }

  // ---- The free list ------------------------------------------------------------------------------

  /** Following `freeNext` from the head visits these blocks and then stands at cur. */
  ghost predicate Walked(mem: Memory, head: int, list: seq<int>, cur: int) {
    && head == (if list == [] then cur else list[0])
    && forall k {:trigger WalkedAt(mem, list, cur, k)} :: 0 <= k < |list| ==> WalkedAt(mem, list, cur, k)
  }

  predicate WalkedAt(mem: Memory, list: seq<int>, cur: int, k: nat)
    requires k < |list|
  {
    list[k] in mem && list[k] >= 0 && mem[list[k]].freeNext == (if k + 1 < |list| then list[k + 1] else cur)
  }

  lemma WalkedMore(mem: Memory, head: int, list: seq<int>, cur: int)
    requires Walked(mem, head, list, cur) && cur in mem && cur >= 0
    ensures Walked(mem, head, list + [cur], mem[cur].freeNext)
  {
    var l := list + [cur];
    forall k | 0 <= k < |l| ensures WalkedAt(mem, l, mem[cur].freeNext, k) {
      if k < |list| { assert WalkedAt(mem, list, cur, k); }
    }
  }

  lemma WalkedToEnd(mem: Memory, head: int, list: seq<int>)
    requires Walked(mem, head, list, NULL)
    ensures FreeChain(mem, head, list)
  {
    forall k | 0 <= k < |list| ensures FreeLinkAt(mem, list, k) { assert WalkedAt(mem, list, NULL, k); }
  }

  /** Any complete free list starts with the blocks walked so far. */
  lemma {:induction false} WalkedPrefix(mem: Memory, head: int, list: seq<int>, cur: int, any: seq<int>, k: nat)
    requires Walked(mem, head, list, cur) && FreeChain(mem, head, any) && k <= |list|
    ensures k <= |any| && any[..k] == list[..k] && (if k < |list| then list[k] else cur) == Entry(any, k)
  {
    if k > 0 {
      WalkedPrefix(mem, head, list, cur, any, k - 1);
      assert WalkedAt(mem, list, cur, k - 1);
      assert k - 1 < |any|;
      assert FreeLinkAt(mem, any, k - 1);
      assert any[..k] == any[..k - 1] + [any[k - 1]] && list[..k] == list[..k - 1] + [list[k - 1]];
    }
  }

  /** A list that ends cannot repeat a block: a repetition would make the links run in a circle. */
  lemma {:induction false} NoRepeat(mem: Memory, head: int, list: seq<int>, i: nat, j: nat)
    requires FreeChain(mem, head, list) && i < j < |list|
    ensures list[i] != list[j]
    decreases |list| - j
  {
    assert FreeLinkAt(mem, list, i) && FreeLinkAt(mem, list, j);
    if j + 1 < |list| {
      NoRepeat(mem, head, list, i + 1, j + 1);
    } else {
      assert FreeLinkAt(mem, list, i + 1);
    }
  }

  function Elements(list: seq<int>): set<int> { set x | x in list }

  lemma {:induction false} DistinctSize(list: seq<int>)
    requires Distinct(list)
    ensures |Elements(list)| == |list|
  {
    if list != [] {
      var n := |list| - 1;
      DistinctSize(list[..n]);
      assert list == list[..n] + [list[n]];
      assert Elements(list) == Elements(list[..n]) + {list[n]};
      assert list[n] !in list[..n];
    }
  }

  function FreeSet(cells: seq<Cell>): set<int> {
    if cells == [] then {}
    else FreeSet(cells[..|cells| - 1]) + (if IsFree(cells[|cells| - 1]) then {cells[|cells| - 1].at} else {})
  }

  lemma {:induction false} FreeSetOffsets(cells: seq<Cell>, x: int)
    ensures x in FreeSet(cells) <==> FreeAt(cells, x)
  {
    if cells != [] {
      var n := |cells| - 1;
      FreeSetOffsets(cells[..n], x);
      if FreeAt(cells, x) {
        var i :| 0 <= i < |cells| && IsFree(cells[i]) && cells[i].at == x;
        if i < n { assert cells[..n][i] == cells[i]; }
      }
      if FreeAt(cells[..n], x) {
        var i :| 0 <= i < n && IsFree(cells[..n][i]) && cells[..n][i].at == x;
        assert cells[i] == cells[..n][i];
      }
    }
  }

  lemma {:induction false} FreeSetSize(cells: seq<Cell>)
    requires DistinctOffsets(cells)
    ensures |FreeSet(cells)| == FreeCount(cells)
  {
    if cells != [] {
      var n := |cells| - 1;
      FreeSetSize(cells[..n]);
      FreeSetOffsets(cells[..n], cells[n].at);
      assert forall i :: 0 <= i < n ==> cells[..n][i].at != cells[n].at;
    }
  }

  lemma SubsetSameSize(a: set<int>, b: set<int>)
    requires a <= b && |a| == |b|
    ensures a == b
  {
    assert |b - a| == |b| - |a|;
  }

  /** A free list is right exactly when it is as long as there are FREE blocks and names only those. */
  lemma ListsByCount(cells: seq<Cell>, list: seq<int>)
    requires DistinctOffsets(cells) && Distinct(list)
    ensures Lists(list, cells) <==> |list| == FreeCount(cells) && forall x :: x in list ==> FreeAt(cells, x)
  {
    DistinctSize(list);
    FreeSetSize(cells);
    forall x ensures x in FreeSet(cells) <==> FreeAt(cells, x) { FreeSetOffsets(cells, x); }
    assert forall x :: x in list <==> x in Elements(list);
    if Lists(list, cells) {
      forall x ensures x in Elements(list) <==> x in FreeSet(cells) { FreeSetOffsets(cells, x); }
      assert Elements(list) == FreeSet(cells);
    }
    if |list| == FreeCount(cells) && forall x :: x in list ==> FreeAt(cells, x) {
      assert Elements(list) <= FreeSet(cells);
      SubsetSameSize(Elements(list), FreeSet(cells));
    }
  }

  /** The inner search: is x a block of the chain? */
  method InChain(mem: Memory, first: int, blocks: nat, x: int, ghost cells: seq<Cell>) returns (found: bool)
    requires Linked(mem, cells) && first == FirstAt(cells) && blocks == |cells|
    ensures found <==> exists i :: 0 <= i < |cells| && cells[i].at == x
  {
    var block, index := first, 0;
    while index < blocks
      invariant 0 <= index <= blocks && (index < blocks ==> block == cells[index].at)
      invariant forall i :: 0 <= i < index ==> cells[i].at != x
    {
      if block == x { return true; }
      assert LinkedAt(mem, cells, index);
      block, index := mem[block].next, index + 1;
    }
    return false;
  }

  /** The free list that any well-built heap would have, compared with the part walked so far. */
  lemma ListNext(mem: Memory, g: Globals, cells: seq<Cell>, list: seq<int>, cur: int, any: seq<int>)
    requires Walked(mem, g.free, list, cur) && FreeChain(mem, g.free, any) && Lists(any, cells)
    requires DistinctOffsets(cells)
    ensures |any| == FreeCount(cells) && |list| <= |any|
    ensures cur != NULL ==> |list| < |any| && FreeAt(cells, cur)
    ensures cur == NULL ==> |list| == |any|
  {
    ListsByCount(cells, any);
    WalkedPrefix(mem, g.free, list, cur, any, |list|);
    if |list| < |any| {
      assert FreeLinkAt(mem, any, |list|);
      assert any[|list|] in any;
    }
  }

  /** The second loop (lines 2564-2579). */
  method CheckList(cfg: Config, mem: Memory, g: Globals, blocks: nat, freeBlocks: nat, ghost cells: seq<Cell>)
      returns (ok: bool, ghost list: seq<int>)
    requires cfg.Valid() && ChainBuilt(cfg, mem, g, cells) && blocks == |cells| && freeBlocks == FreeCount(cells)
    ensures ok ==> FreeChain(mem, g.free, list) && Lists(list, cells)
    ensures !ok ==> forall any :: !(FreeChain(mem, g.free, any) && Lists(any, cells))
  {
    TiledFacts(cfg, cells, g.top);
    assert DistinctOffsets(cells);
    hide Ordered, Tiled;
    var listed, block := 0, g.free;
    list := [];
    while block != NULL
      invariant listed == |list| <= freeBlocks && Walked(mem, g.free, list, block)
      invariant forall x :: x in list ==> FreeAt(cells, x)
      decreases freeBlocks - listed
    {
      var found := InChain(mem, g.first, blocks, block, cells);
      ghost var free := FreeAt(cells, block);
      FreeAtChain(mem, cells, block);
      forall any | FreeChain(mem, g.free, any) && Lists(any, cells) ensures listed < freeBlocks && free {
        ListNext(mem, g, cells, list, block, any);
      }
      if listed >= freeBlocks { return false, list; }
      if !found || mem[block].flags != {FREE} { return false, list; }
      WalkedMore(mem, g.free, list, block);
      listed, list := listed + 1, list + [block];
      block := mem[block].freeNext;
    }
    forall any | FreeChain(mem, g.free, any) && Lists(any, cells) ensures listed == freeBlocks {
      ListNext(mem, g, cells, list, block, any);
    }
    WalkedToEnd(mem, g.free, list);
    forall i, j | 0 <= i < j < |list| ensures list[i] != list[j] { NoRepeat(mem, g.free, list, i, j); }
    ListsByCount(cells, list);
    ok := listed == freeBlocks;
  }

  /** A block of the chain is FREE exactly when its header says nothing else. */
  lemma FreeAtChain(mem: Memory, cells: seq<Cell>, x: int)
    requires Linked(mem, cells) && AllWellformed(cells) && DistinctOffsets(cells)
    ensures FreeAt(cells, x) <==>
              (exists i :: 0 <= i < |cells| && cells[i].at == x) && x in mem && mem[x].flags == {FREE}
    ensures (exists i :: 0 <= i < |cells| && cells[i].at == x) ==> x in mem
    ensures FreeAt(cells, x) && NULL !in mem ==> x != NULL
  {
    if i :| 0 <= i < |cells| && cells[i].at == x {
      assert LinkedAt(mem, cells, i) && Wellformed(cells[i]);
    }
  }

  /** `heap_integrity_valid`: the verdict on any readable heap is the invariant itself.  An arena that
      was never used is accepted without looking at the counters. */
  method IntegrityValid(cfg: Config, mem: Memory, g: Globals) returns (ok: bool)
    requires cfg.Valid() && Readable(cfg, mem, g.top) && g.top >= 0 && g.highWater >= 0
    requires forall k :: k in MANAGED ==> k in g.count && k in g.bytes
    ensures ok <==> exists cells, list :: Built(cfg, mem, g, cells, list)
  {
    if g.top > cfg.size || g.highWater < g.top || g.highWater > cfg.size { return false; }
    if g.top == 0 {
      ok := g.first == NULL && g.last == NULL && g.free == NULL;
      EmptyBuilt(cfg, mem, g);
      return;
    }
    if g.first != 0 || g.last == NULL || g.top < cfg.header {
      forall cells ensures !ChainBuilt(cfg, mem, g, cells) { NonEmptyEnds(cfg, mem, g, cells); }
      return false;
    }
    var blocks, freeBlocks;
    ghost var cells, list;
    ok, blocks, freeBlocks, cells := CheckChain(cfg, mem, g);
    if !ok { return; }
    ok, list := CheckList(cfg, mem, g, blocks, freeBlocks, cells);
    if ok {
      assert Built(cfg, mem, g, cells, list);
    } else {
      forall any, l ensures !Built(cfg, mem, g, any, l) {
        if ChainBuilt(cfg, mem, g, any) { SameChain(cfg, mem, g, cells, any); }
      }
    }
  }

  lemma EmptyBuilt(cfg: Config, mem: Memory, g: Globals)
    requires cfg.Valid() && g.top == 0 <= g.highWater <= cfg.size
    ensures (exists cells, list :: Built(cfg, mem, g, cells, list)) <==>
              g.first == NULL && g.last == NULL && g.free == NULL
  {
    if g.first == NULL && g.last == NULL && g.free == NULL {
      assert Lists([], []);
      assert Built(cfg, mem, g, [], []);
    }
    if cells, list :| Built(cfg, mem, g, cells, list) {
      TiledFacts(cfg, cells, 0);
      assert cells == [];
      if list != [] { assert list[0] in list; assert !FreeAt(cells, list[0]); }
    }
  }

  lemma NonEmptyEnds(cfg: Config, mem: Memory, g: Globals, cells: seq<Cell>)
    requires cfg.Valid() && g.top > 0
    ensures ChainBuilt(cfg, mem, g, cells) ==> g.first == 0 && g.last != NULL && g.top >= cfg.header
  {
    if ChainBuilt(cfg, mem, g, cells) {
      TiledFacts(cfg, cells, g.top);
      assert cells != [];
      assert TiledAt(cfg, cells, 0);
    }
  }

  lemma SameChain(cfg: Config, mem: Memory, g: Globals, a: seq<Cell>, b: seq<Cell>)
    requires cfg.Valid() && ChainBuilt(cfg, mem, g, a) && ChainBuilt(cfg, mem, g, b) && g.top > 0
    ensures a == b
  {
    ChainReads(cfg, mem, g, a);
    ChainUnique(cfg, mem, g, a, b);
  }

  lemma ChainReads(cfg: Config, mem: Memory, g: Globals, a: seq<Cell>)
    requires cfg.Valid() && ChainBuilt(cfg, mem, g, a)
    ensures ReadFrom(cfg, mem, a, g.top)
  {
    TiledFacts(cfg, a, g.top);
    forall i | 0 <= i < |a|
      ensures TiledAt(cfg, a, i) && a[i].at in mem && a[i] == ReadCell(mem, a[i].at) && a[i].at < g.top
      ensures End(cfg, a[i]) <= g.top && mem[a[i].at].previous == PrevAt(a, i)
      ensures mem[a[i].at].next == if End(cfg, a[i]) < g.top then End(cfg, a[i]) else NULL
    {
      assert TiledAt(cfg, a, i) && LinkedAt(mem, a, i);
      if i + 1 < |a| { assert TiledAt(cfg, a, i + 1); }
    }
  }

  ghost function GlobalsOf(h: Arena): Globals
    reads h
  {
    Globals(h.first, h.last, h.free, h.top, h.highWater, h.count, h.bytes)
  }

  /** So the checker accepts every heap that the allocator, the collector and the finalizer passes
      leave behind. */
  lemma ArenaAccepted(h: Arena)
    requires h.Valid()
    ensures exists cells, list :: Built(h.cfg, h.mem, GlobalsOf(h), cells, list)
  {
    TiledFacts(h.cfg, h.cells, h.top);
    assert ChainBuilt(h.cfg, h.mem, GlobalsOf(h), h.cells);
    assert h.cells != [] ==> 0 <= h.cells[0].at && End(h.cfg, h.cells[0]) <= h.top;
    assert Built(h.cfg, h.mem, GlobalsOf(h), h.cells, h.list);
  }
}
