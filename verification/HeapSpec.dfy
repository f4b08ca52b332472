/** What the allocator's pointer writes do to the two linked structures, and the effect of an
    allocation on the sequence of cells. */
module HeapSpec {
  import opened HeapModel

  // ---- Frames -------------------------------------------------------------------------------

  ghost predicate SameFreeNext(m: Memory, m': Memory, list: seq<int>) {
    forall x :: x in m && x in list ==> x in m' && m'[x].freeNext == m[x].freeNext
  }

  ghost predicate SameButFreeNext(m: Memory, m': Memory) {
    && m'.Keys == m.Keys
    && forall x :: x in m ==> m'[x] == m[x].(freeNext := m'[x].freeNext)
  }

  lemma FreeChainFrame(m: Memory, m': Memory, head: int, list: seq<int>)
    requires SameFreeNext(m, m', list) && FreeChain(m, head, list)
    ensures FreeChain(m', head, list)
  {
    forall k | 0 <= k < |list| ensures FreeLinkAt(m', list, k) {
      assert FreeLinkAt(m, list, k);
      assert list[k] in list;
    }
  }

  lemma LinkedFrame(m: Memory, m': Memory, cells: seq<Cell>)
    requires SameButFreeNext(m, m') && Linked(m, cells)
    ensures Linked(m', cells)
  {
    forall i | 0 <= i < |cells| ensures LinkedAt(m', cells, i) { assert LinkedAt(m, cells, i); }
  }

  /** Changing the size, flags and mark of one cell in its own header. */
  lemma UpdateLinked(cfg: Config, m: Memory, cells: seq<Cell>, top: int, i: nat, c: Cell)
    requires cfg.Valid() && Tiled(cfg, cells, top) && Linked(m, cells) && i < |cells|
    requires LinkedAt(m, cells, i)
    requires c.at == cells[i].at && c.capacity == cells[i].capacity
    ensures Linked(m[c.at := m[c.at].(requested := c.requested, flags := c.flags, mark := c.mark)], cells[i := c])
    ensures Tiled(cfg, cells[i := c], top)
  {
    TiledFacts(cfg, cells, top);
    var m' := m[c.at := m[c.at].(requested := c.requested, flags := c.flags, mark := c.mark)];
    var d := cells[i := c];
    forall j | 0 <= j < |cells| ensures LinkedAt(m', d, j) { assert LinkedAt(m, cells, j); }
    forall j | 0 <= j < |cells| ensures TiledAt(cfg, d, j) { assert TiledAt(cfg, cells, j); }
  }

  // ---- The free list ------------------------------------------------------------------------

  lemma PushChain(m: Memory, head: int, list: seq<int>, block: int)
    requires FreeChain(m, head, list) && block in m && block >= 0 && block !in list
    ensures FreeChain(m[block := m[block].(freeNext := head)], block, [block] + list)
  {
    var m' := m[block := m[block].(freeNext := head)];
    var l := [block] + list;
    forall k | 0 <= k < |l| ensures FreeLinkAt(m', l, k) {
      if k > 0 {
        assert FreeLinkAt(m, list, k - 1);
        assert l[k] == list[k - 1] && list[k - 1] in list;
        assert Entry(l, k + 1) == Entry(list, k);
      }
    }
  }

  /** Unlinking entry k: its predecessor, or the head, takes over its successor. */
  lemma UnlinkChain(m: Memory, head: int, list: seq<int>, k: nat, m': Memory, head': int)
    requires FreeChain(m, head, list) && Distinct(list) && k < |list|
    requires m'.Keys == m.Keys
    requires forall x :: x in m && x != list[k] && (k > 0 ==> x != list[k - 1]) ==>
               m'[x].freeNext == m[x].freeNext
    requires k > 0 && list[k - 1] in m ==> m'[list[k - 1]].freeNext == Entry(list, k + 1)
    requires head' == if k == 0 then Entry(list, 1) else head
    ensures FreeChain(m', head', list[..k] + list[k + 1..])
  {
    var l := list[..k] + list[k + 1..];
    forall j | 0 <= j < |l| ensures FreeLinkAt(m', l, j) {
      var q := if j < k then j else j + 1;
      assert l[j] == list[q];
      assert FreeLinkAt(m, list, q);
      assert Entry(l, j + 1) == if j + 1 == k then Entry(list, k + 1) else Entry(list, q + 1);
    }
  }

  // ---- Allocation ---------------------------------------------------------------------------

  function Add32(a: int, b: int): int { (a + b) % WORD }

  /** `align_size`: round up to 16 in uint32 arithmetic. */
  function Align32(size: int): int { Add32(size, 15) / 16 * 16 }

  /** The size actually needed, without wrap-around. */
  function Need(size: int): int { (size + 15) / 16 * 16 }

  lemma AlignExact(size: int)
    requires 0 < size < WORD
    ensures Need(size) % 16 == 0 && size <= Need(size) < size + 16
    ensures Need(size) < WORD ==> Align32(size) == Need(size)
    ensures Need(size) >= WORD ==> Align32(size) < size
  {}

  /** A block is split when what is left can hold a header and at least one aligned unit. */
  predicate Splits(cfg: Config, capacity: int, need: int) {
    capacity >= need + cfg.header + cfg.maxAlign
  }

  function Remainder(cfg: Config, c: Cell, need: int): Cell {
    Cell(c.at + cfg.header + need, c.capacity - need - cfg.header, 0, {FREE}, 0)
  }

  function Used(c: Cell, capacity: int, size: int, kind: Flag): Cell {
    Cell(c.at, capacity, size, {kind}, 0)
  }

  /** Cell i becomes a live block of `size` bytes, followed by the free remainder if it splits. */
  function Taken(cfg: Config, cells: seq<Cell>, i: nat, need: int, size: int, kind: Flag): seq<Cell>
    requires i < |cells|
  {
    if Splits(cfg, cells[i].capacity, need) then
      cells[..i] + [Used(cells[i], need, size, kind), Remainder(cfg, cells[i], need)] + cells[i + 1..]
    else
      cells[i := Used(cells[i], cells[i].capacity, size, kind)]
  }

  function TakenList(cfg: Config, cells: seq<Cell>, list: seq<int>, i: nat, k: nat, need: int): seq<int>
    requires i < |cells| && k < |list|
  {
    var rest := list[..k] + list[k + 1..];
    if Splits(cfg, cells[i].capacity, need) then [Remainder(cfg, cells[i], need).at] + rest else rest
  }

  function Grown(cells: seq<Cell>, top: int, need: int, size: int, kind: Flag): seq<Cell> {
    cells + [Cell(top, need, size, {kind}, 0)]
  }

  lemma WellformedUsed(c: Cell, kind: Flag)
    requires kind in KINDS && c.flags == {kind} && 0 < c.requested <= c.capacity
    ensures Wellformed(c)
  {
    assert c.flags * KINDS == {kind};
  }

  lemma SplitTiled(cfg: Config, cells: seq<Cell>, top: int, i: nat, need: int, a: Cell, b: Cell)
    requires cfg.Valid() && Tiled(cfg, cells, top) && i < |cells|
    requires need > 0 && need % 16 == 0 && Splits(cfg, cells[i].capacity, need)
    requires a.at == cells[i].at && a.capacity == need
    requires b.at == End(cfg, a) && b.capacity == cells[i].capacity - need - cfg.header
    ensures Tiled(cfg, cells[..i] + [a, b] + cells[i + 1..], top)
  {
    var c := cells[..i] + [a, b] + cells[i + 1..];
    assert TiledAt(cfg, cells, i);
    forall j | 0 <= j < |c| ensures TiledAt(cfg, c, j) {
      if j < i { assert TiledAt(cfg, cells, j); }
      if j > i + 1 { assert TiledAt(cfg, cells, j - 1) && c[j] == cells[j - 1]; }
    }
  }

  /** What a split writes: a free header inside block b, threaded between b and its successor. */
  function SplitNext(cfg: Config, m: Memory, b: int, need: int): Memory
    requires b in m
  {
    var r := b + cfg.header + need;
    var m1 := m[r := Header(b, m[b].next, NULL, m[b].capacity - need - cfg.header, 0, {FREE}, 0)];
    var m2 := if m[b].next in m then m1[m[b].next := m1[m[b].next].(previous := r)] else m1;
    m2[b := m2[b].(next := r, capacity := need)]
  }

  lemma SplitLinked(cfg: Config, m: Memory, cells: seq<Cell>, top: int, i: nat, need: int, a: Cell, b: Cell)
    requires cfg.Valid() && Ordered(cfg, cells, top) && i < |cells|
    requires need > 0 && Splits(cfg, cells[i].capacity, need)
    requires NULL !in m && Linked(m, cells) && LinkedAt(m, cells, i)
    requires a == cells[i].(capacity := need) && b == Remainder(cfg, cells[i], need)
    ensures Linked(SplitNext(cfg, m, cells[i].at, need), cells[..i] + [a, b] + cells[i + 1..])
  {
    var c := cells[..i] + [a, b] + cells[i + 1..];
    var m' := SplitNext(cfg, m, cells[i].at, need);
    forall j | 0 <= j < |c| ensures LinkedAt(m', c, j) {
      SplitLinkedAt(cfg, m, cells, top, i, need, a, b, j);
    }
  }

  lemma SplitNeighbours(cells: seq<Cell>, i: nat, a: Cell, b: Cell, j: nat)
    requires i < |cells| && j < |cells| + 1 && a.at == cells[i].at
    ensures var c := cells[..i] + [a, b] + cells[i + 1..];
            && PrevAt(c, j) == (if j <= i then PrevAt(cells, j) else if j == i + 1 then a.at
                                else if j == i + 2 then b.at else PrevAt(cells, j - 1))
            && NextAt(c, j) == (if j < i then NextAt(cells, j) else if j == i then b.at else NextAt(cells, j - 1))
            && c[j] == (if j < i then cells[j] else if j == i then a else if j == i + 1 then b else cells[j - 1])
  {}

  lemma SplitEnds(cells: seq<Cell>, i: nat, a: Cell, b: Cell)
    requires i < |cells| && a.at == cells[i].at
    ensures var c := cells[..i] + [a, b] + cells[i + 1..];
            && FirstAt(c) == FirstAt(cells)
            && LastAt(c) == if i + 1 < |cells| then LastAt(cells) else b.at
  {}

  lemma SplitLinkedAt(cfg: Config, m: Memory, cells: seq<Cell>, top: int, i: nat, need: int,
                      a: Cell, b: Cell, j: nat)
    requires cfg.Valid() && Ordered(cfg, cells, top) && i < |cells|
    requires need > 0 && Splits(cfg, cells[i].capacity, need)
    requires NULL !in m && Linked(m, cells) && LinkedAt(m, cells, i)
    requires a == cells[i].(capacity := need) && b == Remainder(cfg, cells[i], need)
    requires j < |cells| + 1
    ensures LinkedAt(SplitNext(cfg, m, cells[i].at, need), cells[..i] + [a, b] + cells[i + 1..], j)
  {
    SplitNeighbours(cells, i, a, b, j);
    var k := if j <= i then j else j - 1;
    assert LinkedAt(m, cells, k);
    if j < i {
      assert m[cells[i].at].next != cells[j].at;
    } else if j == i {
      assert m[cells[i].at].next == NextAt(cells, i);
    } else if j == i + 2 {
      assert m[cells[i].at].next == cells[k].at;
    }
  }

  /** The remainder's header lies inside the block, so no listed header changes its free link. */
  lemma SplitFrame(cfg: Config, m: Memory, cells: seq<Cell>, top: int, list: seq<int>, i: nat, need: int)
    requires cfg.Valid() && Ordered(cfg, cells, top) && i < |cells|
    requires need > 0 && Splits(cfg, cells[i].capacity, need) && LinkedAt(m, cells, i)
    requires forall x :: x in list ==> FreeAt(cells, x)
    ensures cells[i].at + cfg.header + need !in list
    ensures SameFreeNext(m, SplitNext(cfg, m, cells[i].at, need), list)
  {
    var r := cells[i].at + cfg.header + need;
    assert forall j :: 0 <= j < |cells| ==> cells[j].at != r;
  }

  lemma TakenTiled(cfg: Config, cells: seq<Cell>, top: int, i: nat, need: int, size: int, kind: Flag)
    requires cfg.Valid() && Tiled(cfg, cells, top) && i < |cells|
    requires need > 0 && need % 16 == 0
    ensures Tiled(cfg, Taken(cfg, cells, i, need, size, kind), top)
  {
    if Splits(cfg, cells[i].capacity, need) {
      SplitTiled(cfg, cells, top, i, need, Used(cells[i], need, size, kind), Remainder(cfg, cells[i], need));
    } else {
      var d := Taken(cfg, cells, i, need, size, kind);
      forall j | 0 <= j < |d| ensures TiledAt(cfg, d, j) { assert TiledAt(cfg, cells, j); }
    }
  }

  lemma TakenContents(cfg: Config, cells: seq<Cell>, top: int, i: nat, need: int, size: int, kind: Flag)
    requires AllWellformed(cells) && Coalesced(cells) && i < |cells| && IsFree(cells[i])
    requires kind in KINDS && 0 < size <= need <= cells[i].capacity
    ensures AllWellformed(Taken(cfg, cells, i, need, size, kind))
    ensures Coalesced(Taken(cfg, cells, i, need, size, kind))
  {
    var c := Taken(cfg, cells, i, need, size, kind);
    WellformedUsed(c[i], kind);
    var d := |c| - |cells|;
    forall j | 0 <= j < |c| ensures Wellformed(c[j]) {
      if j < i { assert c[j] == cells[j]; }
      if j > i + d { assert c[j] == cells[j - d]; }
    }
    forall a, b | 0 <= a && b == a + 1 && b < |c| ensures !(IsFree(c[a]) && IsFree(c[b])) {
      if b < i { assert c[a] == cells[a] && c[b] == cells[b]; }
      else if a > i + d { assert c[a] == cells[a - d] && c[b] == cells[b - d]; }
      else if a == i + d && d == 1 { assert c[b] == cells[i + 1]; assert !(IsFree(cells[i]) && IsFree(cells[i + 1])); }
    }
  }

  lemma SpliceFreeAt2(cells: seq<Cell>, i: nat, run: seq<Cell>, y: int)
    requires i < |cells|
    ensures FreeAt(cells[..i] + run + cells[i + 1..], y) <==>
              FreeAt(cells[..i], y) || FreeAt(run, y) || FreeAt(cells[i + 1..], y)
  {
    var c := cells[..i] + run + cells[i + 1..];
    SplitFreeAt(c, i, i + |run|, y);
    assert c[..i] == cells[..i] && c[i..i + |run|] == run && c[i + |run|..] == cells[i + 1..];
  }

  lemma FreeAtRun(u: Cell, r: Cell, y: int)
    requires !IsFree(u) && IsFree(r)
    ensures !FreeAt([u], y) && (FreeAt([u, r], y) <==> y == r.at) && (FreeAt([r], y) <==> y == r.at)
  {
    assert [u, r][1].at == r.at && [r][0].at == r.at;
  }

  lemma FreeElsewhere(cells: seq<Cell>, i: nat)
    requires i < |cells| && forall j :: 0 <= j < i || i < j < |cells| ==> cells[j].at != cells[i].at
    ensures !FreeAt(cells[..i], cells[i].at) && !FreeAt(cells[i + 1..], cells[i].at)
  {
  }

  /** The free offsets after cell i is taken: its own goes, and a remainder's comes. */
  lemma TakenFreeAt(cfg: Config, cells: seq<Cell>, top: int, i: nat, need: int, size: int, kind: Flag, y: int)
    requires cfg.Valid() && Tiled(cfg, cells, top) && i < |cells| && IsFree(cells[i]) && kind != FREE
    ensures FreeAt(Taken(cfg, cells, i, need, size, kind), y) <==>
              || (FreeAt(cells, y) && y != cells[i].at)
              || (Splits(cfg, cells[i].capacity, need) && y == Remainder(cfg, cells[i], need).at)
  {
    TiledFacts(cfg, cells, top);
    FreeElsewhere(cells, i);
    hide Tiled, FreeAt;
    var split := Splits(cfg, cells[i].capacity, need);
    var r := Remainder(cfg, cells[i], need);
    var u := Used(cells[i], if split then need else cells[i].capacity, size, kind);
    var run := if split then [u, r] else [u];
    assert Taken(cfg, cells, i, need, size, kind) == cells[..i] + run + cells[i + 1..];
    SpliceFreeAt2(cells, i, run, y);
    SplitFreeAt(cells, i, i + 1, y);
    assert cells[i..i + 1] == [cells[i]];
    FreeAtRun(u, cells[i], y);
    FreeAtRun(u, r, y);
  }

  lemma RemainderNotFree(cfg: Config, cells: seq<Cell>, top: int, i: nat, need: int)
    requires cfg.Valid() && Tiled(cfg, cells, top) && i < |cells| && need > 0 && Splits(cfg, cells[i].capacity, need)
    ensures !FreeAt(cells, Remainder(cfg, cells[i], need).at)
  {
    TiledFacts(cfg, cells, top);
    assert forall j :: 0 <= j < |cells| ==> cells[j].at != Remainder(cfg, cells[i], need).at;
  }

  lemma TakenLists(cfg: Config, cells: seq<Cell>, list: seq<int>, top: int, i: nat, k: nat,
                   need: int, size: int, kind: Flag)
    requires cfg.Valid() && Tiled(cfg, cells, top) && Lists(list, cells) && i < |cells| && k < |list|
    requires IsFree(cells[i]) && cells[i].at == list[k] && kind != FREE && need > 0
    ensures Lists(TakenList(cfg, cells, list, i, k, need), Taken(cfg, cells, i, need, size, kind))
  {
    hide Tiled;
    var r := Remainder(cfg, cells[i], need);
    var rest := list[..k] + list[k + 1..];
    WithoutIndex(list, k);
    WithoutProperties(list, list[k]);
    if Splits(cfg, cells[i].capacity, need) {
      RemainderNotFree(cfg, cells, top, i, need);
      PrependDistinct(r.at, rest);
    }
    var l := TakenList(cfg, cells, list, i, k, need);
    forall y ensures y in l <==> FreeAt(Taken(cfg, cells, i, need, size, kind), y) {
      TakenFreeAt(cfg, cells, top, i, need, size, kind, y);
    }
  }

  /** Taking a free cell keeps the invariant. */
  lemma TakenKeepsShape(cfg: Config, cells: seq<Cell>, list: seq<int>, top: int, i: nat, k: nat,
                        need: int, size: int, kind: Flag)
    requires Shape(cfg, cells, list, top) && i < |cells| && k < |list|
    requires IsFree(cells[i]) && cells[i].at == list[k] && kind in KINDS
    requires need % 16 == 0 && 0 < size <= need <= cells[i].capacity
    ensures Shape(cfg, Taken(cfg, cells, i, need, size, kind), TakenList(cfg, cells, list, i, k, need), top)
  {
    TakenTiled(cfg, cells, top, i, need, size, kind);
    TakenContents(cfg, cells, top, i, need, size, kind);
    assert kind != FREE;
    TakenLists(cfg, cells, list, top, i, k, need, size, kind);
  }

  lemma GrownKeepsShape(cfg: Config, cells: seq<Cell>, list: seq<int>, top: int, need: int, size: int, kind: Flag)
    requires Shape(cfg, cells, list, top) && kind in KINDS
    requires need % 16 == 0 && 0 < size <= need && top + cfg.header + need <= cfg.size
    ensures Shape(cfg, Grown(cells, top, need, size, kind), list, top + cfg.header + need)
  {
    var c := Grown(cells, top, need, size, kind);
    var n := |cells|;
    forall j | 0 <= j < |c| ensures TiledAt(cfg, c, j) { if j < n { assert TiledAt(cfg, cells, j); } }
    WellformedUsed(c[n], kind);
    forall j | 0 <= j < |c| ensures Wellformed(c[j]) { if j < n { assert Wellformed(cells[j]); } }
    forall a, b | 0 <= a && b == a + 1 && b < |c| ensures !(IsFree(c[a]) && IsFree(c[b])) {
      if b < n { assert c[a] == cells[a] && c[b] == cells[b]; }
    }
    forall y ensures y in list <==> FreeAt(c, y) {
      SplitFreeAt(c, n, n, y);
      assert c[..n] == cells && c[n..n] == [] && c[n..] == [c[n]];
    }
  }

  /** Counting after one cell is replaced by a run. */
  lemma CountSplice(cells: seq<Cell>, i: nat, run: seq<Cell>, kind: Flag)
    requires i < |cells|
    ensures var c := cells[..i] + run + cells[i + 1..];
            && Count(c, kind) == Count(cells, kind) - Count([cells[i]], kind) + Count(run, kind)
            && Bytes(c, kind) == Bytes(cells, kind) - Bytes([cells[i]], kind) + Bytes(run, kind)
  {
    CountConcat(cells[..i] + run, cells[i + 1..], kind);
    CountConcat(cells[..i], run, kind);
    assert cells == cells[..i] + [cells[i]] + cells[i + 1..];
    CountConcat(cells[..i] + [cells[i]], cells[i + 1..], kind);
    CountConcat(cells[..i], [cells[i]], kind);
  }

  /** A new live block adds itself to the counters of its kind and nothing else. */
  lemma TakenCounts(cfg: Config, cells: seq<Cell>, i: nat, need: int, size: int, kind: Flag, k: Flag)
    requires i < |cells| && cells[i].flags == {FREE} && k != FREE
    ensures var c := Taken(cfg, cells, i, need, size, kind);
            && Count(c, k) == Count(cells, k) + (if k == kind then 1 else 0)
            && Bytes(c, k) == Bytes(cells, k) + (if k == kind then size else 0)
  {
    var split := Splits(cfg, cells[i].capacity, need);
    var u := Used(cells[i], if split then need else cells[i].capacity, size, kind);
    var r := Remainder(cfg, cells[i], need);
    var run := if split then [u, r] else [u];
    assert Taken(cfg, cells, i, need, size, kind) == cells[..i] + run + cells[i + 1..];
    CountSplice(cells, i, run, k);
    CountSingle(u, k);
    CountSingle(r, k);
    CountSingle(cells[i], k);
    if split {
      assert run == [u] + [r];
      CountConcat([u], [r], k);
    }
  }

  lemma GrownCounts(cells: seq<Cell>, top: int, need: int, size: int, kind: Flag, k: Flag)
    ensures var c := Grown(cells, top, need, size, kind);
            && Count(c, k) == Count(cells, k) + (if k == kind then 1 else 0)
            && Bytes(c, k) == Bytes(cells, k) + (if k == kind then size else 0)
  {
    var u := Cell(top, need, size, {kind}, 0);
    CountConcat(cells, [u], k);
    CountSingle(u, k);
  }

  /** The header of a block cut from the tail, linked after the last block. */
  function GrowNext(m: Memory, last: int, top: int, need: int, size: int, kind: Flag): Memory {
    var m1 := m[top := Header(last, NULL, NULL, need, size, {kind}, 0)];
    if last in m1 then m1[last := m1[last].(next := top)] else m1
  }

  lemma GrownLinked(cfg: Config, m: Memory, cells: seq<Cell>, top: int, need: int, size: int, kind: Flag)
    requires cfg.Valid() && Tiled(cfg, cells, top) && Linked(m, cells) && NULL !in m
    ensures Linked(GrowNext(m, LastAt(cells), top, need, size, kind), Grown(cells, top, need, size, kind))
  {
    TiledFacts(cfg, cells, top);
    TiledAligned(cfg, cells, top, |cells|);
    var c := Grown(cells, top, need, size, kind);
    var m' := GrowNext(m, LastAt(cells), top, need, size, kind);
    forall j | 0 <= j < |c| ensures LinkedAt(m', c, j) {
      if j < |cells| { assert LinkedAt(m, cells, j); }
      if j > 0 { assert LinkedAt(m, cells, j - 1) && c[j - 1] == cells[j - 1]; }
    }
  }

  /** The tail offset is not on the free list. */
  lemma GrownFrame(cfg: Config, cells: seq<Cell>, top: int, list: seq<int>)
    requires cfg.Valid() && Tiled(cfg, cells, top) && Lists(list, cells)
    ensures top !in list && 0 <= top
  {
    TiledFacts(cfg, cells, top);
    TiledAligned(cfg, cells, top, |cells|);
    assert !FreeAt(cells, top);
  }

  lemma TakenTallied(cfg: Config, cells: seq<Cell>, i: nat, need: int, size: int, kind: Flag,
                     count: map<Flag, int>, bytes: map<Flag, int>)
    requires i < |cells| && cells[i].flags == {FREE} && Tallied(cells, count, bytes) && kind in KINDS
    ensures var c := Taken(cfg, cells, i, need, size, kind);
            if kind in MANAGED then Tallied(c, count[kind := count[kind] + 1], bytes[kind := bytes[kind] + size])
            else Tallied(c, count, bytes)
  {
    forall k | k in MANAGED ensures k != FREE { assert FREE !in MANAGED; }
    forall k: Flag | k != FREE
      ensures var c := Taken(cfg, cells, i, need, size, kind);
              && Count(c, k) == Count(cells, k) + (if k == kind then 1 else 0)
              && Bytes(c, k) == Bytes(cells, k) + (if k == kind then size else 0)
    {
      TakenCounts(cfg, cells, i, need, size, kind, k);
    }
  }

  lemma GrownTallied(cells: seq<Cell>, top: int, need: int, size: int, kind: Flag,
                     count: map<Flag, int>, bytes: map<Flag, int>)
    requires Tallied(cells, count, bytes)
    ensures var c := Grown(cells, top, need, size, kind);
            if kind in MANAGED then Tallied(c, count[kind := count[kind] + 1], bytes[kind := bytes[kind] + size])
            else Tallied(c, count, bytes)
  {
    forall k: Flag
      ensures var c := Grown(cells, top, need, size, kind);
              && Count(c, k) == Count(cells, k) + (if k == kind then 1 else 0)
              && Bytes(c, k) == Bytes(cells, k) + (if k == kind then size else 0)
    {
      GrownCounts(cells, top, need, size, kind, k);
    }
  }

  function Trimmed(cfg: Config, cells: seq<Cell>, i: nat, need: int): seq<Cell>
    requires i < |cells|
  {
    if Splits(cfg, cells[i].capacity, need) then
      cells[..i] + [cells[i].(capacity := need), Remainder(cfg, cells[i], need)] + cells[i + 1..]
    else cells
  }

  /** Unlinking, trimming and stamping add up to Taken and TakenList. */
  lemma TrimmedTaken(cfg: Config, cells: seq<Cell>, list: seq<int>, i: nat, k: nat, need: int, size: int, kind: Flag)
    requires i < |cells| && k < |list| && cells[i].at == list[k] && Distinct(list)
    requires cfg.header > 0 && need > 0
    ensures var t := Trimmed(cfg, cells, i, need);
            && i < |t| && t[i].at == list[k]
            && t[i := Used(t[i], t[i].capacity, size, kind)] == Taken(cfg, cells, i, need, size, kind)
    ensures list[k] !in TakenList(cfg, cells, list, i, k, need)
  {
    WithoutIndex(list, k);
    WithoutProperties(list, list[k]);
  }

  // ---- First fit ----------------------------------------------------------------------------

  /** Entry x of the free list is a block with room for `need` bytes. */
  ghost predicate Roomy(cells: seq<Cell>, x: int, need: int) {
    exists i :: 0 <= i < |cells| && cells[i].at == x && cells[i].capacity >= need
  }

  /** The position of the first free-list entry with room, or the length of the list. */
  ghost function FirstFit(cells: seq<Cell>, list: seq<int>, need: int): (k: nat)
    ensures k <= |list|
    ensures k < |list| ==> Roomy(cells, list[k], need)
    ensures forall j :: 0 <= j < k ==> !Roomy(cells, list[j], need)
  {
    if list == [] || Roomy(cells, list[0], need) then 0 else 1 + FirstFit(cells, list[1..], need)
  }

  lemma NothingFits(cfg: Config, cells: seq<Cell>, list: seq<int>, top: int, need: int)
    requires cfg.Valid() && Tiled(cfg, cells, top) && top <= cfg.size && need >= WORD
    ensures FirstFit(cells, list, need) == |list| && top + cfg.header + need > cfg.size
  {
    TiledFacts(cfg, cells, top);
    TiledAligned(cfg, cells, top, |cells|);
    assert forall x :: !Roomy(cells, x, need);
  }

  /** What the search finds in memory is the first fit of the free list. */
  lemma SearchIsFirstFit(m: Memory, cells: seq<Cell>, list: seq<int>, need: int, f: nat)
    requires Linked(m, cells) && Lists(list, cells) && f <= |list| && NULL !in m
    requires forall j :: 0 <= j < f ==> list[j] in m && m[list[j]].capacity < need
    requires f < |list| ==> list[f] in m && m[list[f]].capacity >= need
    ensures FirstFit(cells, list, need) == f
    ensures f < |list| ==> FreeAt(cells, list[f]) && list[f] != NULL
  {
    forall j | 0 <= j < |list| && j <= f ensures FreeAt(cells, list[j]) && (Roomy(cells, list[j], need) <==> j == f) {
      var i := FreeCell(cells, list, j);
      assert LinkedAt(m, cells, i);
      if Roomy(cells, list[j], need) {
        var c :| 0 <= c < |cells| && cells[c].at == list[j] && cells[c].capacity >= need;
        assert LinkedAt(m, cells, c);
      }
    }
  }

  // ---- The whole allocation as a function of the abstract heap --------------------------------

  datatype View = View(cells: seq<Cell>, list: seq<int>, top: int)

  /** The index of the cell at offset x, or the number of cells when there is none. */
  function IndexOf(cells: seq<Cell>, x: int): (i: nat)
    ensures i <= |cells|
    ensures i < |cells| ==> cells[i].at == x
    ensures forall j :: 0 <= j < i ==> cells[j].at != x
  {
    if cells == [] || cells[0].at == x then 0 else 1 + IndexOf(cells[1..], x)
  }

  lemma IndexOfCell(cfg: Config, cells: seq<Cell>, top: int, i: nat)
    requires Ordered(cfg, cells, top) && cfg.header > 0 && i < |cells|
    ensures IndexOf(cells, cells[i].at) == i
  {}

  /** First fit, else the tail, else nothing: the heap afterwards and the block handed out. */
  ghost function Served(cfg: Config, v: View, need: int, size: int, kind: Flag): (View, int) {
    var k := FirstFit(v.cells, v.list, need);
    if k < |v.list| then
      var i := IndexOf(v.cells, v.list[k]);
      (View(Taken(cfg, v.cells, i, need, size, kind), TakenList(cfg, v.cells, v.list, i, k, need), v.top), v.list[k])
    else if v.top + cfg.header + need <= cfg.size then
      (View(Grown(v.cells, v.top, need, size, kind), v.list, v.top + cfg.header + need), v.top)
    else (v, NULL)
  }

  lemma ServedTallied(cfg: Config, v: View, need: int, size: int, kind: Flag, count: map<Flag, int>,
                      bytes: map<Flag, int>)
    requires Shape(cfg, v.cells, v.list, v.top) && Tallied(v.cells, count, bytes) && kind in KINDS
    ensures var (v', block) := Served(cfg, v, need, size, kind);
            if block == NULL then v' == v
            else if kind in MANAGED then
              Tallied(v'.cells, count[kind := count[kind] + 1], bytes[kind := bytes[kind] + size])
            else Tallied(v'.cells, count, bytes)
  {
    TiledFacts(cfg, v.cells, v.top);
    TiledAligned(cfg, v.cells, v.top, |v.cells|);
    var k := FirstFit(v.cells, v.list, need);
    if k < |v.list| {
      var i := FreeIndex(cfg, v.cells, v.list, v.top, k);
      TakenTallied(cfg, v.cells, i, need, size, kind, count, bytes);
    } else {
      GrownTallied(v.cells, v.top, need, size, kind, count, bytes);
    }
  }

  lemma FreeIndex(cfg: Config, cells: seq<Cell>, list: seq<int>, top: int, k: nat) returns (i: nat)
    requires Shape(cfg, cells, list, top) && k < |list|
    ensures i == IndexOf(cells, list[k]) && i < |cells| && IsFree(cells[i]) && cells[i].at == list[k] && list[k] >= 0
    ensures cells[i].flags == {FREE}
    ensures forall need :: Roomy(cells, list[k], need) <==> cells[i].capacity >= need
  {
    TiledFacts(cfg, cells, top);
    i := FreeCell(cells, list, k);
    IndexOfCell(cfg, cells, top, i);
    assert Wellformed(cells[i]);
  }

  lemma FreeCell(cells: seq<Cell>, list: seq<int>, k: nat) returns (i: nat)
    requires Lists(list, cells) && k < |list|
    ensures i < |cells| && IsFree(cells[i]) && cells[i].at == list[k]
  {
    var x := list[k];
    assert x in list;
    assert FreeAt(cells, x);
    i :| 0 <= i < |cells| && IsFree(cells[i]) && cells[i].at == x;
  }

  // ---- What an allocation gives and what it leaves alone ----------------------------------------

  lemma SpliceMember(cells: seq<Cell>, i: nat, run: seq<Cell>, c: Cell)
    requires i < |cells|
    ensures c in cells[..i] + run + cells[i + 1..] <==> c in cells[..i] || c in run || c in cells[i + 1..]
    ensures c in cells <==> c in cells[..i] || c == cells[i] || c in cells[i + 1..]
  {
    assert cells == cells[..i] + [cells[i]] + cells[i + 1..];
  }

  lemma TakenLive(cfg: Config, cells: seq<Cell>, i: nat, need: int, size: int, kind: Flag, c: Cell)
    requires i < |cells| && IsFree(cells[i]) && kind != FREE && !IsFree(c)
    ensures var u :=
              Used(cells[i], if Splits(cfg, cells[i].capacity, need) then need else cells[i].capacity, size, kind);
            c in Taken(cfg, cells, i, need, size, kind) <==> c in cells || c == u
  {
    var split := Splits(cfg, cells[i].capacity, need);
    var u := Used(cells[i], if split then need else cells[i].capacity, size, kind);
    var run := if split then [u, Remainder(cfg, cells[i], need)] else [u];
    assert Taken(cfg, cells, i, need, size, kind) == cells[..i] + run + cells[i + 1..];
    SpliceMember(cells, i, run, c);
  }

  /** NULL comes back exactly when no listed block and no tail can hold the request.  Otherwise the
      result is a new live block of that kind and size at an offset no live block had, with less than a
      header and an aligned unit to spare, and every other live block is untouched. */
  lemma ServedLive(cfg: Config, v: View, need: int, size: int, kind: Flag) returns (u: Cell)
    requires Shape(cfg, v.cells, v.list, v.top) && kind in KINDS && need % 16 == 0 && 0 < size <= need
    ensures var (v', block) := Served(cfg, v, need, size, kind);
            && (block == NULL <==>
                  (forall c :: c in v.cells && IsFree(c) ==> c.capacity < need) && v.top + cfg.header + need > cfg.size)
            && (block != NULL ==>
                  && u.at == block && u.flags == {kind} && u.requested == size
                  && need <= u.capacity < need + cfg.header + cfg.maxAlign
                  && (forall c :: c in v.cells && !IsFree(c) ==> c.at != block)
                  && (forall c :: !IsFree(c) ==> (c in v'.cells <==> c in v.cells || c == u)))
  {
    u := Cell(0, 0, 0, {}, 0);
    var k := FirstFit(v.cells, v.list, need);
    if k < |v.list| {
      u := TakenServes(cfg, v, need, size, kind, k);
    } else {
      TiledFacts(cfg, v.cells, v.top);
      TiledAligned(cfg, v.cells, v.top, |v.cells|);
      forall c | c in v.cells && IsFree(c) ensures c.capacity < need {
        NoRoom(v.cells, v.list, need, c);
      }
      u := Cell(v.top, need, size, {kind}, 0);
      hide Shape, FirstFit;
    }
  }

  lemma TakenServes(cfg: Config, v: View, need: int, size: int, kind: Flag, k: nat) returns (u: Cell)
    requires Shape(cfg, v.cells, v.list, v.top) && kind in KINDS && 0 < size <= need
    requires k == FirstFit(v.cells, v.list, need) < |v.list|
    ensures var (v', block) := Served(cfg, v, need, size, kind);
            && block == v.list[k] != NULL && (exists c :: c in v.cells && IsFree(c) && c.capacity >= need)
            && u.at == block && u.flags == {kind} && u.requested == size
            && need <= u.capacity < need + cfg.header + cfg.maxAlign
            && (forall c :: c in v.cells && !IsFree(c) ==> c.at != block)
            && (forall c :: !IsFree(c) ==> (c in v'.cells <==> c in v.cells || c == u))
  {
    assert kind != FREE;
    var i := FreeIndex(cfg, v.cells, v.list, v.top, k);
    OwnOffset(cfg, v.cells, v.top, i);
    u := Used(v.cells[i], if Splits(cfg, v.cells[i].capacity, need) then need else v.cells[i].capacity, size, kind);
    hide Shape, Taken, Lists;
    forall c | !IsFree(c) ensures c in Taken(cfg, v.cells, i, need, size, kind) <==> c in v.cells || c == u {
      TakenLive(cfg, v.cells, i, need, size, kind, c);
    }
    assert v.cells[i] in v.cells && IsFree(v.cells[i]) && v.cells[i].capacity >= need;
  }

  lemma NoRoom(cells: seq<Cell>, list: seq<int>, need: int, c: Cell)
    requires Lists(list, cells) && FirstFit(cells, list, need) == |list| && c in cells && IsFree(c)
    ensures c.capacity < need
  {
    var i :| 0 <= i < |cells| && cells[i] == c;
    assert FreeAt(cells, c.at);
    var j :| 0 <= j < |list| && list[j] == c.at;
    assert !Roomy(cells, list[j], need);
  }

  lemma SpliceOut(cells: seq<Cell>, lo: nat, hi: nat, mid: Cell, c: Cell)
    requires lo <= hi <= |cells| && c != mid && forall k :: lo <= k < hi ==> cells[k] != c
    ensures c in cells[..lo] + [mid] + cells[hi..] <==> c in cells
  {
    if c in cells {
      var k :| 0 <= k < |cells| && cells[k] == c;
      assert if k < lo then cells[..lo][k] == c else cells[hi..][k - hi] == c;
    }
  }

  /** What a release replaces: the block and its free neighbours. */
  lemma RunHolds(cells: seq<Cell>, i: nat, c: Cell)
    requires i < |cells| && AllWellformed(cells) && !IsFree(c) && c != cells[i]
    ensures RunStart(cells, i) <= i < RunEnd(cells, i) <= |cells|
    ensures forall k :: RunStart(cells, i) <= k < RunEnd(cells, i) ==> cells[k] != c
    ensures forall d: Cell :: d.flags == {FREE} ==> c != d
  {
  }

  /** Releasing one block leaves every other live block untouched. */
  lemma ReleasedLive(cfg: Config, cells: seq<Cell>, i: nat, c: Cell)
    requires i < |cells| && AllWellformed(cells) && !IsFree(c) && c != cells[i]
    ensures c in Released(cfg, cells, i) <==> c in cells
  {
    RunHolds(cells, i, c);
    hide *;
    var mid := ReleasedIsSplice(cfg, cells, i);
    SpliceOut(cells, RunStart(cells, i), RunEnd(cells, i), mid, c);
  }
}
