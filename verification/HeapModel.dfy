/** The managed heap as a value: cells in address order, and what one header write does to them.

    A block header is a record at its byte offset in the arena.  `previous`, `next` and `freeNext`
    are offsets, with NULL for a null pointer.  The machine view is a map from offset to header;
    the abstract view is the sequence of cells that the `next` links visit. */
module HeapModel {

  const NULL := -1
  const WORD := 0x1_0000_0000  // uint32 arithmetic is modulo this

  /** The flag bits of a header; a flag word is the set of its bits.  UNKNOWN stands for any bit
      the runtime does not define. */
  datatype Flag = FREE | OBJECT | ARRAY | STRING | RAW | PENDING | FINALIZED | UNKNOWN

  const KINDS: set<Flag> := {OBJECT, ARRAY, STRING, RAW}
  const MANAGED: set<Flag> := {OBJECT, ARRAY, STRING}

  datatype Header = Header(previous: int, next: int, freeNext: int, capacity: int,
                           requested: int, flags: set<Flag>, mark: int)

  type Memory = map<int, Header>

  /** What the target fixes: arena size, header size and the strictest alignment.  The header is a
      positive multiple of 16, and sums of one arena size and 16 stay below 2^32. */
  datatype Config = Config(size: nat, header: nat, maxAlign: nat) {
    predicate Valid() {
      && header > 0 && header % 16 == 0
      && 0 < maxAlign <= 16
      && size + 16 < WORD
    }
  }

  datatype Cell = Cell(at: int, capacity: int, requested: int, flags: set<Flag>, mark: int)

  predicate IsFree(c: Cell) { FREE in c.flags }

  function Freed(c: Cell): Cell { c.(requested := 0, flags := {FREE}, mark := 0) }

  // ---- Tiling -------------------------------------------------------------------------------

  function End(cfg: Config, c: Cell): int { c.at + cfg.header + c.capacity }

  function Start(cfg: Config, cells: seq<Cell>, i: nat): int
    requires i <= |cells|
  {
    if i == 0 then 0 else End(cfg, cells[i - 1])
  }

  predicate TiledAt(cfg: Config, cells: seq<Cell>, i: nat)
    requires i < |cells|
  {
    cells[i].at == Start(cfg, cells, i) && cells[i].capacity > 0 && cells[i].capacity % 16 == 0
  }

  /** Headers and payloads cover [0, top) without gap or overlap, in 16-byte steps. */
  ghost predicate Tiled(cfg: Config, cells: seq<Cell>, top: int) {
    && (forall i {:trigger TiledAt(cfg, cells, i)} :: 0 <= i < |cells| ==> TiledAt(cfg, cells, i))
    && top == Start(cfg, cells, |cells|)
  }

  lemma {:induction false} TiledOrder(cfg: Config, cells: seq<Cell>, top: int, i: nat, j: nat)
    requires cfg.Valid() && Tiled(cfg, cells, top) && i < j < |cells|
    ensures End(cfg, cells[i]) <= cells[j].at
    decreases j
  {
    assert TiledAt(cfg, cells, j);
    if i < j - 1 {
      TiledOrder(cfg, cells, top, i, j - 1);
      assert TiledAt(cfg, cells, j - 1);
    }
  }

  lemma {:induction false} TiledAligned(cfg: Config, cells: seq<Cell>, top: int, i: nat)
    requires cfg.Valid() && Tiled(cfg, cells, top) && i <= |cells|
    ensures 0 <= Start(cfg, cells, i) && Start(cfg, cells, i) % 16 == 0
  {
    if i > 0 {
      TiledAligned(cfg, cells, top, i - 1);
      assert TiledAt(cfg, cells, i - 1);
    }
  }

  /** Cells lie in address order inside [0, top), on 16-byte boundaries. */
  ghost predicate Ordered(cfg: Config, cells: seq<Cell>, top: int) {
    && (forall i, j :: 0 <= i < j < |cells| ==> End(cfg, cells[i]) <= cells[j].at)
    && (forall i :: 0 <= i < |cells| ==>
          0 <= cells[i].at && End(cfg, cells[i]) <= top && cells[i].capacity > 0)
  }

  lemma TiledFacts(cfg: Config, cells: seq<Cell>, top: int)
    requires cfg.Valid() && Tiled(cfg, cells, top)
    ensures Ordered(cfg, cells, top)
  {
    forall i, j | 0 <= i < j < |cells| ensures End(cfg, cells[i]) <= cells[j].at {
      TiledOrder(cfg, cells, top, i, j);
    }
    forall i | 0 <= i < |cells|
      ensures 0 <= cells[i].at && End(cfg, cells[i]) <= top && cells[i].capacity > 0
    {
      TiledAligned(cfg, cells, top, i);
      assert TiledAt(cfg, cells, i);
      if i < |cells| - 1 {
        TiledOrder(cfg, cells, top, i, |cells| - 1);
        assert TiledAt(cfg, cells, |cells| - 1);
      }
    }
  }

  /** No other cell starts where cell i starts, and its offset is a real one. */
  lemma OwnOffset(cfg: Config, cells: seq<Cell>, top: int, i: nat)
    requires cfg.Valid() && Tiled(cfg, cells, top) && i < |cells|
    ensures forall j :: 0 <= j < |cells| && cells[j].at == cells[i].at ==> j == i
    ensures cells[i].at >= 0
  {
    TiledFacts(cfg, cells, top);
  }

  // ---- The machine view of a chain ----------------------------------------------------------

  function PrevAt(cells: seq<Cell>, i: nat): int
    requires i <= |cells|
  {
    if i == 0 then NULL else cells[i - 1].at
  }

  function NextAt(cells: seq<Cell>, i: nat): int
    requires i < |cells|
  {
    if i + 1 < |cells| then cells[i + 1].at else NULL
  }

  predicate HeaderOf(h: Header, cells: seq<Cell>, i: nat)
    requires i < |cells|
  {
    && h.previous == PrevAt(cells, i)
    && h.next == NextAt(cells, i)
    && h.capacity == cells[i].capacity
    && h.requested == cells[i].requested
    && h.flags == cells[i].flags
    && h.mark == cells[i].mark
  }

  predicate LinkedAt(mem: Memory, cells: seq<Cell>, i: nat)
    requires i < |cells|
  {
    cells[i].at in mem && HeaderOf(mem[cells[i].at], cells, i)
  }

  /** The headers in memory are the doubly linked chain of these cells. */
  ghost predicate Linked(mem: Memory, cells: seq<Cell>) {
    forall i {:trigger LinkedAt(mem, cells, i)} :: 0 <= i < |cells| ==> LinkedAt(mem, cells, i)
  }

  /** The offset of cell n, or NULL past the last cell. */
  function CellAt(cells: seq<Cell>, n: nat): int { if n < |cells| then cells[n].at else NULL }

  function FirstAt(cells: seq<Cell>): int { if cells == [] then NULL else cells[0].at }

  function LastAt(cells: seq<Cell>): int { PrevAt(cells, |cells|) }

  /** Entry k of a list of offsets, or NULL past its end. */
  function Entry(list: seq<int>, k: nat): int { if k < |list| then list[k] else NULL }

  predicate FreeLinkAt(mem: Memory, list: seq<int>, k: nat)
    requires k < |list|
  {
    list[k] in mem && list[k] >= 0 && mem[list[k]].freeNext == Entry(list, k + 1)
  }

  /** The `freeNext` links visit exactly these offsets, in this order. */
  ghost predicate FreeChain(mem: Memory, head: int, list: seq<int>) {
    && head == Entry(list, 0)
    && forall k {:trigger FreeLinkAt(mem, list, k)} :: 0 <= k < |list| ==> FreeLinkAt(mem, list, k)
  }

  // ---- Cell contents ------------------------------------------------------------------------

  /** A free cell carries no other flag and no size; any other cell has one kind and a size that
      fits, and only Objects carry finalizer flags. */
  ghost predicate Wellformed(c: Cell) {
    if IsFree(c) then
      c.flags == {FREE} && c.requested == 0
    else
      && UNKNOWN !in c.flags
      && (exists k :: k in KINDS && c.flags * KINDS == {k})
      && 0 < c.requested <= c.capacity
      && (PENDING in c.flags || FINALIZED in c.flags ==> OBJECT in c.flags)
  }

  ghost predicate AllWellformed(cells: seq<Cell>) {
    forall i :: 0 <= i < |cells| ==> Wellformed(cells[i])
  }

  ghost predicate Coalesced(cells: seq<Cell>) {
    forall i, j :: 0 <= i && j == i + 1 && j < |cells| ==> !(IsFree(cells[i]) && IsFree(cells[j]))
  }

  /** Offset x is that of a FREE cell. */
  ghost predicate FreeAt(cells: seq<Cell>, x: int) {
    exists i :: 0 <= i < |cells| && IsFree(cells[i]) && cells[i].at == x
  }

  ghost predicate Distinct<T>(s: seq<T>) {
    forall i, j :: 0 <= i < j < |s| ==> s[i] != s[j]
  }

  /** The free list names every FREE cell once and nothing else. */
  ghost predicate Lists(list: seq<int>, cells: seq<Cell>) {
    && Distinct(list)
    && forall x :: x in list <==> FreeAt(cells, x)
  }

  /** How many cells carry a flag, and the sum of their requested sizes. */
  function Count(cells: seq<Cell>, kind: Flag): int {
    if cells == [] then 0
    else Count(cells[..|cells| - 1], kind) + (if kind in cells[|cells| - 1].flags then 1 else 0)
  }

  function Bytes(cells: seq<Cell>, kind: Flag): int {
    if cells == [] then 0
    else
      Bytes(cells[..|cells| - 1], kind)
      + (if kind in cells[|cells| - 1].flags then cells[|cells| - 1].requested else 0)
  }

  lemma {:induction false} CountConcat(a: seq<Cell>, b: seq<Cell>, kind: Flag)
    ensures Count(a + b, kind) == Count(a, kind) + Count(b, kind)
    ensures Bytes(a + b, kind) == Bytes(a, kind) + Bytes(b, kind)
  {
    if b == [] {
      assert a + b == a;
    } else {
      var n := |b| - 1;
      assert (a + b)[..|a + b| - 1] == a + b[..n];
      CountConcat(a, b[..n], kind);
    }
  }

  lemma {:induction false} CountNone(cells: seq<Cell>, kind: Flag)
    requires forall i :: 0 <= i < |cells| ==> kind !in cells[i].flags
    ensures Count(cells, kind) == 0 && Bytes(cells, kind) == 0
  {
    if cells != [] { CountNone(cells[..|cells| - 1], kind); }
  }

  lemma CountSingle(c: Cell, kind: Flag)
    ensures Count([c], kind) == (if kind in c.flags then 1 else 0)
    ensures Bytes([c], kind) == (if kind in c.flags then c.requested else 0)
  {
    assert [c][..0] == [];
  }

  ghost predicate Tallied(cells: seq<Cell>, count: map<Flag, int>, bytes: map<Flag, int>) {
    forall k :: k in MANAGED ==>
      k in count && k in bytes && count[k] == Count(cells, k) && bytes[k] == Bytes(cells, k)
  }

  /** Everything the heap keeps between operations, apart from the counters. */
  ghost predicate Shape(cfg: Config, cells: seq<Cell>, list: seq<int>, top: int) {
    && cfg.Valid()
    && Tiled(cfg, cells, top) && top <= cfg.size
    && AllWellformed(cells) && Coalesced(cells)
    && Lists(list, cells)
  }

  /** Live payloads are 16-aligned and pairwise disjoint, and no header lies inside one. */
  lemma PayloadsDisjoint(cfg: Config, cells: seq<Cell>, list: seq<int>, top: int, i: nat, j: nat)
    requires Shape(cfg, cells, list, top) && i < |cells| && j < |cells| && i != j
    ensures (cells[i].at + cfg.header) % 16 == 0
    ensures End(cfg, cells[i]) <= cells[j].at || End(cfg, cells[j]) <= cells[i].at
    ensures 0 <= cells[i].at && End(cfg, cells[i]) <= cfg.size
  {
    TiledFacts(cfg, cells, top);
    TiledAligned(cfg, cells, top, i);
    assert TiledAt(cfg, cells, i);
  }

  // ---- Merging neighbours -------------------------------------------------------------------

  function Absorbed(cfg: Config, a: Cell, b: Cell): Cell {
    a.(capacity := a.capacity + cfg.header + b.capacity)
  }

  function MergeAt(cfg: Config, cells: seq<Cell>, i: nat): seq<Cell>
    requires i + 1 < |cells|
  {
    cells[..i] + [Absorbed(cfg, cells[i], cells[i + 1])] + cells[i + 2..]
  }

  /** `heap_release`: free cell i, absorb a free successor, then be absorbed by a free predecessor. */
  function AbsorbRight(cfg: Config, cells: seq<Cell>, i: nat): seq<Cell>
    requires i < |cells|
  {
    if i + 1 < |cells| && IsFree(cells[i + 1]) then MergeAt(cfg, cells, i) else cells
  }

  function AbsorbLeft(cfg: Config, cells: seq<Cell>, i: nat): seq<Cell>
    requires i < |cells|
  {
    if i > 0 && IsFree(cells[i - 1]) then MergeAt(cfg, cells, i - 1) else cells
  }

  function Released(cfg: Config, cells: seq<Cell>, i: nat): seq<Cell>
    requires i < |cells|
  {
    AbsorbLeft(cfg, AbsorbRight(cfg, cells[i := Freed(cells[i])], i), i)
  }

  /** The offset of the free cell that release leaves behind. */
  function ReleasedAt(cells: seq<Cell>, i: nat): int
    requires i < |cells|
  {
    if i > 0 && IsFree(cells[i - 1]) then cells[i - 1].at else cells[i].at
  }

  function Without(list: seq<int>, x: int): seq<int> {
    if list == [] then []
    else if list[0] == x then list[1..]
    else [list[0]] + Without(list[1..], x)
  }

  function RunStart(cells: seq<Cell>, i: nat): nat
    requires i < |cells|
  {
    if i > 0 && IsFree(cells[i - 1]) then i - 1 else i
  }

  function RunEnd(cells: seq<Cell>, i: nat): nat
    requires i < |cells|
  {
    if i + 1 < |cells| && IsFree(cells[i + 1]) then i + 2 else i + 1
  }

  /** The free list after releasing cell i: its free neighbours go, the merged block comes first. */
  function ReleasedList(cells: seq<Cell>, list: seq<int>, i: nat): seq<int>
    requires i < |cells|
  {
    [ReleasedAt(cells, i)] + Unlisted(cells, list, i)
  }

  /** Neither retiring a block nor merging it to the right changes what is on its other side. */
  lemma ReleaseSides(cfg: Config, cells: seq<Cell>, i: nat)
    requires i < |cells|
    ensures var retired := cells[i := Freed(cells[i])];
            var merged := AbsorbRight(cfg, retired, i);
            && i < |merged| && merged[i].at == retired[i].at == cells[i].at
            && RunEnd(retired, i) == RunEnd(cells, i) && (RunEnd(cells, i) == i + 2 ==> retired[i + 1] == cells[i + 1])
            && RunStart(merged, i) == RunStart(cells, i) && (RunStart(cells, i) < i ==> merged[i - 1] == cells[i - 1])
            && ReleasedAt(merged, i) == ReleasedAt(cells, i)
            && AbsorbLeft(cfg, merged, i) == Released(cfg, cells, i)
  {
  }

  lemma MergeTiled(cfg: Config, cells: seq<Cell>, top: int, i: nat)
    requires cfg.Valid() && Tiled(cfg, cells, top) && i + 1 < |cells|
    ensures Tiled(cfg, MergeAt(cfg, cells, i), top)
  {
    var m := MergeAt(cfg, cells, i);
    assert TiledAt(cfg, cells, i) && TiledAt(cfg, cells, i + 1);
    forall j | 0 <= j < |m| ensures TiledAt(cfg, m, j) {
      assert TiledAt(cfg, cells, if j <= i then j else j + 1);
    }
  }

  /** What a merge writes: b grows over its successor n, bypasses it, and the block after n links back. */
  function AbsorbNext(cfg: Config, mem: Memory, b: int, n: int): Memory
    requires b in mem && n in mem
  {
    var m := mem[b := mem[b].(capacity := mem[b].capacity + cfg.header + mem[n].capacity,
                              next := mem[n].next)];
    if mem[n].next in m then m[mem[n].next := m[mem[n].next].(previous := b)] else m
  }

  lemma MergeLinked(cfg: Config, mem: Memory, cells: seq<Cell>, top: int, i: nat)
    requires cfg.Valid() && Tiled(cfg, cells, top) && i + 1 < |cells|
    requires Linked(mem, cells) && NULL !in mem
    requires LinkedAt(mem, cells, i) && LinkedAt(mem, cells, i + 1)
    ensures Linked(AbsorbNext(cfg, mem, cells[i].at, cells[i + 1].at), MergeAt(cfg, cells, i))
  {
    TiledFacts(cfg, cells, top);
    var m := MergeAt(cfg, cells, i);
    var mem' := AbsorbNext(cfg, mem, cells[i].at, cells[i + 1].at);
    forall j | 0 <= j < |m| ensures LinkedAt(mem', m, j) {
      MergeLinkedAt(cfg, mem, cells, top, i, j);
    }
  }

  lemma MergeLinkedAt(cfg: Config, mem: Memory, cells: seq<Cell>, top: int, i: nat, j: nat)
    requires cfg.Valid() && Ordered(cfg, cells, top) && i + 1 < |cells|
    requires Linked(mem, cells) && NULL !in mem
    requires LinkedAt(mem, cells, i) && LinkedAt(mem, cells, i + 1)
    requires j < |MergeAt(cfg, cells, i)|
    ensures LinkedAt(AbsorbNext(cfg, mem, cells[i].at, cells[i + 1].at), MergeAt(cfg, cells, i), j)
  {
    var m := MergeAt(cfg, cells, i);
    var k := if j <= i then j else j + 1;
    assert LinkedAt(mem, cells, k);
    assert m[j].at == cells[k].at;
    assert mem[cells[i + 1].at].next == NextAt(cells, i + 1);
    assert NextAt(m, j) == (if j == i then NextAt(cells, i + 1) else NextAt(cells, k));
    assert PrevAt(m, j) == (if j == i + 1 then cells[i].at else PrevAt(cells, k));
    if j < i { assert cells[j].at < cells[i].at < cells[i + 1].at; }
    if j == i + 1 { assert LinkedAt(mem, cells, i + 2); }
  }

  lemma {:induction false} WithoutProperties(list: seq<int>, x: int)
    requires Distinct(list)
    ensures Distinct(Without(list, x))
    ensures forall y :: y in Without(list, x) <==> y in list && y != x
  {
    if list != [] {
      var t := list[1..];
      assert forall y :: y in list <==> y == list[0] || y in t;
      if list[0] != x {
        WithoutProperties(t, x);
        var w := Without(t, x);
        forall i, j | 0 <= i < j < |[list[0]] + w| ensures ([list[0]] + w)[i] != ([list[0]] + w)[j] {
          if i == 0 { assert w[j - 1] in w; }
        }
      }
    }
  }

  lemma {:induction false} WithoutIndex(list: seq<int>, k: nat)
    requires Distinct(list) && k < |list|
    ensures Without(list, list[k]) == list[..k] + list[k + 1..]
  {
    if k > 0 {
      WithoutIndex(list[1..], k - 1);
      assert list[1..][..k - 1] == list[1..k];
      assert list[1..][k..] == list[k + 1..];
    }
  }

  lemma {:induction false} WithoutAbsent(list: seq<int>, x: int)
    requires x !in list
    ensures Without(list, x) == list
  {
    if list != [] { WithoutAbsent(list[1..], x); }
  }

  /** Replacing a run of cells by one free cell whose outer neighbours are not free. */
  lemma SpliceKeeps(cells: seq<Cell>, lo: nat, hi: nat, mid: Cell)
    requires lo < hi <= |cells| && AllWellformed(cells) && Coalesced(cells)
    requires mid.flags == {FREE} && mid.requested == 0
    requires lo > 0 ==> !IsFree(cells[lo - 1])
    requires hi < |cells| ==> !IsFree(cells[hi])
    ensures AllWellformed(cells[..lo] + [mid] + cells[hi..]) && Coalesced(cells[..lo] + [mid] + cells[hi..])
  {
    var c := cells[..lo] + [mid] + cells[hi..];
    var d := hi - lo - 1;
    assert forall k :: 0 <= k < lo ==> c[k] == cells[k];
    assert forall k :: lo < k < |c| ==> c[k] == cells[k + d];
    forall k | 0 <= k < |c| ensures Wellformed(c[k]) {
      if k > lo { assert c[k] == cells[k + d]; }
    }
    forall a, b | 0 <= a && b == a + 1 && b < |c| ensures !(IsFree(c[a]) && IsFree(c[b])) {
      if b < lo { assert c[a] == cells[a] && c[b] == cells[b]; }
      if a > lo { assert c[a] == cells[a + d] && c[b] == cells[b + d]; }
    }
  }

  /** Release replaces the cell and its free neighbours by one free cell. */
  lemma ReleasedIsSplice(cfg: Config, cells: seq<Cell>, i: nat) returns (mid: Cell)
    requires i < |cells| && AllWellformed(cells)
    ensures var lo, hi := RunStart(cells, i), RunEnd(cells, i);
            && Released(cfg, cells, i) == cells[..lo] + [mid] + cells[hi..]
            && mid.flags == {FREE} && mid.requested == 0 && mid.at == cells[lo].at
  {
    var c1 := AbsorbRight(cfg, cells[i := Freed(cells[i])], i);
    var lo, hi := RunStart(cells, i), RunEnd(cells, i);
    assert c1[i].flags == {FREE} && c1[i].requested == 0 && c1[i].at == cells[i].at;
    assert c1 == cells[..i] + [c1[i]] + cells[hi..];
    mid := Released(cfg, cells, i)[lo];
    assert lo < i ==> Wellformed(cells[lo]) && cells[lo] == c1[lo];
  }

  lemma ReleaseTiled(cfg: Config, cells: seq<Cell>, top: int, i: nat)
    requires cfg.Valid() && Tiled(cfg, cells, top) && i < |cells|
    ensures Tiled(cfg, Released(cfg, cells, i), top)
  {
    var c0 := cells[i := Freed(cells[i])];
    forall j | 0 <= j < |c0| ensures TiledAt(cfg, c0, j) { assert TiledAt(cfg, cells, j); }
    var c1 := AbsorbRight(cfg, c0, i);
    if c1 != c0 { MergeTiled(cfg, c0, top, i); }
    if i > 0 && IsFree(c1[i - 1]) { MergeTiled(cfg, c1, top, i - 1); }
  }

  /** Releasing a block keeps the whole invariant, and the counts lose exactly that block. */
  lemma ReleaseKeepsShape(cfg: Config, cells: seq<Cell>, list: seq<int>, top: int, i: nat)
    requires Shape(cfg, cells, list, top) && i < |cells| && !IsFree(cells[i])
    ensures Shape(cfg, Released(cfg, cells, i), ReleasedList(cells, list, i), top)
  {
    ReleaseTiled(cfg, cells, top, i);
    var lo, hi := RunStart(cells, i), RunEnd(cells, i);
    var mid := ReleasedIsSplice(cfg, cells, i);
    assert lo > 0 ==> !IsFree(cells[lo - 1]);
    assert hi < |cells| ==> !IsFree(cells[hi]);
    SpliceKeeps(cells, lo, hi, mid);
    ReleaseLists(cfg, cells, list, top, i, lo, hi, mid);
  }

  lemma ReleaseCounts(cfg: Config, cells: seq<Cell>, i: nat, kind: Flag)
    requires i < |cells| && AllWellformed(cells) && kind != FREE
    ensures Count(cells, kind) == Count(Released(cfg, cells, i), kind) + Count([cells[i]], kind)
    ensures Bytes(cells, kind) == Bytes(Released(cfg, cells, i), kind) + Bytes([cells[i]], kind)
  {
    var mid := ReleasedIsSplice(cfg, cells, i);
    ReleaseCount(cells, i, RunStart(cells, i), RunEnd(cells, i), mid, kind);
  }

  /** Replacing a run in which only cell i may carry the flag. */
  lemma ReleaseCount(cells: seq<Cell>, i: nat, lo: nat, hi: nat, mid: Cell, kind: Flag)
    requires lo <= i < hi <= |cells| && kind != FREE && mid.flags == {FREE} && AllWellformed(cells)
    requires forall k :: lo <= k < hi && k != i ==> IsFree(cells[k])
    ensures Count(cells, kind) == Count(cells[..lo] + [mid] + cells[hi..], kind) + Count([cells[i]], kind)
    ensures Bytes(cells, kind) == Bytes(cells[..lo] + [mid] + cells[hi..], kind) + Bytes([cells[i]], kind)
  {
    var a, pre, x, post, b := cells[..lo], cells[lo..i], [cells[i]], cells[i + 1..hi], cells[hi..];
    forall k | lo <= k < hi && k != i ensures kind !in cells[k].flags { assert Wellformed(cells[k]); }
    CountNone(pre, kind);
    CountNone(post, kind);
    CountSingle(mid, kind);
    assert cells == (((a + pre) + x) + post) + b;
    CountConcat(((a + pre) + x) + post, b, kind);
    CountConcat((a + pre) + x, post, kind);
    CountConcat(a + pre, x, kind);
    CountConcat(a, pre, kind);
    CountConcat(a + [mid], b, kind);
    CountConcat(a, [mid], kind);
  }

  /** Replacing cells lo..hi by one free cell at the same offset. */
  lemma SpliceFreeAt(cells: seq<Cell>, lo: nat, hi: nat, mid: Cell, y: int)
    requires lo < hi <= |cells| && IsFree(mid)
    ensures FreeAt(cells[..lo] + [mid] + cells[hi..], y) <==>
              y == mid.at || FreeAt(cells[..lo], y) || FreeAt(cells[hi..], y)
  {
    var c := cells[..lo] + [mid] + cells[hi..];
    if FreeAt(c, y) {
      var j :| 0 <= j < |c| && IsFree(c[j]) && c[j].at == y;
      if j < lo { assert c[j] == cells[..lo][j]; }
      if j > lo { assert c[j] == cells[hi..][j - lo - 1]; }
    }
    if y == mid.at { assert c[lo] == mid; }
    if FreeAt(cells[..lo], y) {
      var j :| 0 <= j < lo && IsFree(cells[..lo][j]) && cells[..lo][j].at == y;
      assert c[j] == cells[..lo][j];
    }
    if FreeAt(cells[hi..], y) {
      var j :| 0 <= j < |cells| - hi && IsFree(cells[hi..][j]) && cells[hi..][j].at == y;
      assert c[lo + 1 + j] == cells[hi..][j];
    }
  }

  lemma SplitFreeAt(cells: seq<Cell>, lo: nat, hi: nat, y: int)
    requires lo <= hi <= |cells|
    ensures FreeAt(cells, y) <==> FreeAt(cells[..lo], y) || FreeAt(cells[lo..hi], y) || FreeAt(cells[hi..], y)
  {
    if FreeAt(cells, y) {
      var j :| 0 <= j < |cells| && IsFree(cells[j]) && cells[j].at == y;
      if j < lo { assert cells[..lo][j] == cells[j]; }
      else if j < hi { assert cells[lo..hi][j - lo] == cells[j]; }
      else { assert cells[hi..][j - hi] == cells[j]; }
    }
  }

  lemma ReleaseFreeAt(cfg: Config, cells: seq<Cell>, top: int, i: nat, lo: nat, hi: nat, mid: Cell, y: int)
    requires Ordered(cfg, cells, top) && cfg.header > 0 && lo <= i < hi <= |cells|
    requires IsFree(mid) && mid.at == cells[lo].at
    ensures FreeAt(cells[..lo] + [mid] + cells[hi..], y) <==>
              y == mid.at || (FreeAt(cells, y) && forall k :: lo <= k < hi ==> y != cells[k].at)
  {
    SpliceFreeAt(cells, lo, hi, mid, y);
    SplitFreeAt(cells, lo, hi, y);
  }

  lemma PrependDistinct<T>(x: T, s: seq<T>)
    requires Distinct(s) && x !in s
    ensures Distinct([x] + s)
  {
    var r := [x] + s;
    forall a, b | 0 <= a < b < |r| ensures r[a] != r[b] {
      assert r[b] == s[b - 1] && s[b - 1] in s;
      if a > 0 { assert r[a] == s[a - 1]; }
    }
  }

  /** The list left after unlisting the free neighbours of cell i. */
  function Unlisted(cells: seq<Cell>, list: seq<int>, i: nat): seq<int>
    requires i < |cells|
  {
    var l1 := if RunEnd(cells, i) == i + 2 then Without(list, cells[i + 1].at) else list;
    if RunStart(cells, i) < i then Without(l1, cells[i - 1].at) else l1
  }

  lemma UnlistedProperties(cells: seq<Cell>, list: seq<int>, i: nat)
    requires i < |cells| && Distinct(list)
    ensures Distinct(Unlisted(cells, list, i))
    ensures forall y :: y in Unlisted(cells, list, i) <==>
              y in list && (RunEnd(cells, i) == i + 2 ==> y != cells[i + 1].at)
                        && (RunStart(cells, i) < i ==> y != cells[i - 1].at)
  {
    var l1 := if RunEnd(cells, i) == i + 2 then Without(list, cells[i + 1].at) else list;
    if RunEnd(cells, i) == i + 2 { WithoutProperties(list, cells[i + 1].at); }
    if RunStart(cells, i) < i { WithoutProperties(l1, cells[i - 1].at); }
  }

  lemma ReleasedUnlisted(cfg: Config, cells: seq<Cell>, list: seq<int>, top: int, i: nat)
    requires cfg.Valid() && Tiled(cfg, cells, top) && Lists(list, cells) && i < |cells| && !IsFree(cells[i])
    ensures ReleasedAt(cells, i) !in Unlisted(cells, list, i)
  {
    TiledFacts(cfg, cells, top);
    UnlistedProperties(cells, list, i);
    assert !FreeAt(cells, cells[i].at);
  }

  lemma ReleaseLists(cfg: Config, cells: seq<Cell>, list: seq<int>, top: int, i: nat,
                     lo: nat, hi: nat, mid: Cell)
    requires cfg.Valid() && Tiled(cfg, cells, top) && Lists(list, cells) && i < |cells| && !IsFree(cells[i])
    requires lo == RunStart(cells, i) && hi == RunEnd(cells, i)
    requires IsFree(mid) && mid.at == cells[lo].at
    ensures Lists(ReleasedList(cells, list, i), cells[..lo] + [mid] + cells[hi..])
  {
    TiledFacts(cfg, cells, top);
    var l2 := Unlisted(cells, list, i);
    UnlistedProperties(cells, list, i);
    ReleasedUnlisted(cfg, cells, list, top, i);
    PrependDistinct(mid.at, l2);
    forall y ensures y in [mid.at] + l2 <==> FreeAt(cells[..lo] + [mid] + cells[hi..], y) {
      ReleaseFreeAt(cfg, cells, top, i, lo, hi, mid, y);
    }
  }
}
