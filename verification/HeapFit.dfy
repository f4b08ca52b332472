/** Exactly how much an allocation takes and from where, and that what was given back last is handed out first. */
module HeapFit {
  import opened HeapModel
  import opened HeapSpec

  /** Entry k of the free list is the first whose block can hold `need` bytes, and it is cell i. */
  ghost predicate FirstRoom(v: View, need: int, k: nat, i: nat) {
    && k < |v.list| && i < |v.cells| && v.cells[i].at == v.list[k] && IsFree(v.cells[i]) && v.cells[i].capacity >= need
    && forall j, l :: 0 <= j < k && 0 <= l < |v.cells| && v.cells[l].at == v.list[j] ==> v.cells[l].capacity < need
  }

  /** The first listed block with room is taken.  What it has beyond the request stays with it if it is less
      than a header and one maximally aligned unit; else the block gets exactly the bytes needed, and the rest
      becomes a free block right behind it, at the head of the list. */
  lemma ServedFromList(cfg: Config, v: View, need: int, size: int, kind: Flag, k: nat, i: nat)
    requires Shape(cfg, v.cells, v.list, v.top) && FirstRoom(v, need, k, i)
    ensures var (v', block) := Served(cfg, v, need, size, kind);
            var c, rest := v.cells[i], v.list[..k] + v.list[k + 1..];
            && block == c.at && v'.top == v.top
            && if c.capacity < need + cfg.header + cfg.maxAlign then
                 v'.cells == v.cells[i := Cell(c.at, c.capacity, size, {kind}, 0)] && v'.list == rest
               else
                 var r := Cell(c.at + cfg.header + need, c.capacity - need - cfg.header, 0, {FREE}, 0);
                 && v'.cells == v.cells[..i] + [Cell(c.at, need, size, {kind}, 0), r] + v.cells[i + 1..]
                 && v'.list == [r.at] + rest
  {
    FirstIs(cfg, v, need, k, i);
    TiledFacts(cfg, v.cells, v.top);
    IndexOfCell(cfg, v.cells, v.top, i);
    hide Shape;
  }

  lemma FirstIs(cfg: Config, v: View, need: int, k: nat, i: nat)
    requires Shape(cfg, v.cells, v.list, v.top) && FirstRoom(v, need, k, i)
    ensures FirstFit(v.cells, v.list, need) == k
  {
    assert Roomy(v.cells, v.list[k], need);
    forall j | 0 <= j < k ensures !Roomy(v.cells, v.list[j], need) { }
  }

  /** If no listed block has room the arena grows by exactly one block of the bytes needed, or, if it cannot,
      nothing happens. */
  lemma ServedFromTail(cfg: Config, v: View, need: int, size: int, kind: Flag)
    requires Shape(cfg, v.cells, v.list, v.top)
    requires forall c :: c in v.cells && IsFree(c) ==> c.capacity < need
    ensures Served(cfg, v, need, size, kind) ==
              if v.top + cfg.header + need <= cfg.size then
                (View(v.cells + [Cell(v.top, need, size, {kind}, 0)], v.list, v.top + cfg.header + need), v.top)
              else (v, NULL)
  {
    FirstHas(cfg, v, need);
    hide Shape;
  }

  lemma FirstHas(cfg: Config, v: View, need: int)
    requires Shape(cfg, v.cells, v.list, v.top)
    ensures FirstFit(v.cells, v.list, need) < |v.list| ==>
              exists c :: c in v.cells && IsFree(c) && c.capacity >= need
  {
    var k := FirstFit(v.cells, v.list, need);
    if k < |v.list| {
      var i := FreeIndex(cfg, v.cells, v.list, v.top, k);
      assert v.cells[i] in v.cells;
    }
  }

  /** One or the other happens. */
  lemma FirstRoomOrNone(cfg: Config, v: View, need: int) returns (k: nat, i: nat)
    requires Shape(cfg, v.cells, v.list, v.top)
    ensures FirstRoom(v, need, k, i) || forall c :: c in v.cells && IsFree(c) ==> c.capacity < need
  {
    k, i := FirstFit(v.cells, v.list, need), 0;
    if k < |v.list| {
      i := FreeIndex(cfg, v.cells, v.list, v.top, k);
      forall j, l | 0 <= j < k && 0 <= l < |v.cells| && v.cells[l].at == v.list[j] ensures v.cells[l].capacity < need {
        assert !Roomy(v.cells, v.list[j], need);
      }
    } else {
      forall c | c in v.cells && IsFree(c) ensures c.capacity < need { NoRoom(v.cells, v.list, need, c); }
    }
  }

  /** A block that is given back, with its free neighbours, is the first to be looked at: a request that fits
      the block is served from there. */
  lemma GivenBackFirst(cfg: Config, v: View, i: nat, need: int, size: int, kind: Flag)
    requires Shape(cfg, v.cells, v.list, v.top) && i < |v.cells| && !IsFree(v.cells[i]) && v.cells[i].capacity >= need
    ensures var back := View(Released(cfg, v.cells, i), ReleasedList(v.cells, v.list, i), v.top);
            var at := if i > 0 && IsFree(v.cells[i - 1]) then v.cells[i - 1].at else v.cells[i].at;
            Served(cfg, back, need, size, kind).1 == at
  {
    var after := Released(cfg, v.cells, i);
    var back := View(after, ReleasedList(v.cells, v.list, i), v.top);
    ReleaseKeepsShape(cfg, v.cells, v.list, v.top, i);
    var at, lo := ReleasedAt(v.cells, i), RunStart(v.cells, i);
    var mid := ReleasedIsSplice(cfg, v.cells, i);
    assert after[lo] == mid && mid.at == at;
    TiledFacts(cfg, v.cells, v.top);
    TiledFacts(cfg, after, v.top);
    ReleasedRoom(cfg, v, i);
    assert FirstRoom(back, need, 0, lo);
    hide Shape, Released, ReleasedList;
    ServedFromList(cfg, back, need, size, kind, 0, lo);
  }

  /** A block that is given back is empty and unmarked; with a free block behind it they become one, and one
      before it takes over both. */
  lemma GivenBack(cfg: Config, cells: seq<Cell>, i: nat)
    requires i < |cells| && AllWellformed(cells)
    ensures var after := Released(cfg, cells, i);
            var behind := if i + 1 < |cells| && IsFree(cells[i + 1]) then cfg.header + cells[i + 1].capacity else 0;
            var hi := if i + 1 < |cells| && IsFree(cells[i + 1]) then i + 2 else i + 1;
            if i > 0 && IsFree(cells[i - 1]) then
              var c := cells[i - 1];
              var all := c.capacity + cfg.header + cells[i].capacity + behind;
              after == cells[..i - 1] + [c.(capacity := all)] + cells[hi..]
            else
              after == cells[..i] + [Cell(cells[i].at, cells[i].capacity + behind, 0, {FREE}, 0)] + cells[hi..]
  {
    var retired := cells[i := Freed(cells[i])];
    var merged := AbsorbRight(cfg, retired, i);
    var hi := if i + 1 < |cells| && IsFree(cells[i + 1]) then i + 2 else i + 1;
    assert merged == cells[..i] + [merged[i]] + cells[hi..];
    hide Wellformed;
  }

  /** The merged block is no smaller than the one given back. */
  lemma ReleasedRoom(cfg: Config, v: View, i: nat)
    requires Shape(cfg, v.cells, v.list, v.top) && i < |v.cells| && !IsFree(v.cells[i])
    ensures var lo := RunStart(v.cells, i);
            lo < |Released(cfg, v.cells, i)| && Released(cfg, v.cells, i)[lo].capacity >= v.cells[i].capacity
  {
    assert TiledAt(cfg, v.cells, i);
    TiledFacts(cfg, v.cells, v.top);
    hide Wellformed;
  }
}
