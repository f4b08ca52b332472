/** Which slots lead to which block, which are counted as invalid, and how many are. */
module MarkLaws {
  import opened HeapModel
  import opened MarkSpec

  /** A live block of a kind starts at x. */
  ghost predicate LiveAt(cells: seq<Cell>, x: int, kind: Flag) {
    exists c :: c in cells && c.at == x && !IsFree(c) && kind in c.flags
  }

  lemma HoldsLive(cells: seq<Cell>, x: int, kind: Flag)
    ensures Holds(cells, x, kind) <==> LiveAt(cells, x, kind)
  {
    if Holds(cells, x, kind) {
      var i :| 0 <= i < |cells| && cells[i].at == x && !IsFree(cells[i]) && kind in cells[i].flags;
      assert cells[i] in cells;
    }
    if c :| c in cells && c.at == x && !IsFree(c) && kind in c.flags {
      var i :| 0 <= i < |cells| && cells[i] == c;
    }
  }

  ghost predicate LeadsTo(cfg: Config, cells: seq<Cell>, payloads: Payloads, r: Ref, x: int) {
    && r.To? && r.address == x + cfg.header && LiveAt(cells, x, r.kind)
    && (r.kind == STRING || (x in payloads && payloads[x].accepted))
  }

  /** A slot leads to a block exactly if it holds the payload address of a live block of its kind whose
      descriptor is accepted; strings need none. */
  lemma TargetIs(cfg: Config, cells: seq<Cell>, payloads: Payloads, r: Ref, x: int)
    requires x != NULL
    ensures Target(cfg, cells, payloads, r) == x <==> LeadsTo(cfg, cells, payloads, r, x)
  {
    if r.To? { HoldsLive(cells, r.address - cfg.header, r.kind); }
  }

  /** A slot is invalid exactly if it is no reference at all, or one to an object or array that leads nowhere. */
  lemma WrongIs(cfg: Config, cells: seq<Cell>, payloads: Payloads, r: Ref)
    ensures Wrong(cfg, cells, payloads, r) <==>
              || r.BAD?
              || (r.To? && r.kind != STRING && forall x :: x != NULL ==> !LeadsTo(cfg, cells, payloads, r, x))
  {
    var x := Target(cfg, cells, payloads, r);
    if x != NULL { TargetIs(cfg, cells, payloads, r, x); }
    forall y | y != NULL && LeadsTo(cfg, cells, payloads, r, y) ensures x == y {
      TargetIs(cfg, cells, payloads, r, y);
    }
    hide LeadsTo;
  }

  /** An invalid slot counts one, any other none, and slots together what they count one by one. */
  lemma {:induction false} WrongCounted(cfg: Config, cells: seq<Cell>, payloads: Payloads, refs: seq<Ref>,
                                        more: seq<Ref>, r: Ref)
    ensures WrongCount(cfg, cells, payloads, [r]) == if Wrong(cfg, cells, payloads, r) then 1 else 0
    ensures WrongCount(cfg, cells, payloads, refs + more) ==
              WrongCount(cfg, cells, payloads, refs) + WrongCount(cfg, cells, payloads, more)
  {
    assert [r][1..] == [];
    assert WrongCount(cfg, cells, payloads, []) == 0;
    if refs == [] {
      assert refs + more == more;
    } else {
      assert (refs + more)[1..] == refs[1..] + more;
      WrongCounted(cfg, cells, payloads, refs[1..], more, r);
    }
    hide Wrong;
  }
}
