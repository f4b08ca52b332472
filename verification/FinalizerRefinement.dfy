/** The heap's finalizer flags implement the finalizer machine: a collection of the block chain is one
    collection of the objects it holds, and so are taking a finalizer and clearing the queue. */
module FinalizerRefinement {
  import opened HeapModel
  import opened SweepSpec
  import opened MarkSpec
  import opened Graph
  import opened Finalize
  import Sequences
  import C = Collect
  import F = Finalizers

  /** The object a chain holds at offset x. */
  ghost function ObjAt(cfg: Config, cells: seq<Cell>, payloads: Payloads, x: int): F.Obj {
    F.Obj(if Traced(cells, x) && x in payloads then Targets(cfg, cells, payloads, payloads[x].refs) else {},
          Holds(cells, x, OBJECT) && x in payloads && payloads[x].finalizer,
          Holds(cells, x, FINALIZED), Holds(cells, x, PENDING))
  }

  ghost function View(cfg: Config, cells: seq<Cell>, payloads: Payloads): map<int, F.Obj> {
    map x | x in Offsets(cells) && Managed(cells, x) :: ObjAt(cfg, cells, payloads, x)
  }

  ghost predicate SameManaged(a: seq<Cell>, b: seq<Cell>) {
    forall x, k {:trigger Holds(b, x, k)} :: k in MANAGED ==> (Holds(a, x, k) <==> Holds(b, x, k))
  }

  lemma HeldOffset(cells: seq<Cell>, x: int, k: Flag)
    requires Holds(cells, x, k)
    ensures x in Offsets(cells)
  {
  }

  lemma ManagedOffset(cells: seq<Cell>, x: int)
    ensures Managed(cells, x) ==> x in Offsets(cells)
  {
    if Holds(cells, x, OBJECT) { HeldOffset(cells, x, OBJECT); }
    if Holds(cells, x, ARRAY) { HeldOffset(cells, x, ARRAY); }
    if Holds(cells, x, STRING) { HeldOffset(cells, x, STRING); }
  }

  lemma {:induction false} TargetsKept(cfg: Config, a: seq<Cell>, b: seq<Cell>, payloads: Payloads, refs: seq<Ref>)
    requires SameManaged(a, b) && forall r :: r in refs ==> Typed(r)
    ensures Targets(cfg, a, payloads, refs) == Targets(cfg, b, payloads, refs)
  {
    if refs != [] {
      assert refs[0] in refs;
      assert Target(cfg, a, payloads, refs[0]) == Target(cfg, b, payloads, refs[0]);
      TargetsKept(cfg, a, b, payloads, refs[1..]);
    }
  }

  /** Chains with the same managed blocks differ, to the collector, only in finalizer flags. */
  lemma ViewKept(cfg: Config, a: seq<Cell>, b: seq<Cell>, payloads: Payloads)
    requires SameManaged(a, b) && AllTyped(payloads)
    ensures View(cfg, a, payloads).Keys == View(cfg, b, payloads).Keys
    ensures forall x :: x in View(cfg, a, payloads) ==>
              View(cfg, b, payloads)[x] ==
                View(cfg, a, payloads)[x].(finalized := Holds(b, x, FINALIZED), pending := Holds(b, x, PENDING))
  {
    forall x ensures Managed(a, x) <==> Managed(b, x) { assert Traced(b, x) <==> Traced(a, x); }
    forall x ensures x in View(cfg, a, payloads) <==> x in View(cfg, b, payloads) {
      ManagedOffset(a, x);
      ManagedOffset(b, x);
    }
    forall x | x in View(cfg, a, payloads)
      ensures x in payloads ==>
                Targets(cfg, a, payloads, payloads[x].refs) == Targets(cfg, b, payloads, payloads[x].refs)
    {
      if x in payloads { TargetsKept(cfg, a, b, payloads, payloads[x].refs); }
    }
  }

  lemma ViewEdges(cfg: Config, cells: seq<Cell>, payloads: Payloads)
    ensures F.Edges(View(cfg, cells, payloads)) == GraphOf(cfg, cells, payloads)
  {
  }

  /** No two cells of a tiled chain share an offset. */
  lemma OneOffset(cfg: Config, cells: seq<Cell>, top: int, i: nat, j: nat)
    requires cfg.header > 0 && Ordered(cfg, cells, top) && i < |cells| && j < |cells| && cells[i].at == cells[j].at
    ensures i == j
  {
    assert End(cfg, cells[i]) > cells[i].at && End(cfg, cells[j]) > cells[j].at;
  }

  lemma CellOf(cfg: Config, cells: seq<Cell>, top: int, i: nat, k: Flag)
    requires Ordered(cfg, cells, top) && i < |cells| && cfg.header > 0
    ensures Holds(cells, cells[i].at, k) <==> !IsFree(cells[i]) && k in cells[i].flags
  {
    if Holds(cells, cells[i].at, k) {
      var j :| 0 <= j < |cells| && cells[j].at == cells[i].at && !IsFree(cells[j]) && k in cells[j].flags;
      OneOffset(cfg, cells, top, i, j);
    }
  }

  lemma SameBlocksManaged(a: seq<Cell>, b: seq<Cell>)
    requires SameBlocks(a, b)
    ensures SameManaged(a, b)
  {
    forall i | 0 <= i < |a|
      ensures (IsFree(a[i]) <==> IsFree(b[i])) && forall k :: k in KINDS ==> (k in a[i].flags <==> k in b[i].flags)
    {
      ProperObject(a[i], b[i]);
    }
    forall x, k {:trigger Holds(b, x, k)} | k in MANAGED ensures Holds(a, x, k) <==> Holds(b, x, k) {
      if Holds(a, x, k) {
        var i :| 0 <= i < |a| && a[i].at == x && !IsFree(a[i]) && k in a[i].flags;
        assert b[i].at == x && !IsFree(b[i]) && k in b[i].flags;
      }
      if Holds(b, x, k) {
        var i :| 0 <= i < |b| && b[i].at == x && !IsFree(b[i]) && k in b[i].flags;
        assert a[i].at == x && !IsFree(a[i]) && k in a[i].flags;
      }
    }
  }

  lemma SameBlocksOrdered(cfg: Config, a: seq<Cell>, b: seq<Cell>, top: int)
    requires SameBlocks(a, b) && Ordered(cfg, a, top)
    ensures Ordered(cfg, b, top)
  {
    forall i, j | 0 <= i < j < |b| ensures End(cfg, b[i]) <= b[j].at { assert End(cfg, a[i]) <= a[j].at; }
  }

  /** The cell behind a managed offset. */
  lemma Behind(cells: seq<Cell>, x: int) returns (i: nat)
    requires Managed(cells, x)
    ensures i < |cells| && cells[i].at == x && !IsFree(cells[i])
  {
    if Holds(cells, x, OBJECT) { i :| 0 <= i < |cells| && cells[i].at == x && !IsFree(cells[i]); }
    else if Holds(cells, x, ARRAY) { i :| 0 <= i < |cells| && cells[i].at == x && !IsFree(cells[i]); }
    else { i :| 0 <= i < |cells| && cells[i].at == x && !IsFree(cells[i]); }
  }

  ghost predicate Chain(cfg: Config, cells: seq<Cell>, payloads: Payloads, top: int) {
    cfg.header > 0 && Ordered(cfg, cells, top) && AllWellformed(cells) && Contents(cells, payloads)
    && AllTyped(payloads)
  }

  /** A block's finalizer flags, as the machine sees them, are its header's. */
  lemma FlagsOf(cfg: Config, cells: seq<Cell>, payloads: Payloads, top: int, x: int) returns (i: nat)
    requires cfg.header > 0 && Ordered(cfg, cells, top) && x in View(cfg, cells, payloads)
    ensures i < |cells| && cells[i].at == x && !IsFree(cells[i])
    ensures var o := View(cfg, cells, payloads)[x];
            (o.finalized <==> FINALIZED in cells[i].flags) && (o.pending <==> PENDING in cells[i].flags)
  {
    i := Behind(cells, x);
    CellOf(cfg, cells, top, i, FINALIZED);
    CellOf(cfg, cells, top, i, PENDING);
  }

  /** One flag change at cell i changes one object. */
  lemma FlagsChanged(cfg: Config, before: seq<Cell>, after: seq<Cell>, payloads: Payloads, top: int,
                     x: int) returns (i: nat)
    requires cfg.header > 0 && Ordered(cfg, before, top) && SameBlocks(before, after) && AllTyped(payloads)
    requires x in View(cfg, before, payloads)
    ensures i < |before| && before[i].at == x && !IsFree(before[i]) && x in View(cfg, after, payloads)
    ensures var o := View(cfg, before, payloads)[x];
            && (o.finalized <==> FINALIZED in before[i].flags) && (o.pending <==> PENDING in before[i].flags)
            && View(cfg, after, payloads)[x] ==
                 o.(finalized := FINALIZED in after[i].flags, pending := PENDING in after[i].flags)
  {
    SameBlocksManaged(before, after);
    SameBlocksOrdered(cfg, before, after, top);
    ViewKept(cfg, before, after, payloads);
    i := FlagsOf(cfg, before, payloads, top, x);
    ProperObject(before[i], after[i]);
    CellOf(cfg, after, top, i, FINALIZED);
    CellOf(cfg, after, top, i, PENDING);
  }

  lemma SameKeys(cfg: Config, before: seq<Cell>, after: seq<Cell>, payloads: Payloads)
    requires SameBlocks(before, after) && AllTyped(payloads)
    ensures View(cfg, before, payloads).Keys == View(cfg, after, payloads).Keys
  {
    SameBlocksManaged(before, after);
    ViewKept(cfg, before, after, payloads);
  }

  lemma PendingObject(cfg: Config, cells: seq<Cell>, payloads: Payloads, top: int, i: nat)
    requires Chain(cfg, cells, payloads, top) && i < |cells| && PENDING in cells[i].flags
    ensures OBJECT in cells[i].flags && cells[i].at in View(cfg, cells, payloads)
    ensures SameBlock(cells[i], Entered(cells[i]))
  {
    assert Wellformed(cells[i]);
    CellOf(cfg, cells, top, i, OBJECT);
    HeldOffset(cells, cells[i].at, OBJECT);
  }

  lemma EnteredAt(cfg: Config, before: seq<Cell>, payloads: Payloads, top: int, i: nat, y: int)
    requires Chain(cfg, before, payloads, top) && i < |before| && PENDING in before[i].flags
    requires y in View(cfg, before, payloads)
    ensures var o, after := View(cfg, before, payloads)[y], before[i := Entered(before[i])];
            y in View(cfg, after, payloads) &&
            View(cfg, after, payloads)[y] == if y == before[i].at then o.(finalized := true, pending := false) else o
  {
    PendingObject(cfg, before, payloads, top, i);
    EnteredSameBlocks(before, i);
    var j := FlagsChanged(cfg, before, before[i := Entered(before[i])], payloads, top, y);
    if y == before[i].at { OneOffset(cfg, before, top, i, j); }
    hide *;
  }

  /** Taking the next finalizer is the machine's entry into it. */
  lemma EnterRefines(cfg: Config, before: seq<Cell>, payloads: Payloads, top: int, i: nat, w: F.World)
    requires Chain(cfg, before, payloads, top) && i < |before| && PENDING in before[i].flags
    requires w.objs == View(cfg, before, payloads) && w.phase == F.Finalizing(F.NULL)
    ensures var x, after := before[i].at, before[i := Entered(before[i])];
            F.Do(w, F.Enter(x)).objs == View(cfg, after, payloads) && F.Do(w, F.Enter(x)).entered == w.entered + [x]
  {
    hide *;
    var x, after := before[i].at, before[i := Entered(before[i])];
    EnteredPending(cfg, before, payloads, top, i);
    EnterStep(w, x);
    forall y | y in w.objs ensures View(cfg, after, payloads)[y] == F.Do(w, F.Enter(x)).objs[y] {
      EnteredAt(cfg, before, payloads, top, i, y);
    }
  }

  lemma EnteredPending(cfg: Config, before: seq<Cell>, payloads: Payloads, top: int, i: nat)
    requires Chain(cfg, before, payloads, top) && i < |before| && PENDING in before[i].flags
    ensures var x, objs := before[i].at, View(cfg, before, payloads);
            x in objs && objs[x].pending && View(cfg, before[i := Entered(before[i])], payloads).Keys == objs.Keys
  {
    var x, after := before[i].at, before[i := Entered(before[i])];
    PendingObject(cfg, before, payloads, top, i);
    EnteredSameBlocks(before, i);
    SameKeys(cfg, before, after, payloads);
    var k := FlagsOf(cfg, before, payloads, top, x);
    OneOffset(cfg, before, top, i, k);
    hide *;
  }

  lemma EnteredSameBlocks(before: seq<Cell>, i: nat)
    requires i < |before| && SameBlock(before[i], Entered(before[i]))
    ensures SameBlocks(before, before[i := Entered(before[i])])
    ensures FINALIZED in Entered(before[i]).flags && PENDING !in Entered(before[i]).flags
  {
  }

  lemma EnterStep(w: F.World, x: int)
    requires w.phase == F.Finalizing(F.NULL) && x in w.objs && w.objs[x].pending
    ensures F.Do(w, F.Enter(x)) ==
              w.(objs := w.objs[x := w.objs[x].(finalized := true, pending := false)], entered := w.entered + [x],
                 phase := F.Finalizing(x))
  {
  }

  /** Clearing the queue after an escape is the machine's. */
  lemma EscapeRefines(cfg: Config, before: seq<Cell>, after: seq<Cell>, payloads: Payloads, top: int)
    requires Chain(cfg, before, payloads, top) && AllCleared(before, after)
    ensures F.Clear(View(cfg, before, payloads)) == View(cfg, after, payloads)
  {
    hide *;
    ClearedBlocks(cfg, before, after, payloads, top);
    SameKeys(cfg, before, after, payloads);
    ClearKeys(View(cfg, before, payloads));
    forall y | y in View(cfg, before, payloads)
      ensures View(cfg, after, payloads)[y] == F.Clear(View(cfg, before, payloads))[y]
    {
      ClearedObject(cfg, before, after, payloads, top, y);
      ClearAt(View(cfg, before, payloads), y);
    }
  }

  lemma ClearedBlocks(cfg: Config, before: seq<Cell>, after: seq<Cell>, payloads: Payloads, top: int)
    requires Chain(cfg, before, payloads, top) && AllCleared(before, after)
    ensures SameBlocks(before, after) && AllTyped(payloads)
  {
  }

  lemma ClearedObject(cfg: Config, before: seq<Cell>, after: seq<Cell>, payloads: Payloads, top: int, y: int)
    requires Chain(cfg, before, payloads, top) && AllCleared(before, after) && y in View(cfg, before, payloads)
    ensures y in View(cfg, after, payloads)
         && View(cfg, after, payloads)[y] == View(cfg, before, payloads)[y].(pending := false)
  {
    ClearedBlocks(cfg, before, after, payloads, top);
    hide View, SameBlocks;
    var j := FlagsChanged(cfg, before, after, payloads, top, y);
  }

  lemma ClearKeys(objs: map<int, F.Obj>)
    ensures F.Clear(objs).Keys == objs.Keys
  {
  }

  lemma ClearAt(objs: map<int, F.Obj>, x: int)
    requires x in objs
    ensures x in F.Clear(objs) && F.Clear(objs)[x] == objs[x].(pending := false)
  {
  }

  // ---- Collections --------------------------------------------------------------------------------

  lemma MarkedView(cfg: Config, before: seq<Cell>, marked: seq<Cell>, payloads: Payloads)
    requires SameButMark(before, marked) && AllTyped(payloads)
    ensures View(cfg, marked, payloads) == View(cfg, before, payloads)
  {
    HoldsSame(before, marked);
    ViewKept(cfg, before, marked, payloads);
  }

  /** The audit's verdict on a block is the machine's on its object. */
  lemma Verdict(cfg: Config, before: seq<Cell>, marked: seq<Cell>, payloads: Payloads, refs: seq<Ref>, epoch: int,
                w: F.World, i: nat)
    requires SameButMark(before, marked) && C.Exact(cfg, before, marked, payloads, refs, epoch)
    requires w.objs == View(cfg, before, payloads) && w.roots == Targets(cfg, before, payloads, refs)
    requires i < |marked| && before[i].at in w.objs
    ensures marked[i].mark != epoch <==> before[i].at in F.Unreachable(w)
  {
    ViewEdges(cfg, before, payloads);
  }

  lemma DueView(cfg: Config, before: seq<Cell>, marked: seq<Cell>, payloads: Payloads, refs: seq<Ref>, epoch: int,
                top: int, w: F.World, i: nat)
    requires Chain(cfg, before, payloads, top) && SameButMark(before, marked)
    requires C.Exact(cfg, before, marked, payloads, refs, epoch)
    requires w.objs == View(cfg, before, payloads) && w.roots == Targets(cfg, before, payloads, refs)
    requires i < |marked| && before[i].at in w.objs && !IsFree(before[i])
    ensures Due(marked[i], payloads, epoch) <==> before[i].at in F.Due(w)
  {
    Verdict(cfg, before, marked, payloads, refs, epoch, w, i);
    CellOf(cfg, before, top, i, OBJECT);
    CellOf(cfg, before, top, i, FINALIZED);
  }

  lemma {:induction false} DueCountView(cfg: Config, before: seq<Cell>, marked: seq<Cell>, payloads: Payloads,
                                        refs: seq<Ref>, epoch: int, top: int, w: F.World)
    requires Chain(cfg, before, payloads, top) && SameButMark(before, marked)
    requires C.Exact(cfg, before, marked, payloads, refs, epoch)
    requires w.objs == View(cfg, before, payloads) && w.roots == Targets(cfg, before, payloads, refs)
    ensures DueCount(marked, payloads, epoch) == 0 <==> F.Due(w) == {}
  {
    C.NoneDue(marked, payloads, epoch);
    if x :| x in F.Due(w) {
      var i := Behind(before, x);
      DueView(cfg, before, marked, payloads, refs, epoch, top, w, i);
    }
    if i :| 0 <= i < |marked| && Due(marked[i], payloads, epoch) {
      CellOf(cfg, before, top, i, OBJECT);
      HeldOffset(before, before[i].at, OBJECT);
      DueView(cfg, before, marked, payloads, refs, epoch, top, w, i);
    }
  }

  lemma QueuedObject(cfg: Config, before: seq<Cell>, marked: seq<Cell>, after: seq<Cell>, payloads: Payloads,
                     refs: seq<Ref>, epoch: int, top: int, w: F.World, y: int)
    requires Chain(cfg, before, payloads, top) && SameButMark(before, marked)
    requires C.Exact(cfg, before, marked, payloads, refs, epoch) && AllQueued(marked, after, payloads, epoch)
    requires w.objs == View(cfg, before, payloads) && w.roots == Targets(cfg, before, payloads, refs) && y in w.objs
    ensures y in View(cfg, after, payloads) && y in F.Queue(w.objs, F.Due(w))
    ensures View(cfg, after, payloads)[y] == F.Queue(w.objs, F.Due(w))[y]
  {
    hide *;
    QueuedSameBlocks(before, marked, after, payloads, epoch);
    Placed(cfg, before, payloads, top);
    var j := FlagsChanged(cfg, before, after, payloads, top, y);
    QueuedFlags(before, marked, after, payloads, epoch, j);
    DueView(cfg, before, marked, payloads, refs, epoch, top, w, j);
    QueuedAt(w.objs, F.Due(w), y);
  }

  lemma QueueRefines(cfg: Config, before: seq<Cell>, marked: seq<Cell>, after: seq<Cell>, payloads: Payloads,
                     refs: seq<Ref>, epoch: int, top: int, w: F.World)
    requires Chain(cfg, before, payloads, top) && SameButMark(before, marked)
    requires C.Exact(cfg, before, marked, payloads, refs, epoch) && AllQueued(marked, after, payloads, epoch)
    requires w.objs == View(cfg, before, payloads) && w.roots == Targets(cfg, before, payloads, refs)
    ensures F.Queue(w.objs, F.Due(w)) == View(cfg, after, payloads)
  {
    hide *;
    QueuedSameBlocks(before, marked, after, payloads, epoch);
    Placed(cfg, before, payloads, top);
    SameKeys(cfg, before, after, payloads);
    QueueKeys(w.objs, F.Due(w));
    forall y | y in w.objs ensures View(cfg, after, payloads)[y] == F.Queue(w.objs, F.Due(w))[y] {
      QueuedObject(cfg, before, marked, after, payloads, refs, epoch, top, w, y);
    }
  }

  lemma QueueKeys(objs: map<int, F.Obj>, due: set<int>)
    ensures F.Queue(objs, due).Keys == objs.Keys
  {
  }

  lemma QueuedAt(objs: map<int, F.Obj>, due: set<int>, x: int)
    requires x in objs
    ensures x in F.Queue(objs, due)
    ensures F.Queue(objs, due)[x] == (if x in due then objs[x].(pending := true) else objs[x])
  {
  }

  lemma QueuedFlags(before: seq<Cell>, marked: seq<Cell>, after: seq<Cell>, payloads: Payloads, epoch: int, i: nat)
    requires SameButMark(before, marked) && AllQueued(marked, after, payloads, epoch) && i < |before|
    ensures |before| == |marked| == |after|
    ensures FINALIZED in after[i].flags <==> FINALIZED in before[i].flags
    ensures PENDING in after[i].flags <==> PENDING in before[i].flags || Due(marked[i], payloads, epoch)
  {
  }

  lemma Placed(cfg: Config, cells: seq<Cell>, payloads: Payloads, top: int)
    requires Chain(cfg, cells, payloads, top)
    ensures cfg.header > 0 && Ordered(cfg, cells, top) && AllTyped(payloads)
  {
  }

  lemma QueuedSameBlocks(before: seq<Cell>, marked: seq<Cell>, after: seq<Cell>, payloads: Payloads, epoch: int)
    requires SameButMark(before, marked) && AllQueued(marked, after, payloads, epoch)
    ensures SameBlocks(before, after)
  {
  }

  /** After a sweep a managed block is one that was managed and reached. */
  lemma SweptHolds(cfg: Config, before: seq<Cell>, marked: seq<Cell>, epoch: int, top: int, x: int, k: Flag)
    requires SameButMark(before, marked) && k in MANAGED + {FINALIZED, PENDING} && Ordered(cfg, before, top)
    requires cfg.header > 0
    requires AllWellformed(before)
    ensures Holds(Swept(cfg, marked, epoch), x, k) <==>
              exists i ::
                0 <= i < |before| && before[i].at == x && !IsFree(before[i]) && k in before[i].flags
                && marked[i].mark == epoch
  {
    var after := Swept(cfg, marked, epoch);
    if Holds(after, x, k) {
      var j :| 0 <= j < |after| && after[j].at == x && !IsFree(after[j]) && k in after[j].flags;
      SweepSurvivors(cfg, marked, epoch, after[j]);
      var i :| 0 <= i < |marked| && marked[i] == after[j];
      assert Wellformed(before[i]);
    }
    if i :| 0 <= i < |before| && before[i].at == x && !IsFree(before[i]) && k in before[i].flags
            && marked[i].mark == epoch {
      SweepSurvivors(cfg, marked, epoch, marked[i]);
    }
  }

  ghost predicate Reached(cfg: Config, before: seq<Cell>, payloads: Payloads, refs: seq<Ref>, x: int) {
    Reach(GraphOf(cfg, before, payloads), Targets(cfg, before, payloads, refs), x)
  }

  lemma SweptReached(cfg: Config, before: seq<Cell>, marked: seq<Cell>, payloads: Payloads, refs: seq<Ref>, epoch: int,
                     top: int, x: int, k: Flag)
    requires Chain(cfg, before, payloads, top) && SameButMark(before, marked) && k in MANAGED + {FINALIZED, PENDING}
    requires C.Exact(cfg, before, marked, payloads, refs, epoch)
    ensures Holds(Swept(cfg, marked, epoch), x, k) <==> Holds(before, x, k) && Reached(cfg, before, payloads, refs, x)
  {
    SweptHolds(cfg, before, marked, epoch, top, x, k);
    hide Swept, Wellformed, Ordered, GraphOf, Targets, Reach;
  }

  /** References to reached blocks lead where they led before. */
  lemma {:induction false} SweptTargets(cfg: Config, before: seq<Cell>, marked: seq<Cell>, payloads: Payloads,
                                        roots: seq<Ref>, refs: seq<Ref>, epoch: int, top: int)
    requires Chain(cfg, before, payloads, top) && SameButMark(before, marked) && forall r :: r in refs ==> Typed(r)
    requires C.Exact(cfg, before, marked, payloads, roots, epoch)
    requires forall t :: t in Targets(cfg, before, payloads, refs) ==> Reached(cfg, before, payloads, roots, t)
    ensures Targets(cfg, Swept(cfg, marked, epoch), payloads, refs) == Targets(cfg, before, payloads, refs)
  {
    if refs != [] {
      var r := refs[0];
      assert r in refs;
      if r.To? { SweptReached(cfg, before, marked, payloads, roots, epoch, top, r.address - cfg.header, r.kind); }
      hide Reached, Chain, Holds, Swept, C.Exact, SameButMark;
      assert Target(cfg, before, payloads, r) != NULL ==>
        Target(cfg, before, payloads, r) in Targets(cfg, before, payloads, refs);
      SweptTargets(cfg, before, marked, payloads, roots, refs[1..], epoch, top);
    }
  }

  /** The machine's sweep: exactly the unreachable objects go, and the others keep all they had. */
  lemma SweepRefines(cfg: Config, before: seq<Cell>, marked: seq<Cell>, payloads: Payloads, refs: seq<Ref>, epoch: int,
                     top: int, w: F.World)
    requires Chain(cfg, before, payloads, top) && SameButMark(before, marked) && forall r :: r in refs ==> Typed(r)
    requires C.Exact(cfg, before, marked, payloads, refs, epoch)
    requires w.objs == View(cfg, before, payloads) && w.roots == Targets(cfg, before, payloads, refs)
    ensures View(cfg, Swept(cfg, marked, epoch), payloads) == w.objs - F.Unreachable(w)
    ensures Targets(cfg, Swept(cfg, marked, epoch), payloads, refs) == w.roots
  {
    var after := Swept(cfg, marked, epoch);
    UnreachableIs(cfg, before, payloads, refs, w);
    SweptRoots(cfg, before, marked, payloads, refs, epoch, top);
    hide *;
    forall x ensures x in View(cfg, after, payloads) <==> x in w.objs - F.Unreachable(w) {
      SweptMember(cfg, before, marked, payloads, refs, epoch, top, x);
      UnreachableOnly(w, x);
    }
    forall x | x in w.objs - F.Unreachable(w) ensures View(cfg, after, payloads)[x] == w.objs[x] {
      SweptObj(cfg, before, marked, payloads, refs, epoch, top, x);
    }
    Sequences.SameMap(View(cfg, after, payloads), w.objs - F.Unreachable(w));
  }

  lemma UnreachableOnly(w: F.World, x: int)
    ensures x in F.Unreachable(w) ==> x in w.objs
  {
  }

  lemma SweptMember(cfg: Config, before: seq<Cell>, marked: seq<Cell>, payloads: Payloads, refs: seq<Ref>, epoch: int,
                    top: int, x: int)
    requires Chain(cfg, before, payloads, top) && SameButMark(before, marked)
    requires C.Exact(cfg, before, marked, payloads, refs, epoch)
    ensures x in View(cfg, Swept(cfg, marked, epoch), payloads) <==>
              x in View(cfg, before, payloads) && Reached(cfg, before, payloads, refs, x)
  {
    SweptReached(cfg, before, marked, payloads, refs, epoch, top, x, OBJECT);
    SweptReached(cfg, before, marked, payloads, refs, epoch, top, x, ARRAY);
    SweptReached(cfg, before, marked, payloads, refs, epoch, top, x, STRING);
    ManagedOffset(before, x);
    ManagedOffset(Swept(cfg, marked, epoch), x);
    hide Chain, SameButMark, C.Exact, Swept, Reached, Holds, Targets, Offsets, ObjAt;
  }

  lemma SweptObj(cfg: Config, before: seq<Cell>, marked: seq<Cell>, payloads: Payloads, refs: seq<Ref>, epoch: int,
                 top: int, x: int)
    requires Chain(cfg, before, payloads, top) && SameButMark(before, marked)
    requires C.Exact(cfg, before, marked, payloads, refs, epoch)
    requires x in View(cfg, before, payloads) && Reached(cfg, before, payloads, refs, x)
    ensures var after := View(cfg, Swept(cfg, marked, epoch), payloads);
            x in after && after[x] == View(cfg, before, payloads)[x]
  {
    SweptMember(cfg, before, marked, payloads, refs, epoch, top, x);
    SweptReached(cfg, before, marked, payloads, refs, epoch, top, x, OBJECT);
    SweptReached(cfg, before, marked, payloads, refs, epoch, top, x, ARRAY);
    SweptReached(cfg, before, marked, payloads, refs, epoch, top, x, FINALIZED);
    SweptReached(cfg, before, marked, payloads, refs, epoch, top, x, PENDING);
    assert x in GraphOf(cfg, before, payloads);
    SweptFields(cfg, before, marked, payloads, refs, epoch, top, x);
    hide Chain, SameButMark, C.Exact, Swept, Reached, Holds, Targets, Offsets;
  }

  lemma UnreachableIs(cfg: Config, before: seq<Cell>, payloads: Payloads, refs: seq<Ref>, w: F.World)
    requires w.objs == View(cfg, before, payloads) && w.roots == Targets(cfg, before, payloads, refs)
    ensures forall x :: x in w.objs ==> (x in F.Unreachable(w) <==> !Reached(cfg, before, payloads, refs, x))
    ensures w.objs.Keys == GraphOf(cfg, before, payloads).Keys
  {
    ViewEdges(cfg, before, payloads);
  }

  lemma SweptRoots(cfg: Config, before: seq<Cell>, marked: seq<Cell>, payloads: Payloads, refs: seq<Ref>, epoch: int,
                   top: int)
    requires Chain(cfg, before, payloads, top) && SameButMark(before, marked) && forall r :: r in refs ==> Typed(r)
    requires C.Exact(cfg, before, marked, payloads, refs, epoch)
    ensures Targets(cfg, Swept(cfg, marked, epoch), payloads, refs) == Targets(cfg, before, payloads, refs)
  {
    TargetsManaged(cfg, before, payloads, refs);
    forall t | t in Targets(cfg, before, payloads, refs) ensures Reached(cfg, before, payloads, refs, t) {
      ReachRoot(GraphOf(cfg, before, payloads), Targets(cfg, before, payloads, refs), t);
    }
    SweptTargets(cfg, before, marked, payloads, refs, refs, epoch, top);
  }

  lemma SweptFields(cfg: Config, before: seq<Cell>, marked: seq<Cell>, payloads: Payloads, refs: seq<Ref>, epoch: int,
                    top: int, x: int)
    requires Chain(cfg, before, payloads, top) && SameButMark(before, marked)
    requires C.Exact(cfg, before, marked, payloads, refs, epoch)
    requires Reached(cfg, before, payloads, refs, x) && x in GraphOf(cfg, before, payloads)
    ensures Traced(before, x) && x in payloads ==>
              Targets(cfg, Swept(cfg, marked, epoch), payloads, payloads[x].refs) ==
                Targets(cfg, before, payloads, payloads[x].refs)
  {
    if Traced(before, x) && x in payloads {
      var g := GraphOf(cfg, before, payloads);
      TargetsManaged(cfg, before, payloads, payloads[x].refs);
      forall t | t in Targets(cfg, before, payloads, payloads[x].refs) ensures Reached(cfg, before, payloads, refs, t) {
        ReachStep(g, Targets(cfg, before, payloads, refs), x, t);
      }
      SweptTargets(cfg, before, marked, payloads, refs, payloads[x].refs, epoch, top);
    }
  }

  lemma AllLiveReached(cfg: Config, before: seq<Cell>, marked: seq<Cell>, payloads: Payloads, refs: seq<Ref>,
                       epoch: int, top: int, w: F.World)
    requires Chain(cfg, before, payloads, top) && SameButMark(before, marked)
    requires C.Exact(cfg, before, marked, payloads, refs, epoch) && !C.Unreached(marked, epoch)
    requires w.objs == View(cfg, before, payloads) && w.roots == Targets(cfg, before, payloads, refs)
    ensures F.Unreachable(w) == {}
  {
    forall x | x in w.objs ensures x !in F.Unreachable(w) {
      var i := Behind(before, x);
      CellOf(cfg, before, top, i, OBJECT);
      CellOf(cfg, before, top, i, ARRAY);
      CellOf(cfg, before, top, i, STRING);
      assert !Dead(marked[i], epoch);
      Verdict(cfg, before, marked, payloads, refs, epoch, w, i);
      hide F.Unreachable, View, Chain, C.Exact;
    }
  }

  /** What the machine's collection does in each case. */
  lemma CollectStepOf(w: F.World)
    requires w.phase.Idle?
    ensures var w' := F.Do(w, F.Collect);
            && w'.roots == w.roots
            && (F.Due(w) != {} ==> w'.objs == F.Queue(w.objs, F.Due(w)) && w'.phase.Finalizing?)
            && (F.Due(w) == {} ==> w'.objs == w.objs - F.Unreachable(w) && w'.phase.Idle?)
    ensures F.Unreachable(w) == {} ==> F.Due(w) == {}
  {
  }

  lemma RootsKept(cfg: Config, before: seq<Cell>, after: seq<Cell>, payloads: Payloads, refs: seq<Ref>)
    requires SameBlocks(before, after) && forall r :: r in refs ==> Typed(r)
    ensures Targets(cfg, before, payloads, refs) == Targets(cfg, after, payloads, refs)
  {
    SameBlocksManaged(before, after);
    TargetsKept(cfg, before, after, payloads, refs);
  }

  lemma MarkedSameBlocks(before: seq<Cell>, marked: seq<Cell>)
    requires SameButMark(before, marked)
    ensures SameBlocks(before, marked)
  {
  }

  /** A collection of the chain that meets no invalid reference is one collection of the machine: the
      same finalizers are queued, or the same objects reclaimed. */
  lemma CollectRefines(cfg: Config, before: seq<Cell>, marked: seq<Cell>, after: seq<Cell>, payloads: Payloads,
                       refs: seq<Ref>, epoch: int, outcome: C.Outcome, top: int, w: F.World)
    requires Chain(cfg, before, payloads, top) && forall r :: r in refs ==> Typed(r)
    requires C.Collected(cfg, before, marked, after, payloads, refs, epoch, outcome) && !outcome.Invalid?
    requires w.objs == View(cfg, before, payloads) && w.roots == Targets(cfg, before, payloads, refs) && w.phase.Idle?
    ensures var w' := F.Do(w, F.Collect);
            && w'.objs == View(cfg, after, payloads) && w'.roots == Targets(cfg, after, payloads, refs)
            && (w'.phase.Finalizing? <==> outcome.Finalizing?)
  {
    assert SameButMark(before, marked) && C.Exact(cfg, before, marked, payloads, refs, epoch);
    assert outcome.Finalizing? ==> DueCount(marked, payloads, epoch) > 0 && AllQueued(marked, after, payloads, epoch);
    assert outcome.AllLive? ==> after == marked && !C.Unreached(marked, epoch);
    assert outcome.Reclaimed? ==> DueCount(marked, payloads, epoch) == 0 && after == Swept(cfg, marked, epoch);
    assert !outcome.Refused?;
    hide *;
    CollectStepOf(w);
    DueCountView(cfg, before, marked, payloads, refs, epoch, top, w);
    if outcome.Finalizing? {
      QueueRefines(cfg, before, marked, after, payloads, refs, epoch, top, w);
      QueuedSameBlocks(before, marked, after, payloads, epoch);
      RootsKept(cfg, before, after, payloads, refs);
    } else if outcome.AllLive? {
      AllLiveReached(cfg, before, marked, payloads, refs, epoch, top, w);
      MarkedView(cfg, before, marked, payloads) by { Placed(cfg, before, payloads, top); }
      MarkedSameBlocks(before, marked);
      RootsKept(cfg, before, marked, payloads, refs);
    } else {
      SweepRefines(cfg, before, marked, payloads, refs, epoch, top, w);
    }
  }
}
