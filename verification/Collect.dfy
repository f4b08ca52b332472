/** One collection by the owner: audit, queue finalizers, or sweep. */
module Collect {
  import opened HeapModel
  import opened HeapSpec
  import opened SweepSpec
  import opened Sweep
  import opened MarkSpec
  import opened Graph
  import opened Heap
  import opened Mark
  import opened Finalize

  /** Mark fields never run ahead of the epoch counter. */
  ghost predicate MarksUpTo(cells: seq<Cell>, epoch: int) {
    && 0 <= epoch < WORD
    && forall i :: 0 <= i < |cells| ==> 0 <= cells[i].mark <= epoch
  }

  /** The epoch counter after an audit: 0 is skipped. */
  function NextEpoch(epoch: int): int { if epoch + 1 == WORD then 1 else epoch + 1 }

  ghost predicate MarksZero(cells: seq<Cell>) {
    forall i :: 0 <= i < |cells| ==> cells[i].mark == 0
  }

  /** Cells whose header fields differ only as f allows keep the heap invariant. */
  lemma SameButMarkShape(cfg: Config, a: seq<Cell>, b: seq<Cell>, list: seq<int>, top: int)
    requires Shape(cfg, a, list, top) && SameButMark(a, b)
    ensures Shape(cfg, b, list, top)
  {
    forall i | 0 <= i < |b| ensures TiledAt(cfg, b, i) { assert TiledAt(cfg, a, i); }
    forall i | 0 <= i < |b| ensures Wellformed(b[i]) { assert Wellformed(a[i]); }
    forall y ensures FreeAt(a, y) <==> FreeAt(b, y) {
      if FreeAt(a, y) {
        var i :| 0 <= i < |a| && IsFree(a[i]) && a[i].at == y;
        assert IsFree(b[i]) && b[i].at == y;
      }
      if FreeAt(b, y) {
        var i :| 0 <= i < |b| && IsFree(b[i]) && b[i].at == y;
        assert IsFree(a[i]) && a[i].at == y;
      }
    }
  }

  lemma {:induction false} SameButMarkCount(a: seq<Cell>, b: seq<Cell>, k: Flag)
    requires SameButMark(a, b)
    ensures Count(a, k) == Count(b, k) && Bytes(a, k) == Bytes(b, k)
  {
    if a != [] { SameButMarkCount(a[..|a| - 1], b[..|b| - 1], k); }
  }

  /** Epoch wrap-around: clear every mark. */
  method ResetMarks(h: Arena)
    requires h.Chained() && FreeChain(h.mem, h.free, h.list)
    modifies h`mem, h`cells
    ensures h.Chained() && FreeChain(h.mem, h.free, h.list)
    ensures SameButMark(old(h.cells), h.cells) && MarksZero(h.cells)
  {
    ghost var cells := h.cells;
    ghost var n := 0;
    var block := h.first;
    while block != NULL
      invariant 0 <= n <= |cells| && block == CellAt(cells, n)
      invariant h.Chained() && FreeChain(h.mem, h.free, h.list) && SameButMark(cells, h.cells)
      invariant forall i :: 0 <= i < n ==> h.cells[i].mark == 0
      decreases |cells| - n
    {
      h.Visit(n);
      var next := h.mem[block].next;
      h.Rewrite(block, h.mem[block].flags, 0, n);
      block, n := next, n + 1;
    }
    if n < |cells| { h.Visit(n); }
  }

  /** A cell carries the epoch exactly when a chain of references leads to it from the roots. */
  ghost predicate Exact(cfg: Config, before: seq<Cell>, after: seq<Cell>, payloads: Payloads, refs: seq<Ref>,
                        epoch: int) {
    && |before| == |after|
    && forall i :: 0 <= i < |after| ==>
         (after[i].mark == epoch <==>
            Reach(GraphOf(cfg, before, payloads), Targets(cfg, before, payloads, refs), after[i].at))
  }

  /** The marks, the verdict and the counts of a finished audit. */
  ghost predicate Finished(a: Auditor, before: seq<Cell>, refs: seq<Ref>)
    reads a, a.h
  {
    && Exact(a.h.cfg, before, a.h.cells, a.payloads, refs, a.epoch)
    && (a.invalid == 0 <==> Healthy(a.h.cfg, before, a.payloads, refs))
    && (forall k :: k in MANAGED ==> k in a.reachable && a.reachable[k] == MarkedCount(a.h.cells, k, a.epoch))
  }

  lemma AuditFinished(a: Auditor, refs: seq<Ref>)
    requires a.Valid() && a.queue == []
    requires Progress(a.h.cfg, a.cells0, a.payloads, Targets(a.h.cfg, a.cells0, a.payloads, refs), a.marked, a.done)
    requires a.invalid == 0 <==> Clean(a.h.cfg, a.cells0, a.payloads, refs, a.done)
    ensures Finished(a, a.cells0, refs)
  {
    var roots := Targets(a.h.cfg, a.cells0, a.payloads, refs);
    CleanIsHealthy(a.h.cfg, a.cells0, a.payloads, refs, a.marked, a.done);
    forall i | 0 <= i < |a.h.cells|
      ensures a.h.cells[i].mark == a.epoch <==> Reach(GraphOf(a.h.cfg, a.cells0, a.payloads), roots, a.h.cells[i].at)
    {
      ProgressComplete(a.h.cfg, a.cells0, a.payloads, roots, a.marked, a.done, a.cells0[i].at);
    }
  }

  lemma MarksAfter(a: Auditor)
    requires a.Valid() && MarksUpTo(a.cells0, a.epoch)
    ensures MarksUpTo(a.h.cells, a.epoch)
  {}

  lemma KeptTallied(a: seq<Cell>, b: seq<Cell>, count: map<Flag, int>, bytes: map<Flag, int>)
    requires SameButMark(a, b) && Tallied(a, count, bytes)
    ensures Tallied(b, count, bytes)
  {
    forall k { SameButMarkCount(a, b, k); }
  }

  lemma AuditKeeps(a: Auditor, list: seq<int>)
    requires a.Valid() && Shape(a.h.cfg, a.cells0, list, a.h.top) && Tallied(a.cells0, a.h.count, a.h.bytes)
    requires a.h.list == list && a.h.top <= a.h.highWater <= a.h.cfg.size
    ensures a.h.Valid() && SameButMark(a.cells0, a.h.cells)
  {
    hide Auditor.CursorsKept, Auditor.MarksKept, Auditor.QueueKept;
    SameButMarkShape(a.h.cfg, a.cells0, a.h.cells, list, a.h.top);
    KeptTallied(a.cells0, a.h.cells, a.h.count, a.h.bytes);
  }

  lemma Parts(h: Arena)
    requires h.Valid()
    ensures h.Sound() && Shape(h.cfg, h.cells, h.list, h.top) && Tallied(h.cells, h.count, h.bytes)
    ensures h.top <= h.highWater <= h.cfg.size
  {}

  /** Mark through the root slots, then drain the queue. */
  method Trace(h: Arena, payloads: Payloads, refs: seq<Ref>, epoch: int) returns (a: Auditor)
    requires h.Sound() && Contents(h.cells, payloads) && AllTyped(payloads) && forall r :: r in refs ==> Typed(r)
    requires forall i :: 0 <= i < |h.cells| ==> h.cells[i].mark != epoch
    modifies h`mem, h`cells
    ensures fresh(a) && a.h == h && a.epoch == epoch && a.payloads == payloads && a.cells0 == old(h.cells)
    ensures a.Valid() && a.queue == []
    ensures Progress(h.cfg, a.cells0, payloads, Targets(h.cfg, a.cells0, payloads, refs), a.marked, a.done)
    ensures a.invalid == 0 <==> Clean(h.cfg, a.cells0, payloads, refs, a.done)
  {
    hide *;
    a := new Auditor(h, payloads, epoch);
    ghost var roots := Targets(h.cfg, a.cells0, payloads, refs);
    a.MarkSlots(refs);
    assert a.marked == roots && a.invalid == WrongCount(h.cfg, a.cells0, payloads, refs);
    ProgressStart(h.cfg, a.cells0, payloads, refs);
    CleanStart(h.cfg, a.cells0, payloads, refs);
    a.Drain(roots, refs);
  }

  /** Mark with an epoch that no header carries yet. */
  method MarkAll(h: Arena, payloads: Payloads, refs: seq<Ref>, epoch: int) returns (a: Auditor)
    requires h.Valid() && Contents(h.cells, payloads) && AllTyped(payloads) && forall r :: r in refs ==> Typed(r)
    requires MarksUpTo(h.cells, epoch) && forall i :: 0 <= i < |h.cells| ==> h.cells[i].mark != epoch
    modifies h`mem, h`cells
    ensures fresh(a) && a.h == h && a.epoch == epoch && a.payloads == payloads
    ensures h.Valid() && SameButMark(old(h.cells), h.cells) && MarksUpTo(h.cells, epoch)
    ensures Finished(a, old(h.cells), refs)
  {
    Parts(h);
    hide *;
    ghost var cells := h.cells;
    a := Trace(h, payloads, refs, epoch);
    assert Shape(h.cfg, cells, h.list, h.top);
    assert Tallied(cells, h.count, h.bytes);
    AuditKeeps(a, h.list);
    AuditFinished(a, refs);
    MarksAfter(a);
  }

  /** The audit under a held stop: advance the epoch, mark from the roots, count. */
  method Audit(h: Arena, payloads: Payloads, refs: seq<Ref>, epoch: int) returns (a: Auditor)
    requires h.Valid() && MarksUpTo(h.cells, epoch)
    requires Contents(h.cells, payloads) && AllTyped(payloads) && forall r :: r in refs ==> Typed(r)
    modifies h`mem, h`cells
    ensures fresh(a) && a.h == h && a.payloads == payloads
    ensures a.epoch == NextEpoch(epoch)
    ensures h.Valid() && SameButMark(old(h.cells), h.cells) && MarksUpTo(h.cells, a.epoch)
    ensures Finished(a, old(h.cells), refs)
  {
    hide *;
    var next := Add32(epoch, 1);
    ghost var cells := h.cells;
    if next == 0 {
      Restart(h);
      next := 1;
    }
    ghost var reset := h.cells;
    NewEpoch(cells, reset, payloads, epoch, next);
    a := MarkAll(h, payloads, refs, next);
    KeptTwice(cells, reset, h.cells);
    FinishedSame(a, cells, reset, refs);
  }

  /** After the step of the epoch counter no header carries the new epoch. */
  lemma NewEpoch(cells: seq<Cell>, reset: seq<Cell>, payloads: Payloads, epoch: int, next: int)
    requires MarksUpTo(cells, epoch) && Contents(cells, payloads)
    requires if Add32(epoch, 1) == 0 then next == 1 && SameButMark(cells, reset) && MarksZero(reset)
             else next == Add32(epoch, 1) && reset == cells
    ensures SameButMark(cells, reset) && MarksUpTo(reset, next) && Contents(reset, payloads)
    ensures forall i :: 0 <= i < |reset| ==> reset[i].mark != next
    ensures next == NextEpoch(epoch)
  {}

  lemma KeptTwice(a: seq<Cell>, b: seq<Cell>, c: seq<Cell>)
    requires SameButMark(a, b) && SameButMark(b, c)
    ensures SameButMark(a, c)
  {}

  /** The wrap-around keeps the heap invariant. */
  method Restart(h: Arena)
    requires h.Valid()
    modifies h`mem, h`cells
    ensures h.Valid() && SameButMark(old(h.cells), h.cells) && MarksZero(h.cells)
  {
    ghost var cells := h.cells;
    assert Shape(h.cfg, cells, h.list, h.top) && Tallied(cells, h.count, h.bytes);
    hide Shape, Tallied;
    ResetMarks(h);
    SameButMarkShape(h.cfg, cells, h.cells, h.list, h.top);
    KeptTallied(cells, h.cells, h.count, h.bytes);
  }

  lemma FinishedSame(a: Auditor, before: seq<Cell>, reset: seq<Cell>, refs: seq<Ref>)
    requires SameButMark(before, reset) && Finished(a, reset, refs)
    ensures Finished(a, before, refs)
  {
    GraphSame(a.h.cfg, before, reset, a.payloads);
    TargetsSame(a.h.cfg, before, reset, a.payloads, refs);
    HealthySame(a.h.cfg, before, reset, a.payloads, refs);
  }

  // ---- Counting what was reached ----------------------------------------------------------------

  lemma {:induction false} MarkedAtMost(cells: seq<Cell>, k: Flag, epoch: int)
    ensures MarkedCount(cells, k, epoch) <= Count(cells, k)
    ensures MarkedCount(cells, k, epoch) == Count(cells, k) <==>
              forall i :: 0 <= i < |cells| && k in cells[i].flags ==> cells[i].mark == epoch
  {
    if cells != [] {
      var n := |cells| - 1;
      MarkedAtMost(cells[..n], k, epoch);
      assert forall i :: 0 <= i < n ==> cells[i] == cells[..n][i];
    }
  }

  /** A managed block the audit did not reach. */
  ghost predicate Unreached(cells: seq<Cell>, epoch: int) {
    exists i :: 0 <= i < |cells| && Dead(cells[i], epoch)
  }

  lemma DeadByKind(c: Cell, epoch: int)
    requires Wellformed(c)
    ensures Dead(c, epoch) <==> exists k :: k in MANAGED && k in c.flags && c.mark != epoch
  {
    if Dead(c, epoch) {
      var k := if OBJECT in c.flags then OBJECT else if ARRAY in c.flags then ARRAY else STRING;
      assert k in MANAGED && k in c.flags;
    }
  }

  /** The three unreachable counters are zero exactly when every managed block was reached. */
  lemma AllReached(cells: seq<Cell>, epoch: int, count: map<Flag, int>, bytes: map<Flag, int>,
                   reachable: map<Flag, int>)
    requires AllWellformed(cells) && Tallied(cells, count, bytes)
    requires forall k :: k in MANAGED ==> k in reachable && reachable[k] == MarkedCount(cells, k, epoch)
    ensures (forall k :: k in MANAGED ==> count[k] - reachable[k] == 0) <==> !Unreached(cells, epoch)
  {
    forall i | 0 <= i < |cells|
      ensures Dead(cells[i], epoch) <==> exists k :: k in MANAGED && k in cells[i].flags && cells[i].mark != epoch
    {
      assert Wellformed(cells[i]);
      DeadByKind(cells[i], epoch);
    }
    forall k | k in MANAGED
      ensures count[k] - reachable[k] == 0 <==>
                forall i :: 0 <= i < |cells| && k in cells[i].flags ==> cells[i].mark == epoch
    {
      MarkedAtMost(cells, k, epoch);
    }
  }

  lemma {:induction false} NoneDue(cells: seq<Cell>, payloads: Payloads, epoch: int)
    ensures DueCount(cells, payloads, epoch) == 0 <==> forall i :: 0 <= i < |cells| ==> !Due(cells[i], payloads, epoch)
  {
    if cells != [] {
      var n := |cells| - 1;
      NoneDue(cells[..n], payloads, epoch);
      assert forall i :: 0 <= i < n ==> cells[i] == cells[..n][i];
    }
  }

  // ---- The collection ---------------------------------------------------------------------------

  datatype Outcome = Refused | Invalid | AllLive | Finalizing(pending: nat) | Reclaimed(objects: int)

  /** A live block at offset x is RAW or reachable from the roots. */
  ghost predicate Kept(cfg: Config, before: seq<Cell>, payloads: Payloads, refs: seq<Ref>, c: Cell) {
    || !(OBJECT in c.flags || ARRAY in c.flags || STRING in c.flags)
    || Reach(GraphOf(cfg, before, payloads), Targets(cfg, before, payloads, refs), c.at)
  }

  /** What each outcome says about the heap, with `marked` the heap right after the audit. */
  ghost predicate Collected(cfg: Config, before: seq<Cell>, marked: seq<Cell>, after: seq<Cell>,
                            payloads: Payloads, refs: seq<Ref>, epoch: int, outcome: Outcome) {
    && SameButMark(before, marked) && Exact(cfg, before, marked, payloads, refs, epoch)
    && (outcome.Invalid? <==> !Healthy(cfg, before, payloads, refs))
    && (!outcome.Refused?) && MarksUpTo(marked, epoch)
    && match outcome
       case Refused => false
       case Invalid => after == marked
       case AllLive => after == marked && !Unreached(marked, epoch)
       case Finalizing(pending) =>
         pending == DueCount(marked, payloads, epoch) > 0 && AllQueued(marked, after, payloads, epoch)
       case Reclaimed(_) =>
         Unreached(marked, epoch) && DueCount(marked, payloads, epoch) == 0 && after == Swept(cfg, marked, epoch)
  }

  // No header gets ahead of the epoch.

  lemma QueuedMarks(a: seq<Cell>, b: seq<Cell>, payloads: Payloads, epoch: int)
    requires MarksUpTo(a, epoch) && AllQueued(a, b, payloads, epoch)
    ensures MarksUpTo(b, epoch)
  {}

  lemma {:induction false} CoalesceMarks(cfg: Config, cells: seq<Cell>, epoch: int)
    requires MarksUpTo(cells, epoch)
    ensures MarksUpTo(Coalesce(cfg, cells), epoch)
  {
    if cells != [] { CoalesceMarks(cfg, cells[..|cells| - 1], epoch); }
  }

  lemma SweptMarks(cfg: Config, cells: seq<Cell>, epoch: int)
    requires MarksUpTo(cells, epoch)
    ensures MarksUpTo(Swept(cfg, cells, epoch), epoch)
  {
    ReapAllAt(cells, epoch);
    CoalesceMarks(cfg, ReapAll(cells, epoch), epoch);
  }

  /** So whatever a collection leaves, the next one can start from it. */
  lemma CollectedMarks(cfg: Config, before: seq<Cell>, marked: seq<Cell>, after: seq<Cell>,
                       payloads: Payloads, refs: seq<Ref>, epoch: int, outcome: Outcome)
    requires Collected(cfg, before, marked, after, payloads, refs, epoch, outcome)
    ensures MarksUpTo(after, epoch)
  {
    if outcome.Finalizing? { QueuedMarks(marked, after, payloads, epoch); }
    if outcome.Reclaimed? { SweptMarks(cfg, marked, epoch); }
  }

  /** `collect_objects` up to the point where finalizers would run, or to the end of the sweep. */
  method CollectObjects(h: Arena, payloads: Payloads, refs: seq<Ref>, epoch: int, stopped: bool)
      returns (outcome: Outcome, epoch': int, ghost marked: seq<Cell>)
    requires h.Valid() && MarksUpTo(h.cells, epoch)
    requires Contents(h.cells, payloads) && AllTyped(payloads) && forall r :: r in refs ==> Typed(r)
    modifies h`mem, h`free, h`last, h`count, h`bytes, h`cells, h`list
    ensures h.Valid()
    ensures !stopped ==> outcome == Refused && unchanged(h) && epoch' == epoch
    ensures stopped ==> Collected(h.cfg, old(h.cells), marked, h.cells, payloads, refs, epoch', outcome)
    ensures epoch' == (if stopped then NextEpoch(epoch) else epoch) && MarksUpTo(h.cells, epoch')
    ensures outcome.Reclaimed? ==> outcome.objects == Count(old(h.cells), OBJECT) - Count(h.cells, OBJECT)
  {
    marked := h.cells;
    if !stopped { return Refused, epoch, marked; }
    ghost var before := h.cells;
    var a := Audit(h, payloads, refs, epoch);
    epoch' := a.epoch;
    marked := h.cells;
    CountsAgree(h, a);
    if a.invalid != 0 { return Invalid, epoch', marked; }
    if h.count[OBJECT] - a.reachable[OBJECT] == 0 && h.count[ARRAY] - a.reachable[ARRAY] == 0
      && h.count[STRING] - a.reachable[STRING] == 0 {
      return AllLive, epoch', marked;
    }
    ContentsKept(before, marked, payloads);
    var pending := QueueFinalizers(h, payloads, epoch');
    QueuedMarks(marked, h.cells, payloads, epoch');
    if pending != 0 { return Finalizing(pending), epoch', marked; }
    NothingQueued(marked, h.cells, payloads, epoch');
    var gone, goneBytes := SweepHeap(h, epoch');
    SweptMarks(h.cfg, marked, epoch');
    SameButMarkCount(before, marked, OBJECT);
    outcome := Reclaimed(gone[OBJECT]);
  }

  lemma CountsAgree(h: Arena, a: Auditor)
    requires h.Valid()
    requires forall k :: k in MANAGED ==> k in a.reachable && a.reachable[k] == MarkedCount(h.cells, k, a.epoch)
    ensures (h.count[OBJECT] - a.reachable[OBJECT] == 0 && h.count[ARRAY] - a.reachable[ARRAY] == 0
             && h.count[STRING] - a.reachable[STRING] == 0) <==> !Unreached(h.cells, a.epoch)
  {
    AllReached(h.cells, a.epoch, h.count, h.bytes, a.reachable);
    assert forall k :: k in MANAGED <==> k == OBJECT || k == ARRAY || k == STRING;
  }

  lemma ContentsKept(a: seq<Cell>, b: seq<Cell>, payloads: Payloads)
    requires SameButMark(a, b) && Contents(a, payloads)
    ensures Contents(b, payloads)
  {}

  lemma NothingQueued(a: seq<Cell>, b: seq<Cell>, payloads: Payloads, epoch: int)
    requires AllQueued(a, b, payloads, epoch) && DueCount(a, payloads, epoch) == 0
    ensures a == b
  {
    NoneDue(a, payloads, epoch);
  }

  /** No collection ever frees or alters a block that is RAW or reachable: it keeps its offset, size,
      capacity and kind, whatever the outcome. */
  lemma CollectionSafe(cfg: Config, before: seq<Cell>, marked: seq<Cell>, after: seq<Cell>,
                       payloads: Payloads, refs: seq<Ref>, epoch: int, outcome: Outcome, i: nat)
    requires AllWellformed(before) && Collected(cfg, before, marked, after, payloads, refs, epoch, outcome)
    requires i < |before| && !IsFree(before[i]) && Kept(cfg, before, payloads, refs, before[i])
    ensures exists c :: c in after && SameBlock(before[i], c)
  {
    var m := marked[i];
    assert m.at == before[i].at;
    assert !Dead(m, epoch);
    if outcome.Reclaimed? {
      SweepSurvivors(cfg, marked, epoch, m);
      assert m in after;
    } else {
      assert after[i] in after;
    }
  }

  /** A sweep frees every managed block that is not reachable. */
  lemma CollectionPrecise(cfg: Config, before: seq<Cell>, marked: seq<Cell>, after: seq<Cell>,
                          payloads: Payloads, refs: seq<Ref>, epoch: int, outcome: Outcome, c: Cell)
    requires Collected(cfg, before, marked, after, payloads, refs, epoch, outcome) && outcome.Reclaimed?
    requires c in after && !IsFree(c)
    ensures exists i :: 0 <= i < |before| && SameBlock(before[i], c) && !IsFree(before[i])
                     && Kept(cfg, before, payloads, refs, before[i])
  {
    SweepSurvivors(cfg, marked, epoch, c);
    var i :| 0 <= i < |marked| && marked[i] == c;
    assert SameBlock(before[i], c);
  }
}
