/** What managed code gets from the heap of a run: a field keeps what was last stored, a global hands a reference from
    one task to another, and a new block comes with empty fields. */
module BlockLaws {
  import opened HeapModel
  import opened HeapSpec
  import opened MarkSpec
  import opened BlockRuns
  import C = Collect
  import F = Finalizers

  /** Task u, any task, reads the field that task t has stored; every other field is as before. */
  lemma StoredLoads(cfg: Config, W: nat, b: Blocks, t: nat, u: nat, x: int, k: nat, v: Ref)
    requires W > 0 && MayRun(b, t) && MayRun(b, u) && Holding(cfg, b, t, x, k) && Holding(cfg, b, u, x, k)
    requires v in b.locals[t] || v == NIL
    ensures var s := Do(cfg, W, b, Store(t, x, k, v));
            var l := Do(cfg, W, s, Load(u, x, k));
            && s == b.(payloads := s.payloads) && s.payloads.Keys == b.payloads.Keys
            && (forall y :: y in b.payloads && y != x ==> s.payloads[y] == b.payloads[y])
            && |s.payloads[x].refs| == |b.payloads[x].refs|
            && (forall i :: 0 <= i < |b.payloads[x].refs| && i != k ==> s.payloads[x].refs[i] == b.payloads[x].refs[i])
            && l.locals[u] == b.locals[u] + [v]
  {
    var s := Do(cfg, W, b, Store(t, x, k, v));
    assert Holding(cfg, s, u, x, k) by { TargetsSame(cfg, b.heap.cells, b.payloads, s.payloads, b.locals[u]); }
  }

  /** Which blocks references lead to does not depend on the fields. */
  lemma {:induction false} TargetsSame(cfg: Config, cells: seq<Cell>, p: Payloads, q: Payloads, refs: seq<Ref>)
    requires p.Keys == q.Keys && forall y :: y in p ==> p[y].accepted == q[y].accepted
    ensures Targets(cfg, cells, p, refs) == Targets(cfg, cells, q, refs)
  {
    if refs != [] {
      TargetsSame(cfg, cells, p, q, refs[1..]);
      assert Target(cfg, cells, p, refs[0]) == Target(cfg, cells, q, refs[0]);
    }
  }

  /** What task t publishes, task u can fetch. */
  lemma PublishedFetches(cfg: Config, W: nat, b: Blocks, t: nat, u: nat, i: nat)
    requires W > 0 && MayRun(b, t) && MayRun(b, u) && i < |b.locals[t]|
    ensures var p := Do(cfg, W, b, Publish(t, i));
            && p == b.(globals := p.globals) && |p.globals| == |b.globals| + 1
            && Do(cfg, W, p, Fetch(u, |b.globals|)) == p.(locals := b.locals[u := b.locals[u] + [b.locals[t][i]]])
  {
  }

  /** A served request for managed memory: the task's newest reference leads to the new block. */
  lemma NewBlock(cfg: Config, W: nat, b: Blocks, t: nat, need: int, size: int, kind: Flag, n: nat, finalizer: bool)
    requires W > 0 && MayRun(b, t) && Allocatable(Alloc(t, need, size, kind, n, finalizer))
    ensures var (heap, block) := Served(cfg, b.heap, need, size, kind);
            var v := Do(cfg, W, b, Alloc(t, need, size, kind, n, finalizer));
            && (block == NULL ==> v == b)
            && (block != NULL ==>
                  && v.heap == heap && v.locals[t] == b.locals[t] + [To(kind, block + cfg.header)]
                  && block in v.payloads && v.payloads[block].finalizer == finalizer && v.payloads[block].accepted
                  && |v.payloads[block].refs| == n && (forall i :: 0 <= i < n ==> v.payloads[block].refs[i] == NIL)
                  && block in v.births && v.births[block] == b.born && v.born == b.born + 1
                  && (forall y :: y in b.payloads && y != block ==> y in v.payloads && v.payloads[y] == b.payloads[y]))
  {
  }
}
