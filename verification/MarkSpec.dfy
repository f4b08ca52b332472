/** What the collector can see of the object graph: typed references, resolved against the heap. */
module MarkSpec {
  import opened HeapModel
  import opened Graph

  /** A slot as the audit reads it.  NIL is a null, the null object, or a static empty array or
      string.  BAD is a slot whose kind or value descriptor the audit rejects. */
  datatype Ref = NIL | BAD | To(kind: Flag, address: int)

  /** The traced slots of a block, whether its type descriptor (or, for an array, its element kind)
      is accepted, and whether its type has a finalizer. */
  datatype Payload = Payload(accepted: bool, finalizer: bool, refs: seq<Ref>)

  type Payloads = map<int, Payload>

  /** A live block of this kind starts at offset x: the answer of a scan of the whole chain. */
  ghost predicate Holds(cells: seq<Cell>, x: int, kind: Flag) {
    exists i :: 0 <= i < |cells| && cells[i].at == x && !IsFree(cells[i]) && kind in cells[i].flags
  }

  /** `object_allocation`, `array_allocation`, `string_allocation`: payload address to block. */
  ghost function Lookup(cfg: Config, cells: seq<Cell>, address: int, kind: Flag): int {
    if Holds(cells, address - cfg.header, kind) then address - cfg.header else NULL
  }

  ghost predicate Contents(cells: seq<Cell>, payloads: Payloads) {
    forall i :: 0 <= i < |cells| && (OBJECT in cells[i].flags || ARRAY in cells[i].flags) ==> cells[i].at in payloads
  }

  /** The references a slot may hold: only the three managed kinds are typed. */
  predicate Typed(r: Ref) { r.To? ==> r.kind in MANAGED }

  /** The block a slot leads to, or NULL. */
  ghost function Target(cfg: Config, cells: seq<Cell>, payloads: Payloads, r: Ref): int {
    if !r.To? then NULL
    else
      var b := Lookup(cfg, cells, r.address, r.kind);
      if b != NULL && r.kind != STRING && !(b in payloads && payloads[b].accepted) then NULL else b
  }

  /** A slot that the audit counts as invalid.  A string that is not in the heap is a literal. */
  ghost predicate Wrong(cfg: Config, cells: seq<Cell>, payloads: Payloads, r: Ref) {
    r.BAD? || (r.To? && r.kind != STRING && Target(cfg, cells, payloads, r) == NULL)
  }

  ghost function WrongCount(cfg: Config, cells: seq<Cell>, payloads: Payloads, refs: seq<Ref>): nat {
    if refs == [] then 0
    else (if Wrong(cfg, cells, payloads, refs[0]) then 1 else 0) + WrongCount(cfg, cells, payloads, refs[1..])
  }

  ghost function Targets(cfg: Config, cells: seq<Cell>, payloads: Payloads, refs: seq<Ref>): set<int> {
    if refs == [] then {}
    else
      var t := Target(cfg, cells, payloads, refs[0]);
      (if t == NULL then {} else {t}) + Targets(cfg, cells, payloads, refs[1..])
  }

  ghost predicate Traced(cells: seq<Cell>, x: int) { Holds(cells, x, OBJECT) || Holds(cells, x, ARRAY) }

  ghost predicate Managed(cells: seq<Cell>, x: int) { Traced(cells, x) || Holds(cells, x, STRING) }

  function Offsets(cells: seq<Cell>): set<int> { set i | 0 <= i < |cells| :: cells[i].at }

  /** The object graph: every managed block with the blocks its slots lead to. */
  ghost function GraphOf(cfg: Config, cells: seq<Cell>, payloads: Payloads): Graph {
    map x | x in Offsets(cells) && Managed(cells, x) ::
      if Traced(cells, x) && x in payloads then Targets(cfg, cells, payloads, payloads[x].refs) else {}
  }

  // ---- Marks do not change what the collector sees -----------------------------------------------

  ghost predicate SameButMark(a: seq<Cell>, b: seq<Cell>) {
    |a| == |b| && forall i :: 0 <= i < |a| ==> b[i] == a[i].(mark := b[i].mark)
  }

  lemma HoldsSame(a: seq<Cell>, b: seq<Cell>)
    requires SameButMark(a, b)
    ensures forall x, k :: Holds(a, x, k) <==> Holds(b, x, k)
  {
    forall x, k ensures Holds(a, x, k) <==> Holds(b, x, k) {
      if Holds(a, x, k) {
        var i :| 0 <= i < |a| && a[i].at == x && !IsFree(a[i]) && k in a[i].flags;
        assert b[i].at == x && !IsFree(b[i]) && k in b[i].flags;
      }
      if Holds(b, x, k) {
        var i :| 0 <= i < |b| && b[i].at == x && !IsFree(b[i]) && k in b[i].flags;
        assert a[i].at == x && !IsFree(a[i]) && k in a[i].flags;
      }
    }
  }

  /** Whatever a slot leads to is a managed block. */
  lemma TargetManaged(cfg: Config, cells: seq<Cell>, payloads: Payloads, r: Ref)
    requires Typed(r)
    ensures var t := Target(cfg, cells, payloads, r); t != NULL ==> Managed(cells, t) && t in Offsets(cells)
  {
    var t := Target(cfg, cells, payloads, r);
    if t != NULL {
      var i :| 0 <= i < |cells| && cells[i].at == t && !IsFree(cells[i]) && r.kind in cells[i].flags;
      assert r.kind == OBJECT || r.kind == ARRAY || r.kind == STRING;
    }
  }

  ghost predicate AllTyped(payloads: Payloads) {
    forall x, r :: x in payloads && r in payloads[x].refs ==> Typed(r)
  }

  lemma {:induction false} TargetsManaged(cfg: Config, cells: seq<Cell>, payloads: Payloads, refs: seq<Ref>)
    requires forall r :: r in refs ==> Typed(r)
    ensures forall t :: t in Targets(cfg, cells, payloads, refs) ==> Managed(cells, t) && t in Offsets(cells)
  {
    if refs != [] {
      assert refs[0] in refs;
      TargetManaged(cfg, cells, payloads, refs[0]);
      TargetsManaged(cfg, cells, payloads, refs[1..]);
    }
  }

  // ---- What a finished audit means ----------------------------------------------------------------

  /** Part of the graph has been visited: roots are marked, marks are justified, done blocks are expanded. */
  ghost predicate Progress(cfg: Config, cells: seq<Cell>, payloads: Payloads, roots: set<int>,
                           marked: set<int>, done: set<int>) {
    && roots <= marked
    && (forall x :: x in marked ==> Reach(GraphOf(cfg, cells, payloads), roots, x))
    && (forall x :: x in done ==> x in payloads && Targets(cfg, cells, payloads, payloads[x].refs) <= marked)
  }

  lemma ProgressStart(cfg: Config, cells: seq<Cell>, payloads: Payloads, refs: seq<Ref>)
    requires forall r :: r in refs ==> Typed(r)
    ensures Progress(cfg, cells, payloads, Targets(cfg, cells, payloads, refs), Targets(cfg, cells, payloads, refs), {})
  {
    var roots := Targets(cfg, cells, payloads, refs);
    TargetsManaged(cfg, cells, payloads, refs);
    forall x | x in roots ensures Reach(GraphOf(cfg, cells, payloads), roots, x) {
      ReachRoot(GraphOf(cfg, cells, payloads), roots, x);
    }
  }

  /** Expanding one marked block keeps the progress. */
  lemma ProgressStep(cfg: Config, cells: seq<Cell>, payloads: Payloads, roots: set<int>,
                     marked: set<int>, done: set<int>, x: int)
    requires Progress(cfg, cells, payloads, roots, marked, done) && AllTyped(payloads)
    requires x in marked && Traced(cells, x) && x in payloads
    ensures Progress(cfg, cells, payloads, roots, marked + Targets(cfg, cells, payloads, payloads[x].refs), done + {x})
  {
    var g := GraphOf(cfg, cells, payloads);
    TargetsManaged(cfg, cells, payloads, payloads[x].refs);
    assert x in Offsets(cells);
    forall y | y in Targets(cfg, cells, payloads, payloads[x].refs) ensures Reach(g, roots, y) {
      ReachStep(g, roots, x, y);
    }
  }

  /** When every marked block with slots is done, the marked blocks are exactly the reachable ones. */
  lemma ProgressComplete(cfg: Config, cells: seq<Cell>, payloads: Payloads, roots: set<int>,
                         marked: set<int>, done: set<int>, x: int)
    requires Progress(cfg, cells, payloads, roots, marked, done)
    requires forall y :: y in marked && Traced(cells, y) ==> y in done
    ensures x in marked <==> Reach(GraphOf(cfg, cells, payloads), roots, x)
  {
    var g := GraphOf(cfg, cells, payloads);
    forall y | y in marked && y in g ensures g[y] <= marked {}
    if Reach(g, roots, x) { ReachInClosed(g, roots, marked, x); }
  }

  /** Every slot of the roots and of every reachable block is acceptable. */
  ghost predicate Healthy(cfg: Config, cells: seq<Cell>, payloads: Payloads, refs: seq<Ref>) {
    && (forall r :: r in refs ==> !Wrong(cfg, cells, payloads, r))
    && forall x, r :: Reach(GraphOf(cfg, cells, payloads), Targets(cfg, cells, payloads, refs), x)
                  && Traced(cells, x) && x in payloads && r in payloads[x].refs
                  ==> !Wrong(cfg, cells, payloads, r)
  }

  lemma {:induction false} NoWrong(cfg: Config, cells: seq<Cell>, payloads: Payloads, refs: seq<Ref>)
    ensures WrongCount(cfg, cells, payloads, refs) == 0 <==> forall r :: r in refs ==> !Wrong(cfg, cells, payloads, r)
  {
    if refs != [] {
      NoWrong(cfg, cells, payloads, refs[1..]);
      assert forall r :: r in refs <==> r == refs[0] || r in refs[1..];
    }
  }

  /** No invalid slot among those read so far. */
  ghost predicate Clean(cfg: Config, cells: seq<Cell>, payloads: Payloads, refs: seq<Ref>, done: set<int>) {
    && WrongCount(cfg, cells, payloads, refs) == 0
    && forall x :: x in done && x in payloads ==> WrongCount(cfg, cells, payloads, payloads[x].refs) == 0
  }

  lemma CleanStart(cfg: Config, cells: seq<Cell>, payloads: Payloads, refs: seq<Ref>)
    ensures Clean(cfg, cells, payloads, refs, {}) <==> WrongCount(cfg, cells, payloads, refs) == 0
  {}

  lemma CleanStep(cfg: Config, cells: seq<Cell>, payloads: Payloads, refs: seq<Ref>, done: set<int>, x: int)
    requires x in payloads
    ensures Clean(cfg, cells, payloads, refs, done + {x})
       <==> Clean(cfg, cells, payloads, refs, done) && WrongCount(cfg, cells, payloads, payloads[x].refs) == 0
  {}

  lemma CleanIsHealthy(cfg: Config, cells: seq<Cell>, payloads: Payloads, refs: seq<Ref>, marked: set<int>,
                       done: set<int>)
    requires Progress(cfg, cells, payloads, Targets(cfg, cells, payloads, refs), marked, done)
    requires forall y :: y in marked && Traced(cells, y) <==> y in done
    ensures Clean(cfg, cells, payloads, refs, done) <==> Healthy(cfg, cells, payloads, refs)
  {
    NoWrong(cfg, cells, payloads, refs);
    var roots := Targets(cfg, cells, payloads, refs);
    forall x ensures x in marked <==> Reach(GraphOf(cfg, cells, payloads), roots, x) {
      ProgressComplete(cfg, cells, payloads, roots, marked, done, x);
    }
    forall x | x in payloads
      ensures WrongCount(cfg, cells, payloads, payloads[x].refs) == 0 <==>
                forall r :: r in payloads[x].refs ==> !Wrong(cfg, cells, payloads, r)
    {
      NoWrong(cfg, cells, payloads, payloads[x].refs);
    }
  }

  // ---- Marks are invisible ------------------------------------------------------------------------

  lemma TargetSame(cfg: Config, a: seq<Cell>, b: seq<Cell>, payloads: Payloads, r: Ref)
    requires SameButMark(a, b)
    ensures Target(cfg, a, payloads, r) == Target(cfg, b, payloads, r)
    ensures Wrong(cfg, a, payloads, r) <==> Wrong(cfg, b, payloads, r)
  {
    HoldsSame(a, b);
  }

  lemma {:induction false} TargetsSame(cfg: Config, a: seq<Cell>, b: seq<Cell>, payloads: Payloads, refs: seq<Ref>)
    requires SameButMark(a, b)
    ensures Targets(cfg, a, payloads, refs) == Targets(cfg, b, payloads, refs)
  {
    if refs != [] {
      TargetSame(cfg, a, b, payloads, refs[0]);
      TargetsSame(cfg, a, b, payloads, refs[1..]);
    }
  }

  lemma GraphSame(cfg: Config, a: seq<Cell>, b: seq<Cell>, payloads: Payloads)
    requires SameButMark(a, b)
    ensures GraphOf(cfg, a, payloads) == GraphOf(cfg, b, payloads)
  {
    HoldsSame(a, b);
    assert Offsets(a) == Offsets(b) by {
      forall x ensures x in Offsets(a) <==> x in Offsets(b) {
        if x in Offsets(a) { var i :| 0 <= i < |a| && a[i].at == x; assert b[i].at == x; }
        if x in Offsets(b) { var i :| 0 <= i < |b| && b[i].at == x; assert a[i].at == x; }
      }
    }
    forall x | x in payloads
      ensures Targets(cfg, a, payloads, payloads[x].refs) == Targets(cfg, b, payloads, payloads[x].refs)
    {
      TargetsSame(cfg, a, b, payloads, payloads[x].refs);
    }
  }

  lemma HealthySame(cfg: Config, a: seq<Cell>, b: seq<Cell>, payloads: Payloads, refs: seq<Ref>)
    requires SameButMark(a, b)
    ensures Healthy(cfg, a, payloads, refs) <==> Healthy(cfg, b, payloads, refs)
  {
    HoldsSame(a, b);
    GraphSame(cfg, a, b, payloads);
    TargetsSame(cfg, a, b, payloads, refs);
    forall r ensures Wrong(cfg, a, payloads, r) <==> Wrong(cfg, b, payloads, r) { TargetSame(cfg, a, b, payloads, r); }
  }
}
