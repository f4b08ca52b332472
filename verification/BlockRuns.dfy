/** Whole runs on the block chain: tasks run the handshake and managed code, allocate and free blocks,
    and the owner collects and finalizes, over headers and typed references rather than abstract objects.

    A collection is one step, taken under a granted stop; what it may do is what `CollectObjects`
    guarantees.  User code holds references in its task's frames and in the globals. */
module BlockRuns {
  import opened HeapModel
  import opened HeapSpec
  import opened MarkSpec
  import opened Graph
  import opened Finalize
  import opened FinalizerRefinement
  import Heap
  import C = Collect
  import F = Finalizers
  import H = Handshake
  import S = HandshakeSafety
  import SweepSpec
  import Runs = HandshakeRuns

  /** births numbers the managed blocks in the order of their allocation, and entered logs the finalizer
      calls of the run by these numbers; epoch is that of the last audit. */
  datatype Blocks = Blocks(h: H.State, heap: HeapSpec.View, payloads: Payloads, globals: seq<Ref>,
                           locals: seq<seq<Ref>>, phase: F.Phase, births: map<int, int>, born: nat, entered: seq<int>,
                           epoch: int)

  /** A collection step names what the collection left: the marked chain, the heap and the outcome. */
  datatype Act =
    | Protocol(t: nat, call: H.Call)
    | Load(t: nat, block: int, field: nat) | Store(t: nat, block: int, field: nat, value: Ref)
    | Literal(t: nat, address: int)
    | Alloc(t: nat, need: int, size: int, kind: Flag, fields: nat, finalizer: bool) | Drop(t: nat, i: nat)
    | Publish(t: nat, i: nat) | Fetch(t: nat, i: nat) | Retract(t: nat, i: nat)
    | AllocRaw(t: nat, need: int, size: int) | FreeRaw(t: nat, i: nat)
    | Collect(t: nat, marked: seq<Cell>, after: HeapSpec.View, epoch: int, outcome: C.Outcome)
    | Enter(t: nat, i: nat) | Return | Escape | Finish

  predicate Shaped(b: Blocks) { H.Shaped(b.h) && |b.locals| == |b.h.tasks| }

  /** Task t is outside the protocol and bound to a RUNNING slot. */
  predicate MayRun(b: Blocks, t: nat) {
    && t < |b.h.tasks| && Shaped(b) && b.h.tasks[t].pc.Rest? && b.h.tasks[t].slot != H.NONE
    && b.h.status[b.h.tasks[t].slot] == H.RUNNING
  }

  predicate Granted(b: Blocks, t: nat) {
    t < |b.h.tasks| && Shaped(b) && b.h.held && b.h.leader == t && b.h.tasks[t].pc.Rest?
  }

  function Flat(locals: seq<seq<Ref>>): seq<Ref> {
    if locals == [] then [] else Flat(locals[..|locals| - 1]) + locals[|locals| - 1]
  }

  /** The root slots as the audit reads them. */
  function Roots(b: Blocks): seq<Ref> { b.globals + Flat(b.locals) }

  function Keep(b: Blocks, t: nat, r: Ref): Blocks
    requires t < |b.locals|
  {
    b.(locals := b.locals[t := b.locals[t] + [r]])
  }

  function Removed(s: seq<Ref>, i: nat): seq<Ref> { if i < |s| then s[..i] + s[i + 1..] else s }

  predicate Outside(cfg: Config, address: int) { address < cfg.header || cfg.header + cfg.size <= address }

  /** Task t holds a reference to a block that has slots. */
  ghost predicate Holding(cfg: Config, b: Blocks, t: nat, x: int, k: nat)
    requires t < |b.locals|
  {
    && x in Targets(cfg, b.heap.cells, b.payloads, b.locals[t]) && Traced(b.heap.cells, x) && x in b.payloads
    && k < |b.payloads[x].refs|
  }

  predicate Request(need: int, size: int) { need % 16 == 0 && 0 < size <= need }

  /** Only objects have finalizers, and strings have no slots. */
  predicate Allocatable(act: Act)
    requires act.Alloc?
  {
    && Request(act.need, act.size) && act.kind in MANAGED && (act.kind == STRING ==> act.fields == 0)
    && (act.finalizer ==> act.kind == OBJECT)
  }

  function Blank(n: nat): seq<Ref> { seq(n, _ => NIL) }

  ghost function Allocate(cfg: Config, b: Blocks, act: Act): Blocks
    requires act.Alloc? && act.t < |b.locals|
  {
    var (heap, block) := Served(cfg, b.heap, act.need, act.size, act.kind);
    if block == NULL then b
    else
      Keep(b.(heap := heap, payloads := b.payloads[block := Payload(true, act.finalizer, Blank(act.fields))],
              births := b.births[block := b.born], born := b.born + 1), act.t, To(act.kind, block + cfg.header))
  }

  /** The finalizer of the block at cell i has been taken from the queue. */
  function Called(b: Blocks, i: nat): Blocks
    requires i < |b.heap.cells| && b.heap.cells[i].at in b.births
  {
    b.(heap := b.heap.(cells := b.heap.cells[i := Entered(b.heap.cells[i])]), phase := F.Finalizing(b.heap.cells[i].at),
       entered := b.entered + [b.births[b.heap.cells[i].at]])
  }

  /** Managed code of a task that may run. */
  ghost function Mutate(cfg: Config, b: Blocks, act: Act): Blocks
    requires !act.Protocol? && !act.Collect? && !act.Return? && !act.Escape? && !act.Finish? && act.t < |b.locals|
  {
    var mine := b.locals[act.t];
    match act
    case Load(t, x, k) => if Holding(cfg, b, t, x, k) then Keep(b, t, b.payloads[x].refs[k]) else b
    case Store(t, x, k, v) =>
      if Holding(cfg, b, t, x, k) && (v in mine || v == NIL) then
        b.(payloads := b.payloads[x := b.payloads[x].(refs := b.payloads[x].refs[k := v])])
      else b
    case Literal(t, a) => if Outside(cfg, a) then Keep(b, t, To(STRING, a)) else b
    case Alloc(_, _, _, _, _, _) => if Allocatable(act) then Allocate(cfg, b, act) else b
    case Drop(t, i) => b.(locals := b.locals[t := Removed(mine, i)])
    case Publish(t, i) => if i < |mine| then b.(globals := b.globals + [mine[i]]) else b
    case Fetch(t, i) => if i < |b.globals| then Keep(b, t, b.globals[i]) else b
    case Retract(t, i) => b.(globals := Removed(b.globals, i))
    case AllocRaw(_, need, size) =>
      if Request(need, size) then b.(heap := Served(cfg, b.heap, need, size, RAW).0) else b
    case FreeRaw(_, i) =>
      if i < |b.heap.cells| && !IsFree(b.heap.cells[i]) && RAW in b.heap.cells[i].flags then
        b.(heap := b.heap.(cells := Released(cfg, b.heap.cells, i), list := ReleasedList(b.heap.cells, b.heap.list, i)))
      else b
    case Enter(t, i) =>
      if b.phase == F.Finalizing(F.NULL) && i < |b.heap.cells| && PENDING in b.heap.cells[i].flags
         && b.heap.cells[i].at in b.births then
        Keep(Called(b, i), t, To(OBJECT, b.heap.cells[i].at + cfg.header))
      else b
  }

  /** What `CollectObjects` guarantees when its stop was granted. */
  ghost predicate Collects(cfg: Config, b: Blocks, act: Act)
    requires act.Collect?
  {
    && C.Collected(cfg, b.heap.cells, act.marked, act.after.cells, b.payloads, Roots(b), act.epoch, act.outcome)
    && Shape(cfg, act.after.cells, act.after.list, act.after.top) && act.epoch == C.NextEpoch(b.epoch)
  }

  ghost function Collection(cfg: Config, b: Blocks, act: Act): Blocks
    requires act.Collect?
  {
    b.(heap := act.after, epoch := act.epoch,
       phase := if act.outcome.Finalizing? then F.Finalizing(F.NULL) else F.Idle,
       births := map x | x in b.births && Managed(act.after.cells, x) :: b.births[x])
  }

  function ClearAll(cells: seq<Cell>): (r: seq<Cell>)
    ensures |r| == |cells| && forall i :: 0 <= i < |r| ==> r[i] == Cleared(cells[i])
  {
    seq(|cells|, i requires 0 <= i < |cells| => Cleared(cells[i]))
  }

  /** A task's frames go when its slot goes. */
  function Exchange(W: nat, b: Blocks, t: nat, call: H.Call): Blocks
    requires W > 0 && t < |b.h.tasks| && Shaped(b)
  {
    var h := H.Step(W, b.h, t, call);
    if |h.tasks| == |b.h.tasks| && h.tasks[t].slot == H.NONE then b.(h := h, locals := b.locals[t := []])
    else b.(h := h)
  }

  ghost function Do(cfg: Config, W: nat, b: Blocks, act: Act): Blocks
    requires W > 0
  {
    match act
    case Protocol(t, call) => if t < |b.h.tasks| && Shaped(b) then Exchange(W, b, t, call) else b
    case Collect(t, _, _, _, _) =>
      if Granted(b, t) && b.phase.Idle? && Collects(cfg, b, act) then Collection(cfg, b, act) else b
    case Return => if b.phase.Finalizing? then b.(phase := F.Finalizing(F.NULL)) else b
    case Escape =>
      if b.phase.Finalizing? && b.phase.running != F.NULL then
        b.(heap := b.heap.(cells := ClearAll(b.heap.cells)), phase := F.Idle)
      else b
    case Finish =>
      if b.phase == F.Finalizing(F.NULL)
         && forall i :: 0 <= i < |b.heap.cells| ==> PENDING !in b.heap.cells[i].flags then
        b.(phase := F.Idle)
      else b
    case _ => if MayRun(b, act.t) then Mutate(cfg, b, act) else b
  }

  ghost function DoAll(cfg: Config, W: nat, b: Blocks, acts: seq<Act>): Blocks
    requires W > 0
  {
    if acts == [] then b else Do(cfg, W, DoAll(cfg, W, b, acts[..|acts| - 1]), acts[|acts| - 1])
  }

  /** n slots, m tasks, an empty arena. */
  function Outset(n: nat, m: nat): Blocks {
    Blocks(H.Init(n, m), HeapSpec.View([], [], 0), map[], [], seq(m, _ => []), F.Idle, map[], 0, [], 0)
  }

  // ---- The invariant ------------------------------------------------------------------------------

  /** A slot that user code may hold: nothing, a literal, or a reference to a live block of its kind. */
  ghost predicate Fine(cfg: Config, cells: seq<Cell>, payloads: Payloads, r: Ref) {
    && Typed(r) && !r.BAD?
    && (r.To? ==> Target(cfg, cells, payloads, r) != NULL || (r.kind == STRING && Outside(cfg, r.address)))
  }

  ghost predicate AllFine(cfg: Config, cells: seq<Cell>, payloads: Payloads, refs: seq<Ref>) {
    forall r :: r in refs ==> Fine(cfg, cells, payloads, r)
  }

  /** The slots of every live object and array. */
  ghost predicate PayloadsFine(cfg: Config, cells: seq<Cell>, payloads: Payloads) {
    forall x :: Traced(cells, x) ==>
      x in payloads && payloads[x].accepted && AllFine(cfg, cells, payloads, payloads[x].refs)
  }

  predicate Rootless(b: Blocks) {
    Shaped(b) ==> forall t :: 0 <= t < |b.locals| && b.h.tasks[t].slot == H.NONE ==> b.locals[t] == []
  }

  ghost predicate HeapSound(cfg: Config, b: Blocks) {
    && Shape(cfg, b.heap.cells, b.heap.list, b.heap.top)
    && PayloadsFine(cfg, b.heap.cells, b.payloads) && AllTyped(b.payloads)
    && AllFine(cfg, b.heap.cells, b.payloads, Roots(b))
    && (forall x :: x in b.births <==> Managed(b.heap.cells, x))
  }

  ghost predicate Sound(cfg: Config, b: Blocks) {
    S.Inv(b.h) && Shaped(b) && Rootless(b) && HeapSound(cfg, b) && C.MarksUpTo(b.heap.cells, b.epoch)
  }

  // ---- Roots --------------------------------------------------------------------------------------

  lemma {:induction false} FlatIn(locals: seq<seq<Ref>>, r: Ref)
    ensures r in Flat(locals) <==> exists t :: 0 <= t < |locals| && r in locals[t]
  {
    if locals != [] {
      var n := |locals| - 1;
      FlatIn(locals[..n], r);
      assert forall t :: 0 <= t < n ==> locals[..n][t] == locals[t];
    }
  }

  lemma RootsIn(b: Blocks, r: Ref)
    ensures r in Roots(b) <==> r in b.globals || exists t :: 0 <= t < |b.locals| && r in b.locals[t]
  {
    FlatIn(b.locals, r);
  }

  /** What one task's frames can add to the roots. */
  lemma LocalsRoots(b: Blocks, b': Blocks, t: nat, r: Ref)
    requires t < |b.locals| == |b'.locals| && b'.locals == b.locals[t := b'.locals[t]] && b'.globals == b.globals
    requires r in Roots(b')
    ensures r in Roots(b) || r in b'.locals[t]
  {
    RootsIn(b, r);
    RootsIn(b', r);
    if u :| 0 <= u < |b'.locals| && r in b'.locals[u] { assert u != t ==> r in b.locals[u]; }
  }

  lemma LocalRoot(b: Blocks, t: nat, r: Ref)
    requires t < |b.locals| && r in b.locals[t]
    ensures r in Roots(b)
  {
    RootsIn(b, r);
  }

  // ---- Steps that leave the managed blocks alone --------------------------------------------------

  lemma FineSame(cfg: Config, a: seq<Cell>, b: seq<Cell>, payloads: Payloads, r: Ref)
    requires SameManaged(a, b)
    ensures Fine(cfg, a, payloads, r) <==> Fine(cfg, b, payloads, r)
  {
    if Typed(r) && r.To? {
      assert Holds(b, r.address - cfg.header, r.kind) <==> Holds(a, r.address - cfg.header, r.kind);
    }
  }

  lemma ManagedSame(a: seq<Cell>, b: seq<Cell>, x: int)
    requires SameManaged(a, b)
    ensures (Managed(a, x) <==> Managed(b, x)) && (Traced(a, x) <==> Traced(b, x))
  {
    assert Holds(b, x, OBJECT) <==> Holds(a, x, OBJECT);
    assert Holds(b, x, ARRAY) <==> Holds(a, x, ARRAY);
    assert Holds(b, x, STRING) <==> Holds(a, x, STRING);
  }

  lemma Steady(cfg: Config, b: Blocks, b': Blocks)
    requires HeapSound(cfg, b) && Shape(cfg, b'.heap.cells, b'.heap.list, b'.heap.top)
    requires SameManaged(b.heap.cells, b'.heap.cells) && b'.payloads == b.payloads && b'.births == b.births
    requires forall r :: r in Roots(b') ==> r in Roots(b) || Fine(cfg, b.heap.cells, b.payloads, r)
    ensures HeapSound(cfg, b')
  {
    forall r ensures Fine(cfg, b.heap.cells, b.payloads, r) <==> Fine(cfg, b'.heap.cells, b'.payloads, r) {
      FineSame(cfg, b.heap.cells, b'.heap.cells, b.payloads, r);
    }
    forall x
      ensures Managed(b.heap.cells, x) <==> Managed(b'.heap.cells, x)
      ensures Traced(b.heap.cells, x) <==> Traced(b'.heap.cells, x)
    {
      ManagedSame(b.heap.cells, b'.heap.cells, x);
    }
    hide Shape, Fine, Roots, Managed, Traced, AllTyped;
  }

  lemma SameSelf(a: seq<Cell>)
    ensures SameManaged(a, a)
  {
  }

  /** A live block is that of some cell. */
  lemma HoldsIn(cells: seq<Cell>, x: int, k: Flag)
    ensures Holds(cells, x, k) <==> exists c :: c in cells && !IsFree(c) && c.at == x && k in c.flags
  {
    if Holds(cells, x, k) {
      var i :| 0 <= i < |cells| && cells[i].at == x && !IsFree(cells[i]) && k in cells[i].flags;
      assert cells[i] in cells;
    }
    if c :| c in cells && !IsFree(c) && c.at == x && k in c.flags {
      var i :| 0 <= i < |cells| && cells[i] == c;
    }
  }

  /** b has the live blocks of a, and u. */
  ghost predicate Gains(a: seq<Cell>, b: seq<Cell>, u: Cell) {
    forall c :: !IsFree(c) ==> (c in b <==> c in a || c == u)
  }

  lemma GainsHolds(a: seq<Cell>, b: seq<Cell>, u: Cell, x: int, k: Flag)
    requires Gains(a, b, u) && !IsFree(u)
    ensures Holds(b, x, k) <==> Holds(a, x, k) || (x == u.at && k in u.flags)
  {
    HoldsIn(a, x, k);
    HoldsIn(b, x, k);
  }

  /** The flags the collector reads of a block. */
  const SEEN: set<Flag> := MANAGED + {FINALIZED, PENDING}

  /** A RAW block has none of them. */
  lemma RawUnseen(c: Cell, k: Flag)
    requires Wellformed(c) && !IsFree(c) && RAW in c.flags && k in SEEN
    ensures k !in c.flags
  {
    var kind :| kind in KINDS && c.flags * KINDS == {kind};
    assert RAW in c.flags * KINDS;
    assert k in KINDS && k in c.flags ==> k in c.flags * KINDS;
    assert OBJECT in c.flags ==> OBJECT in c.flags * KINDS;
  }

  /** Two chains that agree on every flag the collector reads. */
  ghost predicate SameSeen(a: seq<Cell>, b: seq<Cell>) {
    forall x, k {:trigger Holds(b, x, k)} :: k in SEEN ==> (Holds(a, x, k) <==> Holds(b, x, k))
  }

  lemma SeenManaged(a: seq<Cell>, b: seq<Cell>)
    requires SameSeen(a, b)
    ensures SameManaged(a, b)
  {
  }

  /** Allocating a RAW block, or failing to, changes nothing the collector reads. */
  lemma RawTaken(cfg: Config, v: HeapSpec.View, need: int, size: int)
    requires Shape(cfg, v.cells, v.list, v.top) && Request(need, size)
    ensures var w := Served(cfg, v, need, size, RAW).0;
            Shape(cfg, w.cells, w.list, w.top) && SameSeen(v.cells, w.cells)
  {
    ServedShape(cfg, v, need, size, RAW);
    var u := ServedLive(cfg, v, need, size, RAW);
    var (w, block) := Served(cfg, v, need, size, RAW);
    hide Served, Shape;
    if block != NULL {
      forall x, k | k in SEEN
        ensures Holds(v.cells, x, k) <==> Holds(w.cells, x, k)
      {
        GainsHolds(v.cells, w.cells, u, x, k);
      }
    }
  }

  lemma ServedShape(cfg: Config, v: HeapSpec.View, need: int, size: int, kind: Flag)
    requires Shape(cfg, v.cells, v.list, v.top) && Request(need, size) && kind in KINDS
    ensures var (w, block) := Served(cfg, v, need, size, kind);
            Shape(cfg, w.cells, w.list, w.top) && (block == NULL ==> w == v)
  {
    TiledFacts(cfg, v.cells, v.top);
    TiledAligned(cfg, v.cells, v.top, |v.cells|);
    var k := FirstFit(v.cells, v.list, need);
    if k < |v.list| {
      var i := FreeIndex(cfg, v.cells, v.list, v.top, k);
      TakenKeepsShape(cfg, v.cells, v.list, v.top, i, k, need, size, kind);
    } else if v.top + cfg.header + need <= cfg.size {
      GrownKeepsShape(cfg, v.cells, v.list, v.top, need, size, kind);
    }
    hide Shape;
  }

  lemma RawFreed(cfg: Config, v: HeapSpec.View, i: nat)
    requires Shape(cfg, v.cells, v.list, v.top) && i < |v.cells| && !IsFree(v.cells[i]) && RAW in v.cells[i].flags
    ensures Shape(cfg, Released(cfg, v.cells, i), ReleasedList(v.cells, v.list, i), v.top)
    ensures SameSeen(v.cells, Released(cfg, v.cells, i))
  {
    ReleaseKeepsShape(cfg, v.cells, v.list, v.top, i);
    var after := Released(cfg, v.cells, i);
    assert AllWellformed(v.cells) && Wellformed(v.cells[i]);
    hide Shape, Released, ReleasedList;
    forall x, k | k in SEEN ensures Holds(v.cells, x, k) <==> Holds(after, x, k) {
      RawUnseen(v.cells[i], k);
      HoldsIn(v.cells, x, k);
      HoldsIn(after, x, k);
      forall c | !IsFree(c) && k in c.flags ensures c in after <==> c in v.cells { ReleasedLive(cfg, v.cells, i, c); }
    }
  }

  // ---- Stores, allocations and flags ----------------------------------------------------------------

  /** Whether a slot is fine depends on which blocks are accepted, not on their slots. */
  lemma FineStored(cfg: Config, cells: seq<Cell>, payloads: Payloads, x: int, refs: seq<Ref>, r: Ref)
    requires x in payloads
    ensures Target(cfg, cells, payloads[x := payloads[x].(refs := refs)], r) == Target(cfg, cells, payloads, r)
    ensures Fine(cfg, cells, payloads[x := payloads[x].(refs := refs)], r) <==> Fine(cfg, cells, payloads, r)
  {
  }

  lemma StoreSound(cfg: Config, b: Blocks, t: nat, x: int, k: nat, v: Ref)
    requires HeapSound(cfg, b) && t < |b.locals| && Holding(cfg, b, t, x, k) && (v in b.locals[t] || v == NIL)
    ensures HeapSound(cfg, b.(payloads := b.payloads[x := b.payloads[x].(refs := b.payloads[x].refs[k := v])]))
  {
    var refs := b.payloads[x].refs[k := v];
    var after := b.payloads[x := b.payloads[x].(refs := refs)];
    if v != NIL { LocalRoot(b, t, v); }
    forall r ensures Fine(cfg, b.heap.cells, after, r) <==> Fine(cfg, b.heap.cells, b.payloads, r) {
      FineStored(cfg, b.heap.cells, b.payloads, x, refs, r);
    }
    assert Fine(cfg, b.heap.cells, b.payloads, v);
    forall r | r in refs
      ensures Fine(cfg, b.heap.cells, b.payloads, r) && Typed(r)
    {
      assert r == v || r in b.payloads[x].refs;
    }
    hide Shape, Fine, Roots, Typed;
  }

  /** A block that comes into being takes nothing from the others. */
  lemma FineGrown(cfg: Config, a: seq<Cell>, b: seq<Cell>, payloads: Payloads, u: Cell, p: Payload, r: Ref)
    requires Gains(a, b, u) && !IsFree(u) && (forall k :: !Holds(a, u.at, k)) && 0 <= u.at < cfg.size
    requires Fine(cfg, a, payloads, r)
    ensures Fine(cfg, b, payloads[u.at := p], r)
    ensures Target(cfg, b, payloads[u.at := p], r) == Target(cfg, a, payloads, r)
  {
    if r.To? { GainsHolds(a, b, u, r.address - cfg.header, r.kind); }
  }

  lemma NewUnheld(cells: seq<Cell>, block: int)
    requires forall c :: c in cells && !IsFree(c) ==> c.at != block
    ensures forall k :: !Holds(cells, block, k)
  {
    forall k ensures !Holds(cells, block, k) { HoldsIn(cells, block, k); }
  }

  /** The block an allocation hands out. */
  lemma Granting(cfg: Config, v: HeapSpec.View, need: int, size: int, kind: Flag) returns (u: Cell)
    requires Shape(cfg, v.cells, v.list, v.top) && Request(need, size) && kind in MANAGED
    ensures var (w, block) := Served(cfg, v, need, size, kind);
            && Shape(cfg, w.cells, w.list, w.top) && (block == NULL ==> w == v)
            && (block != NULL ==>
                  && u.at == block && u.flags == {kind} && 0 <= block < cfg.size
                  && Gains(v.cells, w.cells, u) && forall k :: !Holds(v.cells, block, k))
  {
    ServedShape(cfg, v, need, size, kind);
    u := ServedLive(cfg, v, need, size, kind);
    var (w, block) := Served(cfg, v, need, size, kind);
    hide Served;
    if block != NULL {
      NewUnheld(v.cells, block);
      assert u in w.cells;
      var i :| 0 <= i < |w.cells| && w.cells[i] == u;
      TiledFacts(cfg, w.cells, w.top);
      assert End(cfg, w.cells[i]) <= w.top;
    }
  }

  lemma GainsManaged(a: seq<Cell>, b: seq<Cell>, u: Cell, kind: Flag, x: int)
    requires Gains(a, b, u) && u.flags == {kind} && kind in MANAGED
    ensures Managed(b, x) <==> Managed(a, x) || x == u.at
    ensures Traced(b, x) <==> Traced(a, x) || (x == u.at && kind != STRING)
  {
    GainsHolds(a, b, u, x, OBJECT);
    GainsHolds(a, b, u, x, ARRAY);
    GainsHolds(a, b, u, x, STRING);
  }

  /** The reference to a new block. */
  lemma NewFine(cfg: Config, a: seq<Cell>, b: seq<Cell>, payloads: Payloads, u: Cell, kind: Flag, p: Payload)
    requires Gains(a, b, u) && u.flags == {kind} && kind in MANAGED && u.at != NULL && p.accepted
    ensures var r := To(kind, u.at + cfg.header);
            Fine(cfg, b, payloads[u.at := p], r) && Target(cfg, b, payloads[u.at := p], r) == u.at
  {
    GainsHolds(a, b, u, u.at, kind);
  }

  lemma PayloadsGrown(cfg: Config, a: seq<Cell>, b: seq<Cell>, payloads: Payloads, u: Cell, kind: Flag, p: Payload)
    requires PayloadsFine(cfg, a, payloads) && Gains(a, b, u) && u.flags == {kind} && kind in MANAGED
    requires (forall k :: !Holds(a, u.at, k)) && 0 <= u.at < cfg.size && p.accepted
    requires forall r :: r in p.refs ==> r == NIL
    ensures PayloadsFine(cfg, b, payloads[u.at := p])
  {
    var after := payloads[u.at := p];
    forall x | Traced(b, x) ensures x in after && after[x].accepted && AllFine(cfg, b, after, after[x].refs) {
      GainsManaged(a, b, u, kind, x);
      if x != u.at {
        forall r | r in payloads[x].refs ensures Fine(cfg, b, after, r) { FineGrown(cfg, a, b, payloads, u, p, r); }
      }
    }
  }

  lemma RootsGrown(cfg: Config, b: Blocks, b': Blocks, t: nat, u: Cell, kind: Flag, p: Payload)
    requires AllFine(cfg, b.heap.cells, b.payloads, Roots(b)) && t < |b.locals|
    requires Gains(b.heap.cells, b'.heap.cells, u) && u.flags == {kind} && kind in MANAGED
    requires (forall k :: !Holds(b.heap.cells, u.at, k)) && 0 <= u.at < cfg.size && p.accepted
    requires b'.payloads == b.payloads[u.at := p] && b'.globals == b.globals
    requires b'.locals == b.locals[t := b.locals[t] + [To(kind, u.at + cfg.header)]]
    ensures AllFine(cfg, b'.heap.cells, b'.payloads, Roots(b'))
  {
    NewFine(cfg, b.heap.cells, b'.heap.cells, b.payloads, u, kind, p);
    forall r | r in Roots(b') ensures Fine(cfg, b'.heap.cells, b'.payloads, r) {
      LocalsRoots(b, b', t, r);
      if r in b.locals[t] { LocalRoot(b, t, r); }
      if r in Roots(b) { FineGrown(cfg, b.heap.cells, b'.heap.cells, b.payloads, u, p, r); }
    }
    hide Fine, Roots;
  }

  lemma HeapParts(cfg: Config, b: Blocks)
    requires HeapSound(cfg, b)
    ensures Shape(cfg, b.heap.cells, b.heap.list, b.heap.top)
    ensures PayloadsFine(cfg, b.heap.cells, b.payloads) && AllTyped(b.payloads)
    ensures AllFine(cfg, b.heap.cells, b.payloads, Roots(b))
    ensures forall x :: x in b.births <==> Managed(b.heap.cells, x)
  {
  }

  lemma HeapWhole(cfg: Config, b: Blocks)
    requires Shape(cfg, b.heap.cells, b.heap.list, b.heap.top)
    requires PayloadsFine(cfg, b.heap.cells, b.payloads) && AllTyped(b.payloads)
    requires AllFine(cfg, b.heap.cells, b.payloads, Roots(b))
    requires forall x :: x in b.births <==> Managed(b.heap.cells, x)
    ensures HeapSound(cfg, b)
  {
  }

  lemma BlankTyped(payloads: Payloads, x: int, p: Payload)
    requires AllTyped(payloads) && forall r :: r in p.refs ==> r == NIL
    ensures AllTyped(payloads[x := p])
  {
  }

  lemma AllocateUnfold(cfg: Config, b: Blocks, act: Act)
    requires act.Alloc? && act.t < |b.locals|
    ensures var (heap, block) := Served(cfg, b.heap, act.need, act.size, act.kind);
            var p := Payload(true, act.finalizer, Blank(act.fields));
            && (block == NULL ==> Allocate(cfg, b, act) == b)
            && (block != NULL ==>
                  Allocate(cfg, b, act)
                    == b.(heap := heap, payloads := b.payloads[block := p], births := b.births[block := b.born],
                          born := b.born + 1,
                          locals := b.locals[act.t := b.locals[act.t] + [To(act.kind, block + cfg.header)]]))
  {
    hide Served, Blank;
  }

  lemma AllocateFacts(act: Act)
    requires act.Alloc? && Allocatable(act)
    ensures Request(act.need, act.size) && act.kind in MANAGED && forall r :: r in Blank(act.fields) ==> r == NIL
  {
  }

  /** What an allocation makes of the state. */
  lemma AllocateIs(cfg: Config, b: Blocks, act: Act) returns (u: Cell, p: Payload)
    requires HeapSound(cfg, b) && act.Alloc? && Allocatable(act) && act.t < |b.locals|
    ensures var b' := Allocate(cfg, b, act);
            b' != b ==>
            && u.flags == {act.kind} && act.kind in MANAGED && 0 <= u.at < cfg.size
            && (forall k :: !Holds(b.heap.cells, u.at, k)) && Gains(b.heap.cells, b'.heap.cells, u)
            && Shape(cfg, b'.heap.cells, b'.heap.list, b'.heap.top)
            && p == Payload(true, act.finalizer, Blank(act.fields)) && (forall r :: r in p.refs ==> r == NIL)
            && b' == b.(heap := b'.heap, payloads := b.payloads[u.at := p], births := b.births[u.at := b.born],
                        born := b.born + 1,
                        locals := b.locals[act.t := b.locals[act.t] + [To(act.kind, u.at + cfg.header)]])
  {
    hide *;
    HeapParts(cfg, b);
    AllocateFacts(act);
    AllocateUnfold(cfg, b, act);
    u := Granting(cfg, b.heap, act.need, act.size, act.kind);
    p := Payload(true, act.finalizer, Blank(act.fields));
  }

  lemma AllocSound(cfg: Config, b: Blocks, act: Act)
    requires HeapSound(cfg, b) && act.Alloc? && Allocatable(act) && act.t < |b.locals|
    ensures HeapSound(cfg, Allocate(cfg, b, act))
  {
    hide *;
    var b' := Allocate(cfg, b, act);
    var u, p := AllocateIs(cfg, b, act);
    if b' != b {
      HeapParts(cfg, b);
      PayloadsGrown(cfg, b.heap.cells, b'.heap.cells, b.payloads, u, act.kind, p);
      RootsGrown(cfg, b, b', act.t, u, act.kind, p);
      BlankTyped(b.payloads, u.at, p);
      forall x ensures Managed(b'.heap.cells, x) <==> Managed(b.heap.cells, x) || x == u.at {
        GainsManaged(b.heap.cells, b'.heap.cells, u, act.kind, x);
      }
      HeapWhole(cfg, b');
    }
  }

  /** Two chains of the same blocks, to the audit. */
  lemma FlagsSound(cfg: Config, b: Blocks, b': Blocks)
    requires HeapSound(cfg, b) && SameBlocks(b.heap.cells, b'.heap.cells) && FlagsProper(b'.heap.cells)
    requires b'.heap == b.heap.(cells := b'.heap.cells) && b'.payloads == b.payloads && b'.births == b.births
    requires forall r :: r in Roots(b') ==> r in Roots(b) || Fine(cfg, b.heap.cells, b.payloads, r)
    ensures HeapSound(cfg, b')
  {
    SameBlocksShape(cfg, b.heap.cells, b'.heap.cells, b.heap.list, b.heap.top);
    SameBlocksManaged(b.heap.cells, b'.heap.cells);
    hide *;
    Steady(cfg, b, b');
  }

  lemma EnterSound(cfg: Config, b: Blocks, t: nat, i: nat)
    requires HeapSound(cfg, b) && t < |b.locals| && MayRun(b, t) && Mutate(cfg, b, Enter(t, i)) != b
    ensures HeapSound(cfg, Mutate(cfg, b, Enter(t, i)))
  {
    var b' := Mutate(cfg, b, Enter(t, i));
    var c := b.heap.cells[i];
    var r := To(OBJECT, c.at + cfg.header);
    PendingFine(cfg, b, i);
    EnteredProper(b.heap.cells, i);
    forall q | q in Roots(b') ensures q in Roots(b) || q == r {
      LocalsRoots(b, b', t, q);
      if q in b.locals[t] { LocalRoot(b, t, q); }
    }
    hide *;
    FlagsSound(cfg, b, b');
  }

  lemma PendingFine(cfg: Config, b: Blocks, i: nat)
    requires HeapSound(cfg, b) && i < |b.heap.cells| && PENDING in b.heap.cells[i].flags
    ensures var c := b.heap.cells[i];
            OBJECT in c.flags && !IsFree(c) && Fine(cfg, b.heap.cells, b.payloads, To(OBJECT, c.at + cfg.header))
            && Target(cfg, b.heap.cells, b.payloads, To(OBJECT, c.at + cfg.header)) == c.at && SameBlock(c, Entered(c))
  {
    var c := b.heap.cells[i];
    assert Wellformed(c);
    TiledFacts(cfg, b.heap.cells, b.heap.top);
    assert Holds(b.heap.cells, c.at, OBJECT);
    assert Traced(b.heap.cells, c.at);
  }

  lemma EnteredProper(cells: seq<Cell>, i: nat)
    requires AllWellformed(cells) && i < |cells| && PENDING in cells[i].flags
    ensures SameBlocks(cells, cells[i := Entered(cells[i])]) && FlagsProper(cells[i := Entered(cells[i])])
  {
    Proper(cells);
    assert Wellformed(cells[i]);
  }

  lemma ClearedProper(cells: seq<Cell>)
    requires AllWellformed(cells)
    ensures SameBlocks(cells, ClearAll(cells)) && FlagsProper(ClearAll(cells))
  {
    Proper(cells);
  }

  // ---- Collections --------------------------------------------------------------------------------

  lemma {:induction false} TargetIn(cfg: Config, cells: seq<Cell>, payloads: Payloads, refs: seq<Ref>, r: Ref)
    requires r in refs && Target(cfg, cells, payloads, r) != NULL
    ensures Target(cfg, cells, payloads, r) in Targets(cfg, cells, payloads, refs)
  {
    if r != refs[0] { TargetIn(cfg, cells, payloads, refs[1..], r); }
  }

  lemma ChainOf(cfg: Config, b: Blocks)
    requires HeapSound(cfg, b)
    ensures Chain(cfg, b.heap.cells, b.payloads, b.heap.top)
    ensures forall r :: r in Roots(b) ==> Typed(r)
  {
    var cells := b.heap.cells;
    TiledFacts(cfg, cells, b.heap.top);
    forall i | 0 <= i < |cells| && (OBJECT in cells[i].flags || ARRAY in cells[i].flags)
      ensures cells[i].at in b.payloads
    {
      assert Wellformed(cells[i]);
      assert OBJECT in cells[i].flags ==> Holds(cells, cells[i].at, OBJECT);
      assert ARRAY in cells[i].flags ==> Holds(cells, cells[i].at, ARRAY);
      assert Traced(cells, cells[i].at);
    }
    hide Shape, Ordered, Traced, Roots;
  }

  /** No audit of a run meets an invalid reference. */
  lemma RunsHealthy(cfg: Config, b: Blocks)
    requires HeapSound(cfg, b)
    ensures Healthy(cfg, b.heap.cells, b.payloads, Roots(b))
  {
    hide Shape, Roots, Targets;
  }

  /** What the sweep leaves of a slot whose block, if any, was reached. */
  lemma SlotSwept(cfg: Config, before: seq<Cell>, marked: seq<Cell>, payloads: Payloads, roots: seq<Ref>, epoch: int,
                  top: int, r: Ref)
    requires Chain(cfg, before, payloads, top) && SameButMark(before, marked)
    requires C.Exact(cfg, before, marked, payloads, roots, epoch)
    requires Typed(r) && var t := Target(cfg, before, payloads, r); t != NULL ==>
               Reached(cfg, before, payloads, roots, t)
    ensures Target(cfg, SweepSpec.Swept(cfg, marked, epoch), payloads, r) == Target(cfg, before, payloads, r)
  {
    var after := SweepSpec.Swept(cfg, marked, epoch);
    hide Chain, Reached, C.Exact, SweepSpec.Swept, Holds, SameButMark;
    if r.To? {
      SweptReached(cfg, before, marked, payloads, roots, epoch, top, r.address - cfg.header, r.kind);
    }
  }

  lemma FineSwept(cfg: Config, before: seq<Cell>, marked: seq<Cell>, payloads: Payloads, roots: seq<Ref>, epoch: int,
                  top: int, r: Ref)
    requires Chain(cfg, before, payloads, top) && SameButMark(before, marked)
    requires C.Exact(cfg, before, marked, payloads, roots, epoch)
    requires Fine(cfg, before, payloads, r)
    requires var t := Target(cfg, before, payloads, r); t != NULL ==> Reached(cfg, before, payloads, roots, t)
    ensures Fine(cfg, SweepSpec.Swept(cfg, marked, epoch), payloads, r)
  {
    hide Chain, Reached, C.Exact, SweepSpec.Swept, Target, SameButMark;
    SlotSwept(cfg, before, marked, payloads, roots, epoch, top, r);
  }

  lemma TracedSwept(cfg: Config, before: seq<Cell>, marked: seq<Cell>, payloads: Payloads, roots: seq<Ref>, epoch: int,
                    top: int, x: int)
    requires Chain(cfg, before, payloads, top) && SameButMark(before, marked)
    requires C.Exact(cfg, before, marked, payloads, roots, epoch)
    ensures var after := SweepSpec.Swept(cfg, marked, epoch);
            && (Traced(after, x) <==> Traced(before, x) && Reached(cfg, before, payloads, roots, x))
            && (Managed(after, x) <==> Managed(before, x) && Reached(cfg, before, payloads, roots, x))
  {
    SweptReached(cfg, before, marked, payloads, roots, epoch, top, x, OBJECT);
    SweptReached(cfg, before, marked, payloads, roots, epoch, top, x, ARRAY);
    SweptReached(cfg, before, marked, payloads, roots, epoch, top, x, STRING);
    hide Chain, Reached, C.Exact, SweepSpec.Swept, Holds;
  }

  /** What a block that was reached refers to was reached. */
  lemma SlotReached(cfg: Config, cells: seq<Cell>, payloads: Payloads, roots: seq<Ref>, x: int, r: Ref)
    requires AllTyped(payloads) && Traced(cells, x) && x in payloads && Reached(cfg, cells, payloads, roots, x)
    requires r in payloads[x].refs
    requires Target(cfg, cells, payloads, r) != NULL
    ensures Reached(cfg, cells, payloads, roots, Target(cfg, cells, payloads, r))
  {
    var t := Target(cfg, cells, payloads, r);
    TargetIn(cfg, cells, payloads, payloads[x].refs, r);
    TargetsManaged(cfg, cells, payloads, payloads[x].refs);
    ManagedOffset(cells, x);
    ReachStep(GraphOf(cfg, cells, payloads), Targets(cfg, cells, payloads, roots), x, t);
  }

  lemma RootReached(cfg: Config, cells: seq<Cell>, payloads: Payloads, roots: seq<Ref>, r: Ref)
    requires (forall q :: q in roots ==> Typed(q)) && r in roots && Target(cfg, cells, payloads, r) != NULL
    ensures Reached(cfg, cells, payloads, roots, Target(cfg, cells, payloads, r))
  {
    TargetIn(cfg, cells, payloads, roots, r);
    TargetsManaged(cfg, cells, payloads, roots);
    ReachRoot(GraphOf(cfg, cells, payloads), Targets(cfg, cells, payloads, roots), Target(cfg, cells, payloads, r));
  }

  /** After a sweep every slot of the roots and of the survivors still names its block. */
  lemma SweptFine(cfg: Config, b: Blocks, marked: seq<Cell>, epoch: int)
    requires HeapSound(cfg, b) && SameButMark(b.heap.cells, marked)
    requires C.Exact(cfg, b.heap.cells, marked, b.payloads, Roots(b), epoch)
    ensures var after := SweepSpec.Swept(cfg, marked, epoch);
            PayloadsFine(cfg, after, b.payloads) && AllFine(cfg, after, b.payloads, Roots(b))
  {
    var before, after, payloads, roots := b.heap.cells, SweepSpec.Swept(cfg, marked, epoch), b.payloads, Roots(b);
    ChainOf(cfg, b);
    HeapParts(cfg, b);
    hide Shape, HeapSound, Chain, Reached, C.Exact, SweepSpec.Swept, Fine, Holds, Target, Targets, Traced, Managed,
         Roots, Typed;
    forall r | r in roots ensures Fine(cfg, after, payloads, r) {
      if Target(cfg, before, payloads, r) != NULL { RootReached(cfg, before, payloads, roots, r); }
      FineSwept(cfg, before, marked, payloads, roots, epoch, b.heap.top, r);
    }
    forall x | Traced(after, x)
      ensures x in payloads && payloads[x].accepted && AllFine(cfg, after, payloads, payloads[x].refs)
    {
      TracedSwept(cfg, before, marked, payloads, roots, epoch, b.heap.top, x);
      forall r | r in payloads[x].refs ensures Fine(cfg, after, payloads, r) {
        if Target(cfg, before, payloads, r) != NULL { SlotReached(cfg, before, payloads, roots, x, r); }
        FineSwept(cfg, before, marked, payloads, roots, epoch, b.heap.top, r);
      }
    }
  }

  /** `CollectObjects`, run on the arena in this state, is such a step. */
  method RunCollection(h: Heap.Arena, ghost b: Blocks, payloads: Payloads, refs: seq<Ref>, epoch: int,
                       ghost t: nat) returns (epoch': int, ghost act: Act)
    requires h.Valid() && b.heap == HeapSpec.View(h.cells, h.list, h.top) && Sound(h.cfg, b)
    requires payloads == b.payloads && refs == Roots(b) && epoch == b.epoch
    modifies h`mem, h`free, h`last, h`count, h`bytes, h`cells, h`list
    ensures h.Valid() && act.Collect? && act.t == t && act.epoch == epoch' && Collects(h.cfg, b, act)
    ensures act.after == HeapSpec.View(h.cells, h.list, h.top)
  {
    ChainOf(h.cfg, b);
    var outcome;
    ghost var marked;
    outcome, epoch', marked := C.CollectObjects(h, payloads, refs, epoch, true);
    act := Collect(t, marked, HeapSpec.View(h.cells, h.list, h.top), epoch', outcome);
  }

  /** A collection never ends with an invalid reference, and leaves the managed blocks as they were, up to
      finalizer flags, or sweeps. */
  lemma CollectsIs(cfg: Config, b: Blocks, act: Act)
    requires HeapSound(cfg, b) && act.Collect? && Collects(cfg, b, act)
    ensures !act.outcome.Invalid? && !act.outcome.Refused?
    ensures SameButMark(b.heap.cells, act.marked)
    ensures C.Exact(cfg, b.heap.cells, act.marked, b.payloads, Roots(b), act.epoch)
    ensures Shape(cfg, act.after.cells, act.after.list, act.after.top)
    ensures if act.outcome.Reclaimed? then act.after.cells == SweepSpec.Swept(cfg, act.marked, act.epoch)
            else SameBlocks(b.heap.cells, act.after.cells)
  {
    RunsHealthy(cfg, b);
    hide HeapSound, Shape, Healthy, C.Exact, Roots;
  }

  lemma CollectionSound(cfg: Config, b: Blocks, act: Act)
    requires HeapSound(cfg, b) && act.Collect? && Collects(cfg, b, act)
    ensures HeapSound(cfg, Collection(cfg, b, act))
  {
    var b' := Collection(cfg, b, act);
    CollectsIs(cfg, b, act);
    assert Roots(b') == Roots(b);
    hide *;
    if act.outcome.Reclaimed? {
      SweptFine(cfg, b, act.marked, act.epoch);
      SweptBirths(cfg, b, act);
      HeapParts(cfg, b);
      HeapWhole(cfg, b');
    } else {
      SameBlocksManaged(b.heap.cells, act.after.cells);
      KeptBirths(cfg, b, act);
      Steady(cfg, b, b');
    }
  }

  lemma CollectionMarks(cfg: Config, b: Blocks, act: Act)
    requires act.Collect? && Collects(cfg, b, act)
    ensures C.MarksUpTo(Collection(cfg, b, act).heap.cells, act.epoch)
  {
    C.CollectedMarks(cfg, b.heap.cells, act.marked, act.after.cells, b.payloads, Roots(b), act.epoch, act.outcome);
  }

  lemma KeptBirths(cfg: Config, b: Blocks, act: Act)
    requires HeapSound(cfg, b) && act.Collect? && SameManaged(b.heap.cells, act.after.cells)
    ensures Collection(cfg, b, act).births == b.births
  {
    forall x
      ensures Managed(b.heap.cells, x) <==> Managed(act.after.cells, x)
    {
      ManagedSame(b.heap.cells, act.after.cells, x);
    }
    hide Managed;
  }

  lemma SweptBirths(cfg: Config, b: Blocks, act: Act)
    requires HeapSound(cfg, b) && act.Collect? && act.after.cells == SweepSpec.Swept(cfg, act.marked, act.epoch)
    requires SameButMark(b.heap.cells, act.marked)
    requires C.Exact(cfg, b.heap.cells, act.marked, b.payloads, Roots(b), act.epoch)
    ensures forall x :: x in Collection(cfg, b, act).births <==> Managed(act.after.cells, x)
  {
    ChainOf(cfg, b);
    forall x ensures Managed(act.after.cells, x) ==> Managed(b.heap.cells, x) {
      TracedSwept(cfg, b.heap.cells, act.marked, b.payloads, Roots(b), act.epoch, b.heap.top, x);
    }
    hide Managed, Chain, C.Exact, Roots;
  }

  // ---- Marks --------------------------------------------------------------------------------------

  lemma ServedMarks(cfg: Config, v: HeapSpec.View, need: int, size: int, kind: Flag, epoch: int)
    requires Shape(cfg, v.cells, v.list, v.top) && C.MarksUpTo(v.cells, epoch)
    ensures C.MarksUpTo(Served(cfg, v, need, size, kind).0.cells, epoch)
  {
    if FirstFit(v.cells, v.list, need) < |v.list| {
      var i := FreeIndex(cfg, v.cells, v.list, v.top, FirstFit(v.cells, v.list, need));
    }
  }

  lemma ReleasedMarks(cfg: Config, cells: seq<Cell>, i: nat, epoch: int)
    requires C.MarksUpTo(cells, epoch) && i < |cells|
    ensures C.MarksUpTo(Released(cfg, cells, i), epoch)
  {
  }

  /** No step of user code gets a header ahead of the epoch. */
  lemma MutateMarks(cfg: Config, b: Blocks, act: Act)
    requires Managing(act) && HeapSound(cfg, b) && MayRun(b, act.t) && C.MarksUpTo(b.heap.cells, b.epoch)
    ensures var b' := Mutate(cfg, b, act); b'.epoch == b.epoch && C.MarksUpTo(b'.heap.cells, b.epoch)
  {
    match act {
      case Alloc(_, need, size, kind, _, _) => ServedMarks(cfg, b.heap, need, size, kind, b.epoch);
      case AllocRaw(_, need, size) => ServedMarks(cfg, b.heap, need, size, RAW, b.epoch);
      case FreeRaw(_, i) => if i < |b.heap.cells| { ReleasedMarks(cfg, b.heap.cells, i, b.epoch); }
      case _ =>
    }
    hide HeapSound, Served, Released, ReleasedList, Holding, Removed;
  }

  // ---- Every step ---------------------------------------------------------------------------------

  /** Steps of managed code that only move references. */
  lemma MoveSound(cfg: Config, b: Blocks, act: Act)
    requires act.Load? || act.Literal? || act.Drop? || act.Publish? || act.Fetch? || act.Retract?
    requires HeapSound(cfg, b) && MayRun(b, act.t)
    ensures HeapSound(cfg, Mutate(cfg, b, act))
  {
    var b' := Mutate(cfg, b, act);
    SameSelf(b.heap.cells);
    forall r | r in Roots(b') ensures r in Roots(b) || Fine(cfg, b.heap.cells, b.payloads, r) {
      RootsIn(b, r);
      RootsIn(b', r);
      MovedRef(cfg, b, act, r);
    }
    assert b'.heap == b.heap && b'.payloads == b.payloads && b'.births == b.births;
    hide *;
    HeapParts(cfg, b);
    Steady(cfg, b, b');
  }

  lemma RemovedIn(s: seq<Ref>, i: nat, r: Ref)
    requires r in Removed(s, i)
    ensures r in s
  {
  }

  /** Where a reference that user code holds after a step comes from. */
  lemma MovedRef(cfg: Config, b: Blocks, act: Act, r: Ref)
    requires act.Load? || act.Literal? || act.Drop? || act.Publish? || act.Fetch? || act.Retract?
    requires HeapSound(cfg, b) && MayRun(b, act.t)
    requires var b' := Mutate(cfg, b, act); r in b'.globals || exists u :: 0 <= u < |b'.locals| && r in b'.locals[u]
    ensures r in Roots(b) || Fine(cfg, b.heap.cells, b.payloads, r)
  {
    var b' := Mutate(cfg, b, act);
    RootsIn(b, r);
    if act.Drop? && r in Removed(b.locals[act.t], act.i) { RemovedIn(b.locals[act.t], act.i, r); }
    if act.Retract? && r in Removed(b.globals, act.i) { RemovedIn(b.globals, act.i, r); }
    if u :| 0 <= u < |b'.locals| && r in b'.locals[u] { assert u != act.t ==> r in b.locals[u]; }
    hide Shape, Roots, Targets, Target, Removed;
  }

  predicate Moves(act: Act) { act.Load? || act.Literal? || act.Drop? || act.Publish? || act.Fetch? || act.Retract? }

  predicate Managing(act: Act) {
    !act.Protocol? && !act.Collect? && !act.Return? && !act.Escape? && !act.Finish?
  }

  lemma MutateHeapSound(cfg: Config, b: Blocks, act: Act)
    requires Managing(act) && HeapSound(cfg, b) && MayRun(b, act.t)
    ensures HeapSound(cfg, Mutate(cfg, b, act))
  {
    if Moves(act) {
      MoveSound(cfg, b, act);
    } else if Mutate(cfg, b, act) != b {
      match act {
        case Store(t, x, k, v) => StoreSound(cfg, b, t, x, k, v);
        case Alloc(_, _, _, _, _, _) => AllocSound(cfg, b, act);
        case AllocRaw(_, need, size) => RawTaken(cfg, b.heap, need, size); RawSound(cfg, b, Mutate(cfg, b, act));
        case FreeRaw(_, i) => RawFreed(cfg, b.heap, i); RawSound(cfg, b, Mutate(cfg, b, act));
        case Enter(t, i) => EnterSound(cfg, b, t, i);
      }
    }
    hide HeapSound, Allocate, Served, Released, ReleasedList, Holding, Removed;
  }

  lemma RawSound(cfg: Config, b: Blocks, b': Blocks)
    requires HeapSound(cfg, b) && Shape(cfg, b'.heap.cells, b'.heap.list, b'.heap.top)
    requires SameSeen(b.heap.cells, b'.heap.cells)
    requires b' == b.(heap := b'.heap)
    ensures HeapSound(cfg, b')
  {
    SeenManaged(b.heap.cells, b'.heap.cells);
    assert Roots(b') == Roots(b);
    hide *;
    Steady(cfg, b, b');
  }

  /** Managed code touches no frame but its task's. */
  lemma MutateFrames(cfg: Config, b: Blocks, act: Act)
    requires Managing(act) && MayRun(b, act.t)
    ensures var b' := Mutate(cfg, b, act);
            b'.h == b.h && |b'.locals| == |b.locals|
            && forall u :: 0 <= u < |b.locals| && u != act.t ==> b'.locals[u] == b.locals[u]
  {
    hide Served, Released, ReleasedList, Holding, Removed;
  }

  lemma MutateSound(cfg: Config, b: Blocks, act: Act)
    requires Managing(act) && Sound(cfg, b) && MayRun(b, act.t)
    ensures Sound(cfg, Mutate(cfg, b, act))
  {
    MutateHeapSound(cfg, b, act);
    MutateFrames(cfg, b, act);
    MutateMarks(cfg, b, act);
    hide HeapSound, Mutate, S.Inv;
  }

  lemma ExchangeSound(cfg: Config, W: nat, b: Blocks, t: nat, call: H.Call)
    requires W > 0 && Sound(cfg, b) && S.Fresh(W, b.h) && t < |b.h.tasks|
    ensures Sound(cfg, Exchange(W, b, t, call))
  {
    var b' := Exchange(W, b, t, call);
    Runs.StepOutside(W, b.h, t, call);
    SameSelf(b.heap.cells);
    assert b'.locals == b.locals[t := b'.locals[t]] && (b'.locals[t] == [] || b'.locals[t] == b.locals[t]);
    forall r | r in Roots(b') ensures r in Roots(b) {
      LocalsRoots(b, b', t, r);
      if r in b.locals[t] { LocalRoot(b, t, r); }
    }
    HeapParts(cfg, b);
    Steady(cfg, b, b');
    hide HeapSound, S.Inv, H.Step, Roots;
  }

  /** Every act of every task keeps the whole sound. */
  lemma DoSound(cfg: Config, W: nat, b: Blocks, act: Act)
    requires W > 0 && Sound(cfg, b) && S.Fresh(W, b.h)
    ensures Sound(cfg, Do(cfg, W, b, act))
  {
    hide HeapSound, Mutate, Exchange, Collects;
    if act.Protocol? {
      if act.t < |b.h.tasks| { ExchangeSound(cfg, W, b, act.t, act.call); }
    } else if act.Collect? {
      if Collects(cfg, b, act) {
        CollectionSound(cfg, b, act);
        CollectionMarks(cfg, b, act);
      }
    } else if act.Return? || act.Finish? {
      PhaseSound(cfg, b, Do(cfg, W, b, act));
    } else if act.Escape? {
      EscapeSound(cfg, b);
    } else if MayRun(b, act.t) {
      MutateSound(cfg, b, act);
    }
    hide S.Inv;
  }

  lemma PhaseSound(cfg: Config, b: Blocks, b': Blocks)
    requires HeapSound(cfg, b) && b' == b.(phase := b'.phase)
    ensures HeapSound(cfg, b')
  {
    assert Roots(b') == Roots(b);
    hide Shape, PayloadsFine, AllFine, AllTyped;
  }

  lemma EscapeSound(cfg: Config, b: Blocks)
    requires HeapSound(cfg, b)
    ensures HeapSound(cfg, b.(heap := b.heap.(cells := ClearAll(b.heap.cells)), phase := F.Idle))
  {
    var b' := b.(heap := b.heap.(cells := ClearAll(b.heap.cells)), phase := F.Idle);
    ClearedProper(b.heap.cells);
    assert Roots(b') == Roots(b);
    hide *;
    FlagsSound(cfg, b, b');
  }

  lemma OutsetSound(cfg: Config, n: nat, m: nat)
    requires cfg.Valid()
    ensures Sound(cfg, Outset(n, m))
  {
    S.InitInv(n, m);
    var b := Outset(n, m);
    forall r ensures r !in Roots(b) { RootsIn(b, r); }
    assert Shape(cfg, [], [], 0) by { assert HeapSpec.View([], [], 0).cells == []; }
  }

  /** At every moment before the end, acknowledgements of older requests can be told from the newest. */
  ghost predicate Timely(cfg: Config, W: nat, b: Blocks, acts: seq<Act>)
    requires W > 0
  {
    acts != [] ==> S.Fresh(W, DoAll(cfg, W, b, acts[..|acts| - 1]).h) && Timely(cfg, W, b, acts[..|acts| - 1])
  }

  /** In every run every slot that user code can hold names a live block of its kind, or a literal, and so
      does every slot of every live block; and the chain and its free list keep their shape. */
  lemma {:induction false} RunSound(cfg: Config, W: nat, n: nat, m: nat, acts: seq<Act>)
    requires W > 0 && cfg.Valid() && Timely(cfg, W, Outset(n, m), acts)
    ensures Sound(cfg, DoAll(cfg, W, Outset(n, m), acts))
  {
    hide *;
    if acts == [] {
      OutsetSound(cfg, n, m);
      NoActs(cfg, W, Outset(n, m));
    } else {
      var before := acts[..|acts| - 1];
      LastAct(cfg, W, Outset(n, m), acts);
      RunSound(cfg, W, n, m, before);
      DoSound(cfg, W, DoAll(cfg, W, Outset(n, m), before), acts[|acts| - 1]);
    }
  }

  /** Slots as a task can read them one after another, from a root, by address alone: whether the address
      still is that of a live block is not asked. */
  ghost predicate SlotChain(cfg: Config, b: Blocks, p: seq<Ref>) {
    && p != [] && p[0] in Roots(b)
    && forall i :: 0 <= i < |p| - 1 ==> Follows(cfg, b, p[i], p[i + 1])
  }

  ghost predicate Follows(cfg: Config, b: Blocks, r: Ref, q: Ref) {
    r.To? && r.kind != STRING && r.address - cfg.header in b.payloads && q in b.payloads[r.address - cfg.header].refs
  }

  lemma FollowsFine(cfg: Config, b: Blocks, r: Ref, q: Ref)
    requires HeapSound(cfg, b) && Fine(cfg, b.heap.cells, b.payloads, r) && Follows(cfg, b, r, q)
    ensures Fine(cfg, b.heap.cells, b.payloads, q)
  {
    hide Shape, Roots;
    assert Traced(b.heap.cells, r.address - cfg.header);
  }

  lemma {:induction false} ChainFine(cfg: Config, b: Blocks, p: seq<Ref>)
    requires HeapSound(cfg, b) && SlotChain(cfg, b, p)
    ensures Fine(cfg, b.heap.cells, b.payloads, p[|p| - 1])
  {
    if |p| > 1 {
      var front := p[..|p| - 1];
      forall i | 0 <= i < |front| - 1 ensures Follows(cfg, b, front[i], front[i + 1]) {
        assert Follows(cfg, b, p[i], p[i + 1]);
      }
      assert Follows(cfg, b, p[|p| - 2], p[|p| - 1]);
      hide Shape, Roots, Fine, Follows, HeapSound;
      ChainFine(cfg, b, front);
      FollowsFine(cfg, b, p[|p| - 2], p[|p| - 1]);
    }
  }

  /** In every run, whatever chain of slots a task follows from the roots, the slot it ends at is empty, a
      literal, or names a live block of its kind; so it never reads what was freed. */
  lemma BlocksSafe(cfg: Config, W: nat, n: nat, m: nat, acts: seq<Act>, p: seq<Ref>)
    requires W > 0 && cfg.Valid() && Timely(cfg, W, Outset(n, m), acts)
    requires SlotChain(cfg, DoAll(cfg, W, Outset(n, m), acts), p)
    ensures var b := DoAll(cfg, W, Outset(n, m), acts);
            Fine(cfg, b.heap.cells, b.payloads, p[|p| - 1])
  {
    RunSound(cfg, W, n, m, acts);
    ChainFine(cfg, DoAll(cfg, W, Outset(n, m), acts), p);
    hide HeapSound, Fine, SlotChain;
  }

  lemma NoActs(cfg: Config, W: nat, b: Blocks)
    requires W > 0
    ensures DoAll(cfg, W, b, []) == b
  {
  }

  lemma LastAct(cfg: Config, W: nat, b: Blocks, acts: seq<Act>)
    requires W > 0 && acts != []
    ensures DoAll(cfg, W, b, acts) == Do(cfg, W, DoAll(cfg, W, b, acts[..|acts| - 1]), acts[|acts| - 1])
    ensures Timely(cfg, W, b, acts) ==>
              S.Fresh(W, DoAll(cfg, W, b, acts[..|acts| - 1]).h) && Timely(cfg, W, b, acts[..|acts| - 1])
  {
    hide Do;
  }

  /** At most W requests begin in the run. */
  ghost predicate Few(cfg: Config, W: nat, b: Blocks, acts: seq<Act>)
    requires W > 0
  {
    DoAll(cfg, W, b, acts).h.begun <= W && (acts != [] ==> Few(cfg, W, b, acts[..|acts| - 1]))
  }

  lemma FewStep(cfg: Config, W: nat, b: Blocks, acts: seq<Act>)
    requires W > 0 && acts != []
    ensures Few(cfg, W, b, acts) ==>
              Few(cfg, W, b, acts[..|acts| - 1]) && DoAll(cfg, W, b, acts[..|acts| - 1]).h.begun <= W
    ensures Timely(cfg, W, b, acts) <==>
              S.Fresh(W, DoAll(cfg, W, b, acts[..|acts| - 1]).h) && Timely(cfg, W, b, acts[..|acts| - 1])
  {
    hide DoAll;
  }

  /** Runs with at most W requests are timely. */
  lemma {:induction false} FewTimely(cfg: Config, W: nat, n: nat, m: nat, acts: seq<Act>)
    requires W > 0 && cfg.Valid() && Few(cfg, W, Outset(n, m), acts)
    ensures Timely(cfg, W, Outset(n, m), acts)
  {
    if acts != [] {
      var front := acts[..|acts| - 1];
      hide *;
      FewStep(cfg, W, Outset(n, m), acts);
      FewTimely(cfg, W, n, m, front);
      RunSound(cfg, W, n, m, front);
      SoundInv(cfg, DoAll(cfg, W, Outset(n, m), front));
      Runs.WithinFresh(W, DoAll(cfg, W, Outset(n, m), front).h);
    }
  }

  lemma SoundInv(cfg: Config, b: Blocks)
    requires Sound(cfg, b)
    ensures S.Inv(b.h)
  {
  }
}
