/** Every run on the block chain is a run of mutators, protocol and stepwise collections over abstract
    objects: what holds of those runs holds of the blocks. */
module BlockSafety {
  import opened HeapModel
  import opened HeapSpec
  import opened MarkSpec
  import opened Graph
  import opened Finalize
  import opened FinalizerRefinement
  import opened BlockRuns
  import H = Handshake
  import P = HandshakeSafety
  import S = CollectionSafety
  import Whole = CollectionWhole
  import C = Collect
  import F = Finalizers
  import SweepSpec
  import Sequences

  // ---- The abstract world of a chain --------------------------------------------------------------

  ghost function Field(cfg: Config, cells: seq<Cell>, payloads: Payloads, x: int): (s: seq<int>)
    ensures |s| == if Traced(cells, x) && x in payloads then |payloads[x].refs| else 0
    ensures forall i :: 0 <= i < |s| ==> s[i] == Target(cfg, cells, payloads, payloads[x].refs[i])
  {
    if Traced(cells, x) && x in payloads then
      seq(|payloads[x].refs|,
          i requires 0 <= i < |payloads[x].refs| => Target(cfg, cells, payloads, payloads[x].refs[i]))
    else []
  }

  ghost function Objects(cfg: Config, cells: seq<Cell>, payloads: Payloads): map<int, seq<int>> {
    map x | x in Offsets(cells) && Managed(cells, x) :: Field(cfg, cells, payloads, x)
  }

  ghost function FrameSets(cfg: Config, cells: seq<Cell>, payloads: Payloads, locals: seq<seq<Ref>>): (s: seq<set<int>>)
    ensures |s| == |locals| && forall t :: 0 <= t < |s| ==> s[t] == Targets(cfg, cells, payloads, locals[t])
  {
    seq(|locals|, t requires 0 <= t < |locals| => Targets(cfg, cells, payloads, locals[t]))
  }

  ghost function WorldOf(cfg: Config, b: Blocks): S.World {
    S.World(b.h, Objects(cfg, b.heap.cells, b.payloads), FrameSets(cfg, b.heap.cells, b.payloads, b.locals),
            Targets(cfg, b.heap.cells, b.payloads, b.globals), S.Idle)
  }

  lemma ObjectKeys(cfg: Config, cells: seq<Cell>, payloads: Payloads, x: int)
    ensures x in Objects(cfg, cells, payloads) <==> Managed(cells, x)
  {
    ManagedOffset(cells, x);
  }

  // ---- Sets of targets ----------------------------------------------------------------------------

  lemma {:induction false} TargetsIff(cfg: Config, cells: seq<Cell>, payloads: Payloads, refs: seq<Ref>, x: int)
    ensures x in Targets(cfg, cells, payloads, refs) <==>
              x != NULL && exists r :: r in refs && Target(cfg, cells, payloads, r) == x
  {
    if refs != [] {
      TargetsIff(cfg, cells, payloads, refs[1..], x);
      assert forall r :: r in refs <==> r == refs[0] || r in refs[1..];
    }
  }

  lemma TargetsAdd(cfg: Config, cells: seq<Cell>, payloads: Payloads, refs: seq<Ref>, r: Ref)
    ensures var t := Target(cfg, cells, payloads, r);
            Targets(cfg, cells, payloads, refs + [r]) ==
              Targets(cfg, cells, payloads, refs) + if t == NULL then {} else {t}
  {
    var t := Target(cfg, cells, payloads, r);
    forall x
      ensures x in Targets(cfg, cells, payloads, refs + [r]) <==>
                x in Targets(cfg, cells, payloads, refs) || (t != NULL && x == t)
    {
      TargetsIff(cfg, cells, payloads, refs + [r], x);
      TargetsIff(cfg, cells, payloads, refs, x);
    }
    hide Target;
  }

  /** Removing a slot removes its target, unless another slot has it too. */
  lemma TargetsRemoved(cfg: Config, cells: seq<Cell>, payloads: Payloads, refs: seq<Ref>, i: nat)
    requires i < |refs|
    ensures var t, rest := Target(cfg, cells, payloads, refs[i]), Targets(cfg, cells, payloads, Removed(refs, i));
            Targets(cfg, cells, payloads, refs) == rest + if t == NULL then {} else {t}
  {
    var t, rest := Target(cfg, cells, payloads, refs[i]), Removed(refs, i);
    assert forall r :: r in refs <==> r == refs[i] || r in rest by {
      assert refs == refs[..i] + [refs[i]] + refs[i + 1..];
    }
    forall x
      ensures x in Targets(cfg, cells, payloads, refs) <==>
                x in Targets(cfg, cells, payloads, rest) || (t != NULL && x == t)
    {
      TargetsIff(cfg, cells, payloads, refs, x);
      TargetsIff(cfg, cells, payloads, rest, x);
    }
    hide Target;
  }

  lemma {:induction false} TargetsAgree(cfg: Config, a: seq<Cell>, p: Payloads, b: seq<Cell>, q: Payloads,
                                        refs: seq<Ref>)
    requires forall r :: r in refs ==> Target(cfg, a, p, r) == Target(cfg, b, q, r)
    ensures Targets(cfg, a, p, refs) == Targets(cfg, b, q, refs)
  {
    if refs != [] {
      assert refs[0] in refs;
      TargetsAgree(cfg, a, p, b, q, refs[1..]);
    }
  }

  lemma FieldsOf(cfg: Config, cells: seq<Cell>, payloads: Payloads, x: int)
    ensures S.Fields(Field(cfg, cells, payloads, x))
         == if Traced(cells, x) && x in payloads then Targets(cfg, cells, payloads, payloads[x].refs) else {}
  {
    if Traced(cells, x) && x in payloads {
      var refs := payloads[x].refs;
      forall y ensures y in S.Fields(Field(cfg, cells, payloads, x)) <==> y in Targets(cfg, cells, payloads, refs) {
        TargetsIff(cfg, cells, payloads, refs, y);
        if r :| r in refs && Target(cfg, cells, payloads, r) == y {
          var i :| 0 <= i < |refs| && refs[i] == r;
          assert Field(cfg, cells, payloads, x)[i] == y;
        }
      }
    }
    hide Target, Targets;
  }

  lemma {:induction false} FramesFlat(cfg: Config, cells: seq<Cell>, payloads: Payloads, locals: seq<seq<Ref>>, x: int)
    ensures x in S.Frames(FrameSets(cfg, cells, payloads, locals)) <==> x in Targets(cfg, cells, payloads, Flat(locals))
  {
    var sets := FrameSets(cfg, cells, payloads, locals);
    TargetsIff(cfg, cells, payloads, Flat(locals), x);
    if t :| 0 <= t < |sets| && x in sets[t] {
      TargetsIff(cfg, cells, payloads, locals[t], x);
      var r :| r in locals[t] && Target(cfg, cells, payloads, r) == x;
      FlatIn(locals, r);
    }
    if r :| r in Flat(locals) && Target(cfg, cells, payloads, r) == x {
      FlatIn(locals, r);
      var t :| 0 <= t < |locals| && r in locals[t];
      TargetsIff(cfg, cells, payloads, locals[t], x);
      assert x != NULL ==> x in sets[t];
    }
    hide Target, Targets, Flat;
  }

  /** The roots of the world are the blocks the root slots lead to. */
  lemma WorldRoots(cfg: Config, b: Blocks)
    ensures S.Roots(WorldOf(cfg, b)) == Targets(cfg, b.heap.cells, b.payloads, Roots(b))
  {
    var cells, payloads := b.heap.cells, b.payloads;
    forall x ensures x in S.Roots(WorldOf(cfg, b)) <==> x in Targets(cfg, cells, payloads, Roots(b)) {
      FramesFlat(cfg, cells, payloads, b.locals, x);
      TargetsIff(cfg, cells, payloads, Roots(b), x);
      TargetsIff(cfg, cells, payloads, b.globals, x);
      TargetsIff(cfg, cells, payloads, Flat(b.locals), x);
    }
    hide Target, Targets, S.Frames, Flat;
  }

  // ---- The abstract world is sound ----------------------------------------------------------------

  lemma ObjectsClosed(cfg: Config, cells: seq<Cell>, payloads: Payloads)
    requires AllTyped(payloads)
    ensures var heap := Objects(cfg, cells, payloads); S.Closed(heap, heap.Keys)
  {
    var heap := Objects(cfg, cells, payloads);
    forall x, y | x in heap && y in S.Fields(heap[x]) ensures y in heap {
      FieldsOf(cfg, cells, payloads, x);
      TargetsManaged(cfg, cells, payloads, payloads[x].refs);
      ObjectKeys(cfg, cells, payloads, y);
    }
    hide Field, Targets, Target;
  }

  lemma RootKeys(cfg: Config, b: Blocks)
    requires HeapSound(cfg, b)
    ensures var w := WorldOf(cfg, b); NULL !in S.Roots(w) && S.Roots(w) <= w.heap.Keys
  {
    var w := WorldOf(cfg, b);
    ChainOf(cfg, b);
    WorldRoots(cfg, b);
    TargetsManaged(cfg, b.heap.cells, b.payloads, Roots(b));
    TargetsIff(cfg, b.heap.cells, b.payloads, Roots(b), NULL);
    forall x | x in S.Roots(w) ensures x in w.heap { ObjectKeys(cfg, b.heap.cells, b.payloads, x); }
    hide Roots, Targets, Objects, HeapSound;
  }

  lemma WorldSound(cfg: Config, b: Blocks)
    requires Sound(cfg, b)
    ensures S.Sound(WorldOf(cfg, b))
  {
    HeapParts(cfg, b);
    ObjectsClosed(cfg, b.heap.cells, b.payloads);
    RootKeys(cfg, b);
    hide HeapSound, Objects, Targets, S.Roots, S.Closed, P.Inv;
  }

  // ---- Reachability -------------------------------------------------------------------------------

  lemma EdgeOf(cfg: Config, cells: seq<Cell>, payloads: Payloads, x: int)
    ensures x in GraphOf(cfg, cells, payloads) <==> x in Objects(cfg, cells, payloads)
    ensures x in GraphOf(cfg, cells, payloads) ==>
              GraphOf(cfg, cells, payloads)[x] == S.Fields(Objects(cfg, cells, payloads)[x])
  {
    FieldsOf(cfg, cells, payloads, x);
    hide Field, Targets;
  }

  /** A chain of references of the world is a path in the object graph, and the other way round. */
  lemma {:induction false} ChainPath(cfg: Config, cells: seq<Cell>, payloads: Payloads, roots: set<int>, p: seq<int>)
    requires AllTyped(payloads) && roots <= Objects(cfg, cells, payloads).Keys
    ensures S.Chain(Objects(cfg, cells, payloads), roots, p) <==>
              Path(GraphOf(cfg, cells, payloads), p) && p[0] in roots
    decreases |p|
  {
    var g, heap := GraphOf(cfg, cells, payloads), Objects(cfg, cells, payloads);
    ObjectsClosed(cfg, cells, payloads);
    if |p| == 1 {
      EdgeOf(cfg, cells, payloads, p[0]);
    } else if |p| > 1 {
      var n := |p| - 1;
      var front := p[..n];
      ChainPath(cfg, cells, payloads, roots, front);
      EdgeOf(cfg, cells, payloads, p[n - 1]);
      EdgeOf(cfg, cells, payloads, p[n]);
      hide GraphOf, Objects, S.Fields;
      PathSnoc(g, front, p[n]);
      assert p == front + [p[n]];
    }
  }

  lemma ReachableSame(cfg: Config, b: Blocks, x: int)
    requires HeapSound(cfg, b)
    ensures var w := WorldOf(cfg, b);
            S.Reachable(w.heap, S.Roots(w), x) <==> Reached(cfg, b.heap.cells, b.payloads, Roots(b), x)
  {
    var w, g := WorldOf(cfg, b), GraphOf(cfg, b.heap.cells, b.payloads);
    HeapParts(cfg, b);
    RootKeys(cfg, b);
    WorldRoots(cfg, b);
    if S.Reachable(w.heap, S.Roots(w), x) {
      var p :| S.Chain(w.heap, S.Roots(w), p) && p[|p| - 1] == x;
      ChainPath(cfg, b.heap.cells, b.payloads, S.Roots(w), p);
    }
    if Reached(cfg, b.heap.cells, b.payloads, Roots(b), x) {
      var p :| Path(g, p) && p[0] in Targets(cfg, b.heap.cells, b.payloads, Roots(b)) && p[|p| - 1] == x;
      ChainPath(cfg, b.heap.cells, b.payloads, S.Roots(w), p);
    }
    hide HeapSound, Objects, GraphOf, Path, S.Chain, S.Roots, Targets;
  }

  // ---- What each step is in the abstract world ----------------------------------------------------

  /** Two heaps in which every slot leads to the same block. */
  ghost predicate SameSlots(cfg: Config, a: seq<Cell>, p: Payloads, b: seq<Cell>, q: Payloads, refs: seq<Ref>) {
    forall r :: r in refs ==> Target(cfg, a, p, r) == Target(cfg, b, q, r)
  }

  lemma TypedSame(cfg: Config, a: seq<Cell>, b: seq<Cell>, payloads: Payloads, r: Ref)
    requires SameManaged(a, b) && Typed(r)
    ensures Target(cfg, a, payloads, r) == Target(cfg, b, payloads, r)
  {
    if r.To? { assert Holds(b, r.address - cfg.header, r.kind) <==> Holds(a, r.address - cfg.header, r.kind); }
  }

  lemma FieldSame(cfg: Config, a: seq<Cell>, b: seq<Cell>, payloads: Payloads, x: int)
    requires SameManaged(a, b) && AllTyped(payloads)
    ensures Field(cfg, a, payloads, x) == Field(cfg, b, payloads, x)
  {
    ManagedSame(a, b, x);
    if Traced(a, x) && x in payloads {
      forall i | 0 <= i < |payloads[x].refs|
        ensures Target(cfg, a, payloads, payloads[x].refs[i]) == Target(cfg, b, payloads, payloads[x].refs[i])
      {
        TypedSame(cfg, a, b, payloads, payloads[x].refs[i]);
      }
    }
    hide Target, Traced;
  }

  /** A chain with the same managed blocks is the same to the world. */
  lemma SameObjects(cfg: Config, a: seq<Cell>, b: seq<Cell>, payloads: Payloads)
    requires SameManaged(a, b) && AllTyped(payloads)
    ensures Objects(cfg, a, payloads) == Objects(cfg, b, payloads)
  {
    forall x ensures x in Objects(cfg, a, payloads) <==> x in Objects(cfg, b, payloads) {
      ObjectKeys(cfg, a, payloads, x);
      ObjectKeys(cfg, b, payloads, x);
      ManagedSame(a, b, x);
    }
    forall x ensures Field(cfg, a, payloads, x) == Field(cfg, b, payloads, x) { FieldSame(cfg, a, b, payloads, x); }
    hide Field, Managed;
  }

  lemma SameFrames(cfg: Config, a: seq<Cell>, p: Payloads, b: seq<Cell>, q: Payloads, blocks: Blocks)
    requires SameSlots(cfg, a, p, b, q, Roots(blocks))
    ensures FrameSets(cfg, a, p, blocks.locals) == FrameSets(cfg, b, q, blocks.locals)
    ensures Targets(cfg, a, p, blocks.globals) == Targets(cfg, b, q, blocks.globals)
  {
    forall r | r in blocks.globals ensures r in Roots(blocks) { RootsIn(blocks, r); }
    TargetsAgree(cfg, a, p, b, q, blocks.globals);
    forall t | 0 <= t < |blocks.locals|
      ensures Targets(cfg, a, p, blocks.locals[t]) == Targets(cfg, b, q, blocks.locals[t])
    {
      forall r | r in blocks.locals[t] ensures r in Roots(blocks) { LocalRoot(blocks, t, r); }
      TargetsAgree(cfg, a, p, b, q, blocks.locals[t]);
    }
    hide Target, Targets, Roots;
  }

  /** Steps that the world does not see. */
  lemma SameWorld(cfg: Config, b: Blocks, b': Blocks)
    requires HeapSound(cfg, b) && SameManaged(b.heap.cells, b'.heap.cells)
    requires b'.h == b.h && b'.payloads == b.payloads && b'.locals == b.locals && b'.globals == b.globals
    ensures WorldOf(cfg, b') == WorldOf(cfg, b)
  {
    ChainOf(cfg, b);
    HeapParts(cfg, b);
    SameObjects(cfg, b.heap.cells, b'.heap.cells, b.payloads);
    forall r | r in Roots(b)
      ensures Target(cfg, b.heap.cells, b.payloads, r) == Target(cfg, b'.heap.cells, b.payloads, r)
    {
      TypedSame(cfg, b.heap.cells, b'.heap.cells, b.payloads, r);
    }
    SameFrames(cfg, b.heap.cells, b.payloads, b'.heap.cells, b.payloads, b);
    hide HeapSound, Target, Targets, Roots, Objects, FrameSets, SameManaged;
  }

  lemma MayMutate(cfg: Config, b: Blocks, t: nat)
    requires MayRun(b, t)
    ensures S.Mutating(WorldOf(cfg, b), t)
  {
    hide Objects, FrameSets, Targets;
  }

  /** Taking a reference into a frame. */
  lemma KeepWorld(cfg: Config, b: Blocks, t: nat, r: Ref)
    requires t < |b.locals|
    ensures WorldOf(cfg, Keep(b, t, r)) == S.Hold(WorldOf(cfg, b), t, Target(cfg, b.heap.cells, b.payloads, r))
  {
    var b', w := Keep(b, t, r), WorldOf(cfg, b);
    TargetsAdd(cfg, b.heap.cells, b.payloads, b.locals[t], r);
    hide Target, Targets, Objects;
    assert WorldOf(cfg, b').locals == w.locals[t := Targets(cfg, b.heap.cells, b.payloads, b'.locals[t])];
    if Target(cfg, b.heap.cells, b.payloads, r) == NULL {
      assert Targets(cfg, b.heap.cells, b.payloads, b'.locals[t]) == w.locals[t];
      assert WorldOf(cfg, b').locals == w.locals;
    }
  }

  lemma HoldNull(w: S.World, t: nat)
    requires t < |w.locals|
    ensures S.Hold(w, t, NULL) == w
  {
  }

  /** The world does exactly this. */
  ghost predicate Matched(cfg: Config, W: nat, b: Blocks, acts: seq<S.Act>, b': Blocks)
    requires W > 0
  {
    S.DoAll(W, WorldOf(cfg, b), acts) == WorldOf(cfg, b')
  }

  lemma MatchedBy(cfg: Config, W: nat, b: Blocks, act: S.Act, b': Blocks)
    requires W > 0 && S.Do(W, WorldOf(cfg, b), act) == WorldOf(cfg, b')
    ensures Matched(cfg, W, b, [act], b')
  {
    Whole.DoOne(W, WorldOf(cfg, b), act);
    hide WorldOf, S.Do, S.DoAll;
  }

  lemma MatchedNone(cfg: Config, W: nat, b: Blocks, b': Blocks)
    requires W > 0 && WorldOf(cfg, b) == WorldOf(cfg, b')
    ensures Matched(cfg, W, b, [], b')
  {
    hide WorldOf, S.Do;
  }

  lemma LoadMatched(cfg: Config, W: nat, b: Blocks, t: nat, x: int, k: nat)
    requires W > 0 && MayRun(b, t) && Holding(cfg, b, t, x, k)
    ensures Matched(cfg, W, b, [S.Load(t, x, k)], Keep(b, t, b.payloads[x].refs[k]))
  {
    var w := WorldOf(cfg, b);
    KeepWorld(cfg, b, t, b.payloads[x].refs[k]);
    MayMutate(cfg, b, t);
    ObjectKeys(cfg, b.heap.cells, b.payloads, x);
    assert w.heap[x] == Field(cfg, b.heap.cells, b.payloads, x);
    hide Target, Targets, S.Mutating, MayRun, Managed, Traced, Field, Keep, S.Hold;
    assert S.Do(W, w, S.Load(t, x, k)) == S.Hold(w, t, w.heap[x][k]);
    MatchedBy(cfg, W, b, S.Load(t, x, k), Keep(b, t, b.payloads[x].refs[k]));
  }

  lemma StoreField(cfg: Config, b: Blocks, x: int, k: nat, v: Ref)
    requires Traced(b.heap.cells, x) && x in b.payloads && k < |b.payloads[x].refs|
    ensures var after := b.payloads[x := b.payloads[x].(refs := b.payloads[x].refs[k := v])];
            var heap := Objects(cfg, b.heap.cells, b.payloads);
            x in heap && k < |heap[x]|
            && Objects(cfg, b.heap.cells, after) == heap[x := heap[x][k := Target(cfg, b.heap.cells, b.payloads, v)]]
  {
    var cells, refs := b.heap.cells, b.payloads[x].refs[k := v];
    var after := b.payloads[x := b.payloads[x].(refs := refs)];
    var heap := Objects(cfg, cells, b.payloads);
    ObjectKeys(cfg, cells, b.payloads, x);
    forall r
      ensures Target(cfg, cells, after, r) == Target(cfg, cells, b.payloads, r)
    {
      FineStored(cfg, cells, b.payloads, x, refs, r);
    }
    hide Target, Managed, Traced;
    assert Field(cfg, cells, after, x) == heap[x][k := Target(cfg, cells, b.payloads, v)];
    forall y | y in heap && y != x ensures Field(cfg, cells, after, y) == heap[y] { }
    assert Objects(cfg, cells, after).Keys == heap.Keys;
  }

  lemma StoreMatched(cfg: Config, W: nat, b: Blocks, t: nat, x: int, k: nat, v: Ref)
    requires W > 0 && MayRun(b, t) && Holding(cfg, b, t, x, k) && (v in b.locals[t] || v == NIL)
    ensures Matched(cfg, W, b, [S.Store(t, x, k, Target(cfg, b.heap.cells, b.payloads, v))],
                    b.(payloads := b.payloads[x := b.payloads[x].(refs := b.payloads[x].refs[k := v])]))
  {
    var w, refs := WorldOf(cfg, b), b.payloads[x].refs[k := v];
    var b' := b.(payloads := b.payloads[x := b.payloads[x].(refs := refs)]);
    var value := Target(cfg, b.heap.cells, b.payloads, v);
    StoreField(cfg, b, x, k, v);
    MayMutate(cfg, b, t);
    TargetsIff(cfg, b.heap.cells, b.payloads, b.locals[t], value);
    forall r | r in Roots(b)
      ensures Target(cfg, b.heap.cells, b.payloads, r) == Target(cfg, b.heap.cells, b'.payloads, r)
    {
      FineStored(cfg, b.heap.cells, b.payloads, x, refs, r);
    }
    SameFrames(cfg, b.heap.cells, b.payloads, b.heap.cells, b'.payloads, b);
    assert v == NIL ==> value == NULL;
    hide Target, Targets, S.Mutating, MayRun, Managed, Traced, Objects, Roots;
    assert S.Do(W, w, S.Store(t, x, k, value)) == w.(heap := w.heap[x := w.heap[x][k := value]]);
    MatchedBy(cfg, W, b, S.Store(t, x, k, value), b');
  }

  /** A literal is nothing to the collector. */
  lemma LiteralMatched(cfg: Config, W: nat, b: Blocks, t: nat, address: int)
    requires W > 0 && HeapSound(cfg, b) && t < |b.locals| && Outside(cfg, address)
    ensures Matched(cfg, W, b, [], Keep(b, t, To(STRING, address)))
  {
    var r := To(STRING, address);
    TiledFacts(cfg, b.heap.cells, b.heap.top);
    assert Target(cfg, b.heap.cells, b.payloads, r) == NULL;
    KeepWorld(cfg, b, t, r);
    hide HeapSound, WorldOf;
    HoldNull(WorldOf(cfg, b), t);
    MatchedNone(cfg, W, b, Keep(b, t, r));
  }

  /** Dropping, publishing, fetching and retracting move one target at most. */
  lemma DropMatched(cfg: Config, W: nat, b: Blocks, t: nat, i: nat) returns (acts: seq<S.Act>)
    requires W > 0 && MayRun(b, t) && i < |b.locals[t]|
    ensures acts == [] || acts == [S.Drop(t, Target(cfg, b.heap.cells, b.payloads, b.locals[t][i]))]
    ensures Matched(cfg, W, b, acts, b.(locals := b.locals[t := Removed(b.locals[t], i)]))
  {
    var w, b' := WorldOf(cfg, b), b.(locals := b.locals[t := Removed(b.locals[t], i)]);
    var v, rest :=
      Target(cfg, b.heap.cells, b.payloads, b.locals[t][i]), Targets(cfg, b.heap.cells, b.payloads, b'.locals[t]);
    TargetsRemoved(cfg, b.heap.cells, b.payloads, b.locals[t], i);
    MayMutate(cfg, b, t);
    hide Target, Targets, S.Mutating, MayRun, Objects, Removed;
    assert WorldOf(cfg, b').locals == w.locals[t := rest];
    if v == NULL || v in rest {
      acts := [];
      assert rest == w.locals[t];
      assert WorldOf(cfg, b').locals == w.locals;
      MatchedNone(cfg, W, b, b');
    } else {
      acts := [S.Drop(t, v)];
      assert rest == w.locals[t] - {v};
      MatchedBy(cfg, W, b, S.Drop(t, v), b');
    }
  }

  lemma PublishMatched(cfg: Config, W: nat, b: Blocks, t: nat, i: nat) returns (acts: seq<S.Act>)
    requires W > 0 && MayRun(b, t) && i < |b.locals[t]|
    ensures acts == [] || acts == [S.Publish(t, Target(cfg, b.heap.cells, b.payloads, b.locals[t][i]))]
    ensures Matched(cfg, W, b, acts, b.(globals := b.globals + [b.locals[t][i]]))
  {
    var w, r := WorldOf(cfg, b), b.locals[t][i];
    var b' := b.(globals := b.globals + [r]);
    var v := Target(cfg, b.heap.cells, b.payloads, r);
    TargetsAdd(cfg, b.heap.cells, b.payloads, b.globals, r);
    TargetsIff(cfg, b.heap.cells, b.payloads, b.locals[t], v);
    MayMutate(cfg, b, t);
    hide Target, Targets, S.Mutating, MayRun, Objects;
    if v == NULL {
      acts := [];
      MatchedNone(cfg, W, b, b');
    } else {
      acts := [S.Publish(t, v)];
      MatchedBy(cfg, W, b, S.Publish(t, v), b');
    }
  }

  lemma FetchMatched(cfg: Config, W: nat, b: Blocks, t: nat, i: nat) returns (acts: seq<S.Act>)
    requires W > 0 && MayRun(b, t) && i < |b.globals|
    ensures acts == [] || acts == [S.Fetch(t, Target(cfg, b.heap.cells, b.payloads, b.globals[i]))]
    ensures Matched(cfg, W, b, acts, Keep(b, t, b.globals[i]))
  {
    var w, r := WorldOf(cfg, b), b.globals[i];
    var v := Target(cfg, b.heap.cells, b.payloads, r);
    KeepWorld(cfg, b, t, r);
    TargetsIff(cfg, b.heap.cells, b.payloads, b.globals, v);
    MayMutate(cfg, b, t);
    hide Target, Targets, S.Mutating, MayRun, Objects, Keep, FrameSets;
    if v == NULL {
      acts := [];
      HoldNull(w, t);
      MatchedNone(cfg, W, b, Keep(b, t, r));
    } else {
      acts := [S.Fetch(t, v)];
      MatchedBy(cfg, W, b, S.Fetch(t, v), Keep(b, t, r));
    }
  }

  lemma RetractMatched(cfg: Config, W: nat, b: Blocks, t: nat, i: nat) returns (acts: seq<S.Act>)
    requires W > 0 && MayRun(b, t) && i < |b.globals|
    ensures acts == [] || acts == [S.Retract(t, Target(cfg, b.heap.cells, b.payloads, b.globals[i]))]
    ensures Matched(cfg, W, b, acts, b.(globals := Removed(b.globals, i)))
  {
    var w, b' := WorldOf(cfg, b), b.(globals := Removed(b.globals, i));
    var v, rest :=
      Target(cfg, b.heap.cells, b.payloads, b.globals[i]), Targets(cfg, b.heap.cells, b.payloads, b'.globals);
    TargetsRemoved(cfg, b.heap.cells, b.payloads, b.globals, i);
    MayMutate(cfg, b, t);
    hide Target, Targets, S.Mutating, MayRun, Objects, Removed;
    if v == NULL || v in rest {
      acts := [];
      assert rest == w.globals;
      MatchedNone(cfg, W, b, b');
    } else {
      acts := [S.Retract(t, v)];
      assert rest == w.globals - {v};
      MatchedBy(cfg, W, b, S.Retract(t, v), b');
    }
  }

  lemma NewField(cfg: Config, a: seq<Cell>, b: seq<Cell>, payloads: Payloads, u: Cell, kind: Flag, p: Payload)
    requires Gains(a, b, u) && u.flags == {kind} && kind in MANAGED
    requires (forall k :: !Holds(a, u.at, k)) && (forall r :: r in p.refs ==> r == NIL)
    requires kind == STRING ==> p.refs == []
    ensures Field(cfg, b, payloads[u.at := p], u.at) == seq(|p.refs|, _ => NULL)
  {
    GainsManaged(a, b, u, kind, u.at);
    assert !Traced(a, u.at);
    var s := Field(cfg, b, payloads[u.at := p], u.at);
    hide Traced, Managed, Gains, Holds;
    assert |s| == |p.refs|;
    forall i | 0 <= i < |s| ensures s[i] == NULL { assert p.refs[i] in p.refs; }
  }

  lemma OldField(cfg: Config, a: seq<Cell>, b: seq<Cell>, payloads: Payloads, u: Cell, kind: Flag, p: Payload, x: int)
    requires PayloadsFine(cfg, a, payloads) && Gains(a, b, u) && u.flags == {kind} && kind in MANAGED
    requires (forall k :: !Holds(a, u.at, k)) && 0 <= u.at < cfg.size && x != u.at
    ensures Field(cfg, b, payloads[u.at := p], x) == Field(cfg, a, payloads, x)
  {
    GainsManaged(a, b, u, kind, x);
    if Traced(a, x) {
      forall i | 0 <= i < |payloads[x].refs|
        ensures Target(cfg, b, payloads[u.at := p], payloads[x].refs[i]) ==
                  Target(cfg, a, payloads, payloads[x].refs[i])
      {
        FineGrown(cfg, a, b, payloads, u, p, payloads[x].refs[i]);
      }
    }
    hide Target, Managed, Traced, Gains, Fine, Holds, PayloadsFine;
  }

  /** A new block is a new object with empty slots. */
  lemma AllocObjects(cfg: Config, a: seq<Cell>, b: seq<Cell>, payloads: Payloads, u: Cell, kind: Flag, p: Payload)
    requires PayloadsFine(cfg, a, payloads) && Gains(a, b, u) && u.flags == {kind} && kind in MANAGED
    requires (forall k :: !Holds(a, u.at, k)) && 0 <= u.at < cfg.size && (forall r :: r in p.refs ==> r == NIL)
    requires kind == STRING ==> p.refs == []
    ensures u.at !in Objects(cfg, a, payloads)
    ensures Objects(cfg, b, payloads[u.at := p]) == Objects(cfg, a, payloads)[u.at := seq(|p.refs|, _ => NULL)]
  {
    var q := payloads[u.at := p];
    ObjectKeys(cfg, a, payloads, u.at);
    assert !Managed(a, u.at);
    hide Target, Managed, Traced, Gains, Fine, Holds, PayloadsFine, Field;
    forall x ensures x in Objects(cfg, b, q) <==> x in Objects(cfg, a, payloads) || x == u.at {
      ObjectKeys(cfg, a, payloads, x);
      ObjectKeys(cfg, b, q, x);
      GainsManaged(a, b, u, kind, x);
    }
    forall x | x != u.at
      ensures Field(cfg, b, q, x) == Field(cfg, a, payloads, x)
    {
      OldField(cfg, a, b, payloads, u, kind, p, x);
    }
    NewField(cfg, a, b, payloads, u, kind, p);
  }

  /** The frames before the new reference is taken. */
  lemma AllocFrames(cfg: Config, b: Blocks, b': Blocks, u: Cell, p: Payload)
    requires AllFine(cfg, b.heap.cells, b.payloads, Roots(b)) && Gains(b.heap.cells, b'.heap.cells, u) && !IsFree(u)
    requires (forall k :: !Holds(b.heap.cells, u.at, k)) && 0 <= u.at < cfg.size
    requires b'.payloads == b.payloads[u.at := p] && b'.h == b.h && b'.locals == b.locals && b'.globals == b.globals
    requires Objects(cfg, b'.heap.cells, b'.payloads) ==
               Objects(cfg, b.heap.cells, b.payloads)[u.at := seq(|p.refs|, _ => NULL)]
    ensures WorldOf(cfg, b') == WorldOf(cfg, b).(heap := WorldOf(cfg, b).heap[u.at := seq(|p.refs|, _ => NULL)])
  {
    forall r | r in Roots(b)
      ensures Target(cfg, b.heap.cells, b.payloads, r) == Target(cfg, b'.heap.cells, b'.payloads, r)
    {
      FineGrown(cfg, b.heap.cells, b'.heap.cells, b.payloads, u, p, r);
    }
    SameFrames(cfg, b.heap.cells, b.payloads, b'.heap.cells, b'.payloads, b);
    hide Target, Targets, Objects, Roots, Gains;
  }

  lemma AllocMatched(cfg: Config, W: nat, b: Blocks, act: Act) returns (acts: seq<S.Act>)
    requires W > 0 && HeapSound(cfg, b) && act.Alloc? && Allocatable(act) && MayRun(b, act.t)
    ensures Matched(cfg, W, b, acts, Allocate(cfg, b, act))
    ensures acts == [] || exists o :: acts == [S.Alloc(act.t, o, act.fields)]
  {
    var b', w := Allocate(cfg, b, act), WorldOf(cfg, b);
    assert b'.h == b.h && b'.globals == b.globals;
    var u, p := AllocateIs(cfg, b, act);
    assert act.kind == STRING ==> act.fields == 0;
    assert |p.refs| == |Blank(act.fields)| == act.fields || b' == b;
    MayMutate(cfg, b, act.t);
    HeapParts(cfg, b);
    hide HeapSound, Allocate, S.Mutating, MayRun, Objects, FrameSets, Targets, Roots, Gains, AllFine, PayloadsFine,
         Holds, Allocatable;
    if b' == b {
      acts := [];
      MatchedNone(cfg, W, b, b');
    } else {
      var r := To(act.kind, u.at + cfg.header);
      var empty := b.(heap := b'.heap, payloads := b'.payloads, births := b'.births, born := b'.born);
      AllocObjects(cfg, b.heap.cells, b'.heap.cells, b.payloads, u, act.kind, p);
      AllocFrames(cfg, b, empty, u, p);
      NewFine(cfg, b.heap.cells, b'.heap.cells, b.payloads, u, act.kind, p);
      KeepWorld(cfg, empty, act.t, r);
      assert b' == Keep(empty, act.t, r);
      acts := [S.Alloc(act.t, u.at, act.fields)];
      AllocWorld(w, act.t, u.at, act.fields, WorldOf(cfg, empty), WorldOf(cfg, b'), W);
      MatchedBy(cfg, W, b, S.Alloc(act.t, u.at, act.fields), b');
    }
  }

  lemma AllocWorld(w: S.World, t: nat, o: int, n: nat, empty: S.World, v: S.World, W: nat)
    requires W > 0 && S.Mutating(w, t) && o !in w.heap && o != NULL && t < |w.locals| == |empty.locals|
    requires empty == w.(heap := w.heap[o := seq(n, _ => NULL)]) && v == S.Hold(empty, t, o)
    ensures S.Do(W, w, S.Alloc(t, o, n)) == v
  {
    hide S.Mutating;
  }

  /** Taking a finalizer changes a flag, and puts a reference into the task's frame. */
  lemma EnterIs(cfg: Config, b: Blocks, t: nat, i: nat)
    requires MayRun(b, t) && Mutate(cfg, b, Enter(t, i)) != b
    ensures i < |b.heap.cells| && PENDING in b.heap.cells[i].flags && b.heap.cells[i].at in b.births
    ensures b.phase == F.Finalizing(F.NULL)
    ensures Mutate(cfg, b, Enter(t, i)) == Keep(Called(b, i), t, To(OBJECT, b.heap.cells[i].at + cfg.header))
  {
    hide Keep, Called;
  }

  lemma CalledSame(cfg: Config, b: Blocks, i: nat)
    requires HeapSound(cfg, b) && i < |b.heap.cells| && PENDING in b.heap.cells[i].flags
    requires b.heap.cells[i].at in b.births
    ensures SameManaged(b.heap.cells, Called(b, i).heap.cells) && WorldOf(cfg, Called(b, i)) == WorldOf(cfg, b)
    ensures b.heap.cells[i].at in Objects(cfg, b.heap.cells, b.payloads) && |Called(b, i).locals| == |b.locals|
    ensures Target(cfg, Called(b, i).heap.cells, Called(b, i).payloads, To(OBJECT, b.heap.cells[i].at + cfg.header)) ==
              b.heap.cells[i].at
  {
    HeapParts(cfg, b);
    assert AllWellformed(b.heap.cells);
    ObjectKeys(cfg, b.heap.cells, b.payloads, b.heap.cells[i].at);
    var v := Called(b, i);
    assert v.heap.cells == b.heap.cells[i := Entered(b.heap.cells[i])];
    assert v.h == b.h && v.payloads == b.payloads && v.locals == b.locals && v.globals == b.globals;
    hide *;
    PendingFine(cfg, b, i);
    EnteredProper(b.heap.cells, i);
    SameBlocksManaged(b.heap.cells, v.heap.cells);
    IsTyped(b.heap.cells[i].at + cfg.header);
    TypedSame(cfg, b.heap.cells, v.heap.cells, b.payloads, To(OBJECT, b.heap.cells[i].at + cfg.header));
    SameWorld(cfg, b, v);
  }

  lemma IsTyped(address: int)
    ensures Typed(To(OBJECT, address))
  {
  }

  /** A finalizer's object is revived. */
  lemma EnterMatched(cfg: Config, W: nat, b: Blocks, t: nat, i: nat)
    requires W > 0 && HeapSound(cfg, b) && MayRun(b, t) && t < |b.locals|
    requires i < |b.heap.cells| && PENDING in b.heap.cells[i].flags && b.heap.cells[i].at in b.births
    ensures |Called(b, i).locals| == |b.locals|
    ensures Matched(cfg, W, b, [S.Revive(t, b.heap.cells[i].at)],
                    Keep(Called(b, i), t, To(OBJECT, b.heap.cells[i].at + cfg.header)))
  {
    hide *;
    CalledSame(cfg, b, i);
    var x := b.heap.cells[i].at;
    KeepWorld(cfg, Called(b, i), t, To(OBJECT, x + cfg.header));
    MayMutate(cfg, b, t);
    WorldHeap(cfg, b);
    ReviveDone(W, WorldOf(cfg, b), t, x);
    MatchedBy(cfg, W, b, S.Revive(t, x), Keep(Called(b, i), t, To(OBJECT, x + cfg.header)));
  }

  lemma WorldHeap(cfg: Config, b: Blocks)
    ensures WorldOf(cfg, b).heap == Objects(cfg, b.heap.cells, b.payloads) && |WorldOf(cfg, b).locals| == |b.locals|
  {
  }

  lemma ReviveDone(W: nat, w: S.World, t: nat, x: int)
    requires W > 0 && S.Mutating(w, t) && t < |w.locals| && x in w.heap
    ensures S.Do(W, w, S.Revive(t, x)) == S.Hold(w, t, x)
  {
    hide S.Mutating;
  }

  // ---- Collections --------------------------------------------------------------------------------

  lemma FieldSwept(cfg: Config, before: seq<Cell>, marked: seq<Cell>, payloads: Payloads, roots: seq<Ref>, epoch: int,
                   top: int, x: int)
    requires Chain(cfg, before, payloads, top) && SameButMark(before, marked)
    requires C.Exact(cfg, before, marked, payloads, roots, epoch)
    requires Reached(cfg, before, payloads, roots, x)
    ensures Field(cfg, SweepSpec.Swept(cfg, marked, epoch), payloads, x) == Field(cfg, before, payloads, x)
  {
    TracedSwept(cfg, before, marked, payloads, roots, epoch, top, x);
    Placed(cfg, before, payloads, top);
    if Traced(before, x) && x in payloads {
      forall i | 0 <= i < |payloads[x].refs|
        ensures Target(cfg, SweepSpec.Swept(cfg, marked, epoch), payloads, payloads[x].refs[i]) ==
                  Target(cfg, before, payloads, payloads[x].refs[i])
      {
        var r := payloads[x].refs[i];
        if Target(cfg, before, payloads, r) != NULL { SlotReached(cfg, before, payloads, roots, x, r); }
        SlotSwept(cfg, before, marked, payloads, roots, epoch, top, r);
      }
    }
    hide Chain, Reached, C.Exact, SweepSpec.Swept, Traced, Managed, Target;
  }

  /** The objects after a sweep of the chain: those that were reached, with the fields they had. */
  lemma SweptObjects(cfg: Config, b: Blocks, act: Act, x: int)
    requires HeapSound(cfg, b) && act.Collect? && Collects(cfg, b, act) && act.outcome.Reclaimed?
    ensures var w, after := WorldOf(cfg, b), Objects(cfg, act.after.cells, b.payloads);
            && (x in after <==> x in w.heap && S.Reachable(w.heap, S.Roots(w), x))
            && (x in after ==> after[x] == w.heap[x])
  {
    hide *;
    ChainOf(cfg, b);
    CollectsIs(cfg, b, act);
    WorldHeap(cfg, b);
    ObjectKeys(cfg, b.heap.cells, b.payloads, x);
    ObjectKeys(cfg, act.after.cells, b.payloads, x);
    TracedSwept(cfg, b.heap.cells, act.marked, b.payloads, Roots(b), act.epoch, b.heap.top, x);
    ReachableSame(cfg, b, x);
    if x in Objects(cfg, act.after.cells, b.payloads) {
      FieldSwept(cfg, b.heap.cells, act.marked, b.payloads, Roots(b), act.epoch, b.heap.top, x);
      ObjectAt(cfg, b.heap.cells, b.payloads, x);
      ObjectAt(cfg, act.after.cells, b.payloads, x);
    }
  }

  lemma ObjectAt(cfg: Config, cells: seq<Cell>, payloads: Payloads, x: int)
    requires x in Objects(cfg, cells, payloads)
    ensures Objects(cfg, cells, payloads)[x] == Field(cfg, cells, payloads, x)
  {
    hide Field;
  }

  lemma SweptSlots(cfg: Config, b: Blocks, act: Act)
    requires HeapSound(cfg, b) && act.Collect? && Collects(cfg, b, act) && act.outcome.Reclaimed?
    ensures SameSlots(cfg, b.heap.cells, b.payloads, act.after.cells, b.payloads, Roots(b))
  {
    ChainOf(cfg, b);
    CollectsIs(cfg, b, act);
    hide HeapSound, Collects, Chain, Reached, C.Exact, SweepSpec.Swept, Target, Targets, Roots;
    forall r | r in Roots(b)
      ensures Target(cfg, b.heap.cells, b.payloads, r) == Target(cfg, act.after.cells, b.payloads, r)
    {
      if Target(cfg, b.heap.cells, b.payloads, r) != NULL { RootReached(cfg, b.heap.cells, b.payloads, Roots(b), r); }
      SlotSwept(cfg, b.heap.cells, act.marked, b.payloads, Roots(b), act.epoch, b.heap.top, r);
    }
  }

  lemma CollectionKeeps(cfg: Config, b: Blocks, act: Act)
    requires act.Collect?
    ensures var b' := Collection(cfg, b, act);
            b'.heap.cells == act.after.cells && b'.payloads == b.payloads && b'.h == b.h && b'.locals == b.locals
            && b'.globals == b.globals
  {
  }

  lemma WorldParts(cfg: Config, b: Blocks)
    ensures var w := WorldOf(cfg, b);
            && w.h == b.h && w.heap == Objects(cfg, b.heap.cells, b.payloads) && w.phase.Idle?
            && w.locals == FrameSets(cfg, b.heap.cells, b.payloads, b.locals)
            && w.globals == Targets(cfg, b.heap.cells, b.payloads, b.globals)
  {
  }

  /** What the sweep of the chain leaves is what the stepwise collection leaves. */
  lemma SweptWorld(cfg: Config, b: Blocks, act: Act, v: S.World)
    requires HeapSound(cfg, b) && act.Collect? && Collects(cfg, b, act) && act.outcome.Reclaimed?
    requires var w := WorldOf(cfg, b);
             && v == w.(heap := v.heap)
             && (forall o :: o in v.heap <==> o in w.heap && S.Reachable(w.heap, S.Roots(w), o))
             && forall o :: o in v.heap ==> v.heap[o] == w.heap[o]
    ensures WorldOf(cfg, Collection(cfg, b, act)) == v
  {
    hide *;
    var b' := Collection(cfg, b, act);
    CollectionKeeps(cfg, b, act);
    SweptSlots(cfg, b, act);
    SameFrames(cfg, b.heap.cells, b.payloads, act.after.cells, b.payloads, b);
    WorldParts(cfg, b);
    WorldParts(cfg, b');
    forall x ensures x in WorldOf(cfg, b').heap.Keys <==> x in v.heap.Keys { SweptObjects(cfg, b, act, x); }
    forall x | x in WorldOf(cfg, b').heap.Keys
      ensures WorldOf(cfg, b').heap[x] == v.heap[x]
    {
      SweptObjects(cfg, b, act, x);
    }
    Sequences.SameMap(WorldOf(cfg, b').heap, v.heap);
  }

  /** A collection of the chain is a collection of the world, marked and swept an object at a time. */
  lemma CollectMatched(cfg: Config, W: nat, b: Blocks, act: Act) returns (acts: seq<S.Act>)
    requires W > 0 && Sound(cfg, b) && act.Collect? && Granted(b, act.t) && b.phase.Idle? && Collects(cfg, b, act)
    ensures Matched(cfg, W, b, acts, Collection(cfg, b, act)) && Whole.ByCollector(acts, act.t)
  {
    var b', w := Collection(cfg, b, act), WorldOf(cfg, b);
    CollectsIs(cfg, b, act);
    assert HeapSound(cfg, b) && S.Granted(w, act.t);
    assert b'.heap.cells == act.after.cells && b'.payloads == b.payloads && b'.h == b.h && b'.locals == b.locals
       && b'.globals == b.globals;
    WorldSound(cfg, b);
    hide *;
    if act.outcome.Reclaimed? {
      WorldIdle(cfg, b);
      acts := Whole.WholeCollection(W, w, act.t);
      SweptWorld(cfg, b, act, S.DoAll(W, w, acts));
      IsMatched(cfg, W, b, acts, b');
    } else {
      SameBlocksManaged(b.heap.cells, act.after.cells);
      SameWorld(cfg, b, b');
      acts := [];
      MatchedNone(cfg, W, b, b');
      Whole.NoActs(W, w, act.t);
    }
  }

  lemma WorldIdle(cfg: Config, b: Blocks)
    ensures WorldOf(cfg, b).phase.Idle?
  {
  }

  lemma IsMatched(cfg: Config, W: nat, b: Blocks, acts: seq<S.Act>, b': Blocks)
    requires W > 0 && S.DoAll(W, WorldOf(cfg, b), acts) == WorldOf(cfg, b')
    ensures Matched(cfg, W, b, acts, b')
  {
  }

  // ---- Every step, and every run ------------------------------------------------------------------

  lemma ExchangeMatched(cfg: Config, W: nat, b: Blocks, t: nat, call: H.Call)
    requires W > 0 && t < |b.h.tasks| && Shaped(b)
    ensures Matched(cfg, W, b, [S.Protocol(t, call)], Exchange(W, b, t, call))
  {
    var b', w := Exchange(W, b, t, call), WorldOf(cfg, b);
    assert Targets(cfg, b.heap.cells, b.payloads, []) == {};
    assert S.Shape(w) && !S.Collecting(w, t);
    hide H.Step, Targets, Objects, H.Shaped;
    assert WorldOf(cfg, b').locals == S.Exchange(W, w, t, call).locals;
    assert S.Do(W, w, S.Protocol(t, call)) == S.Exchange(W, w, t, call) == WorldOf(cfg, b');
    hide WorldOf, Exchange, S.Do, S.Exchange;
    MatchedBy(cfg, W, b, S.Protocol(t, call), b');
  }

  /** Acts that leave the handshake alone. */
  predicate Inward(acts: seq<S.Act>) { forall i :: 0 <= i < |acts| ==> !acts[i].Protocol? }

  /** Managed code at the blocks is managed code in the world. */
  lemma MutateMatched(cfg: Config, W: nat, b: Blocks, act: Act) returns (acts: seq<S.Act>)
    requires W > 0 && Managing(act) && HeapSound(cfg, b) && MayRun(b, act.t)
    ensures Matched(cfg, W, b, acts, Mutate(cfg, b, act)) && Inward(acts)
  {
    hide Served, Released, ReleasedList, Matched, Keep;
    var b' := Mutate(cfg, b, act);
    acts := [];
    if b' == b {
      MatchedNone(cfg, W, b, b');
    } else {
      match act {
        case Load(t, x, k) =>
          LoadMatched(cfg, W, b, t, x, k);
          acts := [S.Load(t, x, k)];
        case Store(t, x, k, v) =>
          StoreMatched(cfg, W, b, t, x, k, v);
          acts := [S.Store(t, x, k, Target(cfg, b.heap.cells, b.payloads, v))];
        case Literal(t, address) => LiteralMatched(cfg, W, b, t, address);
        case Alloc(_, _, _, _, _, _) => acts := AllocMatched(cfg, W, b, act);
        case Drop(t, i) => acts := DropMatched(cfg, W, b, t, i);
        case Publish(t, i) => acts := PublishMatched(cfg, W, b, t, i);
        case Fetch(t, i) => acts := FetchMatched(cfg, W, b, t, i);
        case Retract(t, i) => acts := RetractMatched(cfg, W, b, t, i);
        case AllocRaw(_, need, size) => RawTaken(cfg, b.heap, need, size); RawMatched(cfg, W, b, b');
        case FreeRaw(_, i) => RawFreed(cfg, b.heap, i); RawMatched(cfg, W, b, b');
        case Enter(t, i) =>
          EnterIs(cfg, b, t, i);
          EnterMatched(cfg, W, b, t, i);
          acts := [S.Revive(t, b.heap.cells[i].at)];
      }
    }
    hide HeapSound, Allocate, Holding, MayRun, Called;
  }

  lemma RawMatched(cfg: Config, W: nat, b: Blocks, b': Blocks)
    requires W > 0 && HeapSound(cfg, b) && SameSeen(b.heap.cells, b'.heap.cells) && b' == b.(heap := b'.heap)
    ensures Matched(cfg, W, b, [], b')
  {
    hide *;
    SeenManaged(b.heap.cells, b'.heap.cells);
    SameWorld(cfg, b, b');
    MatchedNone(cfg, W, b, b');
  }

  /** Every step of the blocks is none, one or several steps of the world. */
  lemma StepRefines(cfg: Config, W: nat, b: Blocks, act: Act) returns (acts: seq<S.Act>)
    requires W > 0 && Sound(cfg, b)
    ensures Matched(cfg, W, b, acts, Do(cfg, W, b, act)) && (Inward(acts) || |acts| == 1)
  {
    acts := [];
    if act.Protocol? {
      if act.t < |b.h.tasks| {
        ExchangeMatched(cfg, W, b, act.t, act.call);
        acts := [S.Protocol(act.t, act.call)];
      } else {
        MatchedNone(cfg, W, b, Do(cfg, W, b, act));
      }
    } else if act.Collect? && Granted(b, act.t) && b.phase.Idle? && Collects(cfg, b, act) {
      acts := CollectMatched(cfg, W, b, act);
    } else if act.Return? || act.Finish? || act.Escape? || act.Collect? {
      QuietMatched(cfg, W, b, act);
    } else if MayRun(b, act.t) {
      acts := MutateMatched(cfg, W, b, act);
    } else {
      MatchedNone(cfg, W, b, Do(cfg, W, b, act));
    }
    hide Sound, Matched, Mutate, Exchange, Collects, Collection;
  }

  lemma QuietMatched(cfg: Config, W: nat, b: Blocks, act: Act)
    requires W > 0 && Sound(cfg, b) && (act.Return? || act.Finish? || act.Escape? || act.Collect?)
    requires act.Collect? ==> !(Granted(b, act.t) && b.phase.Idle? && Collects(cfg, b, act))
    ensures Matched(cfg, W, b, [], Do(cfg, W, b, act))
  {
    var b' := Do(cfg, W, b, act);
    SameSelf(b.heap.cells);
    HeapParts(cfg, b);
    assert AllWellformed(b.heap.cells);
    ClearedProper(b.heap.cells);
    SameBlocksManaged(b.heap.cells, ClearAll(b.heap.cells));
    assert b'.h == b.h && b'.payloads == b.payloads && b'.locals == b.locals && b'.globals == b.globals;
    assert SameManaged(b.heap.cells, b'.heap.cells);
    hide *;
    SoundHeap(cfg, b);
    SameWorld(cfg, b, b');
    MatchedNone(cfg, W, b, b');
  }

  lemma SoundHeap(cfg: Config, b: Blocks)
    requires Sound(cfg, b)
    ensures HeapSound(cfg, b)
  {
  }

  lemma {:induction false} InwardKeeps(W: nat, w: S.World, acts: seq<S.Act>)
    requires W > 0 && Inward(acts)
    ensures S.DoAll(W, w, acts).h == w.h
    ensures P.Fresh(W, w.h) ==> S.Timely(W, w, acts)
  {
    if acts != [] {
      InwardKeeps(W, w, acts[..|acts| - 1]);
      InwardStep(W, S.DoAll(W, w, acts[..|acts| - 1]), acts[|acts| - 1]);
    }
    hide S.Do;
  }

  lemma InwardStep(W: nat, w: S.World, act: S.Act)
    requires W > 0 && !act.Protocol?
    ensures S.Do(W, w, act).h == w.h
  {
  }

  lemma {:induction false} TimelyJoin(W: nat, w: S.World, a: seq<S.Act>, b: seq<S.Act>)
    requires W > 0 && S.Timely(W, w, a) && S.Timely(W, S.DoAll(W, w, a), b)
    ensures S.Timely(W, w, a + b)
  {
    if b == [] {
      assert a + b == a;
    } else {
      var front := b[..|b| - 1];
      TimelyJoin(W, w, a, front);
      Whole.DoAllJoin(W, w, a, front);
      assert (a + b)[..|a + b| - 1] == a + front;
    }
    hide S.Do, S.DoAll;
  }

  lemma OutsetWorld(cfg: Config, n: nat, m: nat)
    ensures WorldOf(cfg, Outset(n, m)) == S.Start(n, m)
  {
  }

  lemma MoreTimely(W: nat, w: S.World, acts: seq<S.Act>)
    requires W > 0 && P.Fresh(W, w.h) && (Inward(acts) || |acts| == 1)
    ensures S.Timely(W, w, acts)
  {
    if Inward(acts) {
      InwardKeeps(W, w, acts);
    } else {
      assert acts[..0] == [];
      assert S.DoAll(W, w, []) == w;
    }
    hide S.Do;
  }

  /** Every run of the blocks is a run of the world, with the same handshake, the same blocks as objects,
      and a stepwise collection for each collection of the chain. */
  lemma {:induction false} RunRefines(cfg: Config, W: nat, n: nat, m: nat, acts: seq<Act>) returns (steps: seq<S.Act>)
    requires W > 0 && cfg.Valid() && Timely(cfg, W, Outset(n, m), acts)
    ensures S.DoAll(W, S.Start(n, m), steps) == WorldOf(cfg, DoAll(cfg, W, Outset(n, m), acts))
    ensures S.Timely(W, S.Start(n, m), steps)
  {
    hide *;
    OutsetWorld(cfg, n, m);
    if acts == [] {
      steps := [];
      NoActs(cfg, W, Outset(n, m));
      NoSteps(W, S.Start(n, m));
    } else {
      var front := acts[..|acts| - 1];
      LastAct(cfg, W, Outset(n, m), acts);
      var before := RunRefines(cfg, W, n, m, front);
      var b := DoAll(cfg, W, Outset(n, m), front);
      RunSound(cfg, W, n, m, front);
      var more := StepRefines(cfg, W, b, acts[|acts| - 1]);
      steps := before + more;
      Whole.DoAllJoin(W, S.Start(n, m), before, more);
      MatchedIs(cfg, W, b, more, Do(cfg, W, b, acts[|acts| - 1]));
      WorldParts(cfg, b);
      MoreTimely(W, WorldOf(cfg, b), more);
      TimelyJoin(W, S.Start(n, m), before, more);
    }
  }

  lemma NoSteps(W: nat, w: S.World)
    requires W > 0
    ensures S.DoAll(W, w, []) == w && S.Timely(W, w, [])
  {
  }

  lemma MatchedIs(cfg: Config, W: nat, b: Blocks, acts: seq<S.Act>, b': Blocks)
    requires W > 0 && Matched(cfg, W, b, acts, b')
    ensures S.DoAll(W, WorldOf(cfg, b), acts) == WorldOf(cfg, b')
  {
  }
}
