/** Every run on the block chain is a run of the finalizer machine, with the blocks called by the numbers
    of their allocation: so in every run of the chain no finalizer is called twice, and a block with one is
    reclaimed only after it. */
module BlockFinalizers {
  import opened HeapModel
  import opened MarkSpec
  import opened Graph
  import opened Finalize
  import opened FinalizerRefinement
  import opened BlockRuns
  import opened Renaming
  import HeapSpec
  import H = Handshake
  import Runs = HandshakeRuns
  import C = Collect
  import F = Finalizers
  import B = BlockSafety
  import Sequences

  /** The machine's view of a chain, with offsets for names and no history. */
  ghost function Machine(cfg: Config, b: Blocks): F.World {
    F.World(View(cfg, b.heap.cells, b.payloads), Targets(cfg, b.heap.cells, b.payloads, Roots(b)), [], {}, b.phase)
  }

  /** w is a world of the machine that the run has reached. */
  ghost predicate Stands(cfg: Config, b: Blocks, w: F.World) {
    && Renamed(b.births, Machine(cfg, b), w) && F.Sound(w) && w.entered == b.entered
    && forall s :: s in w.objs || s in w.freed ==> 0 <= s < b.born
  }

  // ---- The machine's steps under names ------------------------------------------------------------

  lemma UsableIf(w: F.World, x: int)
    requires F.Reachable(w, x)
    ensures F.Usable(w, x)
  {
    var p :| Path(F.Edges(w.objs), p) && p[0] in w.roots && p[|p| - 1] == x;
  }

  lemma RenamedRoots(names: Names, v: F.World, w: F.World, roots: set<int>)
    requires Renamed(names, v, w) && roots <= names.Keys
    ensures Renamed(names, v.(roots := roots), w.(roots := Image(names, roots)))
  {
    hide Injective, NamedObj;
  }

  /** Dropping several roots, one at a time. */
  lemma {:induction false} DropRoots(w: F.World, gone: set<int>) returns (acts: seq<F.Act>)
    requires F.Sound(w)
    ensures F.DoAll(w, acts) == w.(roots := w.roots - gone) && F.Sound(F.DoAll(w, acts))
    decreases |gone|
  {
    if forall x :: x !in gone {
      acts := [];
      assert w.roots - gone == w.roots;
    } else {
      var x :| x in gone;
      F.DoSound(w, F.DropRoot(x));
      var w' := F.Do(w, F.DropRoot(x));
      assert w' == w.(roots := w.roots - {x});
      var rest := DropRoots(w', gone - {x});
      acts := [F.DropRoot(x)] + rest;
      F.DoAllJoin(w, [F.DropRoot(x)], rest);
      DoOne(w, F.DropRoot(x));
      assert w.roots - {x} - (gone - {x}) == w.roots - gone;
    }
  }

  lemma DoOne(w: F.World, act: F.Act)
    ensures F.DoAll(w, [act]) == F.Do(w, act)
  {
    assert [act][..0] == [];
    assert F.DoAll(w, []) == w;
    hide F.Do;
  }

  lemma DoTwo(w: F.World, a: F.Act, b: F.Act)
    ensures F.DoAll(w, [a, b]) == F.Do(F.Do(w, a), b)
  {
    hide F.Do;
    DoOne(w, a);
    assert [a, b][..1] == [a];
  }

  lemma RenamedField(names: Names, v: F.World, w: F.World, x: int, fields: set<int>)
    requires Renamed(names, v, w) && x in names && fields <= names.Keys
    ensures names[x] in w.objs
    ensures Renamed(names, v.(objs := v.objs[x := v.objs[x].(fields := fields)]),
                    w.(objs := w.objs[names[x] := w.objs[names[x]].(fields := Image(names, fields))]))
  {
    ObjectNamed(names, v, w, x);
    hide Image;
  }

  lemma ImageAdd(names: Names, s: set<int>, x: int)
    requires x in names
    ensures Image(names, s + {x}) == Image(names, s) + {names[x]}
  {
  }

  lemma ImageLess(names: Names, s: set<int>, x: int)
    requires Injective(names) && x in names
    ensures Image(names, s - {x}) == Image(names, s) - {names[x]}
  {
  }

  lemma EnterNamed(names: Names, v: F.World, w: F.World, x: int)
    requires Renamed(names, v, w) && v.phase == F.Finalizing(F.NULL) && x in names && v.objs[x].pending
    ensures Renamed(names, F.Do(v, F.Enter(x)), F.Do(w, F.Enter(names[x])))
    ensures F.Do(w, F.Enter(names[x])).entered == w.entered + [names[x]]
    ensures F.Do(w, F.Enter(names[x])).phase == F.Finalizing(names[x])
    ensures F.Do(w, F.Enter(names[x])).objs.Keys == w.objs.Keys && F.Do(w, F.Enter(names[x])).freed == w.freed
  {
    ObjectNamed(names, v, w, x);
    hide Image;
  }

  lemma ReturnNamed(names: Names, v: F.World, w: F.World)
    requires Renamed(names, v, w) && v.phase.Finalizing?
    ensures Renamed(names, v.(phase := F.Finalizing(F.NULL)), w.(phase := F.Finalizing(F.NULL)))
  {
    hide Image, Injective;
  }

  lemma IdleNamed(names: Names, v: F.World, w: F.World)
    requires Renamed(names, v, w)
    ensures Renamed(names, v.(phase := F.Idle), w.(phase := F.Idle))
  {
    hide Image, Injective;
  }

  lemma ClearNamed(names: Names, v: F.World, w: F.World)
    requires Renamed(names, v, w)
    ensures Renamed(names, v.(objs := F.Clear(v.objs), phase := F.Idle), w.(objs := F.Clear(w.objs), phase := F.Idle))
  {
    hide Image, Injective;
  }

  lemma NewNames(names: Names, objs: map<int, F.Obj>, x: int, s: int, more: Names, after: map<int, F.Obj>)
    requires Injective(names) && s !in objs && (forall y :: y in objs <==> exists z :: z in names && names[z] == y)
    requires x !in names && more == names[x := s] && s in after && after == objs[s := after[s]]
    ensures Injective(more) && forall y :: y in after <==> exists z :: z in more && more[z] == y
  {
    forall y ensures y in after <==> exists z :: z in more && more[z] == y {
      if y in objs {
        var z :| z in names && names[z] == y;
        assert z in more && more[z] == y;
      }
      if y == s { assert x in more && more[x] == y; }
      if z :| z in more && more[z] == y { assert z != x ==> z in names && names[z] == y; }
    }
    forall a, b | a in more && b in more && more[a] == more[b] ensures a == b {
      assert a != x ==> names[a] in objs;
      assert b != x ==> names[b] in objs;
    }
  }

  lemma NewWhole(v: F.World, x: int, finalizer: bool)
    requires F.Whole(v)
    ensures F.Whole(v.(objs := v.objs[x := F.Obj({}, finalizer, false, false)], roots := v.roots + {x}))
    ensures v.roots <= v.objs.Keys && forall y :: y in v.objs ==> v.objs[y].fields <= v.objs.Keys
  {
  }

  lemma NewPhase(names: Names, phase: F.Phase, x: int, s: int)
    requires x !in names && x != F.NULL && (phase.Finalizing? ==> phase.running == F.NULL || phase.running in names)
    ensures NamedPhase(names[x := s], phase) == NamedPhase(names, phase)
    ensures phase.Finalizing? ==> phase.running == F.NULL || phase.running in names[x := s]
  {
  }

  lemma NamedMore(names: Names, o: F.Obj, x: int, s: int)
    requires o.fields <= names.Keys && x !in names
    ensures NamedObj(names[x := s], o) == NamedObj(names, o)
  {
    ImageMore(names, o.fields, x, s);
  }

  lemma NamedEmpty(names: Names, finalizer: bool)
    ensures NamedObj(names, F.Obj({}, finalizer, false, false)) == F.Obj({}, finalizer, false, false)
  {
  }

  lemma NewNamed(names: Names, v: F.World, w: F.World, x: int, s: int, finalizer: bool)
    requires Renamed(names, v, w) && x !in names && x != F.NULL && s !in w.objs
    ensures var o := F.Obj({}, finalizer, false, false);
            Renamed(names[x := s], v.(objs := v.objs[x := o], roots := v.roots + {x}),
                    w.(objs := w.objs[s := o], roots := w.roots + {s}))
  {
    hide *;
    var more, o := names[x := s], F.Obj({}, finalizer, false, false);
    RenamedParts(names, v, w);
    NewNames(names, w.objs, x, s, more, w.objs[s := o]);
    NewWhole(v, x, finalizer);
    NewPhase(names, v.phase, x, s);
    ImageMore(names, v.roots, x, s);
    ImageAdd(more, v.roots, x);
    NamedEmpty(more, finalizer);
    forall y | y in more ensures w.objs[s := o][more[y]] == NamedObj(more, v.objs[x := o][y]) {
      if y != x { NamedMore(names, v.objs[y], x, s); }
    }
    RenamedWhole(more, v.(objs := v.objs[x := o], roots := v.roots + {x}),
                 w.(objs := w.objs[s := o], roots := w.roots + {s}));
  }

  lemma ImageMore(names: Names, set_: set<int>, x: int, s: int)
    requires set_ <= names.Keys && x !in names
    ensures Image(names[x := s], set_) == Image(names, set_)
  {
  }

  // ---- Steps that change the roots ----------------------------------------------------------------

  ghost function RootSet(cfg: Config, b: Blocks): set<int> { Targets(cfg, b.heap.cells, b.payloads, Roots(b)) }

  lemma StandsParts(cfg: Config, b: Blocks, w: F.World)
    requires Stands(cfg, b, w)
    ensures Renamed(b.births, Machine(cfg, b), w) && F.Sound(w) && w.entered == b.entered
    ensures b.births.Keys == Machine(cfg, b).objs.Keys && Injective(b.births)
    ensures forall s :: s in w.objs || s in w.freed ==> 0 <= s < b.born
    ensures RootSet(cfg, b) <= b.births.Keys && Machine(cfg, b).roots == RootSet(cfg, b)
  {
  }

  lemma StandsWhole(cfg: Config, b: Blocks, w: F.World)
    requires Renamed(b.births, Machine(cfg, b), w) && F.Sound(w) && w.entered == b.entered
    requires forall s :: s in w.objs || s in w.freed ==> 0 <= s < b.born
    ensures Stands(cfg, b, w)
  {
    hide Renamed, F.Sound, Machine;
  }

  /** b' differs from b, to the machine, at most in its roots. */
  ghost predicate RootsOnly(cfg: Config, b: Blocks, b': Blocks) {
    && View(cfg, b'.heap.cells, b'.payloads) == View(cfg, b.heap.cells, b.payloads)
    && b'.phase == b.phase && b'.births == b.births && b'.born == b.born && b'.entered == b.entered
  }

  lemma RootsOnlyMachine(cfg: Config, b: Blocks, b': Blocks)
    requires RootsOnly(cfg, b, b')
    ensures Machine(cfg, b') == Machine(cfg, b).(roots := RootSet(cfg, b'))
  {
  }

  lemma SameStands(cfg: Config, b: Blocks, b': Blocks, w: F.World)
    requires Stands(cfg, b, w) && RootsOnly(cfg, b, b') && RootSet(cfg, b') == RootSet(cfg, b)
    ensures Stands(cfg, b', F.DoAll(w, []))
  {
    hide *;
    StandsParts(cfg, b, w);
    RootsOnlyMachine(cfg, b, b');
    RootsOnlyParts(cfg, b, b');
    NoFacts(w);
    MachineSelf(cfg, b);
    StandsWhole(cfg, b', w);
  }

  lemma RootsOnlyParts(cfg: Config, b: Blocks, b': Blocks)
    requires RootsOnly(cfg, b, b')
    ensures b'.phase == b.phase && b'.births == b.births && b'.born == b.born && b'.entered == b.entered
  {
  }

  lemma MachineSelf(cfg: Config, b: Blocks)
    ensures Machine(cfg, b) == Machine(cfg, b).(roots := RootSet(cfg, b))
  {
  }

  lemma NoFacts(w: F.World)
    ensures F.DoAll(w, []) == w
  {
  }

  /** Some roots went. */
  lemma FewerStands(cfg: Config, b: Blocks, b': Blocks, w: F.World) returns (facts: seq<F.Act>)
    requires Stands(cfg, b, w) && RootsOnly(cfg, b, b') && RootSet(cfg, b') <= RootSet(cfg, b)
    ensures Stands(cfg, b', F.DoAll(w, facts))
  {
    hide *;
    StandsParts(cfg, b, w);
    RootsOnlyMachine(cfg, b, b');
    RootsOnlyParts(cfg, b, b');
    var kept := Image(b.births, RootSet(cfg, b'));
    facts := DropRoots(w, w.roots - kept);
    RenamedRoots(b.births, Machine(cfg, b), w, RootSet(cfg, b'));
    RenamedParts(b.births, Machine(cfg, b), w);
    ImageSub(b.births, RootSet(cfg, b'), RootSet(cfg, b));
    assert w.roots - (w.roots - kept) == kept;
    StandsWhole(cfg, b', w.(roots := kept));
  }

  lemma ImageSub(names: Names, a: set<int>, b: set<int>)
    requires a <= b
    ensures Image(names, a) <= Image(names, b)
  {
  }

  /** User code took a root for something it could reach. */
  lemma MoreStands(cfg: Config, b: Blocks, b': Blocks, w: F.World, x: int) returns (facts: seq<F.Act>)
    requires Stands(cfg, b, w) && RootsOnly(cfg, b, b') && RootSet(cfg, b') == RootSet(cfg, b) + {x}
    requires x in b.births && F.Reachable(Machine(cfg, b), x)
    ensures Stands(cfg, b', F.DoAll(w, facts))
  {
    hide *;
    StandsParts(cfg, b, w);
    RootsOnlyMachine(cfg, b, b');
    RootsOnlyParts(cfg, b, b');
    var s := b.births[x];
    facts := [F.AddRoot(s)];
    ReachableNamed(b.births, Machine(cfg, b), w, x);
    UsableIf(w, s);
    AddRootIs(w, s);
    DoOne(w, F.AddRoot(s));
    F.DoSound(w, F.AddRoot(s));
    RenamedParts(b.births, Machine(cfg, b), w);
    ImageAdd(b.births, RootSet(cfg, b), x);
    RenamedRoots(b.births, Machine(cfg, b), w, RootSet(cfg, b'));
    StandsWhole(cfg, b', w.(roots := w.roots + {s}));
  }

  lemma AddRootIs(w: F.World, s: int)
    requires F.Usable(w, s)
    ensures F.Do(w, F.AddRoot(s)) == w.(roots := w.roots + {s})
  {
    hide F.Usable;
  }

  // ---- Roots of the chain -------------------------------------------------------------------------

  lemma RootIff(cfg: Config, b: Blocks, x: int)
    ensures x in RootSet(cfg, b) <==>
              x != NULL && exists r :: r in Roots(b) && Target(cfg, b.heap.cells, b.payloads, r) == x
  {
    B.TargetsIff(cfg, b.heap.cells, b.payloads, Roots(b), x);
    hide Roots, Target, Targets;
  }

  lemma RootsLess(cfg: Config, b: Blocks, b': Blocks)
    requires b'.heap == b.heap && b'.payloads == b.payloads && forall r :: r in Roots(b') ==> r in Roots(b)
    ensures RootSet(cfg, b') <= RootSet(cfg, b)
  {
    forall x | x in RootSet(cfg, b') ensures x in RootSet(cfg, b) {
      RootIff(cfg, b, x);
      RootIff(cfg, b', x);
    }
    hide Roots, RootSet;
  }

  /** One more slot among the roots. */
  lemma RootsPlus(cfg: Config, b: Blocks, b': Blocks, r: Ref)
    requires b'.heap == b.heap && b'.payloads == b.payloads && forall q :: q in Roots(b') <==> q in Roots(b) || q == r
    ensures var t := Target(cfg, b.heap.cells, b.payloads, r);
            RootSet(cfg, b') == RootSet(cfg, b) + if t == NULL then {} else {t}
  {
    var t := Target(cfg, b.heap.cells, b.payloads, r);
    forall x ensures x in RootSet(cfg, b') <==> x in RootSet(cfg, b) || (t != NULL && x == t) {
      RootIff(cfg, b, x);
      RootIff(cfg, b', x);
      if x == t { assert r in Roots(b'); }
    }
    hide Roots, RootSet, Target;
  }

  lemma KeepIn(b: Blocks, t: nat, r: Ref, q: Ref)
    requires t < |b.locals|
    ensures q in Roots(Keep(b, t, r)) <==> q in Roots(b) || q == r
  {
    var b' := Keep(b, t, r);
    RootsIn(b, q);
    RootsIn(b', q);
    assert b'.locals[t] == b.locals[t] + [r];
    if u :| 0 <= u < |b.locals| && q in b.locals[u] { assert q in b'.locals[u]; }
    if u :| 0 <= u < |b'.locals| && q in b'.locals[u] { assert u != t ==> q in b.locals[u]; }
    if q == r { assert q in b'.locals[t]; }
  }

  lemma PublishIn(b: Blocks, r: Ref, q: Ref)
    ensures q in Roots(b.(globals := b.globals + [r])) <==> q in Roots(b) || q == r
  {
    RootsIn(b, q);
    RootsIn(b.(globals := b.globals + [r]), q);
  }

  lemma RootsOnlySame(cfg: Config, b: Blocks, b': Blocks)
    requires b'.heap == b.heap && b'.payloads == b.payloads
    requires b'.phase == b.phase && b'.births == b.births && b'.born == b.born && b'.entered == b.entered
    ensures RootsOnly(cfg, b, b')
  {
  }

  /** A step after which user code holds one more reference, to what it could reach, or to nothing. */
  lemma KeepStands(cfg: Config, b: Blocks, b': Blocks, w: F.World, r: Ref) returns (facts: seq<F.Act>)
    requires Stands(cfg, b, w) && b' == b.(locals := b'.locals, globals := b'.globals)
    requires forall q :: q in Roots(b') <==> q in Roots(b) || q == r
    requires var x := Target(cfg, b.heap.cells, b.payloads, r);
               x != NULL ==> x in b.births && F.Reachable(Machine(cfg, b), x)
    ensures Stands(cfg, b', F.DoAll(w, facts))
  {
    hide *;
    RootsOnlySame(cfg, b, b');
    RootsPlus(cfg, b, b', r);
    var x := Target(cfg, b.heap.cells, b.payloads, r);
    if x == NULL {
      assert RootSet(cfg, b') == RootSet(cfg, b);
      SameStands(cfg, b, b', w);
      facts := [];
    } else {
      facts := MoreStands(cfg, b, b', w, x);
    }
  }

  lemma DropStands(cfg: Config, b: Blocks, b': Blocks, w: F.World) returns (facts: seq<F.Act>)
    requires Stands(cfg, b, w) && b' == b.(h := b'.h, locals := b'.locals, globals := b'.globals)
    requires forall q :: q in Roots(b') ==> q in Roots(b)
    ensures Stands(cfg, b', F.DoAll(w, facts))
  {
    hide *;
    RootsOnlySame(cfg, b, b');
    RootsLess(cfg, b, b');
    facts := FewerStands(cfg, b, b', w);
  }

  lemma BirthIs(cfg: Config, b: Blocks, x: int)
    requires HeapSound(cfg, b)
    ensures x in b.births <==> x in Machine(cfg, b).objs
    ensures x in GraphOf(cfg, b.heap.cells, b.payloads) <==> x in b.births
    ensures F.Edges(Machine(cfg, b).objs) == GraphOf(cfg, b.heap.cells, b.payloads)
  {
    ManagedOffset(b.heap.cells, x);
    ViewEdges(cfg, b.heap.cells, b.payloads);
  }

  /** What a root slot leads to is reachable, and so is what a slot of such a block leads to. */
  lemma HeldReachable(cfg: Config, b: Blocks, t: nat, r: Ref)
    requires HeapSound(cfg, b) && t < |b.locals| && r in b.locals[t] && Target(cfg, b.heap.cells, b.payloads, r) != NULL
    ensures var x := Target(cfg, b.heap.cells, b.payloads, r); x in b.births && F.Reachable(Machine(cfg, b), x)
  {
    LocalRoot(b, t, r);
    RootReachable(cfg, b, r);
  }

  lemma RootReachable(cfg: Config, b: Blocks, r: Ref)
    requires HeapSound(cfg, b) && r in Roots(b) && Target(cfg, b.heap.cells, b.payloads, r) != NULL
    ensures var x := Target(cfg, b.heap.cells, b.payloads, r); x in b.births && F.Reachable(Machine(cfg, b), x)
  {
    var x := Target(cfg, b.heap.cells, b.payloads, r);
    ChainOf(cfg, b);
    RootReached(cfg, b.heap.cells, b.payloads, Roots(b), r);
    TargetManaged(cfg, b.heap.cells, b.payloads, r);
    BirthIs(cfg, b, x);
    HeapParts(cfg, b);
    hide HeapSound, Roots, Target, GraphOf, View;
  }

  lemma SlotReachable(cfg: Config, b: Blocks, t: nat, x: int, k: nat)
    requires HeapSound(cfg, b) && t < |b.locals| && Holding(cfg, b, t, x, k)
    requires Target(cfg, b.heap.cells, b.payloads, b.payloads[x].refs[k]) != NULL
    ensures var y := Target(cfg, b.heap.cells, b.payloads, b.payloads[x].refs[k]);
              y in b.births && F.Reachable(Machine(cfg, b), y)
  {
    var r := b.payloads[x].refs[k];
    var y := Target(cfg, b.heap.cells, b.payloads, r);
    ChainOf(cfg, b);
    HeapParts(cfg, b);
    B.TargetsIff(cfg, b.heap.cells, b.payloads, b.locals[t], x);
    var q :| q in b.locals[t] && Target(cfg, b.heap.cells, b.payloads, q) == x;
    LocalRoot(b, t, q);
    RootReached(cfg, b.heap.cells, b.payloads, Roots(b), q);
    SlotReached(cfg, b.heap.cells, b.payloads, Roots(b), x, r);
    assert Typed(r);
    TargetManaged(cfg, b.heap.cells, b.payloads, r);
    BirthIs(cfg, b, y);
    hide HeapSound, Roots, Target, GraphOf, View;
  }

  // ---- Steps of managed code ----------------------------------------------------------------------

  /** Steps that only move references. */
  lemma MoveStands(cfg: Config, b: Blocks, act: Act, w: F.World) returns (facts: seq<F.Act>)
    requires Moves(act) && HeapSound(cfg, b) && MayRun(b, act.t) && Stands(cfg, b, w)
    ensures Stands(cfg, Mutate(cfg, b, act), F.DoAll(w, facts))
  {
    var b' := Mutate(cfg, b, act);
    if b' == b {
      facts := Unmoved(cfg, b, w);
    } else if act.Drop? || act.Retract? {
      forall q | q in Roots(b') ensures q in Roots(b) { MovedIn(b, b', act.t, q); DropIn(cfg, b, act, q); }
      facts := DropStands(cfg, b, b', w);
    } else {
      var r := match act
               case Load(_, x, k) => b.payloads[x].refs[k]
               case Literal(_, a) => To(STRING, a)
               case Publish(t, i) => b.locals[t][i]
               case Fetch(_, i) => b.globals[i]
               case _ => NIL;
      forall q ensures q in Roots(b') <==> q in Roots(b) || q == r {
        if act.Publish? { PublishIn(b, r, q); } else { KeepIn(b, act.t, r, q); }
      }
      if Target(cfg, b.heap.cells, b.payloads, r) != NULL {
        match act {
          case Load(t, x, k) => SlotReachable(cfg, b, t, x, k);
          case Literal(_, a) => LiteralNothing(cfg, b, a);
          case Publish(t, _) => HeldReachable(cfg, b, t, r);
          case Fetch(_, _) => GlobalReachable(cfg, b, r);
        }
      }
      facts := KeepStands(cfg, b, b', w, r);
    }
    hide HeapSound, Roots, Stands, Holding, Target, Removed, F.Reachable, Machine, MayRun;
  }

  lemma Unmoved(cfg: Config, b: Blocks, w: F.World) returns (facts: seq<F.Act>)
    requires Stands(cfg, b, w)
    ensures Stands(cfg, b, F.DoAll(w, facts))
  {
    facts := [];
    NoFacts(w);
  }

  lemma GlobalReachable(cfg: Config, b: Blocks, r: Ref)
    requires HeapSound(cfg, b) && r in b.globals && Target(cfg, b.heap.cells, b.payloads, r) != NULL
    ensures var x := Target(cfg, b.heap.cells, b.payloads, r); x in b.births && F.Reachable(Machine(cfg, b), x)
  {
    RootsIn(b, r);
    RootReachable(cfg, b, r);
  }

  lemma LiteralNothing(cfg: Config, b: Blocks, address: int)
    requires HeapSound(cfg, b) && Outside(cfg, address)
    ensures Target(cfg, b.heap.cells, b.payloads, To(STRING, address)) == NULL
  {
    TiledFacts(cfg, b.heap.cells, b.heap.top);
  }

  lemma MovedIn(b: Blocks, b': Blocks, t: nat, q: Ref)
    ensures q in Roots(b') <==> q in b'.globals || exists u :: 0 <= u < |b'.locals| && q in b'.locals[u]
  {
    RootsIn(b', q);
  }

  lemma DropIn(cfg: Config, b: Blocks, act: Act, q: Ref)
    requires (act.Drop? || act.Retract?) && MayRun(b, act.t)
    requires var b' := Mutate(cfg, b, act); q in b'.globals || exists u :: 0 <= u < |b'.locals| && q in b'.locals[u]
    ensures q in Roots(b)
  {
    var b' := Mutate(cfg, b, act);
    RootsIn(b, q);
    if act.Drop? && q in Removed(b.locals[act.t], act.i) { RemovedIn(b.locals[act.t], act.i, q); }
    if act.Retract? && q in Removed(b.globals, act.i) { RemovedIn(b.globals, act.i, q); }
    if u :| 0 <= u < |b'.locals| && q in b'.locals[u] { assert u != act.t ==> q in b.locals[u]; }
    hide Roots, Removed;
  }

  lemma RootUsable(w: F.World, s: int)
    requires s in w.roots && s in w.objs
    ensures F.Usable(w, s)
  {
    ReachRoot(F.Edges(w.objs), w.roots, s);
    UsableIf(w, s);
  }

  lemma LinkIs(w: F.World, a: int, c: int)
    requires a in w.roots && c in w.roots && a in w.objs && c in w.objs
    ensures F.Do(w, F.Link(a, c)) == w.(objs := w.objs[a := w.objs[a].(fields := w.objs[a].fields + {c})])
  {
    RootUsable(w, a);
    RootUsable(w, c);
    hide F.Usable;
  }

  lemma UnlinkIs(w: F.World, a: int, c: int)
    requires a in w.roots && a in w.objs
    ensures F.Do(w, F.Unlink(a, c)) == w.(objs := w.objs[a := w.objs[a].(fields := w.objs[a].fields - {c})])
  {
    RootUsable(w, a);
    hide F.Usable;
  }

  /** Giving a root object other fields: add one that is a root, or take one away. */
  lemma LinkNamed(names: Names, v: F.World, w: F.World, x: int, y: int)
    requires Renamed(names, v, w) && F.Sound(w) && x in v.roots && y in v.roots && x in names && y in names
    ensures var v' := v.(objs := v.objs[x := v.objs[x].(fields := v.objs[x].fields + {y})]);
            var w' := F.Do(w, F.Link(names[x], names[y]));
            && Renamed(names, v', w') && F.Sound(w') && w' == w.(objs := w'.objs) && w'.objs.Keys == w.objs.Keys
  {
    hide Renamed, F.Sound, F.Do, NamedPhase, Image, Injective, F.Whole;
    RenamedParts(names, v, w);
    F.DoSound(w, F.Link(names[x], names[y]));
    ObjectNamed(names, v, w, x);
    ObjectNamed(names, v, w, y);
    ImageIn(names, v.roots, x);
    ImageIn(names, v.roots, y);
    ImageAdd(names, v.objs[x].fields, y);
    FieldKeys(v, x);
    LinkIs(w, names[x], names[y]);
    RenamedField(names, v, w, x, v.objs[x].fields + {y});
  }

  lemma UnlinkNamed(names: Names, v: F.World, w: F.World, x: int, y: int)
    requires Renamed(names, v, w) && F.Sound(w) && x in v.roots && x in names && y in names
    ensures var v' := v.(objs := v.objs[x := v.objs[x].(fields := v.objs[x].fields - {y})]);
            var w' := F.Do(w, F.Unlink(names[x], names[y]));
            && Renamed(names, v', w') && F.Sound(w') && w' == w.(objs := w'.objs) && w'.objs.Keys == w.objs.Keys
  {
    F.DoSound(w, F.Unlink(names[x], names[y]));
    RenamedParts(names, v, w);
    ObjectNamed(names, v, w, x);
    ImageIn(names, v.roots, x);
    ImageLess(names, v.objs[x].fields, y);
    FieldKeys(v, x);
    hide Renamed, F.Sound, Image, F.Do;
    UnlinkIs(w, names[x], names[y]);
    RenamedField(names, v, w, x, v.objs[x].fields - {y});
  }

  lemma FieldKeys(v: F.World, x: int)
    requires F.Whole(v) && x in v.objs
    ensures v.objs[x].fields <= v.objs.Keys
  {
  }

  // ---- Stores -------------------------------------------------------------------------------------

  ghost function Slots(cfg: Config, b: Blocks, refs: seq<Ref>): set<int> {
    Targets(cfg, b.heap.cells, b.payloads, refs)
  }

  /** Replacing one slot adds its target at most, and takes the old one away unless another slot has it. */
  lemma SlotReplaced(cfg: Config, b: Blocks, refs: seq<Ref>, k: nat, v: Ref)
    requires k < |refs|
    ensures var a, d := Target(cfg, b.heap.cells, b.payloads, v), Target(cfg, b.heap.cells, b.payloads, refs[k]);
            var more := Slots(cfg, b, refs) + if a == NULL then {} else {a};
            var after := Slots(cfg, b, refs[k := v]);
            after == if d != NULL && d !in after then more - {d} else more
  {
    var after := refs[k := v];
    forall r ensures r in after ==> r in refs || r == v { }
    assert after[k] == v;
    forall r ensures r in refs ==> r in after || r == refs[k] {
      if r in refs {
        var i :| 0 <= i < |refs| && refs[i] == r;
        assert i != k ==> after[i] == r;
      }
    }
    forall y
      ensures y in Slots(cfg, b, refs) <==>
                y != NULL && exists r :: r in refs && Target(cfg, b.heap.cells, b.payloads, r) == y
    {
      B.TargetsIff(cfg, b.heap.cells, b.payloads, refs, y);
    }
    forall y
      ensures y in Slots(cfg, b, after) <==>
                y != NULL && exists r :: r in after && Target(cfg, b.heap.cells, b.payloads, r) == y
    {
      B.TargetsIff(cfg, b.heap.cells, b.payloads, after, y);
    }
    hide Target, Slots;
  }

  ghost function Stored(b: Blocks, x: int, k: nat, v: Ref): Blocks
    requires x in b.payloads && k < |b.payloads[x].refs|
  {
    b.(payloads := b.payloads[x := b.payloads[x].(refs := b.payloads[x].refs[k := v])])
  }

  lemma StoredObject(cfg: Config, b: Blocks, x: int, k: nat, v: Ref, y: int)
    requires x in b.payloads && k < |b.payloads[x].refs| && Traced(b.heap.cells, x)
    ensures var o := ObjAt(cfg, b.heap.cells, b.payloads, y);
            ObjAt(cfg, b.heap.cells, Stored(b, x, k, v).payloads, y)
              == (if y == x then o.(fields := Slots(cfg, b, b.payloads[x].refs[k := v])) else o)
  {
    var refs := b.payloads[x].refs[k := v];
    var after := Stored(b, x, k, v).payloads;
    forall r ensures Target(cfg, b.heap.cells, after, r) == Target(cfg, b.heap.cells, b.payloads, r) {
      FineStored(cfg, b.heap.cells, b.payloads, x, refs, r);
    }
    B.TargetsAgree(cfg, b.heap.cells, b.payloads, b.heap.cells, after, refs);
    if y in b.payloads { B.TargetsAgree(cfg, b.heap.cells, b.payloads, b.heap.cells, after, b.payloads[y].refs); }
    hide Target;
  }

  lemma StoredMachine(cfg: Config, b: Blocks, x: int, k: nat, v: Ref)
    requires x in b.payloads && k < |b.payloads[x].refs| && Traced(b.heap.cells, x)
    ensures var m := Machine(cfg, b);
            x in m.objs && m.objs[x].fields == Slots(cfg, b, b.payloads[x].refs)
            && Machine(cfg, Stored(b, x, k, v)) ==
                 m.(objs := m.objs[x := m.objs[x].(fields := Slots(cfg, b, b.payloads[x].refs[k := v]))])
  {
    var m, after := Machine(cfg, b), Stored(b, x, k, v);
    ManagedOffset(b.heap.cells, x);
    assert Managed(b.heap.cells, x);
    forall r ensures Target(cfg, b.heap.cells, after.payloads, r) == Target(cfg, b.heap.cells, b.payloads, r) {
      FineStored(cfg, b.heap.cells, b.payloads, x, b.payloads[x].refs[k := v], r);
    }
    B.TargetsAgree(cfg, b.heap.cells, b.payloads, b.heap.cells, after.payloads, Roots(b));
    assert Roots(after) == Roots(b);
    forall y ensures var o := ObjAt(cfg, b.heap.cells, b.payloads, y);
                     ObjAt(cfg, b.heap.cells, after.payloads, y)
                       == (if y == x then o.(fields := Slots(cfg, b, b.payloads[x].refs[k := v])) else o)
    {
      StoredObject(cfg, b, x, k, v, y);
    }
    assert ObjAt(cfg, b.heap.cells, b.payloads, x).fields == Slots(cfg, b, b.payloads[x].refs);
    hide ObjAt, Target, Targets, Roots, Slots, Managed, Traced;
    Sequences.SameMap(View(cfg, b.heap.cells, after.payloads),
                      m.objs[x := m.objs[x].(fields := Slots(cfg, b, b.payloads[x].refs[k := v]))]);
  }

  lemma StoreStands(cfg: Config, b: Blocks, t: nat, x: int, k: nat, v: Ref, w: F.World) returns (facts: seq<F.Act>)
    requires HeapSound(cfg, b) && t < |b.locals| && Holding(cfg, b, t, x, k) && (v in b.locals[t] || v == NIL)
    requires Stands(cfg, b, w)
    ensures Stands(cfg, Stored(b, x, k, v), F.DoAll(w, facts))
  {
    var m, refs := Machine(cfg, b), b.payloads[x].refs;
    var a, d := Target(cfg, b.heap.cells, b.payloads, v), Target(cfg, b.heap.cells, b.payloads, refs[k]);
    var after := Slots(cfg, b, refs[k := v]);
    var b' := Stored(b, x, k, v);
    StoreFacts(cfg, b, t, x, k, v);
    assert b'.births == b.births && b'.entered == b.entered && b'.born == b.born;
    hide *;
    StandsParts(cfg, b, w);
    StoredMachine(cfg, b, x, k, v);
    SlotReplaced(cfg, b, refs, k, v);
    facts := [];
    NoFacts(w);
    var m1, w1 := m, w;
    if a != NULL {
      LinkNamed(b.births, m, w, x, a);
      var link := F.Link(b.births[x], b.births[a]);
      m1, w1, facts := m.(objs := m.objs[x := m.objs[x].(fields := m.objs[x].fields + {a})]), F.Do(w, link), [link];
      DoOne(w, link);
    }
    var more := Slots(cfg, b, refs) + if a == NULL then {} else {a};
    assert m1 == m.(objs := m.objs[x := m.objs[x].(fields := more)]) by { SelfMap(m.objs, x); }
    var w2 := w1;
    if d != NULL && d !in after {
      UnlinkNamed(b.births, m1, w1, x, d);
      var unlink := F.Unlink(b.births[x], b.births[d]);
      w2 := F.Do(w1, unlink);
      F.DoAllJoin(w, facts, [unlink]);
      DoOne(w1, unlink);
      facts := facts + [unlink];
      TwiceMap(m.objs, x, more, after);
    }
    StandsWhole(cfg, b', w2);
  }

  lemma SelfMap(objs: map<int, F.Obj>, x: int)
    requires x in objs
    ensures objs == objs[x := objs[x].(fields := objs[x].fields)] && objs[x].fields + {} == objs[x].fields
  {
  }

  lemma TwiceMap(objs: map<int, F.Obj>, x: int, a: set<int>, c: set<int>)
    requires x in objs
    ensures var once := objs[x := objs[x].(fields := a)];
            once[x := once[x].(fields := c)] == objs[x := objs[x].(fields := c)]
  {
  }

  /** The block, the new target and the old one all have numbers; the first two are held by the task. */
  lemma StoreFacts(cfg: Config, b: Blocks, t: nat, x: int, k: nat, v: Ref)
    requires HeapSound(cfg, b) && t < |b.locals| && Holding(cfg, b, t, x, k) && (v in b.locals[t] || v == NIL)
    ensures x in b.births && x in RootSet(cfg, b) && Traced(b.heap.cells, x) && x in b.payloads
    ensures k < |b.payloads[x].refs|
    ensures var a := Target(cfg, b.heap.cells, b.payloads, v); a != NULL ==> a in b.births && a in RootSet(cfg, b)
    ensures var d := Target(cfg, b.heap.cells, b.payloads, b.payloads[x].refs[k]); d != NULL ==> d in b.births
  {
    var a, d := Target(cfg, b.heap.cells, b.payloads, v), Target(cfg, b.heap.cells, b.payloads, b.payloads[x].refs[k]);
    B.TargetsIff(cfg, b.heap.cells, b.payloads, b.locals[t], x);
    var q :| q in b.locals[t] && Target(cfg, b.heap.cells, b.payloads, q) == x;
    LocalRoot(b, t, q);
    RootIff(cfg, b, x);
    HeldReachable(cfg, b, t, q);
    assert v == NIL ==> a == NULL;
    if a != NULL {
      LocalRoot(b, t, v);
      RootIff(cfg, b, a);
      HeldReachable(cfg, b, t, v);
    }
    if d != NULL { SlotReachable(cfg, b, t, x, k); }
    hide HeapSound, RootSet, F.Reachable, Machine, Roots, Targets, Target;
  }

  // ---- Allocations --------------------------------------------------------------------------------

  lemma SeenView(cfg: Config, a: seq<Cell>, b: seq<Cell>, payloads: Payloads)
    requires SameSeen(a, b) && AllTyped(payloads)
    ensures View(cfg, b, payloads) == View(cfg, a, payloads)
  {
    SeenManaged(a, b);
    ViewKept(cfg, a, b, payloads);
    forall x | x in View(cfg, a, payloads) ensures View(cfg, b, payloads)[x] == View(cfg, a, payloads)[x] {
      assert Holds(b, x, FINALIZED) <==> Holds(a, x, FINALIZED);
      assert Holds(b, x, PENDING) <==> Holds(a, x, PENDING);
      assert View(cfg, a, payloads)[x] == ObjAt(cfg, a, payloads, x);
    }
    hide ObjAt, Holds, SameSeen;
  }

  /** RAW blocks are nothing to the machine. */
  lemma RawStands(cfg: Config, b: Blocks, b': Blocks, w: F.World)
    requires HeapSound(cfg, b) && SameSeen(b.heap.cells, b'.heap.cells) && b' == b.(heap := b'.heap)
    requires Stands(cfg, b, w)
    ensures Stands(cfg, b', F.DoAll(w, []))
  {
    HeapParts(cfg, b);
    ChainOf(cfg, b);
    SeenManaged(b.heap.cells, b'.heap.cells);
    SeenView(cfg, b.heap.cells, b'.heap.cells, b.payloads);
    TargetsKept(cfg, b.heap.cells, b'.heap.cells, b.payloads, Roots(b));
    assert Roots(b') == Roots(b);
    SameStands(cfg, b, b', w);
    hide HeapSound, Stands, View, Targets, Roots;
  }

  lemma NewObject(cfg: Config, a: seq<Cell>, b: seq<Cell>, payloads: Payloads, u: Cell, kind: Flag, p: Payload)
    requires Gains(a, b, u) && u.flags == {kind} && kind in MANAGED
    requires (forall k :: !Holds(a, u.at, k)) && (forall r :: r in p.refs ==> r == NIL)
    requires p.finalizer ==> kind == OBJECT
    ensures ObjAt(cfg, b, payloads[u.at := p], u.at) == F.Obj({}, p.finalizer, false, false)
  {
    GainsHolds(a, b, u, u.at, OBJECT);
    GainsHolds(a, b, u, u.at, FINALIZED);
    GainsHolds(a, b, u, u.at, PENDING);
    NilTargets(cfg, b, payloads[u.at := p], p.refs);
  }

  lemma {:induction false} NilTargets(cfg: Config, cells: seq<Cell>, payloads: Payloads, refs: seq<Ref>)
    requires forall r :: r in refs ==> r == NIL
    ensures Targets(cfg, cells, payloads, refs) == {}
  {
    if refs != [] {
      assert refs[0] in refs;
      forall r | r in refs[1..] ensures r == NIL { assert r in refs; }
      NilTargets(cfg, cells, payloads, refs[1..]);
    }
  }

  lemma OldObject(cfg: Config, a: seq<Cell>, b: seq<Cell>, payloads: Payloads, u: Cell, kind: Flag, p: Payload, x: int)
    requires PayloadsFine(cfg, a, payloads) && Gains(a, b, u) && u.flags == {kind} && kind in MANAGED
    requires (forall k :: !Holds(a, u.at, k)) && 0 <= u.at < cfg.size && x != u.at
    ensures ObjAt(cfg, b, payloads[u.at := p], x) == ObjAt(cfg, a, payloads, x)
  {
    GainsManaged(a, b, u, kind, x);
    GainsHolds(a, b, u, x, OBJECT);
    GainsHolds(a, b, u, x, FINALIZED);
    GainsHolds(a, b, u, x, PENDING);
    if Traced(a, x) {
      forall r | r in payloads[x].refs ensures Target(cfg, a, payloads, r) == Target(cfg, b, payloads[u.at := p], r) {
        FineGrown(cfg, a, b, payloads, u, p, r);
      }
      B.TargetsAgree(cfg, a, payloads, b, payloads[u.at := p], payloads[x].refs);
    }
    hide Target, Managed, Traced, Gains, Fine, Holds, Targets;
  }

  lemma AllocView(cfg: Config, a: seq<Cell>, b: seq<Cell>, payloads: Payloads, u: Cell, kind: Flag, p: Payload)
    requires PayloadsFine(cfg, a, payloads) && Gains(a, b, u) && u.flags == {kind} && kind in MANAGED
    requires (forall k :: !Holds(a, u.at, k)) && 0 <= u.at < cfg.size
    requires (forall r :: r in p.refs ==> r == NIL) && (p.finalizer ==> kind == OBJECT)
    ensures View(cfg, b, payloads[u.at := p]) == View(cfg, a, payloads)[u.at := F.Obj({}, p.finalizer, false, false)]
  {
    var q := payloads[u.at := p];
    var before, after := View(cfg, a, payloads), View(cfg, b, q);
    forall x ensures x in after.Keys <==> x in before.Keys || x == u.at {
      ManagedOffset(a, x);
      ManagedOffset(b, x);
      GainsManaged(a, b, u, kind, x);
    }
    NewObject(cfg, a, b, payloads, u, kind, p);
    forall x | x in before && x != u.at ensures after[x] == before[x] { OldObject(cfg, a, b, payloads, u, kind, p, x); }
    hide Managed, Gains, Holds, PayloadsFine, ObjAt;
    Sequences.SameMap(after, before[u.at := F.Obj({}, p.finalizer, false, false)]);
  }

  lemma AllocRoots(cfg: Config, b: Blocks, b': Blocks, t: nat, u: Cell, kind: Flag, p: Payload)
    requires AllFine(cfg, b.heap.cells, b.payloads, Roots(b)) && Gains(b.heap.cells, b'.heap.cells, u)
    requires u.flags == {kind} && kind in MANAGED
    requires (forall k :: !Holds(b.heap.cells, u.at, k)) && 0 <= u.at < cfg.size && p.accepted && t < |b.locals|
    requires b'.payloads == b.payloads[u.at := p] && b'.globals == b.globals
    requires b'.locals == b.locals[t := b.locals[t] + [To(kind, u.at + cfg.header)]]
    ensures RootSet(cfg, b') == RootSet(cfg, b) + {u.at}
  {
    var r := To(kind, u.at + cfg.header);
    NewFine(cfg, b.heap.cells, b'.heap.cells, b.payloads, u, kind, p);
    forall q ensures q in Roots(b') <==> q in Roots(b) || q == r {
      KeepIn(b, t, r, q);
      RootsIn(b', q);
      RootsIn(Keep(b, t, r), q);
    }
    forall q | q in Roots(b)
      ensures Target(cfg, b'.heap.cells, b'.payloads, q) == Target(cfg, b.heap.cells, b.payloads, q)
    {
      FineGrown(cfg, b.heap.cells, b'.heap.cells, b.payloads, u, p, q);
    }
    hide Target, Gains, Roots, Fine, Holds;
    forall x ensures x in RootSet(cfg, b') <==> x in RootSet(cfg, b) || x == u.at {
      RootIff(cfg, b, x);
      RootIff(cfg, b', x);
      if x == u.at { assert r in Roots(b'); }
    }
    hide RootSet;
  }

  lemma AllocStands(cfg: Config, b: Blocks, act: Act, w: F.World) returns (facts: seq<F.Act>)
    requires HeapSound(cfg, b) && act.Alloc? && Allocatable(act) && act.t < |b.locals| && Stands(cfg, b, w)
    ensures Stands(cfg, Allocate(cfg, b, act), F.DoAll(w, facts))
  {
    var b' := Allocate(cfg, b, act);
    if b' == b {
      facts := Unmoved(cfg, b, w);
    } else {
      var u, p := AllocateIs(cfg, b, act);
      assert p.finalizer ==> act.kind == OBJECT;
      assert b'.phase == b.phase && b'.entered == b.entered && p.accepted;
      HeapParts(cfg, b);
      hide *;
      AllocView(cfg, b.heap.cells, b'.heap.cells, b.payloads, u, act.kind, p);
      AllocRoots(cfg, b, b', act.t, u, act.kind, p);
      NewUnborn(cfg, b, u.at);
      facts := AllocNamed(cfg, b, b', u.at, p.finalizer, w);
    }
  }

  lemma NewUnborn(cfg: Config, b: Blocks, x: int)
    requires HeapSound(cfg, b) && forall k :: !Holds(b.heap.cells, x, k)
    ensures x !in b.births
  {
  }

  lemma AllocNamed(cfg: Config, b: Blocks, b': Blocks, x: int, finalizer: bool, w: F.World) returns (facts: seq<F.Act>)
    requires Stands(cfg, b, w) && x !in b.births && 0 <= x
    requires b'.births == b.births[x := b.born] && b'.born == b.born + 1 && b'.phase == b.phase
    requires b'.entered == b.entered
    requires View(cfg, b'.heap.cells, b'.payloads) ==
               View(cfg, b.heap.cells, b.payloads)[x := F.Obj({}, finalizer, false, false)]
    requires RootSet(cfg, b') == RootSet(cfg, b) + {x}
    ensures Stands(cfg, b', F.DoAll(w, facts))
  {
    var s := b.born;
    var w' := F.Do(w, F.Alloc(s, finalizer));
    assert w' == w.(objs := w.objs[s := F.Obj({}, finalizer, false, false)], roots := w.roots + {s});
    F.DoSound(w, F.Alloc(s, finalizer));
    NewNamed(b.births, Machine(cfg, b), w, x, s, finalizer);
    var m := Machine(cfg, b);
    assert Machine(cfg, b') == m.(objs := m.objs[x := F.Obj({}, finalizer, false, false)], roots := m.roots + {x});
    assert forall z :: z in w'.objs || z in w'.freed ==> 0 <= z < b'.born;
    hide Renamed, F.Sound, F.Do, Machine, RootSet, View;
    facts := [F.Alloc(s, finalizer)];
    DoOne(w, F.Alloc(s, finalizer));
    StandsWhole(cfg, b', w');
  }

  // ---- Collections and finalizers -----------------------------------------------------------------

  /** A collection of the chain is the machine's. */
  lemma CollectStands(cfg: Config, b: Blocks, act: Act, w: F.World)
    requires HeapSound(cfg, b) && act.Collect? && b.phase.Idle? && Collects(cfg, b, act) && Stands(cfg, b, w)
    ensures Stands(cfg, Collection(cfg, b, act), F.DoAll(w, [F.Collect]))
  {
    hide *;
    var m, b' := Machine(cfg, b), Collection(cfg, b, act);
    StandsParts(cfg, b, w);
    CollectionMachine(cfg, b, act);
    CollectNamed(b.births, m, w);
    DoOne(w, F.Collect);
    F.DoSound(w, F.Collect);
    var v, w' := F.Do(m, F.Collect), F.Do(w, F.Collect);
    assert Renamed(b'.births, v, w');
    LogsApart(b'.births, v, Machine(cfg, b'), w', w');
    SameNumbers(w, w', b.born);
    StandsWhole(cfg, b', w');
  }

  lemma SameNumbers(w: F.World, w': F.World, born: nat)
    requires w'.objs.Keys + w'.freed == w.objs.Keys + w.freed
    requires forall s :: s in w.objs || s in w.freed ==> 0 <= s < born
    ensures forall s :: s in w'.objs || s in w'.freed ==> 0 <= s < born
  {
    forall s | s in w'.objs || s in w'.freed ensures 0 <= s < born { assert s in w'.objs.Keys + w'.freed; }
  }

  lemma CollectionBirths(cfg: Config, b: Blocks, act: Act, objs: map<int, F.Obj>)
    requires act.Collect? && objs == View(cfg, act.after.cells, b.payloads)
    ensures Collection(cfg, b, act).births == Restricted(b.births, objs)
  {
    forall x ensures x in objs <==> Managed(act.after.cells, x) { ManagedOffset(act.after.cells, x); }
    hide Managed, View;
    Sequences.SameMap(Collection(cfg, b, act).births, Restricted(b.births, objs));
  }

  lemma CollectionParts(cfg: Config, b: Blocks, act: Act)
    requires act.Collect?
    ensures var b' := Collection(cfg, b, act);
            && Machine(cfg, b') ==
                 F.World(View(cfg, act.after.cells, b.payloads), Targets(cfg, act.after.cells, b.payloads, Roots(b)),
                         [], {}, if act.outcome.Finalizing? then F.Finalizing(F.NULL) else F.Idle)
            && b'.born == b.born && b'.entered == b.entered
  {
    assert Roots(Collection(cfg, b, act)) == Roots(b);
    hide Roots, View, Targets;
  }

  lemma CollectsParts(cfg: Config, b: Blocks, act: Act)
    requires act.Collect? && Collects(cfg, b, act)
    ensures C.Collected(cfg, b.heap.cells, act.marked, act.after.cells, b.payloads, Roots(b), act.epoch, act.outcome)
  {
  }

  lemma MachineParts(cfg: Config, b: Blocks)
    ensures var m := Machine(cfg, b);
            m.objs == View(cfg, b.heap.cells, b.payloads)
            && m.roots == Targets(cfg, b.heap.cells, b.payloads, Roots(b)) && m.phase == b.phase
  {
  }

  lemma CollectionMachine(cfg: Config, b: Blocks, act: Act)
    requires HeapSound(cfg, b) && act.Collect? && b.phase.Idle? && Collects(cfg, b, act)
    ensures Machine(cfg, b).phase.Idle?
    ensures var v, b' := F.Do(Machine(cfg, b), F.Collect), Collection(cfg, b, act);
            && Machine(cfg, b') == v.(entered := [], freed := {})
            && b'.births == Restricted(b.births, v.objs) && b'.born == b.born && b'.entered == b.entered
  {
    hide *;
    var m := Machine(cfg, b);
    MachineParts(cfg, b);
    ChainOf(cfg, b);
    CollectsIs(cfg, b, act);
    CollectsParts(cfg, b, act);
    CollectRefines(cfg, b.heap.cells, act.marked, act.after.cells, b.payloads, Roots(b), act.epoch, act.outcome,
                   b.heap.top, m);
    PhaseOf(m);
    CollectionBirths(cfg, b, act, F.Do(m, F.Collect).objs);
    CollectionParts(cfg, b, act);
  }

  lemma PhaseOf(w: F.World)
    requires w.phase.Idle?
    ensures var v := F.Do(w, F.Collect); v.phase == F.Idle || v.phase == F.Finalizing(F.NULL)
  {
  }

  /** Taking a finalizer is the machine's entry into it; and its object becomes a root. */
  lemma EnterStands(cfg: Config, b: Blocks, t: nat, i: nat, w: F.World)
    requires HeapSound(cfg, b) && t < |b.locals| && Stands(cfg, b, w) && b.phase == F.Finalizing(F.NULL)
    requires i < |b.heap.cells| && PENDING in b.heap.cells[i].flags && b.heap.cells[i].at in b.births
    ensures |Called(b, i).locals| == |b.locals|
    ensures var s := b.births[b.heap.cells[i].at];
            Stands(cfg, Keep(Called(b, i), t, To(OBJECT, b.heap.cells[i].at + cfg.header)),
                   F.DoAll(w, [F.Enter(s), F.AddRoot(s)]))
  {
    hide *;
    var x := b.heap.cells[i].at;
    var s := b.births[x];
    var mid := Called(b, i);
    StandsParts(cfg, b, w);
    CalledMachine(cfg, b, i);
    EnterNamed(b.births, Machine(cfg, b), w, x);
    F.DoSound(w, F.Enter(s));
    var w1 := F.Do(w, F.Enter(s));
    assert Renamed(mid.births, F.Do(Machine(cfg, b), F.Enter(x)), w1);
    LogsApart(mid.births, F.Do(Machine(cfg, b), F.Enter(x)), Machine(cfg, mid), w1, w1);
    StandsWhole(cfg, mid, w1);
    B.CalledSame(cfg, b, i);
    RootedStands(cfg, mid, t, To(OBJECT, x + cfg.header), x, w1);
    DoTwo(w, F.Enter(s), F.AddRoot(s));
  }

  lemma CalledMachine(cfg: Config, b: Blocks, i: nat)
    requires HeapSound(cfg, b) && b.phase == F.Finalizing(F.NULL)
    requires i < |b.heap.cells| && PENDING in b.heap.cells[i].flags && b.heap.cells[i].at in b.births
    ensures var x, m, mid := b.heap.cells[i].at, Machine(cfg, b), Called(b, i);
            && m.phase == F.Finalizing(F.NULL) && x in m.objs && m.objs[x].pending
            && Machine(cfg, mid) == F.Do(m, F.Enter(x)).(entered := [], freed := {})
            && mid.births == b.births && mid.born == b.born && mid.entered == b.entered + [b.births[x]]
            && mid.phase == F.Finalizing(x) && |mid.locals| == |b.locals|
  {
    var x, m, mid := b.heap.cells[i].at, Machine(cfg, b), Called(b, i);
    ChainOf(cfg, b);
    EnterRefines(cfg, b.heap.cells, b.payloads, b.heap.top, i, m);
    EnteredPending(cfg, b.heap.cells, b.payloads, b.heap.top, i);
    EnterStep(m, x);
    B.CalledSame(cfg, b, i);
    TargetsKept(cfg, b.heap.cells, mid.heap.cells, b.payloads, Roots(b));
    assert Roots(mid) == Roots(b);
    assert mid.heap.cells == b.heap.cells[i := Entered(b.heap.cells[i])];
    hide HeapSound, Chain, F.Do, Roots, Targets, View, SameManaged;
  }

  /** The object of the running finalizer becomes a root. */
  lemma RootedStands(cfg: Config, b: Blocks, t: nat, r: Ref, x: int, w: F.World)
    requires Stands(cfg, b, w) && t < |b.locals| && b.phase == F.Finalizing(x) && x in b.births
    requires Target(cfg, b.heap.cells, b.payloads, r) == x
    ensures Stands(cfg, Keep(b, t, r), F.Do(w, F.AddRoot(b.births[x])))
  {
    assert F.NULL == NULL;
    hide *;
    var b' := Keep(b, t, r);
    var s := b.births[x];
    KeepOnly(b, t, r);
    StandsParts(cfg, b, w);
    RootsOnlySame(cfg, b, b');
    RootsOnlyMachine(cfg, b, b');
    RenamedParts(b.births, Machine(cfg, b), w);
    ObjectNamed(b.births, Machine(cfg, b), w, x);
    RunningPhase(cfg, b, x);
    forall q ensures q in Roots(b') <==> q in Roots(b) || q == r { KeepIn(b, t, r, q); }
    RootsPlus(cfg, b, b', r);
    assert x != NULL && RootSet(cfg, b') == RootSet(cfg, b) + {x};
    ImageAdd(b.births, RootSet(cfg, b), x);
    RenamedRoots(b.births, Machine(cfg, b), w, RootSet(cfg, b'));
    RunningUsable(w, s);
    AddRootIs(w, s);
    F.DoSound(w, F.AddRoot(s));
    StandsWhole(cfg, b', F.Do(w, F.AddRoot(s)));
  }

  lemma KeepOnly(b: Blocks, t: nat, r: Ref)
    requires t < |b.locals|
    ensures var b' := Keep(b, t, r); b' == b.(locals := b'.locals)
  {
  }

  lemma RunningPhase(cfg: Config, b: Blocks, x: int)
    requires b.phase == F.Finalizing(x) && x in b.births
    ensures NamedPhase(b.births, Machine(cfg, b).phase) == F.Finalizing(b.births[x])
  {
  }

  lemma RunningUsable(w: F.World, s: int)
    requires w.phase == F.Finalizing(s) && s != F.NULL && s in w.objs
    ensures F.Usable(w, s)
  {
    ReachRoot(F.Edges(w.objs), w.roots + {s}, s);
  }

  lemma PhaseStands(cfg: Config, b: Blocks, w: F.World)
    requires Stands(cfg, b, w) && b.phase.Finalizing?
    ensures Stands(cfg, b.(phase := F.Finalizing(F.NULL)), F.DoAll(w, [F.Return]))
  {
    var b' := b.(phase := F.Finalizing(F.NULL));
    ReturnNamed(b.births, Machine(cfg, b), w);
    RenamedParts(b.births, Machine(cfg, b), w);
    assert Roots(b') == Roots(b);
    assert Machine(cfg, b') == Machine(cfg, b).(phase := F.Finalizing(F.NULL));
    assert w.phase.Finalizing?;
    DoOne(w, F.Return);
    F.DoSound(w, F.Return);
    assert F.Do(w, F.Return) == w.(phase := F.Finalizing(F.NULL));
    hide Renamed, F.Sound, Machine, F.Do;
    StandsWhole(cfg, b', F.Do(w, F.Return));
  }

  /** The machine's queue is empty when the chain's is. */
  lemma NothingPending(cfg: Config, b: Blocks, w: F.World)
    requires Renamed(b.births, Machine(cfg, b), w)
    requires forall i :: 0 <= i < |b.heap.cells| ==> PENDING !in b.heap.cells[i].flags
    ensures forall y :: y in w.objs ==> !w.objs[y].pending
  {
    forall y | y in w.objs ensures !w.objs[y].pending {
      var x := NodeUnnamed(b.births, Machine(cfg, b), w, y);
      ObjectNamed(b.births, Machine(cfg, b), w, x);
      assert !Holds(b.heap.cells, x, PENDING);
    }
  }

  lemma FinishStands(cfg: Config, b: Blocks, w: F.World)
    requires Stands(cfg, b, w) && b.phase == F.Finalizing(F.NULL)
    requires forall i :: 0 <= i < |b.heap.cells| ==> PENDING !in b.heap.cells[i].flags
    ensures Stands(cfg, b.(phase := F.Idle), F.DoAll(w, [F.Finish]))
  {
    var b' := b.(phase := F.Idle);
    NothingPending(cfg, b, w);
    IdleNamed(b.births, Machine(cfg, b), w);
    RenamedParts(b.births, Machine(cfg, b), w);
    assert Roots(b') == Roots(b);
    assert Machine(cfg, b') == Machine(cfg, b).(phase := F.Idle);
    assert w.phase == F.Finalizing(F.NULL);
    DoOne(w, F.Finish);
    F.DoSound(w, F.Finish);
    assert F.Do(w, F.Finish) == w.(phase := F.Idle);
    hide Renamed, F.Sound, Machine, F.Do;
    StandsWhole(cfg, b', F.Do(w, F.Finish));
  }

  lemma EscapeStands(cfg: Config, b: Blocks, w: F.World)
    requires HeapSound(cfg, b) && Stands(cfg, b, w) && b.phase.Finalizing? && b.phase.running != F.NULL
    ensures Stands(cfg, b.(heap := b.heap.(cells := ClearAll(b.heap.cells)), phase := F.Idle), F.DoAll(w, [F.Escape]))
  {
    var b' := b.(heap := b.heap.(cells := ClearAll(b.heap.cells)), phase := F.Idle);
    hide *;
    StandsParts(cfg, b, w);
    ClearedMachine(cfg, b, b');
    ClearNamed(b.births, Machine(cfg, b), w);
    RenamedParts(b.births, Machine(cfg, b), w);
    MachineParts(cfg, b);
    ObjectNamed(b.births, Machine(cfg, b), w, b.phase.running);
    EscapeIs(b.births, b.phase, w);
    DoOne(w, F.Escape);
    F.DoSound(w, F.Escape);
    ClearKeys(w.objs);
    StandsWhole(cfg, b', F.Do(w, F.Escape));
  }

  lemma EscapeIs(names: Names, phase: F.Phase, w: F.World)
    requires phase.Finalizing? && phase.running in names && names[phase.running] != F.NULL
    requires w.phase == NamedPhase(names, phase)
    ensures F.Do(w, F.Escape) == w.(objs := F.Clear(w.objs), phase := F.Idle)
  {
  }

  lemma ClearedMachine(cfg: Config, b: Blocks, b': Blocks)
    requires HeapSound(cfg, b) && b' == b.(heap := b.heap.(cells := ClearAll(b.heap.cells)), phase := F.Idle)
    ensures Machine(cfg, b') == Machine(cfg, b).(objs := F.Clear(Machine(cfg, b).objs), phase := F.Idle)
    ensures b'.births == b.births && b'.born == b.born && b'.entered == b.entered
  {
    ChainOf(cfg, b);
    HeapParts(cfg, b);
    assert AllWellformed(b.heap.cells);
    ClearedProper(b.heap.cells);
    SameBlocksManaged(b.heap.cells, b'.heap.cells);
    EscapeRefines(cfg, b.heap.cells, b'.heap.cells, b.payloads, b.heap.top);
    TargetsKept(cfg, b.heap.cells, b'.heap.cells, b.payloads, Roots(b));
    assert Roots(b') == Roots(b);
    hide HeapSound, Chain, F.Clear, Roots, Targets, View, SameManaged;
  }

  // ---- Every step, and every run ------------------------------------------------------------------

  lemma MutateStands(cfg: Config, b: Blocks, act: Act, w: F.World) returns (facts: seq<F.Act>)
    requires Managing(act) && HeapSound(cfg, b) && MayRun(b, act.t) && Stands(cfg, b, w)
    ensures Stands(cfg, Mutate(cfg, b, act), F.DoAll(w, facts))
  {
    if Moves(act) {
      facts := MoveStands(cfg, b, act, w);
    } else if Mutate(cfg, b, act) == b {
      facts := Unmoved(cfg, b, w);
    } else {
      facts := [];
      match act {
        case Store(t, x, k, v) => facts := StoreStands(cfg, b, t, x, k, v, w);
        case Alloc(_, _, _, _, _, _) => facts := AllocStands(cfg, b, act, w);
        case AllocRaw(_, need, size) => RawTaken(cfg, b.heap, need, size); RawStands(cfg, b, Mutate(cfg, b, act), w);
        case FreeRaw(_, i) => RawFreed(cfg, b.heap, i); RawStands(cfg, b, Mutate(cfg, b, act), w);
        case Enter(t, i) =>
          B.EnterIs(cfg, b, t, i);
          EnterStands(cfg, b, t, i, w);
          facts := [F.Enter(b.births[b.heap.cells[i].at]), F.AddRoot(b.births[b.heap.cells[i].at])];
      }
    }
    hide HeapSound, Allocate, HeapSpec.Served, Released, ReleasedList, Holding, Stands, MayRun, Keep, Called, Removed;
  }

  lemma ExchangeStands(cfg: Config, W: nat, b: Blocks, t: nat, call: H.Call, w: F.World) returns (facts: seq<F.Act>)
    requires W > 0 && Shaped(b) && t < |b.h.tasks| && Stands(cfg, b, w)
    ensures Stands(cfg, Exchange(W, b, t, call), F.DoAll(w, facts))
  {
    var b' := Exchange(W, b, t, call);
    assert b'.locals == b.locals[t := b'.locals[t]] && (b'.locals[t] == [] || b'.locals[t] == b.locals[t]);
    forall q | q in Roots(b') ensures q in Roots(b) {
      LocalsRoots(b, b', t, q);
      if q in b.locals[t] { LocalRoot(b, t, q); }
    }
    facts := DropStands(cfg, b, b', w);
    hide H.Step, Roots, Stands;
  }

  /** Every step of the blocks is none, one or several steps of the machine. */
  lemma StepStands(cfg: Config, W: nat, b: Blocks, act: Act, w: F.World) returns (facts: seq<F.Act>)
    requires W > 0 && Sound(cfg, b) && Stands(cfg, b, w)
    ensures Stands(cfg, Do(cfg, W, b, act), F.DoAll(w, facts))
  {
    B.SoundHeap(cfg, b);
    facts := [];
    if Do(cfg, W, b, act) == b {
      facts := Unmoved(cfg, b, w);
    } else if act.Protocol? {
      facts := ExchangeStands(cfg, W, b, act.t, act.call, w);
    } else if act.Collect? {
      CollectStands(cfg, b, act, w);
      facts := [F.Collect];
    } else if act.Return? {
      PhaseStands(cfg, b, w);
      facts := [F.Return];
    } else if act.Finish? {
      FinishStands(cfg, b, w);
      facts := [F.Finish];
    } else if act.Escape? {
      EscapeStands(cfg, b, w);
      facts := [F.Escape];
    } else {
      facts := MutateStands(cfg, b, act, w);
    }
    hide Sound, Stands, Mutate, Exchange, Collects, Collection, HeapSound;
  }

  lemma {:induction false} FlatEmpty(locals: seq<seq<Ref>>)
    requires forall t :: 0 <= t < |locals| ==> locals[t] == []
    ensures Flat(locals) == []
  {
    if locals != [] { FlatEmpty(locals[..|locals| - 1]); }
  }

  lemma OutsetStands(cfg: Config, n: nat, m: nat)
    requires cfg.Valid()
    ensures Stands(cfg, Outset(n, m), F.EMPTY)
  {
    var b := Outset(n, m);
    FlatEmpty(b.locals);
    assert Machine(cfg, b) == F.EMPTY;
  }

  /** Every run of the blocks is a run of the machine, in which each block has the number of its
      allocation, and the finalizers called are the same. */
  lemma {:induction false} RunStands(cfg: Config, W: nat, n: nat, m: nat, acts: seq<Act>) returns (facts: seq<F.Act>)
    requires W > 0 && cfg.Valid() && Timely(cfg, W, Outset(n, m), acts)
    ensures Stands(cfg, DoAll(cfg, W, Outset(n, m), acts), F.DoAll(F.EMPTY, facts))
  {
    hide *;
    if acts == [] {
      facts := [];
      NoActs(cfg, W, Outset(n, m));
      NoFacts(F.EMPTY);
      OutsetStands(cfg, n, m);
    } else {
      var front := acts[..|acts| - 1];
      LastAct(cfg, W, Outset(n, m), acts);
      var before := RunStands(cfg, W, n, m, front);
      var b := DoAll(cfg, W, Outset(n, m), front);
      RunSound(cfg, W, n, m, front);
      var more := StepStands(cfg, W, b, acts[|acts| - 1], F.DoAll(F.EMPTY, before));
      facts := before + more;
      F.DoAllJoin(F.EMPTY, before, more);
    }
  }

  /** In no run of the chain is a block's finalizer called twice. */
  lemma CalledOnce(cfg: Config, W: nat, n: nat, m: nat, acts: seq<Act>)
    requires W > 0 && cfg.Valid() && Timely(cfg, W, Outset(n, m), acts)
    ensures F.Distinct(DoAll(cfg, W, Outset(n, m), acts).entered)
  {
    hide *;
    var facts := RunStands(cfg, W, n, m, acts);
    StandsParts(cfg, DoAll(cfg, W, Outset(n, m), acts), F.DoAll(F.EMPTY, facts));
    F.EnteredOnce(facts);
  }

  // ---- When a block is reclaimed ------------------------------------------------------------------

  /** A managed block leaves the chain only by a collection under a granted stop that finds it out of reach,
      and, if it has a finalizer, after that was called. */
  lemma ReclaimedWhen(cfg: Config, W: nat, n: nat, m: nat, acts: seq<Act>, act: Act, x: int)
    requires W > 0 && cfg.Valid() && Timely(cfg, W, Outset(n, m), acts)
    requires var b := DoAll(cfg, W, Outset(n, m), acts); x in b.births && x !in Do(cfg, W, b, act).births
    ensures var b := DoAll(cfg, W, Outset(n, m), acts);
            && act.Collect? && Granted(b, act.t) && b.phase.Idle? && act.outcome.Reclaimed?
            && Runs.Exclusive(b.h) && !Reached(cfg, b.heap.cells, b.payloads, Roots(b), x)
            && (Holds(b.heap.cells, x, OBJECT) && x in b.payloads && b.payloads[x].finalizer ==>
                  b.births[x] in b.entered)
  {
    var b := DoAll(cfg, W, Outset(n, m), acts);
    hide *;
    RunSound(cfg, W, n, m, acts);
    var facts := RunStands(cfg, W, n, m, acts);
    B.SoundHeap(cfg, b);
    SoundInv(cfg, b);
    Runs.InvExclusive(b.h);
    LostByCollection(cfg, W, b, act, x);
    FinalizedFirst(cfg, b, act, x, F.DoAll(F.EMPTY, facts));
  }

  /** Only a sweep takes a number away. */
  lemma LostByCollection(cfg: Config, W: nat, b: Blocks, act: Act, x: int)
    requires W > 0 && HeapSound(cfg, b) && x in b.births && x !in Do(cfg, W, b, act).births
    ensures act.Collect? && Granted(b, act.t) && b.phase.Idle? && Collects(cfg, b, act) && act.outcome.Reclaimed?
    ensures x !in Collection(cfg, b, act).births
  {
    hide HeapSpec.Served, Released, ReleasedList, Holding, Removed, H.Step;
    if act.Collect? && Collects(cfg, b, act) {
      CollectsIs(cfg, b, act);
      if !act.outcome.Reclaimed? {
        SameBlocksManaged(b.heap.cells, act.after.cells);
        KeptBirths(cfg, b, act);
      }
    }
    hide HeapSound, Collects, Collection, Granted;
  }

  lemma FinalizedFirst(cfg: Config, b: Blocks, act: Act, x: int, w: F.World)
    requires HeapSound(cfg, b) && Stands(cfg, b, w) && act.Collect? && b.phase.Idle? && Collects(cfg, b, act)
    requires act.outcome.Reclaimed?
    requires x in b.births && x !in Collection(cfg, b, act).births
    ensures !Reached(cfg, b.heap.cells, b.payloads, Roots(b), x)
    ensures Holds(b.heap.cells, x, OBJECT) && x in b.payloads && b.payloads[x].finalizer ==> b.births[x] in b.entered
  {
    hide *;
    var m, s := Machine(cfg, b), b.births[x];
    StandsParts(cfg, b, w);
    CollectionMachine(cfg, b, act);
    CollectionPhase(cfg, b, act);
    MachineIdle(cfg, b, w);
    SweptMachine(b.births, m, w, x);
    MachineObject(cfg, b, x);
    BirthIs(cfg, b, x);
    ReachedIs(cfg, b, x);
  }

  lemma CollectionPhase(cfg: Config, b: Blocks, act: Act)
    requires HeapSound(cfg, b) && act.Collect? && b.phase.Idle? && Collects(cfg, b, act) && act.outcome.Reclaimed?
    ensures F.Do(Machine(cfg, b), F.Collect).phase.Idle?
  {
    hide *;
    CollectionMachine(cfg, b, act);
    CollectionParts(cfg, b, act);
    PhaseOf(Machine(cfg, b));
  }

  lemma MachineIdle(cfg: Config, b: Blocks, w: F.World)
    requires Stands(cfg, b, w) && b.phase.Idle?
    ensures Machine(cfg, b).phase.Idle? && w.phase.Idle?
  {
  }

  /** What the machine's sweep takes was unreachable, and its finalizer, if it has one, was entered. */
  lemma SweptMachine(names: Names, v: F.World, w: F.World, x: int)
    requires Renamed(names, v, w) && F.Sound(w) && v.phase.Idle? && w.phase.Idle? && F.Do(v, F.Collect).phase.Idle?
    requires x in names && x !in Restricted(names, F.Do(v, F.Collect).objs)
    ensures !F.Reachable(v, x) && x in v.objs && (v.objs[x].finalizer ==> names[x] in w.entered)
  {
    ReachableNamed(names, v, w, x);
    ObjectNamed(names, v, w, x);
    CollectIs(v);
    DueNamed(names, v, w);
    assert F.Due(v) == {} && x in F.Unreachable(v);
    assert names[x] !in F.Due(w);
    hide Renamed, F.Reachable;
  }

  lemma MachineObject(cfg: Config, b: Blocks, x: int)
    ensures x in Machine(cfg, b).objs && Holds(b.heap.cells, x, OBJECT) ==>
              x in b.payloads && b.payloads[x].finalizer ==> Machine(cfg, b).objs[x].finalizer
  {
  }

  lemma ReachedIs(cfg: Config, b: Blocks, x: int)
    requires HeapSound(cfg, b)
    ensures F.Reachable(Machine(cfg, b), x) <==> Reached(cfg, b.heap.cells, b.payloads, Roots(b), x)
  {
    ViewEdges(cfg, b.heap.cells, b.payloads);
  }
}
