/** The life of finalizers over whole runs: user code, collections, finalizer calls that may resurrect
    objects or escape by an exception.  Objects are named by serial numbers that are never reused. */
module Finalizers {
  import opened Graph

  const NULL := -1

  datatype Obj = Obj(fields: set<int>, finalizer: bool, finalized: bool, pending: bool)

  /** Between collections, or inside one that runs finalizers: `running` is the object whose finalizer
      is being executed, NULL between two calls. */
  datatype Phase = Idle | Finalizing(running: int)

  /** entered logs the finalizer calls of the whole run, freed everything ever reclaimed. */
  datatype World = World(objs: map<int, Obj>, roots: set<int>, entered: seq<int>, freed: set<int>, phase: Phase)

  datatype Act =
    | Alloc(x: int, finalizer: bool) | Link(a: int, b: int) | Unlink(a: int, b: int) | AddRoot(x: int)
    | DropRoot(x: int)
    | Collect | Enter(x: int) | Return | Escape | Finish

  function Edges(objs: map<int, Obj>): Graph { map x | x in objs :: objs[x].fields }

  ghost predicate Reachable(w: World, x: int) { Reach(Edges(w.objs), w.roots, x) }

  /** What user code can name: what the roots reach, and what a running finalizer's object reaches. */
  ghost predicate Usable(w: World, x: int) {
    Reach(Edges(w.objs),
          w.roots + (if w.phase.Finalizing? && w.phase.running != NULL then {w.phase.running} else {}), x)
  }

  ghost function Unreachable(w: World): set<int> { set x | x in w.objs && !Reachable(w, x) }

  /** The unreachable objects whose finalizer has never been entered. */
  ghost function Due(w: World): set<int> { set x | x in Unreachable(w) && w.objs[x].finalizer && !w.objs[x].finalized }

  ghost function Queue(objs: map<int, Obj>, due: set<int>): map<int, Obj> {
    map x | x in objs :: if x in due then objs[x].(pending := true) else objs[x]
  }

  function Clear(objs: map<int, Obj>): map<int, Obj> { map x | x in objs :: objs[x].(pending := false) }

  /** A collection with valid references: queue the due finalizers, or, if there are none, sweep. */
  ghost function CollectStep(w: World): World {
    var due := Due(w);
    if due != {} then w.(objs := Queue(w.objs, due), phase := Finalizing(NULL))
    else w.(objs := w.objs - Unreachable(w), freed := w.freed + Unreachable(w))
  }

  ghost function UserStep(w: World, act: Act): World {
    match act
    case Alloc(x, finalizer) =>
      if x in w.objs || x in w.freed || x == NULL then w
      else w.(objs := w.objs[x := Obj({}, finalizer, false, false)], roots := w.roots + {x})
    case Link(a, b) =>
      if a in w.objs && Usable(w, a) && Usable(w, b) then
        w.(objs := w.objs[a := w.objs[a].(fields := w.objs[a].fields + {b})])
      else
        w
    case Unlink(a, b) =>
      if a in w.objs && Usable(w, a) then w.(objs := w.objs[a := w.objs[a].(fields := w.objs[a].fields - {b})]) else w
    case AddRoot(x) => if Usable(w, x) then w.(roots := w.roots + {x}) else w
    case DropRoot(x) => w.(roots := w.roots - {x})
    case _ => w
  }

  ghost function Do(w: World, act: Act): World {
    match act
    case Collect => if w.phase.Idle? then CollectStep(w) else w
    case Enter(x) =>
      if w.phase == Finalizing(NULL) && x in w.objs && w.objs[x].pending then
        w.(objs := w.objs[x := w.objs[x].(pending := false, finalized := true)], entered := w.entered + [x],
           phase := Finalizing(x))
      else w
    case Return => if w.phase.Finalizing? then w.(phase := Finalizing(NULL)) else w
    case Escape =>
      if w.phase.Finalizing? && w.phase.running != NULL then w.(objs := Clear(w.objs), phase := Idle) else w
    case Finish =>
      if w.phase == Finalizing(NULL) && forall x :: x in w.objs ==> !w.objs[x].pending then w.(phase := Idle) else w
    case _ => UserStep(w, act)
  }

  ghost function DoAll(w: World, acts: seq<Act>): World {
    if acts == [] then w else Do(DoAll(w, acts[..|acts| - 1]), acts[|acts| - 1])
  }

  const EMPTY := World(map[], {}, [], {}, Idle)

  // ---- The invariant ------------------------------------------------------------------------------

  ghost predicate Distinct(s: seq<int>) { forall i, j :: 0 <= i < j < |s| ==> s[i] != s[j] }

  ghost predicate Whole(w: World) {
    && w.roots <= w.objs.Keys && forall x :: x in w.objs ==> w.objs[x].fields <= w.objs.Keys
  }

  /** A finalizer has run exactly for the objects flagged so, and an object with one is freed only after. */
  ghost predicate Logged(w: World) {
    && Distinct(w.entered)
    && (forall x :: x in w.entered ==> x in w.objs || x in w.freed)
    && (forall x :: x in w.objs ==> (w.objs[x].finalized <==> x in w.entered))
    && (forall x :: x in w.objs && w.objs[x].pending ==>
          w.phase.Finalizing? && w.objs[x].finalizer && !w.objs[x].finalized)
  }

  ghost predicate Sound(w: World) {
    && Whole(w) && Logged(w) && w.objs.Keys !! w.freed && NULL !in w.objs
    && (w.phase.Finalizing? && w.phase.running != NULL ==> w.phase.running in w.objs)
  }

  lemma ReachIn(g: Graph, roots: set<int>, x: int)
    requires Reach(g, roots, x)
    ensures x in g
  {
    var p :| Path(g, p) && p[0] in roots && p[|p| - 1] == x;
  }

  /** Nothing reachable refers to anything unreachable. */
  lemma ReachableClosed(w: World)
    requires Whole(w)
    ensures w.roots !! Unreachable(w)
    ensures forall x :: x in w.objs && Reachable(w, x) ==> w.objs[x].fields !! Unreachable(w)
  {
    forall x | x in w.roots ensures x !in Unreachable(w) { ReachRoot(Edges(w.objs), w.roots, x); }
    forall x, y | x in w.objs && Reachable(w, x) && y in w.objs[x].fields ensures y !in Unreachable(w) {
      ReachStep(Edges(w.objs), w.roots, x, y);
    }
  }

  lemma CollectSound(w: World)
    requires Sound(w) && w.phase.Idle?
    ensures Sound(CollectStep(w))
  {
    ReachableClosed(w);
  }

  lemma UserSound(w: World, act: Act)
    requires Sound(w)
    ensures Sound(UserStep(w, act))
  {
    if act.Link? && Usable(w, act.b) {
      ReachIn(Edges(w.objs),
              w.roots + (if w.phase.Finalizing? && w.phase.running != NULL then {w.phase.running} else {}), act.b);
    }
    if act.AddRoot? && Usable(w, act.x) {
      ReachIn(Edges(w.objs),
              w.roots + (if w.phase.Finalizing? && w.phase.running != NULL then {w.phase.running} else {}), act.x);
    }
    hide Usable;
  }

  lemma DoSound(w: World, act: Act)
    requires Sound(w)
    ensures Sound(Do(w, act))
  {
    if act.Collect? {
      if w.phase.Idle? { CollectSound(w); }
    } else if !act.Enter? && !act.Return? && !act.Escape? && !act.Finish? {
      UserSound(w, act);
    }
    hide UserStep, CollectStep;
  }

  lemma {:induction false} RunSound(w: World, acts: seq<Act>)
    requires Sound(w)
    ensures Sound(DoAll(w, acts))
  {
    if acts != [] {
      RunSound(w, acts[..|acts| - 1]);
      DoSound(DoAll(w, acts[..|acts| - 1]), acts[|acts| - 1]);
    }
  }

  // ---- What follows for whole runs ----------------------------------------------------------------

  /** No finalizer is ever entered twice, whatever user code and exceptions do. */
  lemma EnteredOnce(acts: seq<Act>)
    ensures Distinct(DoAll(EMPTY, acts).entered)
  {
    RunSound(EMPTY, acts);
  }

  /** An object is reclaimed only by a collection that finds it unreachable and whose finalizer, if it
      has one, has run; and a collection that queues finalizers reclaims nothing. */
  lemma FreedWhen(w: World, act: Act, x: int)
    requires Sound(w) && x in Do(w, act).freed && x !in w.freed
    ensures act.Collect? && w.phase.Idle? && Do(w, act).phase.Idle? && x in w.objs && !Reachable(w, x)
    ensures w.objs[x].finalizer ==> x in w.entered
  {
    assert x in Unreachable(w);
    assert w.objs[x].finalizer && !w.objs[x].finalized ==> x in Due(w);
  }

  /** A collection queues exactly the unreachable objects with a finalizer that never ran. */
  lemma CollectQueues(w: World, x: int)
    requires Sound(w) && w.phase.Idle? && x in w.objs
    ensures var w' := Do(w, Collect);
            w'.phase.Finalizing? ==>
              w'.freed == w.freed && x in w'.objs
              && (w'.objs[x].pending <==> !Reachable(w, x) && w.objs[x].finalizer && x !in w.entered)
  {
  }

  /** An exception that escapes a finalizer ends the collection with no flag pending.  The call it
      escaped from stays counted; the candidates it skipped are due again while they stay unreachable. */
  lemma EscapeKeepsEligible(w: World, x: int)
    requires Sound(w) && w.phase.Finalizing? && w.phase.running != NULL && x in w.objs
    ensures var w' := Do(w, Escape);
            && w'.phase.Idle? && w'.entered == w.entered && w'.freed == w.freed && w'.objs.Keys == w.objs.Keys
            && !w'.objs[x].pending && (w'.objs[x].finalized <==> w.objs[x].finalized)
            && (Reachable(w', x) <==> Reachable(w, x))
            && (w.objs[x].pending ==> (x in Due(w') <==> !Reachable(w', x)))
  {
    var w' := Do(w, Escape);
    assert Edges(w'.objs) == Edges(w.objs);
  }

  // ---- Finalizers that do nothing -----------------------------------------------------------------

  predicate Quiet(acts: seq<Act>) { forall i :: 0 <= i < |acts| ==> acts[i].Enter? || acts[i].Return? }

  /** b is a with some finalizers entered. */
  ghost predicate Advanced(a: map<int, Obj>, b: map<int, Obj>) {
    && a.Keys == b.Keys
    && forall x :: x in a ==>
         && b[x].fields == a[x].fields && b[x].finalizer == a[x].finalizer
         && (b[x].pending || b[x].finalized <==> a[x].pending || a[x].finalized)
  }

  ghost predicate Progressed(w: World, v: World) {
    && v.roots == w.roots && v.freed == w.freed && (v.phase.Finalizing? <==> w.phase.Finalizing?)
    && Advanced(w.objs, v.objs)
  }

  lemma {:induction false} QuietProgress(w: World, acts: seq<Act>)
    requires Quiet(acts)
    ensures Progressed(w, DoAll(w, acts))
  {
    if acts != [] {
      QuietProgress(w, acts[..|acts| - 1]);
    }
  }

  lemma SameReach(w: World, v: World)
    requires v.roots == w.roots && v.objs.Keys == w.objs.Keys
    requires forall x :: x in w.objs ==> v.objs[x].fields == w.objs[x].fields
    ensures forall x :: Reachable(v, x) <==> Reachable(w, x)
    ensures Unreachable(v) == Unreachable(w)
  {
    forall x | x in w.objs ensures Edges(v.objs)[x] == Edges(w.objs)[x] { }
    assert Edges(v.objs).Keys == Edges(w.objs).Keys;
    assert Edges(v.objs) == Edges(w.objs);
  }

  /** If after a collection its finalizers were called and nothing else changed, one more collection leaves
      exactly the objects that were reachable. */
  lemma QuietCycle(w: World, v: World)
    requires Whole(w) && w.phase.Idle? && v.phase.Idle? && Advanced(Do(w, Collect).objs, v.objs)
    requires v.roots == w.roots && forall x :: x in v.objs ==> !v.objs[x].pending
    ensures Do(v, Collect).phase.Idle?
    ensures forall x :: x in Do(v, Collect).objs <==> x in w.objs && Reachable(w, x)
  {
    var first := Do(w, Collect);
    if Due(w) != {} {
      SameReach(w, v);
      forall x | x in Unreachable(w) && w.objs[x].finalizer ensures v.objs[x].finalized {
        assert first.objs[x].pending || first.objs[x].finalized;
        assert v.objs[x].pending || v.objs[x].finalized;
      }
      assert Due(v) == {};
    } else {
      SurvivorsReachable(w);
      SameReach(first, v);
      assert Unreachable(v) == {};
    }
  }

  /** If finalizers do nothing, a collection, its finalizer calls and one more collection leave exactly
      the objects that were reachable. */
  lemma TwoCollections(w: World, acts: seq<Act>)
    requires Sound(w) && w.phase.Idle? && Quiet(acts)
    requires Do(DoAll(Do(w, Collect), acts), Finish).phase.Idle?
    ensures var w' := Do(Do(DoAll(Do(w, Collect), acts), Finish), Collect);
            w'.phase.Idle? && forall x :: x in w'.objs <==> x in w.objs && Reachable(w, x)
  {
    var first := Do(w, Collect);
    var v := DoAll(first, acts);
    QuietProgress(first, acts);
    DoSound(w, Collect);
    RunSound(first, acts);
    var v' := Do(v, Finish);
    DoSound(v, Finish);
    hide Reachable, Advanced;
    QuietCycle(w, v');
  }

  /** After a sweep everything left is reachable. */
  lemma SurvivorsReachable(w: World)
    requires Whole(w) && w.phase.Idle? && Due(w) == {}
    ensures Unreachable(CollectStep(w)) == {}
  {
    var w' := CollectStep(w);
    forall x | x in w'.objs ensures Reachable(w', x) {
      var p :| Path(Edges(w.objs), p) && p[0] in w.roots && p[|p| - 1] == x;
      PathSurvives(w, p);
    }
  }

  lemma {:induction false} PathReached(w: World, p: seq<int>, i: nat)
    requires Whole(w) && Path(Edges(w.objs), p) && p[0] in w.roots && i < |p|
    ensures Reachable(w, p[i])
  {
    if i == 0 {
      ReachRoot(Edges(w.objs), w.roots, p[0]);
    } else {
      PathReached(w, p, i - 1);
      var a, b := p[i - 1], p[i];
      ReachStep(Edges(w.objs), w.roots, a, b);
    }
  }

  lemma PathSurvives(w: World, p: seq<int>)
    requires Whole(w) && Due(w) == {} && Path(Edges(w.objs), p) && p[0] in w.roots
    ensures Reachable(CollectStep(w), p[|p| - 1])
  {
    var w' := CollectStep(w);
    forall i | 0 <= i < |p| ensures p[i] in w'.objs { PathReached(w, p, i); }
    assert Path(Edges(w'.objs), p);
  }

  /** Such a run exists: calling the pending finalizers one after the other empties the queue. */
  lemma {:induction false} Drain(w: World, queue: set<int>) returns (acts: seq<Act>)
    requires Sound(w) && w.phase == Finalizing(NULL) && forall x :: x in queue <==> x in w.objs && w.objs[x].pending
    ensures Quiet(acts) && |acts| == 2 * |queue| && Do(DoAll(w, acts), Finish).phase.Idle?
    decreases |queue|
  {
    if forall x :: x !in queue {
      acts := [];
    } else {
      var x :| x in queue;
      var v := Do(Do(w, Enter(x)), Return);
      DoSound(w, Enter(x));
      DoSound(Do(w, Enter(x)), Return);
      var rest := Drain(v, queue - {x});
      acts := [Enter(x), Return] + rest;
      DoAllJoin(w, [Enter(x), Return], rest);
      assert [Enter(x), Return][..1] == [Enter(x)] && [Enter(x)][..0] == [];
      assert DoAll(w, []) == w;
      assert DoAll(w, [Enter(x)]) == Do(w, Enter(x));
      assert DoAll(w, [Enter(x), Return]) == v;
    }
  }

  lemma {:induction false} DoAllJoin(w: World, a: seq<Act>, b: seq<Act>)
    ensures DoAll(w, a + b) == DoAll(DoAll(w, a), b)
  {
    if b == [] {
      assert a + b == a;
    } else {
      DoAllJoin(w, a, b[..|b| - 1]);
      assert (a + b)[..|a + b| - 1] == a + b[..|b| - 1];
    }
  }
}
