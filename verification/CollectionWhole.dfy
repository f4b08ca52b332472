/** A whole collection, step by step: marking everything and sweeping everything leaves exactly what was
    reachable when it began. */
module CollectionWhole {
  import opened Handshake
  import opened HandshakeSafety
  import opened CollectionSafety

  predicate Collector(act: Act) {
    act.MarkRoots? || act.MarkOne? || act.MarkDone? || act.Abandon? || act.SweepOne? || act.SweepDone?
  }

  lemma IsCollector(t: nat, o: int)
    ensures Collector(MarkRoots(t)) && Collector(MarkOne(t, o)) && Collector(MarkDone(t)) && Collector(SweepOne(t, o))
    ensures Collector(SweepDone(t))
  {
  }

  /** All acts are collection acts of task t. */
  predicate ByCollector(acts: seq<Act>, t: nat) { forall i :: 0 <= i < |acts| ==> Collector(acts[i]) && acts[i].t == t }

  /** v is w further into the same collection: all that managed code can get at is as it was. */
  ghost predicate Later(w: World, v: World) {
    && v.h == w.h && v.locals == w.locals && v.globals == w.globals
    && (forall o :: o in v.heap ==> o in w.heap && v.heap[o] == w.heap[o])
    && (forall o :: o in w.heap && Reachable(w.heap, Roots(w), o) ==> o in v.heap && Reachable(v.heap, Roots(v), o))
  }

  lemma LaterTwice(u: World, v: World, w: World)
    requires Later(u, v) && Later(v, w)
    ensures Later(u, w)
  {
    hide Reachable;
  }

  lemma LaterSelf(w: World)
    ensures Later(w, w)
  {
    hide Reachable;
  }

  lemma StepLater(W: nat, w: World, act: Act)
    requires W > 0 && Sound(w) && Collector(act) && Granted(w, act.t)
    ensures Later(w, Do(W, w, act)) && Sound(Do(W, w, act)) && Granted(Do(W, w, act), act.t)
    ensures Do(W, w, act) == Collect(w, act)
  {
    CollectKeeps(w, act);
    CollectSound(w, act);
    assert Collect(w, act).h == w.h && Collect(w, act).locals == w.locals && Collect(w, act).globals == w.globals;
    hide Reachable, Sound, Roots;
  }

  lemma {:induction false} DoAllJoin(W: nat, w: World, a: seq<Act>, b: seq<Act>)
    requires W > 0
    ensures DoAll(W, w, a + b) == DoAll(W, DoAll(W, w, a), b)
  {
    if b == [] {
      assert a + b == a;
    } else {
      DoAllJoin(W, w, a, b[..|b| - 1]);
      assert (a + b)[..|a + b| - 1] == a + b[..|b| - 1];
    }
    hide Do;
  }

  lemma DoOne(W: nat, w: World, act: Act)
    requires W > 0
    ensures DoAll(W, w, [act]) == Do(W, w, act)
  {
    assert [act][..0] == [];
    assert DoAll(W, w, []) == w;
    hide Do;
  }

  lemma DoFirst(W: nat, w: World, act: Act, rest: seq<Act>)
    requires W > 0
    ensures DoAll(W, w, [act] + rest) == DoAll(W, Do(W, w, act), rest)
  {
    hide *;
    DoAllJoin(W, w, [act], rest);
    DoOne(W, w, act);
  }

  lemma ByFirst(act: Act, rest: seq<Act>, t: nat)
    requires Collector(act) && act.t == t && ByCollector(rest, t)
    ensures ByCollector([act] + rest, t)
  {
  }

  lemma NoActs(W: nat, w: World, t: nat)
    requires W > 0
    ensures DoAll(W, w, []) == w && ByCollector([], t)
  {
  }

  /** The objects that are not yet marked through. */
  function White(w: World): set<int>
    requires w.phase.Marking?
  {
    w.heap.Keys - (w.phase.marked - w.phase.grey)
  }

  lemma MarkOneStep(W: nat, w: World, t: nat, o: int)
    requires W > 0 && Sound(w) && Granted(w, t) && w.phase.Marking? && o in w.phase.grey
    ensures var v := Do(W, w, MarkOne(t, o)); v.phase.Marking? && White(v) < White(w)
  {
    var v := Do(W, w, MarkOne(t, o));
    assert o in w.heap;
    assert v == Collect(w, MarkOne(t, o));
    assert v.heap == w.heap && v.phase.marked - v.phase.grey == w.phase.marked - w.phase.grey + {o};
    assert o in White(w) && o !in White(v);
    hide Inv, Reachable, Roots, Shaped;
  }

  /** Marking ends. */
  lemma {:induction false} MarkAll(W: nat, w: World, t: nat) returns (acts: seq<Act>)
    requires W > 0 && Sound(w) && Granted(w, t) && w.phase.Marking?
    ensures ByCollector(acts, t)
    ensures var v := DoAll(W, w, acts);
            Sound(v) && Granted(v, t) && Later(w, v) && v.phase.Marking? && v.phase.grey == {}
    decreases White(w)
  {
    hide *;
    if forall o :: o !in w.phase.grey {
      acts := [];
      NoActs(W, w, t);
      LaterSelf(w);
    } else {
      var o :| o in w.phase.grey;
      var act := MarkOne(t, o);
      MarkOneStep(W, w, t, o);
      IsCollector(t, o);
      StepLater(W, w, act);
      var rest := MarkAll(W, Do(W, w, act), t);
      acts := [act] + rest;
      DoFirst(W, w, act, rest);
      ByFirst(act, rest, t);
      LaterTwice(w, Do(W, w, act), DoAll(W, w, acts));
    }
  }

  lemma SweepOneStep(W: nat, w: World, t: nat, o: int)
    requires W > 0 && Sound(w) && Granted(w, t) && w.phase.Sweeping? && o in w.phase.pending
    ensures var v := Do(W, w, SweepOne(t, o)); v.phase.Sweeping? && v.phase.pending == w.phase.pending - {o}
  {
    hide Inv, Reachable, Roots, Shaped;
  }

  /** Sweeping ends. */
  lemma {:induction false} SweepAll(W: nat, w: World, t: nat) returns (acts: seq<Act>)
    requires W > 0 && Sound(w) && Granted(w, t) && w.phase.Sweeping?
    ensures ByCollector(acts, t)
    ensures var v := DoAll(W, w, acts);
            Sound(v) && Granted(v, t) && Later(w, v) && v.phase.Sweeping? && v.phase.pending == {}
    decreases w.phase.pending
  {
    hide *;
    if forall o :: o !in w.phase.pending {
      acts := [];
      NoActs(W, w, t);
      LaterSelf(w);
    } else {
      var o :| o in w.phase.pending;
      var act := SweepOne(t, o);
      SweepOneStep(W, w, t, o);
      IsCollector(t, o);
      StepLater(W, w, act);
      var rest := SweepAll(W, Do(W, w, act), t);
      acts := [act] + rest;
      DoFirst(W, w, act, rest);
      ByFirst(act, rest, t);
      LaterTwice(w, Do(W, w, act), DoAll(W, w, acts));
    }
  }

  lemma TurnSteps(W: nat, w: World, t: nat)
    requires W > 0 && Sound(w) && Granted(w, t)
    ensures w.phase.Idle? ==> Do(W, w, MarkRoots(t)).phase.Marking?
    ensures w.phase.Marking? && w.phase.grey == {} ==> Do(W, w, MarkDone(t)).phase.Sweeping?
    ensures w.phase.Sweeping? && w.phase.pending == {} ==> Do(W, w, SweepDone(t)) == w.(phase := Idle)
  {
    hide Inv, Reachable, Roots, Shaped, Sound;
  }

  lemma ByJoin(a: seq<Act>, b: seq<Act>, t: nat)
    requires ByCollector(a, t) && ByCollector(b, t)
    ensures ByCollector(a + b, t)
  {
  }

  /** One act and then others, as one piece. */
  lemma Advance(W: nat, w: World, t: nat, act: Act, rest: seq<Act>) returns (acts: seq<Act>)
    requires W > 0 && Sound(w) && Granted(w, t) && Collector(act) && act.t == t && ByCollector(rest, t)
    requires Later(Do(W, w, act), DoAll(W, Do(W, w, act), rest))
    ensures ByCollector(acts, t) && DoAll(W, w, acts) == DoAll(W, Do(W, w, act), rest) && Later(w, DoAll(W, w, acts))
  {
    hide *;
    acts := [act] + rest;
    StepLater(W, w, act);
    DoFirst(W, w, act, rest);
    ByFirst(act, rest, t);
    LaterTwice(w, Do(W, w, act), DoAll(W, w, acts));
  }

  /** Reachability grows with the heap. */
  lemma ReachableMore(part: map<int, seq<int>>, heap: map<int, seq<int>>, roots: set<int>, o: int)
    requires (forall x :: x in part ==> x in heap && heap[x] == part[x]) && Reachable(part, roots, o)
    requires forall p :: Chain(part, roots, p) ==> p[|p| - 1] in part
    ensures Reachable(heap, roots, o)
  {
    var p :| Chain(part, roots, p) && p[|p| - 1] == o;
    forall i | 0 <= i < |p| ensures p[i] in part && p[i] in heap && heap[p[i]] == part[p[i]] {
      var q := p[..i + 1];
      ChainFront(part, roots, p, i + 1);
      assert Chain(part, roots, q) && q[|q| - 1] == p[i];
    }
    ChainKept(part, heap, roots, p);
  }

  lemma {:induction false} ChainFront(heap: map<int, seq<int>>, roots: set<int>, p: seq<int>, n: nat)
    requires Chain(heap, roots, p) && 0 < n <= |p|
    ensures Chain(heap, roots, p[..n])
    decreases |p|
  {
    if n == |p| {
      assert p[..n] == p;
    } else {
      ChainFront(heap, roots, p[..|p| - 1], n);
      assert p[..|p| - 1][..n] == p[..n];
    }
  }

  /** A finished sweep holds exactly what was reachable when the collection began. */
  lemma SweptExactly(w: World, v: World)
    requires Sound(v) && Later(w, v) && v.phase.Sweeping? && v.phase.pending == {}
    ensures forall o :: o in v.heap <==> o in w.heap && Reachable(w.heap, Roots(w), o)
  {
    SweepComplete(v);
    SoundNoDangling(v);
    assert Roots(v) == Roots(w);
    forall o | o in v.heap ensures Reachable(w.heap, Roots(w), o) { ReachableMore(v.heap, w.heap, Roots(w), o); }
    hide Reachable, Sound;
  }

  /** From the moment its stop is granted a task can collect, and what is left, unchanged, is what was
      reachable. */
  lemma WholeCollection(W: nat, w: World, t: nat) returns (acts: seq<Act>)
    requires W > 0 && Sound(w) && Granted(w, t) && w.phase.Idle?
    ensures ByCollector(acts, t)
    ensures var v := DoAll(W, w, acts);
            && v == w.(heap := v.heap) && (forall o :: o in v.heap <==> o in w.heap && Reachable(w.heap, Roots(w), o))
            && forall o :: o in v.heap ==> v.heap[o] == w.heap[o]
  {
    hide *;
    IsCollector(t, 0);
    TurnSteps(W, w, t);
    var w1 := Do(W, w, MarkRoots(t));
    StepLater(W, w, MarkRoots(t));
    var mark := MarkAll(W, w1, t);
    var w2 := DoAll(W, w1, mark);
    TurnSteps(W, w2, t);
    var w3 := Do(W, w2, MarkDone(t));
    StepLater(W, w2, MarkDone(t));
    var sweep := SweepAll(W, w3, t);
    var w4 := DoAll(W, w3, sweep);
    TurnSteps(W, w4, t);
    var first := Advance(W, w, t, MarkRoots(t), mark);
    var second := Advance(W, w2, t, MarkDone(t), sweep);
    LaterTwice(w, w2, w4);
    SweptExactly(w, w4);
    acts := first + second + [SweepDone(t)];
    DoAllJoin(W, w, first, second);
    DoAllJoin(W, w, first + second, [SweepDone(t)]);
    DoOne(W, w4, SweepDone(t));
    NoActs(W, w, t);
    ByFirst(SweepDone(t), [], t);
    assert [SweepDone(t)] + [] == [SweepDone(t)];
    ByJoin(first, second, t);
    ByJoin(first + second, [SweepDone(t)], t);
    LaterHeap(w, w4);
  }

  lemma LaterHeap(w: World, v: World)
    requires Later(w, v)
    ensures v.h == w.h && v.locals == w.locals && v.globals == w.globals
    ensures forall o :: o in v.heap ==> o in w.heap && v.heap[o] == w.heap[o]
  {
  }
}
