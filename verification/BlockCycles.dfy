/** Two collections on the block chain, with finalizers called in between that change no field and leave the
    roots as they found them, leave exactly what was reachable before. */
module BlockCycles {
  import opened HeapModel
  import opened MarkSpec
  import opened Finalize
  import opened FinalizerRefinement
  import opened BlockRuns
  import opened BlockFinalizers
  import opened Renaming
  import H = Handshake
  import F = Finalizers
  import B = BlockSafety
  import Sequences

  /** Steps of the handshake and of finalizers that write no field and allocate nothing. */
  predicate Quiet(act: Act) { act.Protocol? || act.Enter? || act.Return? || act.Finish? || Moves(act) }

  predicate AllQuiet(acts: seq<Act>) { forall i :: 0 <= i < |acts| ==> Quiet(acts[i]) }

  /** Finalizers may have been called from b to c, but no block came, went or was written. */
  ghost predicate Calling(cfg: Config, b: Blocks, c: Blocks) {
    && F.Advanced(Machine(cfg, b).objs, Machine(cfg, c).objs) && c.births == b.births
  }

  lemma EnterAdvances(m: F.World, x: int)
    ensures F.Advanced(m.objs, F.Do(m, F.Enter(x)).objs)
  {
  }

  lemma EnterQuiet(cfg: Config, b: Blocks, t: nat, i: nat)
    requires HeapSound(cfg, b) && MayRun(b, t)
    ensures Calling(cfg, b, Mutate(cfg, b, Enter(t, i)))
  {
    var b' := Mutate(cfg, b, Enter(t, i));
    if b' != b {
      var x := b.heap.cells[i].at;
      CalledMachine(cfg, b, i);
      EnterAdvances(Machine(cfg, b), x);
      assert Machine(cfg, b').objs == Machine(cfg, Called(b, i)).objs;
    }
    hide HeapSound, F.Do, View, Targets, F.Advanced;
    CallingSelf(cfg, b);
  }

  lemma CallingSelf(cfg: Config, b: Blocks)
    ensures Calling(cfg, b, b)
  {
  }

  lemma StillCalling(cfg: Config, b: Blocks, c: Blocks)
    requires c.heap == b.heap && c.payloads == b.payloads && c.births == b.births
    ensures Calling(cfg, b, c)
  {
  }

  lemma MovesStill(cfg: Config, b: Blocks, act: Act)
    requires Moves(act) && act.t < |b.locals|
    ensures var c := Mutate(cfg, b, act); c.heap == b.heap && c.payloads == b.payloads && c.births == b.births
  {
    hide Removed;
  }

  lemma QuietStep(cfg: Config, W: nat, b: Blocks, act: Act)
    requires W > 0 && HeapSound(cfg, b) && Quiet(act)
    ensures Calling(cfg, b, Do(cfg, W, b, act))
  {
    var c := Do(cfg, W, b, act);
    hide HeapSound, Calling, H.Step, Mutate;
    if act.Enter? || Moves(act) {
      if MayRun(b, act.t) {
        if act.Enter? { EnterQuiet(cfg, b, act.t, act.i); }
        else { MovesStill(cfg, b, act); StillCalling(cfg, b, c); }
      } else {
        CallingSelf(cfg, b);
      }
    } else {
      StillCalling(cfg, b, c);
    }
  }

  lemma CallingOn(cfg: Config, b: Blocks, c: Blocks, d: Blocks)
    requires Calling(cfg, b, c) && Calling(cfg, c, d)
    ensures Calling(cfg, b, d)
  {
    hide Machine;
  }

  lemma {:induction false} QuietRun(cfg: Config, W: nat, n: nat, m: nat, acts: seq<Act>, quiet: seq<Act>)
    requires W > 0 && cfg.Valid() && Timely(cfg, W, Outset(n, m), acts + quiet) && AllQuiet(quiet)
    ensures Calling(cfg, DoAll(cfg, W, Outset(n, m), acts), DoAll(cfg, W, Outset(n, m), acts + quiet))
    decreases |quiet|
  {
    if quiet == [] {
      assert acts + quiet == acts;
      hide *;
      CallingSelf(cfg, DoAll(cfg, W, Outset(n, m), acts));
    } else {
      var front, last := quiet[..|quiet| - 1], quiet[|quiet| - 1];
      var whole := acts + quiet;
      assert whole[..|whole| - 1] == acts + front && whole[|whole| - 1] == last;
      assert AllQuiet(front) && Quiet(last);
      hide *;
      LastAct(cfg, W, Outset(n, m), whole);
      QuietRun(cfg, W, n, m, acts, front);
      RunSound(cfg, W, n, m, acts + front);
      B.SoundHeap(cfg, DoAll(cfg, W, Outset(n, m), acts + front));
      QuietStep(cfg, W, DoAll(cfg, W, Outset(n, m), acts + front), last);
      CallingOn(cfg, DoAll(cfg, W, Outset(n, m), acts), DoAll(cfg, W, Outset(n, m), acts + front),
                DoAll(cfg, W, Outset(n, m), whole));
    }
  }

  /** Between collections nothing waits for a finalizer. */
  lemma IdleSettled(cfg: Config, b: Blocks, w: F.World)
    requires Stands(cfg, b, w) && b.phase.Idle?
    ensures F.Whole(Machine(cfg, b)) && Machine(cfg, b).phase.Idle?
    ensures forall x :: x in Machine(cfg, b).objs ==> !Machine(cfg, b).objs[x].pending
    ensures b.births.Keys == Machine(cfg, b).objs.Keys
  {
    var m := Machine(cfg, b);
    MachineIdle(cfg, b, w);
    RenamedParts(b.births, m, w);
    forall x | x in m.objs ensures !m.objs[x].pending { ObjectNamed(b.births, m, w, x); }
    hide Machine, Renamed;
  }

  /** What a collection leaves to the machine. */
  lemma CollectionObjs(cfg: Config, b: Blocks, act: Act)
    requires HeapSound(cfg, b) && act.Collect? && b.phase.Idle? && Collects(cfg, b, act)
    ensures var v, c := F.Do(Machine(cfg, b), F.Collect), Collection(cfg, b, act);
            && Machine(cfg, c).objs == v.objs && Machine(cfg, c).roots == v.roots
            && c.births == Restricted(b.births, v.objs)
  {
    CollectionMachine(cfg, b, act);
    hide *;
  }

  lemma CollectRoots(w: F.World)
    ensures F.Do(w, F.Collect).roots == w.roots
  {
  }

  lemma GrantedIs(cfg: Config, W: nat, b: Blocks, act: Act)
    requires W > 0 && act.Collect? && Granted(b, act.t) && b.phase.Idle? && Collects(cfg, b, act)
    ensures Do(cfg, W, b, act) == Collection(cfg, b, act)
  {
    hide Collects, Collection;
  }

  /** The reachable blocks, with their numbers. */
  ghost function ReachedBirths(cfg: Config, b: Blocks): Names {
    map x | x in b.births && Reached(cfg, b.heap.cells, b.payloads, Roots(b), x) :: b.births[x]
  }

  /** If all that happens between two collections is that finalizers are called which write nothing and
      leave the roots as they were, in any interleaving with the handshake, then what is left, under the
      numbers of old, is exactly what was reachable at the first. */
  lemma TwoCollections(cfg: Config, W: nat, n: nat, m: nat, acts: seq<Act>, one: Act, quiet: seq<Act>, two: Act)
    requires W > 0 && cfg.Valid() && Timely(cfg, W, Outset(n, m), acts + [one] + quiet) && AllQuiet(quiet)
    requires var b := DoAll(cfg, W, Outset(n, m), acts);
             one.Collect? && Granted(b, one.t) && b.phase.Idle? && Collects(cfg, b, one)
    requires var d := DoAll(cfg, W, Outset(n, m), acts + [one] + quiet);
             && two.Collect? && Granted(d, two.t) && d.phase.Idle? && Collects(cfg, d, two)
             && RootSet(cfg, d) == RootSet(cfg, DoAll(cfg, W, Outset(n, m), acts + [one]))
    ensures var b := DoAll(cfg, W, Outset(n, m), acts);
            var e := DoAll(cfg, W, Outset(n, m), acts + [one] + quiet + [two]);
            e.births == ReachedBirths(cfg, b)
  {
    var start := Outset(n, m);
    var b, c := DoAll(cfg, W, start, acts), DoAll(cfg, W, start, acts + [one]);
    var d, e := DoAll(cfg, W, start, acts + [one] + quiet), DoAll(cfg, W, start, acts + [one] + quiet + [two]);
    assert (acts + [one])[..|acts|] == acts && (acts + [one])[|acts|] == one;
    assert (acts + [one] + quiet + [two])[..|acts + [one] + quiet|] == acts + [one] + quiet;
    hide *;
    LastAct(cfg, W, start, acts + [one]);
    LastAct(cfg, W, start, acts + [one] + quiet + [two]);
    TimelyFront(cfg, W, start, acts + [one], quiet);
    TimelyFront(cfg, W, start, acts, [one]);
    GrantedIs(cfg, W, b, one);
    GrantedIs(cfg, W, d, two);
    QuietRun(cfg, W, n, m, acts + [one], quiet);
    Settled(cfg, W, n, m, acts);
    Settled(cfg, W, n, m, acts + [one] + quiet);
    CollectionObjs(cfg, b, one);
    CollectionObjs(cfg, d, two);
    Cycle(cfg, b, c, d, e);
  }

  lemma Settled(cfg: Config, W: nat, n: nat, m: nat, acts: seq<Act>)
    requires W > 0 && cfg.Valid() && Timely(cfg, W, Outset(n, m), acts)
    requires DoAll(cfg, W, Outset(n, m), acts).phase.Idle?
    ensures var b := DoAll(cfg, W, Outset(n, m), acts);
            && HeapSound(cfg, b) && F.Whole(Machine(cfg, b)) && Machine(cfg, b).phase.Idle?
            && (forall x :: x in Machine(cfg, b).objs ==> !Machine(cfg, b).objs[x].pending)
            && b.births.Keys == Machine(cfg, b).objs.Keys
  {
    hide *;
    RunSound(cfg, W, n, m, acts);
    B.SoundHeap(cfg, DoAll(cfg, W, Outset(n, m), acts));
    var facts := RunStands(cfg, W, n, m, acts);
    IdleSettled(cfg, DoAll(cfg, W, Outset(n, m), acts), F.DoAll(F.EMPTY, facts));
  }

  lemma Cycle(cfg: Config, b: Blocks, c: Blocks, d: Blocks, e: Blocks)
    requires HeapSound(cfg, b) && F.Whole(Machine(cfg, b)) && Machine(cfg, b).phase.Idle?
    requires b.births.Keys == Machine(cfg, b).objs.Keys
    requires Machine(cfg, c).objs == F.Do(Machine(cfg, b), F.Collect).objs
    requires c.births == Restricted(b.births, Machine(cfg, c).objs)
    requires Machine(cfg, c).roots == F.Do(Machine(cfg, b), F.Collect).roots
    requires Calling(cfg, c, d) && Machine(cfg, d).phase.Idle? && RootSet(cfg, d) == RootSet(cfg, c)
    requires forall x :: x in Machine(cfg, d).objs ==> !Machine(cfg, d).objs[x].pending
    requires e.births == Restricted(d.births, F.Do(Machine(cfg, d), F.Collect).objs)
    ensures e.births == ReachedBirths(cfg, b)
  {
    CollectRoots(Machine(cfg, b));
    CallingParts(cfg, c, d);
    var v, u, w := Machine(cfg, b), Machine(cfg, c), Machine(cfg, d);
    var left := F.Do(w, F.Collect).objs;
    hide *;
    RootsOf(cfg, c);
    RootsOf(cfg, d);
    F.QuietCycle(v, w);
    CollectKeys(w);
    RestrictedTwice(b.births, u.objs, left);
    LeftBirths(cfg, b, left);
  }

  lemma LeftBirths(cfg: Config, b: Blocks, left: map<int, F.Obj>)
    requires HeapSound(cfg, b) && b.births.Keys == Machine(cfg, b).objs.Keys
    requires forall x :: x in left <==> x in Machine(cfg, b).objs && F.Reachable(Machine(cfg, b), x)
    ensures Restricted(b.births, left) == ReachedBirths(cfg, b)
  {
    forall x | x in b.births
      ensures F.Reachable(Machine(cfg, b), x) <==> Reached(cfg, b.heap.cells, b.payloads, Roots(b), x)
    {
      ReachedIs(cfg, b, x);
    }
    hide HeapSound, Machine, F.Reachable, Reached, Roots;
    Sequences.SameMap(Restricted(b.births, left), ReachedBirths(cfg, b));
  }

  lemma CallingParts(cfg: Config, c: Blocks, d: Blocks)
    requires Calling(cfg, c, d)
    ensures F.Advanced(Machine(cfg, c).objs, Machine(cfg, d).objs) && d.births == c.births
    ensures Machine(cfg, c).objs.Keys == Machine(cfg, d).objs.Keys
  {
    hide Machine;
  }

  lemma RootsOf(cfg: Config, b: Blocks)
    ensures Machine(cfg, b).roots == RootSet(cfg, b)
  {
  }

  lemma CollectKeys(w: F.World)
    ensures F.Do(w, F.Collect).objs.Keys <= w.objs.Keys
  {
  }

  lemma RestrictedTwice(names: Names, a: map<int, F.Obj>, b: map<int, F.Obj>)
    requires b.Keys <= a.Keys
    ensures Restricted(Restricted(names, a), b) == Restricted(names, b)
  {
  }

  lemma {:induction false} TimelyFront(cfg: Config, W: nat, b: Blocks, acts: seq<Act>, more: seq<Act>)
    requires W > 0 && Timely(cfg, W, b, acts + more)
    ensures Timely(cfg, W, b, acts)
    decreases |more|
  {
    if more == [] {
      assert acts + more == acts;
    } else {
      var whole, front := acts + more, more[..|more| - 1];
      assert whole[..|whole| - 1] == acts + front;
      hide *;
      LastAct(cfg, W, b, whole);
      TimelyFront(cfg, W, b, acts, front);
    }
  }

  // ---- Such a cycle can always be completed -------------------------------------------------------

  /** Task t, with k references in its frames, calls the finalizers of the first n blocks in heap order, as
      far as they are pending, and each returns without having done anything. */
  function Calls(t: nat, k: nat, n: nat): (acts: seq<Act>)
    ensures AllQuiet(acts)
  {
    if n == 0 then [] else Calls(t, k, n - 1) + [Enter(t, n - 1), Drop(t, k), Return]
  }

  /** c is b with some finalizers called, and back in the caller. */
  ghost predicate Resumed(cfg: Config, b: Blocks, c: Blocks) {
    && c == b.(heap := b.heap.(cells := c.heap.cells), entered := c.entered)
    && |c.heap.cells| == |b.heap.cells| && RootSet(cfg, c) == RootSet(cfg, b)
  }

  lemma RemovedLast(s: seq<Ref>, r: Ref)
    ensures Removed(s + [r], |s|) == s && Removed(s, |s|) == s
  {
    assert (s + [r])[..|s|] + (s + [r])[|s| + 1..] == s;
  }

  lemma CalledRoots(cfg: Config, b: Blocks, i: nat)
    requires HeapSound(cfg, b) && b.phase == F.Finalizing(F.NULL)
    requires i < |b.heap.cells| && PENDING in b.heap.cells[i].flags && b.heap.cells[i].at in b.births
    ensures RootSet(cfg, Called(b, i)) == RootSet(cfg, b)
  {
    CalledMachine(cfg, b, i);
    EnterRoots(Machine(cfg, b), b.heap.cells[i].at);
    hide HeapSound, F.Do, View;
  }

  lemma EnterRoots(m: F.World, x: int)
    ensures F.Do(m, F.Enter(x)).roots == m.roots
  {
  }

  lemma PendingBorn(cfg: Config, b: Blocks, i: nat)
    requires HeapSound(cfg, b) && i < |b.heap.cells| && PENDING in b.heap.cells[i].flags
    ensures b.heap.cells[i].at in b.births
  {
    PendingFine(cfg, b, i);
    assert Holds(b.heap.cells, b.heap.cells[i].at, OBJECT);
  }

  /** The three steps of one call. */
  lemma CallIs(cfg: Config, W: nat, b: Blocks, t: nat, i: nat)
    requires W > 0 && MayRun(b, t) && b.phase == F.Finalizing(F.NULL) && i < |b.heap.cells|
    ensures var c := Do(cfg, W, Do(cfg, W, Do(cfg, W, b, Enter(t, i)), Drop(t, |b.locals[t]|)), Return);
            c == if PENDING in b.heap.cells[i].flags && b.heap.cells[i].at in b.births
                 then Called(b, i).(phase := F.Finalizing(F.NULL)) else b
  {
    var r := To(OBJECT, b.heap.cells[i].at + cfg.header);
    RemovedLast(b.locals[t], r);
    hide Removed, H.Step;
  }

  lemma CallOne(cfg: Config, W: nat, b: Blocks, t: nat, i: nat)
    requires W > 0 && HeapSound(cfg, b) && MayRun(b, t) && b.phase == F.Finalizing(F.NULL) && i < |b.heap.cells|
    ensures var c := Do(cfg, W, Do(cfg, W, Do(cfg, W, b, Enter(t, i)), Drop(t, |b.locals[t]|)), Return);
            && HeapSound(cfg, c) && Resumed(cfg, b, c) && PENDING !in c.heap.cells[i].flags
            && forall j :: 0 <= j < |b.heap.cells| && j != i ==> c.heap.cells[j] == b.heap.cells[j]
  {
    CallIs(cfg, W, b, t, i);
    if PENDING in b.heap.cells[i].flags {
      PendingBorn(cfg, b, i);
      CalledRoots(cfg, b, i);
      var c := Called(b, i).(phase := F.Finalizing(F.NULL));
      assert Roots(c) == Roots(b) == Roots(Called(b, i));
      EnteredParts(cfg, b, i);
      hide *;
      FlagsSound(cfg, b, c);
    }
    hide HeapSound, Do;
  }

  lemma EnteredParts(cfg: Config, b: Blocks, i: nat)
    requires HeapSound(cfg, b) && i < |b.heap.cells| && PENDING in b.heap.cells[i].flags
    ensures var cells := b.heap.cells[i := Entered(b.heap.cells[i])];
            SameBlocks(b.heap.cells, cells) && FlagsProper(cells) && PENDING !in cells[i].flags
  {
    assert AllWellformed(b.heap.cells);
    EnteredProper(b.heap.cells, i);
    hide HeapSound, SameBlocks, FlagsProper;
  }

  lemma MoreActs(cfg: Config, W: nat, b: Blocks, acts: seq<Act>, act: Act)
    requires W > 0
    ensures DoAll(cfg, W, b, acts + [act]) == Do(cfg, W, DoAll(cfg, W, b, acts), act)
  {
    var whole := acts + [act];
    assert whole[..|whole| - 1] == acts && whole[|whole| - 1] == act;
    hide Do;
  }

  lemma ResumedOn(cfg: Config, b: Blocks, c: Blocks, d: Blocks, t: nat)
    requires Resumed(cfg, b, c) && Resumed(cfg, c, d)
    ensures Resumed(cfg, b, d) && (MayRun(b, t) ==> MayRun(c, t))
    ensures c.phase == b.phase && c.locals == b.locals && |c.heap.cells| == |b.heap.cells|
  {
    hide RootSet;
  }

  lemma CallsUnfold(cfg: Config, W: nat, b: Blocks, t: nat, k: nat, n: nat)
    requires W > 0 && n > 0
    ensures DoAll(cfg, W, b, Calls(t, k, n)) ==
              Do(cfg, W, Do(cfg, W, Do(cfg, W, DoAll(cfg, W, b, Calls(t, k, n - 1)), Enter(t, n - 1)), Drop(t, k)),
                 Return)
  {
    var before := Calls(t, k, n - 1);
    assert Calls(t, k, n) == before + [Enter(t, n - 1)] + [Drop(t, k)] + [Return];
    hide *;
    MoreActs(cfg, W, b, before, Enter(t, n - 1));
    MoreActs(cfg, W, b, before + [Enter(t, n - 1)], Drop(t, k));
    MoreActs(cfg, W, b, before + [Enter(t, n - 1)] + [Drop(t, k)], Return);
  }

  ghost predicate Unqueued(b: Blocks, n: nat) {
    n <= |b.heap.cells| && forall j :: 0 <= j < n ==> PENDING !in b.heap.cells[j].flags
  }

  lemma CallNext(cfg: Config, W: nat, b: Blocks, c: Blocks, t: nat, n: nat)
    requires W > 0 && MayRun(b, t) && b.phase == F.Finalizing(F.NULL) && n < |b.heap.cells|
    requires HeapSound(cfg, c) && Resumed(cfg, b, c) && Unqueued(c, n)
    ensures var d := Do(cfg, W, Do(cfg, W, Do(cfg, W, c, Enter(t, n)), Drop(t, |b.locals[t]|)), Return);
            HeapSound(cfg, d) && Resumed(cfg, b, d) && Unqueued(d, n + 1)
  {
    ResumedSelf(cfg, c);
    ResumedOn(cfg, b, c, c, t);
    hide HeapSound, Do, MayRun, Resumed;
    CallOne(cfg, W, c, t, n);
    var d := Do(cfg, W, Do(cfg, W, Do(cfg, W, c, Enter(t, n)), Drop(t, |b.locals[t]|)), Return);
    ResumedOn(cfg, c, d, d, t) by { ResumedSelf(cfg, d); }
    ResumedOn(cfg, b, c, d, t);
  }

  lemma NoCalls(cfg: Config, W: nat, b: Blocks, t: nat, k: nat)
    requires W > 0
    ensures DoAll(cfg, W, b, Calls(t, k, 0)) == b && Resumed(cfg, b, b) && Unqueued(b, 0)
  {
  }

  lemma {:induction false} CallsResume(cfg: Config, W: nat, b: Blocks, t: nat, k: nat, n: nat)
    requires W > 0 && HeapSound(cfg, b) && MayRun(b, t) && b.phase == F.Finalizing(F.NULL) && n <= |b.heap.cells|
    requires t < |b.locals| && k == |b.locals[t]|
    ensures var c := DoAll(cfg, W, b, Calls(t, k, n));
            HeapSound(cfg, c) && Resumed(cfg, b, c) && Unqueued(c, n)
    decreases n
  {
    hide *;
    if n == 0 {
      NoCalls(cfg, W, b, t, k);
    } else {
      CallsResume(cfg, W, b, t, k, n - 1);
      CallsUnfold(cfg, W, b, t, k, n);
      CallNext(cfg, W, b, DoAll(cfg, W, b, Calls(t, k, n - 1)), t, n - 1);
    }
  }

  lemma ResumedSelf(cfg: Config, b: Blocks)
    ensures Resumed(cfg, b, b)
  {
  }

  /** From a collection that queued finalizers a task can go on to the end of the cycle: it calls them one
      after the other, the roots are as before, and the next collection may start. */
  lemma CycleEnds(cfg: Config, W: nat, b: Blocks, t: nat)
    requires W > 0 && HeapSound(cfg, b) && MayRun(b, t) && b.phase == F.Finalizing(F.NULL)
    ensures var acts := Calls(t, |b.locals[t]|, |b.heap.cells|) + [Finish];
            var d := DoAll(cfg, W, b, acts);
            AllQuiet(acts) && d.phase.Idle? && RootSet(cfg, d) == RootSet(cfg, b) && d.h == b.h && d.locals == b.locals
  {
    var acts := Calls(t, |b.locals[t]|, |b.heap.cells|);
    var c := DoAll(cfg, W, b, acts);
    hide HeapSound, Targets, DoAll, MayRun;
    CallsResume(cfg, W, b, t, |b.locals[t]|, |b.heap.cells|);
    MoreActs(cfg, W, b, acts, Finish);
    assert Roots(c.(phase := F.Idle)) == Roots(c);
  }
}
