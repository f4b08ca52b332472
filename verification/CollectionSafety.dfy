/** Mutators, the handshake and a collection, interleaved step by step.

    Tasks run the handshake one atomic access at a time, mutators run managed code whenever their task
    is outside the protocol and its slot is RUNNING, and a collection marks and sweeps one object at a
    time while its stop is held.  Any task may move at any point. */
module CollectionSafety {
  import opened Handshake
  import opened HandshakeSafety
  import opened HandshakeRuns

  const NULL := -1

  /** Where the collection is.  The grey objects are those in the mark queue. */
  datatype Phase =
    | Idle
    | Marking(marked: set<int>, grey: set<int>)
    | Sweeping(marked: set<int>, pending: set<int>)

  /** heap gives every live object's reference fields, locals the references in a task's frames. */
  datatype World = World(h: State, heap: map<int, seq<int>>, locals: seq<set<int>>, globals: set<int>, phase: Phase)

  /** Managed code loads, stores, allocates and moves references between its frames and the globals.  A
      finalizer, which runs after the stop was released, is handed its object, reachable or not. */
  datatype Act =
    | Protocol(t: nat, call: Call)
    | Load(t: nat, block: int, field: nat) | Store(t: nat, block: int, field: nat, value: int)
    | Alloc(t: nat, block: int, fields: nat) | Drop(t: nat, value: int)
    | Publish(t: nat, value: int) | Fetch(t: nat, value: int) | Retract(t: nat, value: int)
    | Revive(t: nat, block: int)
    | MarkRoots(t: nat) | MarkOne(t: nat, block: int) | Abandon(t: nat) | MarkDone(t: nat)
    | SweepOne(t: nat, block: int) | SweepDone(t: nat)

  predicate Shape(w: World) { Shaped(w.h) && |w.locals| == |w.h.tasks| }

  /** Task t may run managed code: it is outside the protocol, bound to a RUNNING slot, and not itself
      inside its collection. */
  predicate Mutating(w: World, t: nat) {
    && t < |w.h.tasks| && Shape(w) && w.h.tasks[t].pc.Rest? && w.h.tasks[t].slot != NONE
    && w.h.status[w.h.tasks[t].slot] == RUNNING
    && !Collecting(w, t)
  }

  /** `stop_begin` has returned 1 to task t, which has not called `stop_end` since. */
  predicate Granted(w: World, t: nat) {
    t < |w.h.tasks| && Shape(w) && w.h.held && w.h.leader == t && w.h.tasks[t].pc.Rest?
  }

  predicate Collecting(w: World, t: nat) { w.h.leader == t && !w.phase.Idle? }

  function Fields(fields: seq<int>): (s: set<int>)
    ensures forall r :: r in s <==> r in fields && r != NULL
  {
    set r | r in fields && r != NULL
  }

  function Frames(locals: seq<set<int>>): (s: set<int>)
    ensures forall r {:trigger r in s} :: r in s <==> exists t :: 0 <= t < |locals| && r in locals[t]
  {
    if locals == [] then {} else Frames(locals[..|locals| - 1]) + locals[|locals| - 1]
  }

  /** The roots: the globals and every task's frames. */
  function Roots(w: World): set<int> { w.globals + Frames(w.locals) }

  function Hold(w: World, t: nat, value: int): World
    requires t < |w.locals|
  {
    if value == NULL then w else w.(locals := w.locals[t := w.locals[t] + {value}])
  }

  function Mutate(w: World, act: Act): World
    requires Mutating(w, act.t)
  {
    var mine := w.locals[act.t];
    match act
    case Load(t, o, k) => if o in mine && o in w.heap && k < |w.heap[o]| then Hold(w, t, w.heap[o][k]) else w
    case Store(t, o, k, v) =>
      if o in mine && o in w.heap && k < |w.heap[o]| && (v in mine || v == NULL) then
        w.(heap := w.heap[o := w.heap[o][k := v]])
      else
        w
    case Alloc(t, o, n) =>
      if o !in w.heap && o != NULL then Hold(w.(heap := w.heap[o := seq(n, _ => NULL)]), t, o) else w
    case Drop(t, v) => w.(locals := w.locals[t := mine - {v}])
    case Publish(t, v) => if v in mine then w.(globals := w.globals + {v}) else w
    case Fetch(t, v) => if v in w.globals then Hold(w, t, v) else w
    case Retract(t, v) => w.(globals := w.globals - {v})
    case Revive(t, o) => if o in w.heap then Hold(w, t, o) else w
    case _ => w
  }

  function Collect(w: World, act: Act): World
    requires Granted(w, act.t)
  {
    match w.phase
    case Idle =>
      if act.MarkRoots? then w.(phase := Marking(Roots(w), Roots(w))) else w
    case Marking(marked, grey) =>
      if act.MarkOne? && act.block in grey && act.block in w.heap then
        var more := Fields(w.heap[act.block]) - marked;
        w.(phase := Marking(marked + more, grey - {act.block} + more))
      else if act.MarkDone? && grey == {} then w.(phase := Sweeping(marked, w.heap.Keys))
      else if act.Abandon? then w.(phase := Idle)
      else w
    case Sweeping(marked, pending) =>
      if act.SweepOne? && act.block in pending then
        w.(heap := if act.block in marked then w.heap else w.heap - {act.block},
           phase := Sweeping(marked, pending - {act.block}))
      else if act.SweepDone? && pending == {} then w.(phase := Idle)
      else w
  }

  /** A task's frames go when its slot goes. */
  function Exchange(W: nat, w: World, t: nat, call: Call): World
    requires W > 0 && t < |w.h.tasks| && Shape(w)
  {
    if Collecting(w, t) then w
    else
      var h' := Step(W, w.h, t, call);
      if |h'.tasks| == |w.h.tasks| && h'.tasks[t].slot == NONE then w.(h := h', locals := w.locals[t := {}])
      else w.(h := h')
  }

  function Do(W: nat, w: World, act: Act): World
    requires W > 0
  {
    if act.Protocol? then if act.t < |w.h.tasks| && Shape(w) then Exchange(W, w, act.t, act.call) else w
    else if act.MarkRoots? || act.MarkOne? || act.MarkDone? || act.Abandon? || act.SweepOne? || act.SweepDone? then
      if Granted(w, act.t) then Collect(w, act) else w
    else if Mutating(w, act.t) then Mutate(w, act) else w
  }

  function DoAll(W: nat, w: World, acts: seq<Act>): World
    requires W > 0
  {
    if acts == [] then w else Do(W, DoAll(W, w, acts[..|acts| - 1]), acts[|acts| - 1])
  }

  /** n slots, m tasks, nothing allocated. */
  function Start(n: nat, m: nat): World { World(Init(n, m), map[], seq(m, _ => {}), {}, Idle) }

  // ---- What managed code can reach ----------------------------------------------------------------

  predicate Follows(heap: map<int, seq<int>>, a: int, b: int) { a in heap && b in Fields(heap[a]) }

  /** p starts at a root and follows reference fields. */
  predicate Chain(heap: map<int, seq<int>>, roots: set<int>, p: seq<int>) {
    if |p| <= 1 then |p| == 1 && p[0] in roots
    else Follows(heap, p[|p| - 2], p[|p| - 1]) && Chain(heap, roots, p[..|p| - 1])
  }

  ghost predicate Reachable(heap: map<int, seq<int>>, roots: set<int>, o: int) {
    exists p :: Chain(heap, roots, p) && p[|p| - 1] == o
  }

  /** A chain stays inside every closed set that holds the roots. */
  lemma {:induction false} ChainInside(heap: map<int, seq<int>>, roots: set<int>, p: seq<int>, s: set<int>)
    requires Chain(heap, roots, p) && roots <= s && Closed(heap, s)
    ensures forall i :: 0 <= i < |p| ==> p[i] in s
  {
    if |p| > 1 {
      ChainInside(heap, roots, p[..|p| - 1], s);
      assert p[|p| - 2] in s;
    }
  }

  lemma {:induction false} ChainKept(heap: map<int, seq<int>>, kept: map<int, seq<int>>, roots: set<int>, p: seq<int>)
    requires Chain(heap, roots, p)
    requires forall i :: 0 <= i < |p| ==> p[i] in heap && p[i] in kept && kept[p[i]] == heap[p[i]]
    ensures Chain(kept, roots, p)
  {
    if |p| > 1 {
      ChainKept(heap, kept, roots, p[..|p| - 1]);
    }
  }

  lemma ReachableField(heap: map<int, seq<int>>, roots: set<int>, a: int, b: int)
    requires Reachable(heap, roots, a) && Follows(heap, a, b)
    ensures Reachable(heap, roots, b)
  {
    var p :| Chain(heap, roots, p) && p[|p| - 1] == a;
    var q := p + [b];
    assert q[..|q| - 1] == p;
    assert Chain(heap, roots, q) && q[|q| - 1] == b;
  }

  // ---- The invariant ------------------------------------------------------------------------------

  ghost predicate AllReachable(heap: map<int, seq<int>>, roots: set<int>, s: set<int>) {
    forall o {:trigger Reachable(heap, roots, o)} :: o in s ==> Reachable(heap, roots, o)
  }

  /** Every reference in every object of s names an object in s. */
  ghost predicate Closed(heap: map<int, seq<int>>, s: set<int>) {
    && s <= heap.Keys
    && forall o :: o in s ==> Fields(heap[o]) <= s
  }

  /** While marking, an object that is marked and no longer grey has only marked fields. */
  ghost predicate Tricolour(heap: map<int, seq<int>>, marked: set<int>, grey: set<int>) {
    && marked <= heap.Keys && grey <= marked
    && forall o :: o in marked && o !in grey ==> Fields(heap[o]) <= marked
  }

  /** A task without a slot holds nothing. */
  predicate Rootless(w: World) {
    Shape(w) ==> forall t :: 0 <= t < |w.locals| && w.h.tasks[t].slot == NONE ==> w.locals[t] == {}
  }

  ghost predicate Sound(w: World) {
    && Inv(w.h) && Shape(w) && Rootless(w) && NULL !in Roots(w)
    && (!w.phase.Idle? ==> w.h.held && w.h.tasks[w.h.leader].pc.Rest?)
    && Roots(w) <= w.heap.Keys
    && match w.phase
       case Idle => Closed(w.heap, w.heap.Keys)
       case Marking(marked, grey) =>
         && Closed(w.heap, w.heap.Keys) && Roots(w) <= marked && Tricolour(w.heap, marked, grey)
         && AllReachable(w.heap, Roots(w), marked)
       case Sweeping(marked, pending) =>
         && Roots(w) <= marked && Closed(w.heap, marked) && AllReachable(w.heap, Roots(w), marked)
         && pending <= w.heap.Keys && w.heap.Keys - pending <= marked
  }

  lemma StartSound(n: nat, m: nat)
    ensures Sound(Start(n, m))
  {
    InitInv(n, m);
    assert forall r :: r !in Roots(Start(n, m));
  }

  /** During a collection no task can run managed code. */
  lemma NobodyMutates(w: World, t: nat)
    requires Sound(w) && !w.phase.Idle?
    ensures !Mutating(w, t)
  {
    InvExclusive(w.h);
    assert TaskOk(w.h, t);
    assert TaskOk(w.h, w.h.leader);
  }

  lemma FramesOf(locals: seq<set<int>>, t: nat, mine: set<int>)
    requires t < |locals|
    ensures locals[t] <= Frames(locals) && Frames(locals[t := mine]) <= Frames(locals) + mine
  {
  }

  /** A task that gets hold of an allocated object keeps the world sound. */
  lemma HoldSound(w: World, t: nat, value: int)
    requires Sound(w) && w.phase.Idle? && t < |w.locals| && w.h.tasks[t].slot != NONE
    requires value in w.heap || value == NULL
    ensures Sound(Hold(w, t, value))
  {
    FramesOf(w.locals, t, w.locals[t] + {value});
    hide Inv, Shaped, Frames, Reachable;
  }

  /** So does one that drops references, or moves them between its frames and the globals. */
  lemma MoveSound(w: World, w': World)
    requires Sound(w) && w.phase.Idle? && w' == w.(locals := w'.locals, globals := w'.globals)
    requires |w'.locals| == |w.locals| && Rootless(w') && Roots(w') <= Roots(w)
    ensures Sound(w')
  {
    hide Inv, Shaped, Frames, Roots, Reachable, Rootless;
  }

  lemma StoreSound(w: World, o: int, k: nat, value: int)
    requires Sound(w) && w.phase.Idle? && o in w.heap && k < |w.heap[o]| && (value in w.heap || value == NULL)
    ensures Sound(w.(heap := w.heap[o := w.heap[o][k := value]]))
  {
    assert forall r :: r in w.heap[o][k := value] ==> r in w.heap[o] || r == value;
    hide Inv, Shaped, Frames, Reachable;
  }

  lemma AllocSound(w: World, o: int, n: nat)
    requires Sound(w) && w.phase.Idle? && o !in w.heap && o != NULL
    ensures Sound(w.(heap := w.heap[o := seq(n, _ => NULL)]))
  {
    hide Inv, Shaped, Frames, Reachable;
  }

  /** Managed code can only use what it already holds, or what its finalizer is handed. */
  lemma MutateSound(w: World, act: Act)
    requires Sound(w) && w.phase.Idle? && Mutating(w, act.t)
    ensures Sound(Mutate(w, act))
  {
    var t := act.t;
    var mine := w.locals[t];
    FramesOf(w.locals, t, mine);
    assert mine <= w.heap.Keys;
    match act {
      case Load(_, o, k) =>
        if o in mine && k < |w.heap[o]| {
          assert w.heap[o][k] in Fields(w.heap[o]) || w.heap[o][k] == NULL;
          HoldSound(w, t, w.heap[o][k]);
        }
      case Store(_, o, k, v) =>
        if o in mine && k < |w.heap[o]| && (v in mine || v == NULL) { StoreSound(w, o, k, v); }
      case Alloc(_, o, n) =>
        if o !in w.heap && o != NULL {
          AllocSound(w, o, n);
          HoldSound(w.(heap := w.heap[o := seq(n, _ => NULL)]), t, o);
        }
      case Drop(_, v) =>
        FramesOf(w.locals, t, mine - {v});
        MoveSound(w, Mutate(w, act));
      case Publish(_, v) => if v in mine { MoveSound(w, Mutate(w, act)); }
      case Fetch(_, v) => if v in w.globals { HoldSound(w, t, v); }
      case Retract(_, v) => MoveSound(w, Mutate(w, act));
      case Revive(_, o) => if o in w.heap { HoldSound(w, t, o); }
      case _ =>
    }
    hide Inv, Shaped, Frames, Closed, Reachable;
  }

  lemma RootsReachable(heap: map<int, seq<int>>, roots: set<int>)
    ensures AllReachable(heap, roots, roots)
  {
    forall o {:trigger Reachable(heap, roots, o)} | o in roots ensures Reachable(heap, roots, o) {
      assert Chain(heap, roots, [o]) && [o][|[o]| - 1] == o;
    }
  }

  lemma MarkReachable(w: World, block: int, more: set<int>)
    requires w.phase.Marking? && AllReachable(w.heap, Roots(w), w.phase.marked)
    requires block in w.phase.marked && block in w.heap && more <= Fields(w.heap[block])
    ensures AllReachable(w.heap, Roots(w), w.phase.marked + more)
  {
    forall o {:trigger Reachable(w.heap, Roots(w), o)} | o in more ensures Reachable(w.heap, Roots(w), o) {
      ReachableField(w.heap, Roots(w), block, o);
    }
  }

  /** Freeing an unmarked object cuts no chain. */
  lemma SweepReachable(heap: map<int, seq<int>>, roots: set<int>, marked: set<int>, block: int)
    requires roots <= marked && Closed(heap, marked) && AllReachable(heap, roots, marked) && block !in marked
    ensures AllReachable(heap - {block}, roots, marked)
  {
    forall o {:trigger Reachable(heap - {block}, roots, o)} | o in marked ensures Reachable(heap - {block}, roots, o) {
      assert Reachable(heap, roots, o);
      var p :| Chain(heap, roots, p) && p[|p| - 1] == o;
      ChainInside(heap, roots, p, marked);
      ChainKept(heap, heap - {block}, roots, p);
    }
  }

  lemma CollectSound(w: World, act: Act)
    requires Sound(w) && Granted(w, act.t)
    ensures Sound(Collect(w, act))
  {
    var w' := Collect(w, act);
    assert w'.h == w.h && w'.locals == w.locals && w'.globals == w.globals;
    assert Roots(w') == Roots(w);
    RootsReachable(w.heap, Roots(w));
    match w.phase {
      case Idle =>
      case Marking(marked, grey) =>
        if act.MarkOne? && act.block in grey { MarkReachable(w, act.block, Fields(w.heap[act.block]) - marked); }
      case Sweeping(marked, pending) =>
        if act.SweepOne? && act.block !in marked { SweepReachable(w.heap, Roots(w), marked, act.block); }
    }
    hide Inv, Shaped, Roots, Reachable, Fields;
  }

  /** What a protocol step leaves to the roots: at most the stepping task's frames go with its slot. */
  lemma ExchangeRoots(W: nat, w: World, t: nat, call: Call)
    requires W > 0 && Sound(w) && Fresh(W, w.h) && t < |w.h.tasks| && !Collecting(w, t)
    ensures var w' := Exchange(W, w, t, call);
            && Inv(w'.h) && Shape(w') && w'.heap == w.heap && w'.phase == w.phase && w'.globals == w.globals
            && Rootless(w') && (forall u :: 0 <= u < |w.locals| ==> w'.locals[u] <= w.locals[u])
            && (!w.phase.Idle? ==> w'.locals == w.locals)
  {
    var w' := Exchange(W, w, t, call);
    StepOutside(W, w.h, t, call);
    assert !w.phase.Idle? ==> w.h.request != 0;
    hide Inv, Step, Frames, Roots, Closed, Tricolour, AllReachable;
  }

  lemma ExchangeSound(W: nat, w: World, t: nat, call: Call)
    requires W > 0 && Sound(w) && Fresh(W, w.h) && t < |w.h.tasks|
    ensures Sound(Exchange(W, w, t, call))
  {
    var w' := Exchange(W, w, t, call);
    if !Collecting(w, t) {
      ExchangeRoots(W, w, t, call);
      StepOutside(W, w.h, t, call);
      assert forall r :: r in Frames(w'.locals) ==> r in Frames(w.locals);
      hide Inv, Effect, TaskOk, Shared, Roots, Reachable, Step;
    }
  }

  /** Every act of every task keeps the world sound. */
  lemma DoSound(W: nat, w: World, act: Act)
    requires W > 0 && Sound(w) && Fresh(W, w.h)
    ensures Sound(Do(W, w, act))
  {
    if act.Protocol? {
      if act.t < |w.h.tasks| { ExchangeSound(W, w, act.t, act.call); }
    } else if Granted(w, act.t)
              && (act.MarkRoots? || act.MarkOne? || act.MarkDone? || act.Abandon? || act.SweepOne? || act.SweepDone?) {
      CollectSound(w, act);
    } else if Mutating(w, act.t) {
      if w.phase.Idle? { MutateSound(w, act); } else { NobodyMutates(w, act.t); }
    }
  }

  // ---- Whole runs ---------------------------------------------------------------------------------

  /** At every moment before the end, acknowledgements of older requests can be told from the newest. */
  ghost predicate Timely(W: nat, w: World, acts: seq<Act>)
    requires W > 0
  {
    acts != [] ==> Fresh(W, DoAll(W, w, acts[..|acts| - 1]).h) && Timely(W, w, acts[..|acts| - 1])
  }

  lemma {:induction false} RunSound(W: nat, n: nat, m: nat, acts: seq<Act>)
    requires W > 0 && Timely(W, Start(n, m), acts)
    ensures Sound(DoAll(W, Start(n, m), acts))
  {
    if acts == [] {
      StartSound(n, m);
    } else {
      RunSound(W, n, m, acts[..|acts| - 1]);
      DoSound(W, DoAll(W, Start(n, m), acts[..|acts| - 1]), acts[|acts| - 1]);
    }
  }

  /** At most W requests begin in the run. */
  ghost predicate Few(W: nat, w: World, acts: seq<Act>)
    requires W > 0
  {
    DoAll(W, w, acts).h.begun <= W && (acts != [] ==> Few(W, w, acts[..|acts| - 1]))
  }

  /** Runs with at most W requests are timely. */
  lemma {:induction false} FewTimely(W: nat, n: nat, m: nat, acts: seq<Act>)
    requires W > 0 && Few(W, Start(n, m), acts)
    ensures Timely(W, Start(n, m), acts)
  {
    if acts != [] {
      FewTimely(W, n, m, acts[..|acts| - 1]);
      RunSound(W, n, m, acts[..|acts| - 1]);
      WithinFresh(W, DoAll(W, Start(n, m), acts[..|acts| - 1]).h);
    }
  }

  /** Whatever managed code can get to by following references is allocated. */
  ghost predicate NoDangling(w: World) {
    forall p :: Chain(w.heap, Roots(w), p) ==> p[|p| - 1] in w.heap
  }

  lemma SoundNoDangling(w: World)
    requires Sound(w)
    ensures NoDangling(w)
  {
    var s := if w.phase.Sweeping? then w.phase.marked else w.heap.Keys;
    forall p | Chain(w.heap, Roots(w), p) ensures p[|p| - 1] in w.heap { ChainInside(w.heap, Roots(w), p, s); }
  }

  /** No interleaving of mutators, polls, registrations and collections ever leaves a reachable
      reference without its object, in any timely run. */
  lemma RunSafe(W: nat, n: nat, m: nat, acts: seq<Act>)
    requires W > 0 && Timely(W, Start(n, m), acts)
    ensures NoDangling(DoAll(W, Start(n, m), acts))
  {
    RunSound(W, n, m, acts);
    SoundNoDangling(DoAll(W, Start(n, m), acts));
  }

  /** Only a sweep step frees, and what it frees is not marked. */
  lemma FreedBy(W: nat, w: World, act: Act, o: int)
    requires W > 0 && o in w.heap && o !in Do(W, w, act).heap
    ensures act.SweepOne? && act.block == o && Granted(w, act.t) && w.phase.Sweeping? && o !in w.phase.marked
  {
  }

  /** What the sweep does not keep is out of reach. */
  lemma UnmarkedUnreachable(w: World, o: int)
    requires Sound(w) && w.phase.Sweeping? && o !in w.phase.marked
    ensures !Reachable(w.heap, Roots(w), o)
  {
    if Reachable(w.heap, Roots(w), o) {
      var p :| Chain(w.heap, Roots(w), p) && p[|p| - 1] == o;
      ChainInside(w.heap, Roots(w), p, w.phase.marked);
    }
  }

  /** What holds at the moment an object is freed. */
  ghost predicate Freeing(w: World, t: nat, o: int) {
    && o in w.heap && Granted(w, t) && !Reachable(w.heap, Roots(w), o)
    && forall s :: 0 <= s < |w.h.status| && w.h.status[s] == RUNNING ==> s == w.h.tasks[w.h.leader].slot
  }

  lemma FreedNow(W: nat, w: World, act: Act, o: int)
    requires W > 0 && Sound(w) && o in w.heap && o !in Do(W, w, act).heap
    ensures act == SweepOne(act.t, o) && Freeing(w, act.t, o)
  {
    FreedBy(W, w, act, o);
    UnmarkedUnreachable(w, o);
    InvExclusive(w.h);
    hide Inv, Roots, Reachable;
  }

  lemma Earlier(acts: seq<Act>, j: nat, k: nat)
    requires k <= j <= |acts|
    ensures acts[..j][..k] == acts[..k]
  {
  }

  lemma LastAct(W: nat, w: World, acts: seq<Act>, j: nat)
    requires W > 0 && 0 < j <= |acts|
    ensures DoAll(W, w, acts[..j]) == Do(W, DoAll(W, w, acts[..j - 1]), acts[j - 1])
  {
    assert acts[..j][..j - 1] == acts[..j - 1];
    hide Do;
  }

  lemma {:induction false} TimelyPrefix(W: nat, w: World, acts: seq<Act>, j: nat)
    requires W > 0 && Timely(W, w, acts) && j <= |acts|
    ensures Timely(W, w, acts[..j])
    decreases |acts|
  {
    if j == |acts| {
      assert acts[..j] == acts;
    } else {
      TimelyPrefix(W, w, acts[..|acts| - 1], j);
      Earlier(acts, |acts| - 1, j);
    }
  }

  /** If an object leaves the heap between two moments of a run, then in between, at some moment, a stop
      was held, only the collector's own slot was RUNNING, and the object was out of reach. */
  lemma {:induction false} FreedWhileStopped(W: nat, n: nat, m: nat, acts: seq<Act>, i: nat, j: nat,
                                             o: int) returns (k: nat)
    requires W > 0 && Timely(W, Start(n, m), acts) && i <= j <= |acts|
    requires o in DoAll(W, Start(n, m), acts[..i]).heap && o !in DoAll(W, Start(n, m), acts[..j]).heap
    ensures i <= k < j && acts[k] == SweepOne(acts[k].t, o) && Freeing(DoAll(W, Start(n, m), acts[..k]), acts[k].t, o)
    decreases j
  {
    hide *;
    assert i < j;
    LastAct(W, Start(n, m), acts, j);
    if o in DoAll(W, Start(n, m), acts[..j - 1]).heap {
      k := j - 1;
      TimelyPrefix(W, Start(n, m), acts, k);
      RunSound(W, n, m, acts[..k]);
      FreedNow(W, DoAll(W, Start(n, m), acts[..k]), acts[k], o);
    } else {
      k := FreedWhileStopped(W, n, m, acts, i, j - 1, o);
    }
  }

  /** While no stop is held nothing is freed; so a stop that times out has freed nothing. */
  lemma {:induction false} UnheldFreesNothing(W: nat, n: nat, m: nat, acts: seq<Act>, i: nat, j: nat)
    requires W > 0 && Timely(W, Start(n, m), acts) && i <= j <= |acts|
    requires forall k :: i <= k < j ==> !DoAll(W, Start(n, m), acts[..k]).h.held
    ensures DoAll(W, Start(n, m), acts[..i]).heap.Keys <= DoAll(W, Start(n, m), acts[..j]).heap.Keys
  {
    forall o | o in DoAll(W, Start(n, m), acts[..i]).heap ensures o in DoAll(W, Start(n, m), acts[..j]).heap {
      if o !in DoAll(W, Start(n, m), acts[..j]).heap { var k := FreedWhileStopped(W, n, m, acts, i, j, o); }
    }
  }

  /** What a collection frees was unreachable; what it keeps is unaltered, and so is what can be reached. */
  lemma CollectKeeps(w: World, act: Act)
    requires Sound(w) && Granted(w, act.t)
    ensures var w' := Collect(w, act);
            && Roots(w') == Roots(w)
            && (forall o :: o in w'.heap ==> o in w.heap && w'.heap[o] == w.heap[o])
            && (forall o :: o in w.heap && Reachable(w.heap, Roots(w), o) ==>
                  o in w'.heap && Reachable(w'.heap, Roots(w'), o))
  {
    var w' := Collect(w, act);
    assert w'.h == w.h && w'.locals == w.locals && w'.globals == w.globals;
    forall o | o in w.heap && Reachable(w.heap, Roots(w), o) ensures o in w'.heap && Reachable(w'.heap, Roots(w'), o) {
      var p :| Chain(w.heap, Roots(w), p) && p[|p| - 1] == o;
      ChainInside(w.heap, Roots(w), p, if w.phase.Sweeping? then w.phase.marked else w.heap.Keys);
      ChainKept(w.heap, w'.heap, Roots(w), p);
    }
  }

  /** A completed sweep has freed everything unreachable. */
  lemma SweepComplete(w: World)
    requires Sound(w) && w.phase.Sweeping? && w.phase.pending == {}
    ensures forall o :: o in w.heap <==> Reachable(w.heap, Roots(w), o)
  {
    SoundNoDangling(w);
    forall o | Reachable(w.heap, Roots(w), o) ensures o in w.heap {
      var p :| Chain(w.heap, Roots(w), p) && p[|p| - 1] == o;
    }
  }
}
