/** The managed worker: start, registration, entry, exit and join, interleaved with the handshake.

    The owner is task 0 of the handshake.  Each accepted start creates a thread that is a task of its
    own, so the k-th accepted start runs as task k + 1.  Every step is one atomic access of the worker
    state, one platform call, one handshake step, or one step of the worker's own code. */
module Worker {
  import opened Handshake
  import opened HandshakeSafety
  import opened HandshakeRuns

  /** `bmx_embedded_worker_state`. */
  datatype Phase = IDLE | STARTING | BUSY | DONE | FAILED

  /** Where the owner is inside `worker_start` or `worker_join`. */
  datatype Owner = Free | Claimed | Refused | Joining(budget: nat) | Saw(seen: Phase, budget: nat) | Joined(seen: Phase)

  /** Where the worker thread is inside its trampoline. */
  datatype Thread =
    | Absent | Starting | Registering | Accepted | Rejected
    | Body | Exit(failed: bool, attempt: nat) | Exiting(failed: bool, attempt: nat)
    | Retry(failed: bool, attempt: nat) | Polling(failed: bool, attempt: nat) | Leaving(failed: bool) | Ended | Panicked

  /** roots and handlers count the worker context's root frames and exception frames.  starts, runs,
      returned and joins record accepted starts, entries called, entries that returned, and the
      non-zero results of joins. */
  datatype Life = Life(h: State, state: Phase, owner: Owner, thread: Thread, roots: nat, handlers: nat,
                       starts: nat, runs: seq<int>, returned: set<int>, joins: seq<int>)

  datatype Act =
    | OwnerCall(call: Call)
    | Start | Launch(ok: bool) | Withdraw | Join(budget: nat) | Load | PlatformJoin(ok: bool) | Release
    | Worker(call: Call) | Enter(roots: nat, handlers: nat) | EntryReturns | EntryThrows

  /** The handshake task of the current thread. */
  function Me(l: Life): nat { l.starts }

  function Job(l: Life): int { l.starts - 1 }

  function Own(W: nat, l: Life, call: Call): Life
    requires W > 0
  {
    l.(h := Next(W, l.h, Move(0, call)))
  }

  function OwnerAct(l: Life, act: Act): Life {
    match act
    case Start =>
      if l.owner.Free? && 0 < |l.h.tasks| && Shaped(l.h) && l.h.tasks[0].slot == 0 && l.h.status[0] == RUNNING
         && l.state == IDLE
      then l.(state := STARTING, owner := Claimed) else l
    case Launch(ok) =>
      if !l.owner.Claimed? then l
      else if ok && l.starts + 1 < |l.h.tasks| then
        l.(owner := Free, thread := Starting, roots := 0, handlers := 0, starts := l.starts + 1)
      else l.(owner := Refused)
    case Withdraw => if l.owner.Refused? then l.(state := IDLE, owner := Free) else l
    case Join(budget) => if l.owner.Free? then l.(owner := Joining(budget)) else l
    case Load =>
      if !l.owner.Joining? then l
      else if l.state == IDLE then l.(owner := Free)
      else l.(owner := Saw(l.state, l.owner.budget))
    case PlatformJoin(ok) =>
      if !l.owner.Saw? then l
      else if (l.owner.seen.DONE? || l.owner.seen.FAILED?) && ok && l.thread.Ended? then
        l.(owner := Joined(l.owner.seen), thread := Absent)
      else if l.owner.budget == 0 then l.(owner := Free)
      else l.(owner := Joining(l.owner.budget - 1))
    case Release =>
      if l.owner.Joined? then
        l.(state := IDLE, owner := Free, joins := l.joins + [if l.owner.seen.DONE? then 1 else -1])
      else
        l
    case _ => l
  }

  predicate Resting(l: Life) { Me(l) < |l.h.tasks| && l.h.tasks[Me(l)].pc.Rest? }

  function Hand(W: nat, l: Life, call: Call): Life
    requires W > 0
  {
    l.(h := Next(W, l.h, Move(Me(l), call)))
  }

  function Slot(l: Life): int { if Me(l) < |l.h.tasks| then l.h.tasks[Me(l)].slot else NONE }

  /** The worker moves: it goes on with a handshake operation, or takes the next step of its code.
      `call` is the handshake operation the entry calls, or whether a registration is bound. */
  function Advance(W: nat, budget: nat, l: Life, call: Call): Life
    requires W > 0
  {
    if l.thread.Absent? || l.thread.Ended? || l.thread.Panicked? then l
    else if !Resting(l) then Hand(W, l, call)
    else match l.thread
      case Starting => if call.Register? then Hand(W, l, call).(thread := Registering) else l
      case Registering => l.(thread := if Slot(l) == 1 then Accepted else Rejected)
      case Rejected => l.(state := FAILED, thread := Ended)
      case Accepted => l.(state := BUSY, thread := Body, handlers := l.handlers + 1, runs := l.runs + [Job(l)])
      case Body => if call.Poll? || call.EnterNative? || call.LeaveNative? then Hand(W, l, call) else l
      case Exit(failed, attempt) =>
        if l.roots != 0 || l.handlers != 0 then l.(thread := Retry(failed, attempt))
        else Hand(W, l, Unregister).(thread := Exiting(failed, attempt))
      case Exiting(failed, attempt) => l.(thread := if Slot(l) == NONE then Leaving(failed) else Retry(failed, attempt))
      case Retry(failed, attempt) =>
        if l.roots != 0 || l.handlers != 0 || attempt == budget then l.(thread := Panicked)
        else Hand(W, l, Poll).(thread := Polling(failed, attempt))
      case Polling(failed, attempt) => l.(thread := Exit(failed, attempt + 1))
      case Leaving(failed) => l.(state := if failed then FAILED else DONE, thread := Ended)
      case _ => l
  }

  /** One step of the pair; `budget` bounds the exit attempts. */
  function Do(W: nat, budget: nat, l: Life, act: Act): Life
    requires W > 0
  {
    match act
    case OwnerCall(call) => Own(W, l, call)
    case Worker(call) => Advance(W, budget, l, call)
    case Enter(roots, handlers) =>
      if l.thread.Body? && handlers > 0 then l.(roots := roots, handlers := handlers) else l
    case EntryReturns =>
      if l.thread.Body? && Resting(l) && l.handlers > 0 then
        l.(handlers := l.handlers - 1, thread := Exit(false, 0), returned := l.returned + {Job(l)})
      else l
    case EntryThrows =>
      if l.thread.Body? && Resting(l) && l.handlers == 1 then l.(roots := 0, handlers := 0, thread := Exit(true, 0))
      else l
    case _ => OwnerAct(l, act)
  }

  function DoAll(W: nat, budget: nat, l: Life, acts: seq<Act>): Life
    requires W > 0
  {
    if acts == [] then l else Do(W, budget, DoAll(W, budget, l, acts[..|acts| - 1]), acts[|acts| - 1])
  }

  /** Two slots and m tasks, nobody registered. */
  function Outset(m: nat): Life { Life(Init(2, m), IDLE, Free, Absent, 0, 0, 0, [], {}, []) }

  // ---- The invariant ------------------------------------------------------------------------------

  predicate Distinct(s: seq<int>) { forall i, j :: 0 <= i < j < |s| ==> s[i] != s[j] }

  predicate Entered(t: Thread) {
    t.Body? || t.Exit? || t.Exiting? || t.Retry? || t.Polling? || t.Leaving? || t.Panicked?
  }

  predicate Leaver(t: Thread) { t.Exit? || t.Exiting? || t.Retry? || t.Polling? || t.Leaving? }

  /** The worker state agrees with the thread and with the owner. */
  predicate Agreed(l: Life) {
    && (l.owner.Claimed? || l.owner.Refused? ==> l.state == STARTING && l.thread.Absent?)
    && (l.owner.Joined? ==> l.state == l.owner.seen && (l.state.DONE? || l.state.FAILED?) && l.thread.Absent?)
    && (l.owner.Saw? && (l.owner.seen.DONE? || l.owner.seen.FAILED?) ==> l.state == l.owner.seen)
    && (l.state.IDLE? ==> l.thread.Absent?)
    && (l.thread.Absent? ==> l.state.IDLE? || l.owner.Claimed? || l.owner.Refused? || l.owner.Joined?)
    && (l.thread.Starting? || l.thread.Registering? || l.thread.Accepted? || l.thread.Rejected? ==> l.state == STARTING)
    && (Entered(l.thread) ==> l.state == BUSY)
    && (l.thread.Ended? ==> l.state.DONE? || l.state.FAILED?)
  }

  /** The logs agree with where the current job stands. */
  predicate Logged(l: Life) {
    && Distinct(l.runs) && (forall j :: j in l.runs ==> 0 <= j < l.starts)
    && (!l.thread.Absent? ==> l.starts > 0)
    && |l.joins| == (if l.thread.Absent? && !l.owner.Joined? then l.starts else l.starts - 1)
    && (Job(l) in l.runs ==> Entered(l.thread) || l.thread.Ended? || l.thread.Absent?)
    && (Entered(l.thread) ==> Job(l) in l.runs)
    && (forall j :: j in l.returned ==> j in l.runs)
    && (forall j :: 0 <= j < |l.joins| ==> l.joins[j] == 1 || l.joins[j] == -1)
    && (forall j :: 0 <= j < |l.joins| ==> (l.joins[j] == 1 <==> j in l.returned))
    && (Leaver(l.thread) ==> (!l.thread.failed <==> Job(l) in l.returned))
    && (l.thread.Body? ==> Job(l) !in l.returned)
    && (l.state.DONE? ==> Job(l) in l.returned)
    && (l.state.FAILED? ==> Job(l) !in l.returned)
  }

  predicate RegisterPc(pc: Pc) { pc.Rest? || HandshakeSafety.Registering(pc) || pc.RegUnlock? }

  predicate UnregisterPc(pc: Pc) {
    pc.Rest? || pc.UnLock? || pc.UnRequest? || pc.UnState? || pc.UnStore? || pc.UnUnlock?
  }

  predicate PollPc(pc: Pc) { pc.Rest? || pc.PollRequest? || HandshakeSafety.Polling(pc) }

  predicate NativePc(pc: Pc) {
    || pc.EnterLock? || pc.EnterState? || pc.EnterStore? || pc.EnterUnlock?
    || pc.LeaveLock? || pc.LeaveRequest? || pc.LeaveState? || pc.LeaveStore? || pc.LeaveUnlock?
  }

  /** The handshake operation the thread can be in the middle of. */
  predicate Allowed(t: Thread, pc: Pc) {
    && (t.Registering? ==> RegisterPc(pc))
    && (t.Exiting? ==> UnregisterPc(pc))
    && (t.Polling? ==> PollPc(pc))
    && (t.Body? ==> PollPc(pc) || NativePc(pc))
    && (!t.Registering? && !t.Exiting? && !t.Polling? && !t.Body? ==> pc.Rest?)
  }

  /** The worker's slot: slot 1 from registration to unregistration, none after a normal end. */
  predicate Slotted(l: Life) {
    && |l.h.status| == |l.h.owner| == 2 && Me(l) < |l.h.tasks|
    && (l.starts > 0 ==> Allowed(l.thread, l.h.tasks[Me(l)].pc))
    && (l.starts > 0 && (l.thread.Absent? || l.thread.Ended? || l.thread.Rejected?) ==> Slot(l) != 1)
    && (l.thread.Starting? ==> Slot(l) == NONE)
    && (l.thread.Accepted? || l.thread.Body? || l.thread.Exit? || l.thread.Retry? || l.thread.Polling? ==> Slot(l) == 1)
    && (l.thread.Exiting? ==> Slot(l) == 1 || Slot(l) == NONE)
    && (l.thread.Leaving? ==> Slot(l) == NONE)
    && (l.thread.Exiting? || l.thread.Leaving? ==> l.roots == 0 && l.handlers == 0)
    && (l.state.DONE? ==> Slot(l) == NONE && l.roots == 0 && l.handlers == 0)
    && (forall u :: 0 < u < |l.h.tasks| && u != Me(l) ==> l.h.tasks[u].pc.Rest? && l.h.tasks[u].slot != 1)
    && (forall u :: l.starts < u < |l.h.tasks| ==> l.h.tasks[u].slot == NONE)
  }

  ghost predicate Sound(l: Life) { Inv(l.h) && Agreed(l) && Logged(l) && Slotted(l) }

  lemma OutsetSound(m: nat)
    requires m > 0
    ensures Sound(Outset(m))
  {
    InitInv(2, m);
  }

  lemma OwnerAgreed(l: Life, act: Act)
    requires Agreed(l) && Logged(l)
    ensures Agreed(OwnerAct(l, act))
  {
  }

  lemma OwnerLogged(l: Life, act: Act)
    requires Agreed(l) && Logged(l)
    ensures Logged(OwnerAct(l, act))
  {
  }

  lemma OwnerSlotted(l: Life, act: Act)
    requires Agreed(l) && Logged(l) && Slotted(l)
    ensures Slotted(OwnerAct(l, act)) && OwnerAct(l, act).h == l.h
  {
  }

  /** The handshake steps of one task leave every other task alone. */
  lemma NextOutside(W: nat, h: State, t: nat, call: Call)
    requires W > 0 && Inv(h) && Fresh(W, h)
    ensures var h' := Next(W, h, Move(t, call));
            Inv(h') && |h'.tasks| == |h.tasks| && |h'.status| == |h.status| && |h'.owner| == |h.owner|
            && (forall u :: 0 <= u < |h.tasks| && u != t ==> h'.tasks[u] == h.tasks[u])
  {
    if t < |h.tasks| {
      StepOutside(W, h, t, call);
      StartOf(h, t);
      StepOwn(W, h, t, call);
      hide Inv;
    }
  }

  lemma OwnSound(W: nat, l: Life, call: Call)
    requires W > 0 && Sound(l) && Fresh(W, l.h)
    ensures Sound(Own(W, l, call))
  {
    NextOutside(W, l.h, 0, call);
    hide Inv, Next, Allowed;
  }

  // ---- What a thread's own handshake step can do --------------------------------------------------

  lemma RegisterGoes(W: nat, h: State, t: nat, call: Call)
    requires W > 0 && Shaped(h) && t < |h.tasks| && RegisterPc(h.tasks[t].pc) && !h.tasks[t].pc.Rest?
    ensures RegisterPc(Step(W, h, t, call).tasks[t].pc)
  {
  }

  lemma UnregisterGoes(W: nat, h: State, t: nat, call: Call)
    requires W > 0 && Shaped(h) && t < |h.tasks| && UnregisterPc(h.tasks[t].pc) && !h.tasks[t].pc.Rest?
    ensures var x := Step(W, h, t, call).tasks[t];
            UnregisterPc(x.pc) && (x.slot == h.tasks[t].slot || x.slot == NONE)
  {
  }

  lemma PollGoes(W: nat, h: State, t: nat, call: Call)
    requires W > 0 && Shaped(h) && t < |h.tasks| && PollPc(h.tasks[t].pc) && !h.tasks[t].pc.Rest?
    ensures var x := Step(W, h, t, call).tasks[t]; PollPc(x.pc) && x.slot == h.tasks[t].slot
  {
  }

  lemma NativeGoes(W: nat, h: State, t: nat, call: Call)
    requires W > 0 && Shaped(h) && t < |h.tasks| && NativePc(h.tasks[t].pc)
    ensures var x := Step(W, h, t, call).tasks[t]; (PollPc(x.pc) || NativePc(x.pc)) && x.slot == h.tasks[t].slot
  {
  }

  lemma CallGoes(W: nat, h: State, t: nat, call: Call)
    requires W > 0 && Shaped(h) && t < |h.tasks| && h.tasks[t].pc.Rest?
    ensures var x := Step(W, h, t, call).tasks[t];
            && x.slot == h.tasks[t].slot
            && (call.Register? ==> RegisterPc(x.pc)) && (call.Unregister? ==> UnregisterPc(x.pc))
            && (call.Poll? ==> PollPc(x.pc))
            && (call.EnterNative? || call.LeaveNative? ==> PollPc(x.pc) || NativePc(x.pc))
  {
  }

  predicate Live(l: Life) { !l.thread.Absent? && !l.thread.Ended? && !l.thread.Panicked? }

  /** A handshake operation under way stays the operation it is. */
  lemma HandKeeps(l: Life, h: State)
    ensures Agreed(l.(h := h)) <==> Agreed(l)
    ensures |h.tasks| == |l.h.tasks| ==> (Logged(l.(h := h)) <==> Logged(l))
  {
  }

  lemma HandSound(W: nat, l: Life, call: Call)
    requires W > 0 && Sound(l) && Fresh(W, l.h) && Live(l) && !Resting(l)
    ensures Sound(Hand(W, l, call))
  {
    var t := Me(l);
    NextOutside(W, l.h, t, call);
    HandKeeps(l, Next(W, l.h, Move(t, call)));
    hide Agreed, Logged;
    assert Shaped(l.h) && l.h.tasks[t].pc != Rest;
    if l.thread.Registering? { RegisterGoes(W, l.h, t, call); }
    else if l.thread.Exiting? { UnregisterGoes(W, l.h, t, call); }
    else if PollPc(l.h.tasks[t].pc) { PollGoes(W, l.h, t, call); }
    else { NativeGoes(W, l.h, t, call); }
    hide Inv, Step, RegisterPc, UnregisterPc, PollPc, NativePc;
  }

  /** The thread starts a handshake operation. */
  lemma CallSound(W: nat, l: Life, call: Call, next: Thread)
    requires W > 0 && Sound(l) && Fresh(W, l.h) && Live(l) && Resting(l)
    requires match l.thread
             case Starting => call.Register? && next.Registering?
             case Body => (call.Poll? || call.EnterNative? || call.LeaveNative?) && next == l.thread
             case Exit(failed, attempt) =>
               l.roots == 0 == l.handlers && call.Unregister? && next == Exiting(failed, attempt)
             case Retry(failed, attempt) => call.Poll? && next == Polling(failed, attempt)
             case _ => false
    ensures Sound(Hand(W, l, call).(thread := next))
  {
    NextOutside(W, l.h, Me(l), call);
    CallGoes(W, l.h, Me(l), call);
    hide Inv, Step, RegisterPc, UnregisterPc, PollPc, NativePc;
  }

  lemma AdvanceAgreed(W: nat, budget: nat, l: Life, call: Call)
    requires W > 0 && Agreed(l) && Logged(l) && Slotted(l) && Live(l) && Resting(l)
    requires !l.thread.Starting? && !l.thread.Body? && !l.thread.Exit? && !l.thread.Retry?
    ensures var l' := Advance(W, budget, l, call); Agreed(l') && l'.h == l.h
  {
  }

  lemma AdvanceLogged(W: nat, budget: nat, l: Life, call: Call)
    requires W > 0 && Agreed(l) && Logged(l) && Slotted(l) && Live(l) && Resting(l)
    requires !l.thread.Starting? && !l.thread.Body? && !l.thread.Exit? && !l.thread.Retry?
    ensures Logged(Advance(W, budget, l, call))
  {
  }

  lemma AdvanceSlotted(W: nat, budget: nat, l: Life, call: Call)
    requires W > 0 && Agreed(l) && Logged(l) && Slotted(l) && Live(l) && Resting(l)
    requires !l.thread.Starting? && !l.thread.Body? && !l.thread.Exit? && !l.thread.Retry?
    ensures Slotted(Advance(W, budget, l, call))
  {
  }

  /** Frames left behind send the exit round its loop, and end it in a panic. */
  lemma StuckSound(l: Life, next: Thread)
    requires Sound(l)
    requires match l.thread
             case Exit(failed, attempt) => next == Retry(failed, attempt)
             case Retry(_, _) => next.Panicked?
             case _ => false
    ensures Sound(l.(thread := next))
  {
    hide Inv;
  }

  lemma EntrySound(l: Life, act: Act)
    requires Sound(l) && (act.Enter? || act.EntryReturns? || act.EntryThrows?)
    ensures Sound(Do(1, 0, l, act))
  {
    hide Inv;
  }

  lemma AdvanceSound(W: nat, budget: nat, l: Life, call: Call)
    requires W > 0 && Sound(l) && Fresh(W, l.h)
    ensures Sound(Advance(W, budget, l, call))
  {
    if !Live(l) {
    } else if !Resting(l) {
      HandSound(W, l, call);
    } else {
      match l.thread {
        case Starting => if call.Register? { CallSound(W, l, call, Registering); }
        case Body => if call.Poll? || call.EnterNative? || call.LeaveNative? { CallSound(W, l, call, Body); }
        case Exit(failed, attempt) =>
          if l.roots == 0 && l.handlers == 0 { CallSound(W, l, Unregister, Exiting(failed, attempt)); }
          else { StuckSound(l, Retry(failed, attempt)); }
        case Retry(failed, attempt) =>
          if l.roots == 0 && l.handlers == 0 && attempt != budget { CallSound(W, l, Poll, Polling(failed, attempt)); }
          else { StuckSound(l, Panicked); }
        case _ =>
          AdvanceAgreed(W, budget, l, call);
          AdvanceLogged(W, budget, l, call);
          AdvanceSlotted(W, budget, l, call);
      }
      hide Inv, Hand, Agreed, Logged, Slotted;
    }
  }

  /** Every step of the owner, the worker and the handshake keeps the whole sound. */
  lemma DoSound(W: nat, budget: nat, l: Life, act: Act)
    requires W > 0 && Sound(l) && Fresh(W, l.h)
    ensures Sound(Do(W, budget, l, act))
  {
    match act {
      case OwnerCall(call) => OwnSound(W, l, call);
      case Worker(call) => AdvanceSound(W, budget, l, call);
      case Enter(_, _) => EntrySound(l, act);
      case EntryReturns => EntrySound(l, act);
      case EntryThrows => EntrySound(l, act);
      case _ =>
        OwnerAgreed(l, act);
        OwnerLogged(l, act);
        OwnerSlotted(l, act);
    }
    hide Inv, Own, Advance, OwnerAct, Agreed, Logged, Slotted;
  }

  /** At every moment before the end, acknowledgements of older requests can be told from the newest. */
  ghost predicate Timely(W: nat, budget: nat, l: Life, acts: seq<Act>)
    requires W > 0
  {
    acts != [] ==> Fresh(W, DoAll(W, budget, l, acts[..|acts| - 1]).h) && Timely(W, budget, l, acts[..|acts| - 1])
  }

  lemma {:induction false} RunSound(W: nat, budget: nat, m: nat, acts: seq<Act>)
    requires W > 0 && m > 0 && Timely(W, budget, Outset(m), acts)
    ensures Sound(DoAll(W, budget, Outset(m), acts))
  {
    if acts == [] {
      OutsetSound(m);
    } else {
      RunSound(W, budget, m, acts[..|acts| - 1]);
      DoSound(W, budget, DoAll(W, budget, Outset(m), acts[..|acts| - 1]), acts[|acts| - 1]);
    }
  }

  /** At most W requests begin in the run. */
  ghost predicate Few(W: nat, budget: nat, l: Life, acts: seq<Act>)
    requires W > 0
  {
    DoAll(W, budget, l, acts).h.begun <= W && (acts != [] ==> Few(W, budget, l, acts[..|acts| - 1]))
  }

  /** Runs with at most W requests are timely. */
  lemma {:induction false} FewTimely(W: nat, budget: nat, m: nat, acts: seq<Act>)
    requires W > 0 && m > 0 && Few(W, budget, Outset(m), acts)
    ensures Timely(W, budget, Outset(m), acts)
  {
    if acts != [] {
      FewTimely(W, budget, m, acts[..|acts| - 1]);
      RunSound(W, budget, m, acts[..|acts| - 1]);
      WithinFresh(W, DoAll(W, budget, Outset(m), acts[..|acts| - 1]).h);
    }
  }

  // ---- What follows for whole runs ----------------------------------------------------------------

  /** Each accepted start is answered by one non-zero join, in order, before the next start can be
      accepted; its entry is called at most once; and join returns 1 exactly if that entry returned. */
  lemma Lifecycle(W: nat, budget: nat, m: nat, acts: seq<Act>)
    requires W > 0 && m > 0 && Timely(W, budget, Outset(m), acts)
    ensures var l := DoAll(W, budget, Outset(m), acts);
            && Distinct(l.runs) && (forall j :: j in l.runs ==> 0 <= j < l.starts)
            && |l.joins| <= l.starts <= |l.joins| + 1
            && (l.state == IDLE ==> |l.joins| == l.starts)
            && (forall j :: 0 <= j < |l.joins| ==> l.joins[j] == 1 || l.joins[j] == -1)
            && (forall j :: 0 <= j < |l.joins| ==> (l.joins[j] == 1 <==> j in l.returned))
            && (forall j :: j in l.returned ==> j in l.runs)
  {
    RunSound(W, budget, m, acts);
  }

  /** When join is about to return 1 the worker holds no slot and no frame, and, with the owner in slot
      0, slot 1 is EMPTY: whatever the owner's collections did while the worker was leaving. */
  lemma JoinedClean(l: Life)
    requires Sound(l) && l.owner == Joined(DONE)
    ensures Slot(l) == NONE && l.roots == 0 && l.handlers == 0 && Job(l) in l.returned
    ensures l.h.tasks[0].slot == 0 ==> l.h.status[1] == EMPTY
  {
    assert SlotOk(l.h, 1);
    assert TaskOk(l.h, 0);
    hide Inv;
  }

  /** The entry runs in slot 1. */
  lemma EntryBound(l: Life)
    requires Sound(l) && l.thread.Body?
    ensures Slot(l) == 1 && l.h.owner[1] == Me(l) && l.h.status[1] != EMPTY
    ensures l.h.held && l.h.leader != Me(l) ==> l.h.status[1] != RUNNING
  {
    assert TaskOk(l.h, Me(l)) && SlotOk(l.h, 1);
    InvExclusive(l.h);
    assert l.h.held ==> TaskOk(l.h, l.h.leader);
  }

  /** A start is accepted only from IDLE, so never while a job is unjoined. */
  lemma StartNeedsIdle(W: nat, budget: nat, l: Life, act: Act)
    requires W > 0 && Sound(l) && Do(W, budget, l, act).starts > l.starts
    ensures act == Launch(true) && l.owner.Claimed? && |l.joins| == l.starts && l.thread.Absent?
  {
    hide Inv;
  }

  /** The worker panics only with a frame left behind or after its last exit attempt. */
  lemma PanicOnly(W: nat, budget: nat, l: Life, act: Act)
    requires W > 0 && !l.thread.Panicked? && Do(W, budget, l, act).thread.Panicked?
    ensures l.thread.Retry? && (l.roots != 0 || l.handlers != 0 || l.thread.attempt == budget)
  {
  }
}
