/** What every run of the handshake keeps, and what follows from it. */
module HandshakeSafety {
  import opened Handshake

  // ---- Where tasks stand --------------------------------------------------------------------------

  predicate Critical(pc: Pc) {
    || pc.RegRequest? || pc.RegScan? || pc.RegAck? || pc.RegRun? || pc.RegUnlock?
    || pc.UnRequest? || pc.UnState? || pc.UnStore? || pc.UnUnlock?
    || pc.EnterState? || pc.EnterStore? || pc.EnterUnlock?
    || pc.LeaveRequest? || pc.LeaveState? || pc.LeaveStore? || pc.LeaveUnlock?
    || pc.StopRequest? || pc.StopState? || pc.StopReject? || pc.StopEpoch? || pc.StopStore?
    || pc.StopCollector? || pc.StopPublish? || pc.StopUnlock?
    || (pc.ScanState? && pc.locked) || (pc.ScanAck? && pc.locked) || pc.ScanUnlock?
    || pc.FailRequest? || pc.FailCollector? || pc.FailUnlock?
    || pc.EndCollector? || pc.EndRequest? || pc.EndClear? || pc.EndUnlock?
  }

  predicate Registering(pc: Pc) { pc.RegLock? || pc.RegRequest? || pc.RegScan? || pc.RegAck? || pc.RegRun? }

  predicate Unbound(pc: Pc) { pc.Rest? || Registering(pc) || pc.RegUnlock? || pc.UnUnlock? }

  /** Steps that run only while no request is published, because the task checked so under the lock. */
  predicate Quiet(pc: Pc) {
    || pc.RegScan? || pc.RegAck? || pc.RegRun? || pc.UnState? || pc.UnStore? || pc.LeaveState? || pc.LeaveStore?
    || pc.StopState? || pc.StopEpoch? || pc.StopStore? || pc.StopCollector? || pc.StopPublish?
    || pc.FailCollector? || pc.FailUnlock? || pc.EndClear?
  }

  predicate Publishing(pc: Pc) { pc.StopCollector? || pc.StopPublish? }

  /** Steps that rely on the task's own slot being RUNNING. */
  predicate Running(pc: Pc) {
    || pc.UnStore? || pc.PollPark? || pc.EnterStore? || pc.StopEpoch? || pc.StopStore? || Publishing(pc)
    || Active(pc) || (pc.LeaveUnlock? && !pc.again)
  }

  predicate Parking(pc: Pc) { pc.PollAck? || pc.PollWait? || pc.PollRun? }

  predicate Polling(pc: Pc) { pc.PollCollector? || pc.PollState? || pc.PollPark? || Parking(pc) }

  predicate Scanning(pc: Pc) { pc.ScanState? || pc.ScanAck? || pc.ScanLock? || pc.ScanUnlock? || pc.Budget? }

  /** A stop that is published and not yet decided. */
  predicate Active(pc: Pc) { pc.StopUnlock? || Scanning(pc) || pc.FailLock? || pc.FailRequest? }

  predicate Budgeted(pc: Pc) {
    || pc.StopLock? || pc.StopRequest? || pc.StopState? || pc.StopEpoch? || pc.StopStore? || Publishing(pc)
    || pc.StopUnlock? || Scanning(pc)
  }

  /** Between the two stores that publish or withdraw a request. */
  predicate Handing(pc: Pc) { pc.StopPublish? || pc.FailCollector? || pc.EndClear? }

  // ---- The invariant ------------------------------------------------------------------------------

  predicate Valid(h: State, t: int) { 0 <= t < |h.tasks| }

  /** The newest ticket another task can have seen. */
  function Published(h: State): int {
    if Valid(h, h.lock) && Publishing(h.tasks[h.lock].pc) then h.begun - 1 else h.begun
  }

  /** The owner of slot s has acknowledged the current request and waits for its end. */
  predicate Waiting(h: State, s: int) {
    0 <= s < |h.owner| && Valid(h, h.owner[s]) && h.tasks[h.owner[s]].pc == PollWait(h.begun)
  }

  /** Slot s cannot run managed code before the current request is withdrawn. */
  predicate Stopped(h: State, s: int) {
    0 <= s < |h.owner| == |h.status| && Valid(h, h.owner[s]) ==>
      h.status[s] == NATIVE || Waiting(h, s)
  }

  predicate StoppedBelow(h: State, s: int, n: int) {
    forall i {:trigger Stopped(h, i)} :: 0 <= i < n && i != s ==> Stopped(h, i)
  }

  predicate SlotOk(h: State, s: int) {
    0 <= s < |h.owner| == |h.status| == |h.ack| ==>
      && (h.owner[s] == NONE <==> h.status[s] == EMPTY)
      && (h.owner[s] != NONE ==> Valid(h, h.owner[s]) && h.tasks[h.owner[s]].slot == s)
      && h.ack[s] <= Published(h)
      && (h.request != 0 && h.owner[s] != NONE && h.ack[s] == h.begun ==> h.tasks[h.owner[s]].pc == PollWait(h.begun))
  }

  /** What a task's position says about its own slot. */
  predicate Bound(h: State, t: int) {
    Valid(h, t) ==>
      var x := h.tasks[t];
      && (x.slot == NONE ==> Unbound(x.pc))
      && (x.slot != NONE ==>
          && !Registering(x.pc)
          && 0 <= x.slot < |h.owner| == |h.status| == |h.ack|
          && h.owner[x.slot] == t
          && (h.status[x.slot] == PARKED <==> Parking(x.pc))
          && (Running(x.pc) ==> h.status[x.slot] == RUNNING)
          && (x.pc.LeaveStore? ==> h.status[x.slot] == NATIVE)
          && (x.pc.PollWait? || x.pc.PollRun? ==> h.ack[x.slot] == x.pc.e))
      && (x.pc.RegAck? || x.pc.RegRun? ==> x.pc.i < |h.owner| && h.owner[x.pc.i] == NONE)
  }

  /** What it says about the shared words. */
  predicate Placed(h: State, t: int) {
    Valid(h, t) ==>
      var x := h.tasks[t];
      && (Critical(x.pc) <==> h.lock == t)
      && (Quiet(x.pc) ==> h.request == 0)
      && (x.pc.StopStore? ==> x.pc.e == h.begun + 1)
      && (Publishing(x.pc) ==> x.pc.e == h.begun > 0)
      && (Polling(x.pc) ==> 0 < x.pc.e <= Published(h))
      && (x.pc.PollRun? ==> h.request != x.pc.e)
      && (Handing(x.pc) ==> h.collector == x.slot + 1)
      && (x.pc.FailUnlock? ==> h.collector == 0)
      && (x.pc.EndRequest? ==> h.leader == t)
      && (x.pc.EndClear? || x.pc.EndUnlock? ==> h.leader != t)
  }

  /** What it says about its stop. */
  predicate Deciding(h: State, t: int) {
    Valid(h, t) ==>
      var x := h.tasks[t];
      && (Active(x.pc) ==> h.leader == t && !h.held)
      && (h.leader == t && !h.held ==> Active(x.pc))
      && (h.leader == t ==> !x.pc.PollState? && !x.pc.PollPark? && !Parking(x.pc))
      && (x.pc.StopUnlock? || Scanning(x.pc) ==> x.pc.e == h.begun)
      && (Budgeted(x.pc) ==> x.waits + x.pc.b == x.budget)
      && (x.pc.FailLock? || x.pc.FailRequest? || x.pc.FailCollector? || x.pc.FailUnlock? ==> x.waits == x.budget)
      && (x.pc.ScanState? || x.pc.ScanAck? ==> StoppedBelow(h, x.slot, if x.pc.locked then |h.owner| else x.pc.i))
      && (x.pc.ScanLock? || x.pc.ScanUnlock? ==> StoppedBelow(h, x.slot, |h.owner|))
      && (x.pc.ScanAck? && x.pc.locked ==> Waiting(h, x.pc.i))
      && (x.pc.ScanUnlock? ==> x.pc.stopped)
  }

  predicate Shared(h: State) {
    && (h.lock != NONE ==> Valid(h, h.lock))
    && (h.leader == NONE ==> h.request == 0 && !h.held)
    && (h.leader == NONE && h.collector != 0 ==> h.lock != NONE && Handing(h.tasks[h.lock].pc))
    && (h.leader != NONE ==>
        && Valid(h, h.leader) && h.tasks[h.leader].slot != NONE
        && h.collector == h.tasks[h.leader].slot + 1
        && h.request == h.begun > 0
        && (h.held ==> StoppedBelow(h, h.tasks[h.leader].slot, |h.owner|)))
  }

  predicate TaskOk(h: State, t: int) { Bound(h, t) && Placed(h, t) && Deciding(h, t) }

  ghost predicate Inv(h: State) {
    && Shaped(h) && Shared(h)
    && (forall t {:trigger TaskOk(h, t)} :: TaskOk(h, t))
    && (forall s {:trigger SlotOk(h, s)} :: SlotOk(h, s))
  }

  lemma InitInv(n: nat, m: nat)
    ensures Inv(Init(n, m))
  {
  }

  // ---- Every step keeps it ------------------------------------------------------------------------

  /** No acknowledgement of an older request has the epoch of the newest one. */
  predicate Fresh(W: nat, h: State)
    requires W > 0
  {
    forall s :: 0 <= s < |h.ack| && h.ack[s] != 0 && Wrap(W, h.ack[s]) == Wrap(W, h.begun) ==> h.ack[s] == h.begun
  }

  predicate SameWords(h: State, h': State) {
    h'.request == h.request && h'.begun == h.begun && h'.collector == h.collector && h'.leader == h.leader
    && h'.held == h.held
  }

  predicate SameSlot(h: State, h': State, s: int) {
    0 <= s < |h.owner| == |h'.owner| == |h.status| == |h'.status| == |h.ack| == |h'.ack| ==>
      h'.owner[s] == h.owner[s] && h'.status[s] == h.status[s] && h'.ack[s] == h.ack[s]
  }

  predicate Others(h: State, s: int, t: int) {
    0 <= s < |h.owner| ==> h.owner[s] != t && (h.owner[s] != NONE || h.lock != t)
  }

  predicate SameTask(h: State, h': State, u: int) {
    0 <= u < |h.tasks| == |h'.tasks| ==> h'.tasks[u] == h.tasks[u]
  }

  /** While the request stands, what is stopped stays stopped. */
  ghost predicate Stays(h: State, h': State) {
    h.request != 0 && h'.request == h.request ==>
      && (forall s {:trigger Stopped(h', s)} :: Stopped(h, s) ==> Stopped(h', s))
      && (forall s {:trigger Waiting(h', s)} :: Waiting(h, s) ==> Waiting(h', s))
  }

  /** What a step of task t can change: its own task, its own slot or a free one, the lock if it is
      free or t's, the shared words if t holds the lock; and nothing that is stopped starts while the
      request stands. */
  ghost predicate Effect(h: State, h': State, t: int) {
    && |h'.tasks| == |h.tasks| && |h'.owner| == |h.owner| && |h'.status| == |h.status| && |h'.ack| == |h.ack|
    && (forall u {:trigger SameTask(h, h', u)} :: u != t ==> SameTask(h, h', u))
    && (h'.lock == h.lock || (h.lock == NONE && h'.lock == t) || (h.lock == t && h'.lock == NONE))
    && (forall s {:trigger SameSlot(h, h', s)} :: Others(h, s, t) ==> SameSlot(h, h', s))
    && (SameWords(h, h') || (h.lock == t && (h.leader == NONE || h.leader == t)))
    && (h'.leader == h.leader || h'.leader == t || h'.leader == NONE)
    && Published(h) <= Published(h')
    && (h'.request == h.request || h'.request == 0 || h'.request == h'.begun > Published(h))
    && (h.request != 0 ==> h'.begun == h.begun) && h.begun <= h'.begun
    && (h.request != 0 && Valid(h, t) ==> h'.tasks[t].slot == h.tasks[t].slot)
    && Stays(h, h')
  }

  lemma OtherTask(h: State, h': State, t: int, u: int)
    requires Inv(h) && Effect(h, h', t) && Valid(h, t) && u != t
    ensures TaskOk(h', u)
  {
    assert TaskOk(h, u) && TaskOk(h, t) && SameTask(h, h', u);
    if Valid(h, u) {
      var x := h.tasks[u];
      assert x.slot != NONE ==> SameSlot(h, h', x.slot);
      assert x.pc.RegAck? || x.pc.RegRun? ==> SameSlot(h, h', x.pc.i);
    }
  }

  lemma OtherSlot(h: State, h': State, t: int, s: int)
    requires Inv(h) && Effect(h, h', t) && Valid(h, t) && Others(h, s, t) && 0 <= s < |h.owner|
    ensures SlotOk(h', s)
  {
    assert SlotOk(h, s) && SameSlot(h, h', s);
    assert Valid(h, h.owner[s]) ==> SameTask(h, h', h.owner[s]);
  }

  predicate OwnerBound(h: State, s: int) {
    0 <= s < |h.owner| && Valid(h, h.owner[s]) ==> Bound(h, h.owner[s])
  }

  /** The facts a step of t starts from. */
  ghost predicate Start(h: State, t: int) {
    && Valid(h, t) && Shaped(h) && Shared(h) && TaskOk(h, t)
    && (h.tasks[t].slot != NONE ==> SlotOk(h, h.tasks[t].slot))
    && (h.tasks[t].pc.RegScan? || h.tasks[t].pc.ScanState? || h.tasks[t].pc.ScanAck? ==> SlotOk(h, h.tasks[t].pc.i))
    && (h.tasks[t].pc.ScanState? || h.tasks[t].pc.ScanAck? ==> OwnerBound(h, h.tasks[t].pc.i))
    && (Valid(h, h.lock) ==> Placed(h, h.lock))
    && (Valid(h, h.leader) ==> Bound(h, h.leader))
  }

  lemma SharedLater(h: State, h': State, t: int)
    requires Start(h, t) && Effect(h, h', t) && SameWords(h, h')
    requires h.leader == t ==> h'.tasks[t].slot == h.tasks[t].slot
    requires h.lock == t && Handing(h.tasks[t].pc) ==> h'.lock == t && Handing(h'.tasks[t].pc)
    ensures Shared(h')
  {
    assert h.leader != NONE && h.leader != t ==> SameTask(h, h', h.leader);
    assert h.lock != NONE && h.lock != t ==> SameTask(h, h', h.lock);
  }

  /** A step that moves nothing but the task, and takes or drops the lock at most. */
  predicate Moves(h: State, h': State, t: int) {
    && Valid(h, t) && |h'.tasks| == |h.tasks|
    && h'.tasks == h.tasks[t := h'.tasks[t]] && h' == h.(tasks := h'.tasks, lock := h'.lock)
    && h'.tasks[t].slot == h.tasks[t].slot
    && (h'.lock == h.lock || (h.lock == NONE && h'.lock == t) || (h.lock == t && h'.lock == NONE))
    && (h' == h || (!Publishing(h.tasks[t].pc) && !Publishing(h'.tasks[t].pc)))
    && (h.tasks[t].pc == PollWait(h.begun) && h.request != 0 ==> h'.tasks[t].pc == h.tasks[t].pc)
  }

  lemma MoveEffect(h: State, h': State, t: nat)
    requires Moves(h, h', t) && Shaped(h)
    ensures Effect(h, h', t)
  {
  }

  lemma CallEffect(h: State, t: nat, call: Call)
    requires Start(h, t) && h.tasks[t].pc.Rest?
    ensures Effect(h, CallStep(h, t, call), t)
  {
    hide Effect, Stopped, Shared, SlotOk;
    MoveEffect(h, CallStep(h, t, call), t);
  }

  lemma CallBound(h: State, t: nat, call: Call)
    requires Start(h, t) && h.tasks[t].pc.Rest?
    ensures Bound(CallStep(h, t, call), t)
  {
    hide Deciding, Stopped, Shared;
  }

  lemma CallPlaced(h: State, t: nat, call: Call)
    requires Start(h, t) && h.tasks[t].pc.Rest?
    ensures Placed(CallStep(h, t, call), t)
  {
    hide Deciding, SlotOk, Stopped;
  }

  lemma CallDeciding(h: State, t: nat, call: Call)
    requires Start(h, t) && h.tasks[t].pc.Rest?
    ensures Deciding(CallStep(h, t, call), t)
  {
    hide SlotOk, Shared, Bound;
  }

  lemma CallShared(h: State, t: nat, call: Call)
    requires Start(h, t) && h.tasks[t].pc.Rest?
    ensures Shared(CallStep(h, t, call))
  {
    CallEffect(h, t, call);
    SharedLater(h, CallStep(h, t, call), t);
  }

  lemma CallSlot(h: State, t: nat, call: Call, s: nat)
    requires Start(h, t) && h.tasks[t].pc.Rest? && SlotOk(h, s) && !Others(h, s, t)
    ensures SlotOk(CallStep(h, t, call), s)
  {
  }

  lemma RegisterEffect(h: State, t: nat)
    requires Start(h, t)
    ensures Effect(h, RegisterStep(h, t), t)
  {
    hide SlotOk;
    if !h.tasks[t].pc.RegAck? && !h.tasks[t].pc.RegRun? {
      MoveEffect(h, RegisterStep(h, t), t);
    }
  }

  lemma RegisterBound(h: State, t: nat)
    requires Start(h, t)
    ensures Bound(RegisterStep(h, t), t)
  {
    hide Deciding, Stopped, Shared;
  }

  lemma RegisterPlaced(h: State, t: nat)
    requires Start(h, t)
    ensures Placed(RegisterStep(h, t), t)
  {
    hide Deciding, SlotOk, Stopped;
  }

  lemma RegisterDeciding(h: State, t: nat)
    requires Start(h, t)
    ensures Deciding(RegisterStep(h, t), t)
  {
    hide SlotOk, Shared, Bound;
  }

  lemma RegisterShared(h: State, t: nat)
    requires Start(h, t)
    ensures Shared(RegisterStep(h, t))
  {
    RegisterEffect(h, t);
    SharedLater(h, RegisterStep(h, t), t);
  }

  lemma RegisterSlot(h: State, t: nat, s: nat)
    requires Start(h, t) && SlotOk(h, s) && !Others(h, s, t)
    ensures SlotOk(RegisterStep(h, t), s)
  {
  }

  lemma UnregisterEffect(h: State, t: nat)
    requires Start(h, t) && (h.tasks[t].slot != NONE || h.tasks[t].pc.UnUnlock?)
    ensures Effect(h, UnregisterStep(h, t), t)
  {
    hide SlotOk;
    if !h.tasks[t].pc.UnStore? {
      MoveEffect(h, UnregisterStep(h, t), t);
    }
  }

  lemma UnregisterBound(h: State, t: nat)
    requires Start(h, t) && (h.tasks[t].slot != NONE || h.tasks[t].pc.UnUnlock?)
    ensures Bound(UnregisterStep(h, t), t)
  {
    hide Deciding, Stopped, Shared;
  }

  lemma UnregisterPlaced(h: State, t: nat)
    requires Start(h, t) && (h.tasks[t].slot != NONE || h.tasks[t].pc.UnUnlock?)
    ensures Placed(UnregisterStep(h, t), t)
  {
    hide Deciding, SlotOk, Stopped;
  }

  lemma UnregisterDeciding(h: State, t: nat)
    requires Start(h, t) && (h.tasks[t].slot != NONE || h.tasks[t].pc.UnUnlock?)
    ensures Deciding(UnregisterStep(h, t), t)
  {
    hide SlotOk, Shared, Bound;
  }

  lemma UnregisterShared(h: State, t: nat)
    requires Start(h, t) && (h.tasks[t].slot != NONE || h.tasks[t].pc.UnUnlock?)
    ensures Shared(UnregisterStep(h, t))
  {
    UnregisterEffect(h, t);
    SharedLater(h, UnregisterStep(h, t), t);
  }

  lemma UnregisterSlot(h: State, t: nat, s: nat)
    requires Start(h, t) && (h.tasks[t].slot != NONE || h.tasks[t].pc.UnUnlock?) && SlotOk(h, s) && !Others(h, s, t)
    ensures SlotOk(UnregisterStep(h, t), s)
  {
  }

  lemma PollEffect(h: State, t: nat)
    requires Start(h, t) && h.tasks[t].slot != NONE
    ensures Effect(h, PollStep(h, t), t)
  {
    hide Effect, Stopped, Shared, SlotOk;
    MoveEffect(h, PollStep(h, t), t);
  }

  lemma PollBound(h: State, t: nat)
    requires Start(h, t) && h.tasks[t].slot != NONE
    ensures Bound(PollStep(h, t), t)
  {
    hide Deciding, Stopped, Shared;
  }

  lemma PollPlaced(h: State, t: nat)
    requires Start(h, t) && h.tasks[t].slot != NONE
    ensures Placed(PollStep(h, t), t)
  {
    hide Bound, Deciding, SlotOk, Stopped;
    if !InPoll(h.tasks[t].pc) { assert PollStep(h, t) == h; }
  }

  lemma PollDeciding(h: State, t: nat)
    requires Start(h, t) && h.tasks[t].slot != NONE
    ensures Deciding(PollStep(h, t), t)
  {
    hide SlotOk, Bound, Stopped;
  }

  lemma PollShared(h: State, t: nat)
    requires Start(h, t) && h.tasks[t].slot != NONE
    ensures Shared(PollStep(h, t))
  {
    PollEffect(h, t);
    SharedLater(h, PollStep(h, t), t);
  }

  lemma PollSlot(h: State, t: nat, s: nat)
    requires Start(h, t) && h.tasks[t].slot != NONE && SlotOk(h, s) && !Others(h, s, t)
    ensures SlotOk(PollStep(h, t), s)
  {
  }

  lemma ParkStays(W: nat, h: State, t: nat)
    requires W > 0 && Start(h, t) && h.tasks[t].slot != NONE
    ensures Stays(h, ParkStep(W, h, t))
  {
    hide SlotOk;
  }

  lemma ParkEffect(W: nat, h: State, t: nat)
    requires W > 0 && Start(h, t) && h.tasks[t].slot != NONE
    ensures Effect(h, ParkStep(W, h, t), t)
  {
    ParkStays(W, h, t);
  }

  lemma ParkBound(W: nat, h: State, t: nat)
    requires W > 0 && Start(h, t) && h.tasks[t].slot != NONE
    ensures Bound(ParkStep(W, h, t), t)
  {
    hide Deciding, Stopped, Shared;
  }

  lemma ParkPlaced(W: nat, h: State, t: nat)
    requires W > 0 && Start(h, t) && h.tasks[t].slot != NONE
    ensures Placed(ParkStep(W, h, t), t)
  {
    hide Bound, Deciding, SlotOk, Stopped;
  }

  lemma ParkDeciding(W: nat, h: State, t: nat)
    requires W > 0 && Start(h, t) && h.tasks[t].slot != NONE
    ensures Deciding(ParkStep(W, h, t), t)
  {
    hide SlotOk, Bound, Stopped;
  }

  lemma ParkShared(W: nat, h: State, t: nat)
    requires W > 0 && Start(h, t) && h.tasks[t].slot != NONE
    ensures Shared(ParkStep(W, h, t))
  {
    ParkEffect(W, h, t);
    SharedLater(h, ParkStep(W, h, t), t);
  }

  lemma ParkSlot(W: nat, h: State, t: nat, s: nat)
    requires W > 0 && Start(h, t) && h.tasks[t].slot != NONE && SlotOk(h, s) && !Others(h, s, t)
    ensures SlotOk(ParkStep(W, h, t), s)
  {
  }

  lemma EnterEffect(h: State, t: nat)
    requires Start(h, t) && h.tasks[t].slot != NONE
    ensures Effect(h, EnterStep(h, t), t)
  {
    hide SlotOk, Shared;
    if !h.tasks[t].pc.EnterStore? {
      MoveEffect(h, EnterStep(h, t), t);
    }
  }

  lemma EnterBound(h: State, t: nat)
    requires Start(h, t) && h.tasks[t].slot != NONE
    ensures Bound(EnterStep(h, t), t)
  {
    hide Deciding, Stopped, Shared;
  }

  lemma EnterPlaced(h: State, t: nat)
    requires Start(h, t) && h.tasks[t].slot != NONE
    ensures Placed(EnterStep(h, t), t)
  {
    hide Deciding, SlotOk, Stopped;
  }

  lemma EnterDeciding(h: State, t: nat)
    requires Start(h, t) && h.tasks[t].slot != NONE
    ensures Deciding(EnterStep(h, t), t)
  {
    hide SlotOk, Shared, Bound;
  }

  lemma EnterShared(h: State, t: nat)
    requires Start(h, t) && h.tasks[t].slot != NONE
    ensures Shared(EnterStep(h, t))
  {
    EnterEffect(h, t);
    SharedLater(h, EnterStep(h, t), t);
  }

  lemma EnterSlot(h: State, t: nat, s: nat)
    requires Start(h, t) && h.tasks[t].slot != NONE && SlotOk(h, s) && !Others(h, s, t)
    ensures SlotOk(EnterStep(h, t), s)
  {
  }

  lemma LeaveEffect(h: State, t: nat)
    requires Start(h, t) && h.tasks[t].slot != NONE
    ensures Effect(h, LeaveStep(h, t), t)
  {
    hide SlotOk;
    if !h.tasks[t].pc.LeaveStore? {
      MoveEffect(h, LeaveStep(h, t), t);
    }
  }

  lemma LeaveBound(h: State, t: nat)
    requires Start(h, t) && h.tasks[t].slot != NONE
    ensures Bound(LeaveStep(h, t), t)
  {
    hide Deciding, Stopped, Shared;
  }

  lemma LeavePlaced(h: State, t: nat)
    requires Start(h, t) && h.tasks[t].slot != NONE
    ensures Placed(LeaveStep(h, t), t)
  {
    hide Deciding, SlotOk, Stopped;
  }

  lemma LeaveDeciding(h: State, t: nat)
    requires Start(h, t) && h.tasks[t].slot != NONE
    ensures Deciding(LeaveStep(h, t), t)
  {
    hide SlotOk, Shared, Bound;
  }

  lemma LeaveShared(h: State, t: nat)
    requires Start(h, t) && h.tasks[t].slot != NONE
    ensures Shared(LeaveStep(h, t))
  {
    LeaveEffect(h, t);
    SharedLater(h, LeaveStep(h, t), t);
  }

  lemma LeaveSlot(h: State, t: nat, s: nat)
    requires Start(h, t) && h.tasks[t].slot != NONE && SlotOk(h, s) && !Others(h, s, t)
    ensures SlotOk(LeaveStep(h, t), s)
  {
  }

  lemma StopEffect(h: State, t: nat)
    requires Start(h, t) && h.tasks[t].slot != NONE
    ensures Effect(h, StopStep(h, t), t)
  {
    hide SlotOk;
    if !h.tasks[t].pc.StopStore? && !h.tasks[t].pc.StopCollector? && !h.tasks[t].pc.StopPublish? {
      MoveEffect(h, StopStep(h, t), t);
    }
  }

  lemma StopBound(h: State, t: nat)
    requires Start(h, t) && h.tasks[t].slot != NONE
    ensures Bound(StopStep(h, t), t)
  {
    hide Deciding, Stopped, Shared;
  }

  lemma StopPlaced(h: State, t: nat)
    requires Start(h, t) && h.tasks[t].slot != NONE
    ensures Placed(StopStep(h, t), t)
  {
    hide Deciding, SlotOk, Stopped;
  }

  lemma StopDeciding(h: State, t: nat)
    requires Start(h, t) && h.tasks[t].slot != NONE
    ensures Deciding(StopStep(h, t), t)
  {
    hide SlotOk, Shared, Bound;
  }

  lemma StopShared(h: State, t: nat)
    requires Start(h, t) && h.tasks[t].slot != NONE
    ensures Shared(StopStep(h, t))
  {
    StopEffect(h, t);
  }

  lemma StopSlot(h: State, t: nat, s: nat)
    requires Start(h, t) && h.tasks[t].slot != NONE && SlotOk(h, s) && !Others(h, s, t)
    ensures SlotOk(StopStep(h, t), s)
  {
  }

  lemma ScanEffect(W: nat, h: State, t: nat)
    requires W > 0 && Start(h, t) && h.tasks[t].slot != NONE
    ensures Effect(h, ScanStep(W, h, t), t)
  {
    hide Effect, Stopped, Shared, SlotOk;
    MoveEffect(h, ScanStep(W, h, t), t);
  }

  lemma ScanBound(W: nat, h: State, t: nat)
    requires W > 0 && Start(h, t) && h.tasks[t].slot != NONE
    ensures Bound(ScanStep(W, h, t), t)
  {
    hide Shared, SlotOk;
  }

  lemma ScanPlaced(W: nat, h: State, t: nat)
    requires W > 0 && Start(h, t) && h.tasks[t].slot != NONE
    ensures Placed(ScanStep(W, h, t), t)
  {
    hide SlotOk, Stopped;
  }

  /** A slot the scan lets pass is stopped: an epoch that matches means a ticket that matches. */
  lemma ScanPasses(W: nat, h: State, s: nat)
    requires W > 0 && Fresh(W, h) && SlotOk(h, s) && s < |h.owner| == |h.status| == |h.ack|
    requires h.request == h.begun > 0 && Published(h) == h.begun
    requires h.status[s] == EMPTY || h.status[s] == NATIVE || Wrap(W, h.ack[s]) == Wrap(W, h.begun)
    ensures Stopped(h, s)
  {
    if h.owner[s] != NONE && h.status[s] != NATIVE { assert h.ack[s] != 0; }
  }

  lemma ScanPassesIf(W: nat, h: State, s: nat)
    requires W > 0 && Fresh(W, h) && SlotOk(h, s) && s < |h.owner| == |h.status| == |h.ack|
    requires h.request == h.begun > 0 && Published(h) == h.begun
    ensures h.status[s] == EMPTY || h.status[s] == NATIVE || Wrap(W, h.ack[s]) == Wrap(W, h.begun) ==> Stopped(h, s)
  {
    if h.status[s] == EMPTY || h.status[s] == NATIVE || Wrap(W, h.ack[s]) == Wrap(W, h.begun) { ScanPasses(W, h, s); }
  }

  /** A stopped slot passes the scan. */
  lemma StoppedPasses(h: State, s: nat)
    requires SlotOk(h, s) && OwnerBound(h, s) && s < |h.owner| == |h.status| == |h.ack| && Stopped(h, s)
    ensures h.status[s] == EMPTY || h.status[s] == NATIVE || (h.status[s] == PARKED && Waiting(h, s))
    ensures Waiting(h, s) ==> h.ack[s] == h.begun
  {
  }

  lemma ScanDeciding(W: nat, h: State, t: nat)
    requires W > 0 && Start(h, t) && h.tasks[t].slot != NONE && Fresh(W, h)
    ensures Deciding(ScanStep(W, h, t), t)
  {
    var x := h.tasks[t];
    if (x.pc.ScanState? || x.pc.ScanAck?) && x.pc.i < |h.owner| && x.pc.i != x.slot {
      if x.pc.locked { StoppedPasses(h, x.pc.i); }
      ScanPassesIf(W, h, x.pc.i);
    }
    assert forall i {:trigger Stopped(ScanStep(W, h, t), i)} :: Stopped(h, i) ==> Stopped(ScanStep(W, h, t), i) by {
      ScanEffect(W, h, t);
    }
    hide SlotOk, Bound, Stopped;
  }

  lemma ScanShared(W: nat, h: State, t: nat)
    requires W > 0 && Start(h, t) && h.tasks[t].slot != NONE
    ensures Shared(ScanStep(W, h, t))
  {
    ScanEffect(W, h, t);
    SharedLater(h, ScanStep(W, h, t), t);
  }

  lemma ScanSlot(W: nat, h: State, t: nat, s: nat)
    requires W > 0 && Start(h, t) && h.tasks[t].slot != NONE && SlotOk(h, s) && !Others(h, s, t)
    ensures SlotOk(ScanStep(W, h, t), s)
  {
  }

  lemma DecideEffect(h: State, t: nat)
    requires Start(h, t) && h.tasks[t].slot != NONE
    ensures Effect(h, DecideStep(h, t), t)
  {
    hide SlotOk;
    if !h.tasks[t].pc.ScanUnlock? && !h.tasks[t].pc.FailRequest? && !h.tasks[t].pc.FailCollector? {
      MoveEffect(h, DecideStep(h, t), t);
    }
  }

  lemma DecideBound(h: State, t: nat)
    requires Start(h, t) && h.tasks[t].slot != NONE
    ensures Bound(DecideStep(h, t), t)
  {
    hide Deciding, Stopped, Shared;
  }

  lemma DecidePlaced(h: State, t: nat)
    requires Start(h, t) && h.tasks[t].slot != NONE
    ensures Placed(DecideStep(h, t), t)
  {
    hide SlotOk, Stopped;
  }

  lemma DecideDeciding(h: State, t: nat)
    requires Start(h, t) && h.tasks[t].slot != NONE
    ensures Deciding(DecideStep(h, t), t)
  {
    hide SlotOk, Shared, Bound;
  }

  lemma DecideShared(h: State, t: nat)
    requires Start(h, t) && h.tasks[t].slot != NONE
    ensures Shared(DecideStep(h, t))
  {
    DecideEffect(h, t);
  }

  lemma DecideSlot(h: State, t: nat, s: nat)
    requires Start(h, t) && h.tasks[t].slot != NONE && SlotOk(h, s) && !Others(h, s, t)
    ensures SlotOk(DecideStep(h, t), s)
  {
  }

  lemma EndEffect(h: State, t: nat)
    requires Start(h, t) && h.tasks[t].slot != NONE
    ensures Effect(h, EndStep(h, t), t)
  {
    hide SlotOk;
    if !h.tasks[t].pc.EndRequest? && !h.tasks[t].pc.EndClear? {
      MoveEffect(h, EndStep(h, t), t);
    }
  }

  lemma EndBound(h: State, t: nat)
    requires Start(h, t) && h.tasks[t].slot != NONE
    ensures Bound(EndStep(h, t), t)
  {
    hide Deciding, Stopped, Shared;
  }

  lemma EndPlaced(h: State, t: nat)
    requires Start(h, t) && h.tasks[t].slot != NONE
    ensures Placed(EndStep(h, t), t)
  {
    hide Deciding, SlotOk, Stopped;
  }

  lemma EndDeciding(h: State, t: nat)
    requires Start(h, t) && h.tasks[t].slot != NONE
    ensures Deciding(EndStep(h, t), t)
  {
    hide SlotOk, Shared, Bound;
  }

  lemma EndShared(h: State, t: nat)
    requires Start(h, t) && h.tasks[t].slot != NONE
    ensures Shared(EndStep(h, t))
  {
    EndEffect(h, t);
  }

  lemma EndSlot(h: State, t: nat, s: nat)
    requires Start(h, t) && h.tasks[t].slot != NONE && SlotOk(h, s) && !Others(h, s, t)
    ensures SlotOk(EndStep(h, t), s)
  {
  }

  lemma StartOf(h: State, t: nat)
    requires Inv(h) && t < |h.tasks|
    ensures Start(h, t)
  {
    assert TaskOk(h, t) && TaskOk(h, h.lock) && TaskOk(h, h.leader);
    var x := h.tasks[t];
    assert x.slot != NONE ==> SlotOk(h, x.slot);
    if x.pc.RegScan? || x.pc.ScanState? || x.pc.ScanAck? {
      assert SlotOk(h, x.pc.i);
      assert 0 <= x.pc.i < |h.owner| ==> TaskOk(h, h.owner[x.pc.i]);
    }
  }

  lemma StepOwn(W: nat, h: State, t: nat, call: Call)
    requires W > 0 && Start(h, t) && Fresh(W, h)
    ensures var h' := Step(W, h, t, call);
            Effect(h, h', t) && TaskOk(h', t) && Shared(h')
  {
    hide Bound, Placed, Deciding, SlotOk, Shared, Effect;
    hide CallStep, RegisterStep, UnregisterStep, PollStep, ParkStep, EnterStep, LeaveStep, StopStep, ScanStep,
         DecideStep, EndStep;
    var pc := h.tasks[t].pc;
    if pc.Rest? {
      CallEffect(h, t, call); CallBound(h, t, call); CallPlaced(h, t, call); CallDeciding(h, t, call);
      CallShared(h, t, call);
    } else if InRegister(pc) {
      RegisterEffect(h, t); RegisterBound(h, t); RegisterPlaced(h, t); RegisterDeciding(h, t); RegisterShared(h, t);
    } else if h.tasks[t].slot == NONE && !pc.UnUnlock? {
      assert Step(W, h, t, call) == h;
      Idle(h, t);
    } else if InUnregister(pc) {
      UnregisterEffect(h, t); UnregisterBound(h, t); UnregisterPlaced(h, t); UnregisterDeciding(h, t);
      UnregisterShared(h, t);
    } else if InPoll(pc) {
      PollEffect(h, t); PollBound(h, t); PollPlaced(h, t); PollDeciding(h, t); PollShared(h, t);
    } else if InPark(pc) {
      ParkEffect(W, h, t); ParkBound(W, h, t); ParkPlaced(W, h, t); ParkDeciding(W, h, t); ParkShared(W, h, t);
    } else if InEnter(pc) {
      EnterEffect(h, t); EnterBound(h, t); EnterPlaced(h, t); EnterDeciding(h, t); EnterShared(h, t);
    } else if InLeave(pc) {
      LeaveEffect(h, t); LeaveBound(h, t); LeavePlaced(h, t); LeaveDeciding(h, t); LeaveShared(h, t);
    } else if InStop(pc) {
      StopEffect(h, t); StopBound(h, t); StopPlaced(h, t); StopDeciding(h, t); StopShared(h, t);
    } else if InDecide(pc) {
      DecideEffect(h, t); DecideBound(h, t); DecidePlaced(h, t); DecideDeciding(h, t); DecideShared(h, t);
    } else if InEnd(pc) {
      EndEffect(h, t); EndBound(h, t); EndPlaced(h, t); EndDeciding(h, t); EndShared(h, t);
    } else {
      ScanEffect(W, h, t); ScanBound(W, h, t); ScanPlaced(W, h, t); ScanDeciding(W, h, t); ScanShared(W, h, t);
    }
  }

  lemma Idle(h: State, t: nat)
    requires Start(h, t)
    ensures Effect(h, h, t)
  {
  }

  lemma StepSlot(W: nat, h: State, t: nat, call: Call, s: nat)
    requires W > 0 && Start(h, t) && SlotOk(h, s) && !Others(h, s, t)
    ensures SlotOk(Step(W, h, t, call), s)
  {
    hide Bound, Placed, Deciding, SlotOk, Shared, Effect, Others;
    hide CallStep, RegisterStep, UnregisterStep, PollStep, ParkStep, EnterStep, LeaveStep, StopStep, ScanStep,
         DecideStep, EndStep;
    var pc := h.tasks[t].pc;
    if pc.Rest? {
      CallSlot(h, t, call, s);
    } else if InRegister(pc) {
      RegisterSlot(h, t, s);
    } else if h.tasks[t].slot == NONE && !pc.UnUnlock? {
      assert Step(W, h, t, call) == h;
    } else if InUnregister(pc) {
      UnregisterSlot(h, t, s);
    } else if InPoll(pc) {
      PollSlot(h, t, s);
    } else if InPark(pc) {
      ParkSlot(W, h, t, s);
    } else if InEnter(pc) {
      EnterSlot(h, t, s);
    } else if InLeave(pc) {
      LeaveSlot(h, t, s);
    } else if InStop(pc) {
      StopSlot(h, t, s);
    } else if InDecide(pc) {
      DecideSlot(h, t, s);
    } else if InEnd(pc) {
      EndSlot(h, t, s);
    } else {
      ScanSlot(W, h, t, s);
    }
  }

  /** Every step of every task keeps the invariant. */
  lemma StepInv(W: nat, h: State, t: nat, call: Call)
    requires W > 0 && Inv(h) && Fresh(W, h) && t < |h.tasks|
    ensures Inv(Step(W, h, t, call))
  {
    var h' := Step(W, h, t, call);
    StartOf(h, t);
    StepOwn(W, h, t, call);
    forall u ensures TaskOk(h', u) { if u != t { OtherTask(h, h', t, u); } }
    forall s ensures SlotOk(h', s) {
      if 0 <= s < |h.owner| {
        if Others(h, s, t) { OtherSlot(h, h', t, s); } else { assert SlotOk(h, s); StepSlot(W, h, t, call, s); }
      }
    }
    TasksShaped(h');
  }

  lemma TasksShaped(h: State)
    requires |h.ack| == |h.status| == |h.owner| && forall t {:trigger TaskOk(h, t)} :: TaskOk(h, t)
    ensures Shaped(h)
  {
    forall t | 0 <= t < |h.tasks| ensures NONE <= h.tasks[t].slot < |h.status| { assert TaskOk(h, t); }
  }
}
