/** The stop-the-world handshake as a machine whose steps are single atomic accesses.

    Tasks are bound to slots by registration.  Every step is one load, one store, one lock operation
    or one wait of one task.  A schedule says which task moves next and, when it is outside the
    protocol, which operation it calls.

    Requests are numbered by tickets 1, 2, 3, ...  The code stores only the 32-bit epoch of a ticket;
    every comparison below is made on `Wrap`ped values, never on tickets. */
module Handshake {
  import opened Arithmetic

  const NONE := -1

  datatype Status = EMPTY | RUNNING | PARKED | NATIVE

  datatype Call =
    | Register(bind: bool) | Unregister | Poll | EnterNative | LeaveNative | StopBegin(budget: nat) | StopEnd

  /** Where a task stands.  e is the ticket whose epoch the task holds in a local, b what is left of
      the wait budget, i a slot index of a scan, locked whether the scan runs under the lock. */
  datatype Pc =
    | Rest
    | RegLock(bind: bool) | RegRequest(bind: bool) | RegScan(bind: bool, i: nat) | RegAck(i: nat) | RegRun(i: nat)
    | RegUnlock
    | UnLock | UnRequest | UnState | UnStore | UnUnlock
    | PollRequest | PollCollector(e: nat) | PollState(e: nat) | PollPark(e: nat) | PollAck(e: nat) | PollWait(e: nat)
    | PollRun(e: nat)
    | EnterLock | EnterState | EnterStore | EnterUnlock
    | LeaveLock | LeaveRequest | LeaveState | LeaveStore | LeaveUnlock(again: bool)
    | StopLock(b: nat) | StopRequest(b: nat) | StopState(b: nat) | StopEpoch(b: nat) | StopStore(b: nat, e: nat)
    | StopCollector(b: nat, e: nat) | StopPublish(b: nat, e: nat) | StopUnlock(b: nat, e: nat) | StopReject
    | ScanState(b: nat, e: nat, i: nat, locked: bool) | ScanAck(b: nat, e: nat, i: nat, locked: bool)
    | ScanLock(b: nat, e: nat) | ScanUnlock(b: nat, e: nat, stopped: bool) | Budget(b: nat, e: nat)
    | FailLock | FailRequest | FailCollector | FailUnlock
    | EndLock | EndCollector | EndRequest | EndClear | EndUnlock

  /** slot is the slot the task is bound to; result what its last operation returned; waits and
      budget how often its current stop has waited, and how often it may. */
  datatype Task = Task(pc: Pc, slot: int, result: int, waits: nat, budget: nat)

  /** The shared words, plus who holds the lock, who owns each slot, and which task's stop is active
      (leader) and granted (held). */
  datatype State = State(lock: int, begun: nat, request: nat, collector: int, status: seq<Status>, ack: seq<nat>,
                         tasks: seq<Task>, owner: seq<int>, leader: int, held: bool)

  /** The epoch of a ticket: 0 for none, then 1, 2, ..., W, and around again, skipping 0.  In the code W
      is 2^32 - 1. */
  function Wrap(W: nat, ticket: nat): nat
    requires W > 0
  {
    if ticket == 0 then 0 else (ticket - 1) % W + 1
  }

  /** `epoch + 1u` with the 0 skipped. */
  lemma WrapNext(W: nat, ticket: nat)
    requires W > 0
    ensures var e := (Wrap(W, ticket) + 1) % (W + 1);
            Wrap(W, ticket + 1) == if e == 0 then 1 else e
  {
    if ticket > 0 {
      WrapSuccessor(W, ticket - 1, (ticket - 1) / W, (ticket - 1) % W);
    }
  }

  lemma WrapSuccessor(W: nat, n: nat, q: nat, r: nat)
    requires W > 0 && n == q * W + r && r < W
    ensures n % W == r && (n + 1) % W == if r + 1 == W then 0 else r + 1
    ensures (r + 2) % (W + 1) == if r + 1 == W then 0 else r + 2
  {
    ModUnique(W, n, q, r);
    if r + 1 == W {
      assert n + 1 == (q + 1) * W;
      ModUnique(W, n + 1, q + 1, 0);
    } else {
      ModUnique(W, n + 1, q, r + 1);
      ModUnique(W + 1, r + 2, 0, r + 2);
    }
  }

  /** Within W consecutive tickets every epoch is different. */
  lemma WrapFresh(W: nat, a: nat, b: nat)
    requires W > 0 && 0 < a <= b && b - a < W && Wrap(W, a) == Wrap(W, b)
    ensures a == b
  {
    var q, r := (a - 1) / W, (a - 1) % W;
    assert a - 1 == q * W + r;
    var q', r' := (b - 1) / W, (b - 1) % W;
    assert b - 1 == q' * W + r';
    assert (q' - q) * W == b - a;
    Scaled(q' - q, W);
  }

  /** Tickets W apart share an epoch. */
  lemma WrapStale(W: nat, a: nat)
    requires W > 0 && a > 0
    ensures Wrap(W, a + W) == Wrap(W, a)
  {
    var q, r := (a - 1) / W, (a - 1) % W;
    assert a + W - 1 == (q + 1) * W + r;
    ModUnique(W, a + W - 1, q + 1, r);
  }

  // ---- The step function --------------------------------------------------------------------------

  function Go(h: State, t: nat, pc: Pc): State
    requires t < |h.tasks|
  {
    h.(tasks := h.tasks[t := h.tasks[t].(pc := pc)])
  }

  function Return(h: State, t: nat, result: int): State
    requires t < |h.tasks|
  {
    h.(tasks := h.tasks[t := h.tasks[t].(pc := Rest, result := result)])
  }

  /** Test-and-set of the registry lock: the task spins while another holds it. */
  function Lock(h: State, t: nat, pc: Pc): State
    requires t < |h.tasks|
  {
    if h.lock != NONE then h else Go(h.(lock := t), t, pc)
  }

  function Unlock(h: State): State { h.(lock := NONE) }

  predicate Shaped(h: State) {
    && |h.ack| == |h.status| == |h.owner|
    && forall t :: 0 <= t < |h.tasks| ==> NONE <= h.tasks[t].slot < |h.status|
  }

  function SetStatus(h: State, s: nat, x: Status): State
    requires s < |h.status|
  {
    h.(status := h.status[s := x])
  }

  function CallStep(h: State, t: nat, call: Call): State
    requires t < |h.tasks|
  {
    var bound := h.tasks[t].slot != NONE;
    match call
    case Register(bind) => if bound then h else Go(h, t, RegLock(bind))
    case Unregister => if bound then Go(h, t, UnLock) else h
    case Poll => if bound then Go(h, t, PollRequest) else h
    case EnterNative => if bound then Go(h, t, EnterLock) else h
    case LeaveNative => if bound then Go(h, t, LeaveLock) else h
    case StopBegin(budget) =>
      if bound then h.(tasks := h.tasks[t := h.tasks[t].(pc := StopLock(budget), waits := 0, budget := budget)]) else h
    case StopEnd => if bound then Go(h, t, EndLock) else h
  }

  function RegisterStep(h: State, t: nat): State
    requires t < |h.tasks| && Shaped(h)
  {
    match h.tasks[t].pc
    case RegLock(bind) => Lock(h, t, RegRequest(bind))
    case RegRequest(bind) =>
      if h.request != 0 then Go(h.(tasks := h.tasks[t := h.tasks[t].(result := 0)]), t, RegUnlock)
      else Go(h, t, RegScan(bind, 0))
    case RegScan(bind, i) =>
      if i >= |h.status| then Go(h.(tasks := h.tasks[t := h.tasks[t].(result := 0)]), t, RegUnlock)
      else if h.status[i] != EMPTY then Go(h, t, RegScan(bind, i + 1))
      else if !bind then Go(h.(tasks := h.tasks[t := h.tasks[t].(result := 0)]), t, RegUnlock)
      else Go(h, t, RegAck(i))
    case RegAck(i) => if i < |h.ack| then Go(h.(ack := h.ack[i := 0]), t, RegRun(i)) else h
    case RegRun(i) =>
      if i < |h.status| then
        SetStatus(h, i, RUNNING).(owner := h.owner[i := t],
          tasks := h.tasks[t := h.tasks[t].(pc := RegUnlock, slot := i, result := 1)])
      else h
    case RegUnlock => Return(Unlock(h), t, h.tasks[t].result)
    case _ => h
  }

  function UnregisterStep(h: State, t: nat): State
    requires t < |h.tasks| && Shaped(h) && (h.tasks[t].slot != NONE || h.tasks[t].pc.UnUnlock?)
  {
    var s := h.tasks[t].slot;
    match h.tasks[t].pc
    case UnLock => Lock(h, t, UnRequest)
    case UnRequest =>
      if h.request != 0 then Go(h.(tasks := h.tasks[t := h.tasks[t].(result := 0)]), t, UnUnlock) else Go(h, t, UnState)
    case UnState =>
      if h.status[s] != RUNNING then Go(h.(tasks := h.tasks[t := h.tasks[t].(result := 0)]), t, UnUnlock)
      else Go(h, t, UnStore)
    case UnStore =>
      SetStatus(h, s, EMPTY).(owner := h.owner[s := NONE],
        tasks := h.tasks[t := h.tasks[t].(pc := UnUnlock, slot := NONE, result := 1)])
    case UnUnlock => Return(Unlock(h), t, h.tasks[t].result)
    case _ => h
  }

  function PollStep(h: State, t: nat): State
    requires t < |h.tasks| && Shaped(h) && h.tasks[t].slot != NONE
  {
    var s := h.tasks[t].slot;
    match h.tasks[t].pc
    case PollRequest => if h.request == 0 then Return(h, t, 0) else Go(h, t, PollCollector(h.request))
    case PollCollector(e) => if h.collector == s + 1 then Return(h, t, 0) else Go(h, t, PollState(e))
    case PollState(e) => if h.status[s] != RUNNING then Return(h, t, 0) else Go(h, t, PollPark(e))
    case _ => h
  }

  function ParkStep(W: nat, h: State, t: nat): State
    requires W > 0 && t < |h.tasks| && Shaped(h) && h.tasks[t].slot != NONE
  {
    var s := h.tasks[t].slot;
    match h.tasks[t].pc
    case PollPark(e) => Go(SetStatus(h, s, PARKED), t, PollAck(e))
    case PollAck(e) => Go(h.(ack := h.ack[s := e]), t, PollWait(e))
    case PollWait(e) => if Wrap(W, h.request) == Wrap(W, e) then h else Go(h, t, PollRun(e))
    case PollRun(e) => Return(SetStatus(h, s, RUNNING), t, 0)
    case _ => h
  }

  function EnterStep(h: State, t: nat): State
    requires t < |h.tasks| && Shaped(h) && h.tasks[t].slot != NONE
  {
    var s := h.tasks[t].slot;
    match h.tasks[t].pc
    case EnterLock => Lock(h, t, EnterState)
    case EnterState =>
      if h.status[s] != RUNNING then Go(h.(tasks := h.tasks[t := h.tasks[t].(result := 0)]), t, EnterUnlock)
      else Go(h, t, EnterStore)
    case EnterStore => Go(SetStatus(h, s, NATIVE).(tasks := h.tasks[t := h.tasks[t].(result := 1)]), t, EnterUnlock)
    case EnterUnlock => Return(Unlock(h), t, h.tasks[t].result)
    case _ => h
  }

  function LeaveStep(h: State, t: nat): State
    requires t < |h.tasks| && Shaped(h) && h.tasks[t].slot != NONE
  {
    var s := h.tasks[t].slot;
    match h.tasks[t].pc
    case LeaveLock => Lock(h, t, LeaveRequest)
    case LeaveRequest => if h.request != 0 then Go(h, t, LeaveUnlock(true)) else Go(h, t, LeaveState)
    case LeaveState => if h.status[s] != NATIVE then Go(h, t, LeaveUnlock(false)) else Go(h, t, LeaveStore)
    case LeaveStore => Go(SetStatus(h, s, RUNNING), t, LeaveUnlock(false))
    case LeaveUnlock(again) => if again then Go(Unlock(h), t, LeaveLock) else Return(Unlock(h), t, 0)
    case _ => h
  }

  function StopStep(h: State, t: nat): State
    requires t < |h.tasks| && Shaped(h) && h.tasks[t].slot != NONE
  {
    var s := h.tasks[t].slot;
    match h.tasks[t].pc
    case StopLock(b) => Lock(h, t, StopRequest(b))
    case StopRequest(b) => if h.request != 0 then Go(h, t, StopReject) else Go(h, t, StopState(b))
    case StopState(b) => if h.status[s] != RUNNING then Go(h, t, StopReject) else Go(h, t, StopEpoch(b))
    case StopReject => Return(Unlock(h), t, 0)
    case StopEpoch(b) => Go(h, t, StopStore(b, h.begun + 1))
    case StopStore(b, e) => Go(h.(begun := e), t, StopCollector(b, e))
    case StopCollector(b, e) => Go(h.(collector := s + 1), t, StopPublish(b, e))
    case StopPublish(b, e) => Go(h.(request := e, leader := t, held := false), t, StopUnlock(b, e))
    case StopUnlock(b, e) => Go(Unlock(h), t, ScanState(b, e, 0, false))
    case _ => h
  }

  function ScanStep(W: nat, h: State, t: nat): State
    requires W > 0 && t < |h.tasks| && Shaped(h) && h.tasks[t].slot != NONE
  {
    var s := h.tasks[t].slot;
    match h.tasks[t].pc
    case ScanState(b, e, i, locked) =>
      if i >= |h.status| then Go(h, t, if locked then ScanUnlock(b, e, true) else ScanLock(b, e))
      else if i == s || h.status[i] == EMPTY || h.status[i] == NATIVE then Go(h, t, ScanState(b, e, i + 1, locked))
      else if h.status[i] != PARKED then Go(h, t, if locked then ScanUnlock(b, e, false) else Budget(b, e))
      else Go(h, t, ScanAck(b, e, i, locked))
    case ScanAck(b, e, i, locked) =>
      if i < |h.ack| && Wrap(W, h.ack[i]) == Wrap(W, e) then Go(h, t, ScanState(b, e, i + 1, locked))
      else Go(h, t, if locked then ScanUnlock(b, e, false) else Budget(b, e))
    case ScanLock(b, e) => Lock(h, t, ScanState(b, e, 0, true))
    case _ => h
  }

  function DecideStep(h: State, t: nat): State
    requires t < |h.tasks| && Shaped(h) && h.tasks[t].slot != NONE
  {
    match h.tasks[t].pc
    case ScanUnlock(b, e, stopped) =>
      if stopped then Return(Unlock(h).(held := true), t, 1) else Go(Unlock(h), t, Budget(b, e))
    case Budget(b, e) =>
      if b == 0 then Go(h, t, FailLock)
      else h.(tasks := h.tasks[t := h.tasks[t].(pc := ScanState(b - 1, e, 0, false), waits := h.tasks[t].waits + 1)])
    case FailLock => Lock(h, t, FailRequest)
    case FailRequest => Go(h.(request := 0, leader := NONE), t, FailCollector)
    case FailCollector => Go(h.(collector := 0), t, FailUnlock)
    case FailUnlock => Return(Unlock(h), t, 0)
    case _ => h
  }

  function EndStep(h: State, t: nat): State
    requires t < |h.tasks| && Shaped(h) && h.tasks[t].slot != NONE
  {
    match h.tasks[t].pc
    case EndLock => Lock(h, t, EndCollector)
    case EndCollector => if h.collector == h.tasks[t].slot + 1 then Go(h, t, EndRequest) else Go(h, t, EndUnlock)
    case EndRequest => Go(h.(request := 0, leader := NONE, held := false), t, EndClear)
    case EndClear => Go(h.(collector := 0), t, EndUnlock)
    case EndUnlock => Return(Unlock(h), t, 0)
    case _ => h
  }

  // Which operation a position belongs to.  A poll is split where it parks, a stop where it decides; the
  // positions of the scan are those that are left.

  predicate InRegister(pc: Pc) {
    pc.RegLock? || pc.RegRequest? || pc.RegScan? || pc.RegAck? || pc.RegRun? || pc.RegUnlock?
  }

  predicate InUnregister(pc: Pc) { pc.UnUnlock? || pc.UnLock? || pc.UnRequest? || pc.UnState? || pc.UnStore? }

  predicate InPoll(pc: Pc) { pc.PollRequest? || pc.PollCollector? || pc.PollState? }

  predicate InPark(pc: Pc) { pc.PollPark? || pc.PollAck? || pc.PollWait? || pc.PollRun? }

  predicate InEnter(pc: Pc) { pc.EnterLock? || pc.EnterState? || pc.EnterStore? || pc.EnterUnlock? }

  predicate InLeave(pc: Pc) { pc.LeaveLock? || pc.LeaveRequest? || pc.LeaveState? || pc.LeaveStore? || pc.LeaveUnlock? }

  predicate InStop(pc: Pc) {
    || pc.StopLock? || pc.StopRequest? || pc.StopState? || pc.StopReject? || pc.StopEpoch? || pc.StopStore?
    || pc.StopCollector? || pc.StopPublish? || pc.StopUnlock?
  }

  predicate InDecide(pc: Pc) {
    pc.ScanUnlock? || pc.Budget? || pc.FailLock? || pc.FailRequest? || pc.FailCollector? || pc.FailUnlock?
  }

  predicate InEnd(pc: Pc) { pc.EndLock? || pc.EndCollector? || pc.EndRequest? || pc.EndClear? || pc.EndUnlock? }

  /** One step of task t; `call` matters only when the task is at rest. */
  function Step(W: nat, h: State, t: nat, call: Call): State
    requires W > 0 && t < |h.tasks| && Shaped(h)
  {
    var pc := h.tasks[t].pc;
    if pc.Rest? then CallStep(h, t, call)
    else if InRegister(pc) then RegisterStep(h, t)
    else if h.tasks[t].slot == NONE && !pc.UnUnlock? then h
    else if InUnregister(pc) then UnregisterStep(h, t)
    else if InPoll(pc) then PollStep(h, t)
    else if InPark(pc) then ParkStep(W, h, t)
    else if InEnter(pc) then EnterStep(h, t)
    else if InLeave(pc) then LeaveStep(h, t)
    else if InStop(pc) then StopStep(h, t)
    else if InDecide(pc) then DecideStep(h, t)
    else if InEnd(pc) then EndStep(h, t)
    else ScanStep(W, h, t)
  }

  /** `handshake_init` with n slots, and m tasks outside the protocol. */
  function Init(n: nat, m: nat): State {
    State(NONE, 0, 0, 0, seq(n, _ => EMPTY), seq(n, _ => 0), seq(m, _ => Task(Rest, NONE, 0, 0, 0)),
          seq(n, _ => NONE), NONE, false)
  }
}
