/** Whole runs of the handshake: when a granted stop is exclusive, and when it is not. */
module HandshakeRuns {
  import opened Handshake
  import opened HandshakeSafety

  datatype Move = Move(task: nat, call: Call)

  function Next(W: nat, h: State, m: Move): State
    requires W > 0
  {
    if m.task < |h.tasks| && Shaped(h) then Step(W, h, m.task, m.call) else h
  }

  function Run(W: nat, h: State, moves: seq<Move>): State
    requires W > 0
  {
    if moves == [] then h else Next(W, Run(W, h, moves[..|moves| - 1]), moves[|moves| - 1])
  }

  /** No more than `limit` requests begin in the run. */
  ghost predicate Within(W: nat, h: State, moves: seq<Move>, limit: nat)
    requires W > 0
  {
    Run(W, h, moves).begun <= limit && (moves != [] ==> Within(W, h, moves[..|moves| - 1], limit))
  }

  lemma WithinFresh(W: nat, h: State)
    requires W > 0 && Inv(h) && h.begun <= W
    ensures Fresh(W, h)
  {
    forall s | 0 <= s < |h.ack| && h.ack[s] != 0 && Wrap(W, h.ack[s]) == Wrap(W, h.begun) ensures h.ack[s] == h.begun {
      assert SlotOk(h, s);
      WrapFresh(W, h.ack[s], h.begun);
    }
  }

  /** While a stop is held nobody but the collector is RUNNING, and no one else is deciding a stop. */
  ghost predicate Exclusive(h: State) {
    h.held ==>
      && Valid(h, h.leader)
      && (forall s :: 0 <= s < |h.status| && h.status[s] == RUNNING ==> s == h.tasks[h.leader].slot)
      && (forall t :: 0 <= t < |h.tasks| ==> !Active(h.tasks[t].pc))
  }

  lemma InvExclusive(h: State)
    requires Inv(h)
    ensures Exclusive(h)
  {
    if h.held {
      forall s | 0 <= s < |h.status| && h.status[s] == RUNNING ensures s == h.tasks[h.leader].slot {
        assert SlotOk(h, s) && TaskOk(h, h.owner[s]);
        assert s != h.tasks[h.leader].slot ==> Stopped(h, s);
      }
      forall t | 0 <= t < |h.tasks| ensures !Active(h.tasks[t].pc) { assert TaskOk(h, t); }
    }
  }

  /** At every moment before the end of the run, no slot holds an acknowledgement that is older than the
      newest request and yet has its epoch. */
  ghost predicate FreshRun(W: nat, h: State, moves: seq<Move>)
    requires W > 0
  {
    moves != [] ==> Fresh(W, Run(W, h, moves[..|moves| - 1])) && FreshRun(W, h, moves[..|moves| - 1])
  }

  /** Such a run keeps the invariant, and a granted stop is exclusive in it: however many requests begin. */
  lemma {:induction false} FreshRunInv(W: nat, n: nat, m: nat, moves: seq<Move>)
    requires W > 0 && FreshRun(W, Init(n, m), moves)
    ensures Inv(Run(W, Init(n, m), moves)) && Exclusive(Run(W, Init(n, m), moves))
  {
    if moves == [] {
      InitInv(n, m);
    } else {
      var before, move := moves[..|moves| - 1], moves[|moves| - 1];
      FreshRunInv(W, n, m, before);
      var h := Run(W, Init(n, m), before);
      if move.task < |h.tasks| && Shaped(h) { StepInv(W, h, move.task, move.call); }
    }
    InvExclusive(Run(W, Init(n, m), moves));
  }

  lemma {:induction false} WithinFreshRun(W: nat, n: nat, m: nat, moves: seq<Move>)
    requires W > 0 && Within(W, Init(n, m), moves, W)
    ensures FreshRun(W, Init(n, m), moves)
  {
    if moves != [] {
      var before := moves[..|moves| - 1];
      WithinFreshRun(W, n, m, before);
      FreshRunInv(W, n, m, before);
      WithinFresh(W, Run(W, Init(n, m), before));
    }
  }

  /** A run in which at most W requests begin keeps the invariant. */
  lemma RunInv(W: nat, n: nat, m: nat, moves: seq<Move>)
    requires W > 0 && Within(W, Init(n, m), moves, W)
    ensures Inv(Run(W, Init(n, m), moves))
  {
    WithinFreshRun(W, n, m, moves);
    FreshRunInv(W, n, m, moves);
  }

  /** A granted stop stands until the collector itself ends it: no step of any task but the
      collector's own withdrawing store changes the request. */
  lemma StepHolds(W: nat, h: State, t: nat, call: Call)
    requires W > 0 && Inv(h) && Fresh(W, h) && t < |h.tasks| && h.held
    requires t == h.leader ==> !h.tasks[t].pc.EndRequest?
    ensures SameWords(h, Step(W, h, t, call))
  {
    StartOf(h, t);
    StepOwn(W, h, t, call);
    assert Placed(h, t) && Deciding(h, t);
    hide Bound, SlotOk, Stays, Stopped, Waiting;
  }

  predicate Ending(pc: Pc) { pc.EndLock? || pc.EndCollector? || pc.EndRequest? || pc.EndClear? || pc.EndUnlock? }

  /** What one step means to the other tasks, and to the stepping task's slot. */
  lemma StepOutside(W: nat, h: State, t: nat, call: Call)
    requires W > 0 && Inv(h) && Fresh(W, h) && t < |h.tasks|
    ensures var h' := Step(W, h, t, call);
            && Inv(h') && |h'.tasks| == |h.tasks|
            && (forall u :: 0 <= u < |h.tasks| && u != t ==> h'.tasks[u] == h.tasks[u])
            && (h.request != 0 ==> h'.tasks[t].slot == h.tasks[t].slot)
            && (h.held && t != h.leader ==> h'.held && h'.leader == h.leader)
  {
    StepInv(W, h, t, call);
    StartOf(h, t);
    StepOwn(W, h, t, call);
    var h' := Step(W, h, t, call);
    if h.held && t != h.leader { StepHolds(W, h, t, call); }
    hide Inv, TaskOk, Shared, Stays, SameSlot, Step;
    forall u | 0 <= u < |h.tasks| && u != t ensures h'.tasks[u] == h.tasks[u] { assert SameTask(h, h', u); }
  }

  lemma CallNotEnding(h: State, t: nat, call: Call)
    requires t < |h.tasks| && !call.StopEnd? && h.tasks[t].pc.Rest?
    ensures !Ending(CallStep(h, t, call).tasks[t].pc)
  {
  }

  lemma StopNotEnding(W: nat, h: State, t: nat)
    requires W > 0 && t < |h.tasks| && Shaped(h) && h.tasks[t].slot != NONE && !Ending(h.tasks[t].pc)
    ensures !Ending(StopStep(h, t).tasks[t].pc) && !Ending(ScanStep(W, h, t).tasks[t].pc)
    ensures !Ending(DecideStep(h, t).tasks[t].pc)
  {
  }

  lemma ParkNotEnding(W: nat, h: State, t: nat)
    requires W > 0 && t < |h.tasks| && Shaped(h) && h.tasks[t].slot != NONE && !Ending(h.tasks[t].pc)
    ensures !Ending(ParkStep(W, h, t).tasks[t].pc) && !Ending(EnterStep(h, t).tasks[t].pc)
    ensures !Ending(LeaveStep(h, t).tasks[t].pc)
  {
  }

  lemma PollNotEnding(h: State, t: nat)
    requires t < |h.tasks| && Shaped(h) && (h.tasks[t].slot != NONE || h.tasks[t].pc.UnUnlock?)
    requires !Ending(h.tasks[t].pc)
    ensures !Ending(UnregisterStep(h, t).tasks[t].pc)
    ensures h.tasks[t].slot != NONE ==> !Ending(PollStep(h, t).tasks[t].pc)
  {
  }

  lemma RegisterNotEnding(h: State, t: nat)
    requires t < |h.tasks| && Shaped(h) && !Ending(h.tasks[t].pc)
    ensures !Ending(RegisterStep(h, t).tasks[t].pc)
  {
  }

  lemma StepNotEnding(W: nat, h: State, t: nat, call: Call)
    requires W > 0 && t < |h.tasks| && Shaped(h) && !Ending(h.tasks[t].pc) && !call.StopEnd?
    ensures !Ending(Step(W, h, t, call).tasks[t].pc)
  {
    hide CallStep, RegisterStep, UnregisterStep, PollStep, ParkStep, EnterStep, LeaveStep, StopStep, ScanStep,
         DecideStep;
    RegisterNotEnding(h, t);
    if h.tasks[t].pc.Rest? {
      CallNotEnding(h, t, call);
    } else if h.tasks[t].slot != NONE || h.tasks[t].pc.UnUnlock? {
      PollNotEnding(h, t);
      if h.tasks[t].slot != NONE {
        StopNotEnding(W, h, t);
        ParkNotEnding(W, h, t);
      }
    }
  }

  /** From the moment a stop is granted until its collector calls `stop_end`, whatever all tasks do in
      any order, and however many requests were made before, the stop stays granted to the same task and
      excludes every other slot. */
  lemma {:induction false} HeldUntilEnd(W: nat, h: State, moves: seq<Move>)
    requires W > 0 && Inv(h) && FreshRun(W, h, moves) && h.held && !Ending(h.tasks[h.leader].pc)
    requires forall k :: 0 <= k < |moves| && moves[k].task == h.leader ==> !moves[k].call.StopEnd?
    ensures var h' := Run(W, h, moves);
            Inv(h') && SameWords(h, h') && Exclusive(h') && |h'.tasks| == |h.tasks| && !Ending(h'.tasks[h.leader].pc)
  {
    if moves == [] {
      InvExclusive(h);
    } else {
      var before, move := moves[..|moves| - 1], moves[|moves| - 1];
      HeldUntilEnd(W, h, before);
      var g := Run(W, h, before);
      if move.task < |g.tasks| {
        var t := move.task;
        StepInv(W, g, t, move.call);
        StepHolds(W, g, t, move.call);
        StartOf(g, t);
        StepOwn(W, g, t, move.call);
        if t == g.leader {
          StepNotEnding(W, g, t, move.call);
        } else {
          assert SameTask(g, Step(W, g, t, move.call), g.leader);
        }
        InvExclusive(Step(W, g, t, move.call));
      }
    }
  }

  /** `stop_begin` returns 1 exactly by holding the stop.  The scan under the lock, which the code
      repeats before it grants, never contradicts the scan before it. */
  lemma StopGranted(W: nat, h: State, t: nat, call: Call)
    requires W > 0 && Inv(h) && t < |h.tasks| && h.tasks[t].pc.ScanUnlock?
    ensures var h' := Step(W, h, t, call);
            h.tasks[t].pc.stopped && h'.tasks[t].pc.Rest? && h'.tasks[t].result == 1 && h'.held && h'.leader == t
            && h'.request == h'.begun != 0
  {
    assert TaskOk(h, t);
  }

  /** A stop that gives up has waited exactly its budget and leaves no request and no collector behind. */
  lemma StopFailed(W: nat, h: State, t: nat, call: Call)
    requires W > 0 && Inv(h) && t < |h.tasks| && h.tasks[t].pc.FailUnlock?
    ensures var h' := Step(W, h, t, call);
            h'.tasks[t].pc.Rest? && h'.tasks[t].result == 0 && h'.tasks[t].waits == h'.tasks[t].budget
            && h'.request == 0 && h'.collector == 0
  {
    assert TaskOk(h, t);
  }

  /** A stop never waits more often than its budget allows. */
  lemma StopWaits(h: State, t: nat)
    requires Inv(h) && t < |h.tasks| && (h.tasks[t].pc.StopUnlock? || Scanning(h.tasks[t].pc))
    ensures h.tasks[t].waits + h.tasks[t].pc.b == h.tasks[t].budget
  {
    assert TaskOk(h, t);
  }

  /** A bound task that is outside the protocol is RUNNING, unless it declared itself native-safe. */
  lemma RestRunning(h: State, t: nat)
    requires Inv(h) && t < |h.tasks| && h.tasks[t].pc.Rest? && h.tasks[t].slot != NONE
    ensures h.status[h.tasks[t].slot] == RUNNING || h.status[h.tasks[t].slot] == NATIVE
    ensures h.held && t != h.leader ==> h.status[h.tasks[t].slot] == NATIVE
  {
    assert TaskOk(h, t) && SlotOk(h, h.tasks[t].slot);
    if h.held && t != h.leader {
      assert TaskOk(h, h.leader);
      assert Stopped(h, h.tasks[t].slot);
    }
  }

  // ---- How many requests are safe -----------------------------------------------------------------

  /** Every run of the two slots of the code, with two tasks, in which at most `limit` requests begin
      keeps a granted stop exclusive. */
  ghost predicate SafeFor(W: nat, limit: nat)
    requires W > 0
  {
    forall moves {:trigger Run(W, Init(2, 2), moves)} ::
      Within(W, Init(2, 2), moves, limit) ==> Exclusive(Run(W, Init(2, 2), moves))
  }

  ghost predicate Reach(W: nat, limit: nat, h: State)
    requires W > 0
  {
    exists moves :: Within(W, Init(2, 2), moves, limit) && Run(W, Init(2, 2), moves) == h
  }

  lemma Walk(W: nat, limit: nat, h: State, t: nat, call: Call) returns (h': State)
    requires W > 0 && Reach(W, limit, h) && t < |h.tasks| && Shaped(h) && Step(W, h, t, call).begun <= limit
    ensures h' == Step(W, h, t, call) && Reach(W, limit, h')
  {
    h' := Step(W, h, t, call);
    var moves :| Within(W, Init(2, 2), moves, limit) && Run(W, Init(2, 2), moves) == h;
    var more := moves + [Move(t, call)];
    assert more[..|more| - 1] == moves;
    assert Run(W, Init(2, 2), more) == h';
  }

  lemma WalkScan(W: nat, limit: nat, h: State, t: nat) returns (h': State)
    requires W > 0 && Reach(W, limit, h) && h.begun <= limit && t < |h.tasks| && Shaped(h) && h.tasks[t].slot != NONE
    requires h.tasks[t].pc.ScanState? || h.tasks[t].pc.ScanAck? || h.tasks[t].pc.ScanLock?
    ensures h' == ScanStep(W, h, t) && Reach(W, limit, h')
  {
    hide Reach, Wrap;
    h' := Walk(W, limit, h, t, Poll);
  }

  lemma WalkDecide(W: nat, limit: nat, h: State, t: nat) returns (h': State)
    requires W > 0 && Reach(W, limit, h) && h.begun <= limit && t < |h.tasks| && Shaped(h) && h.tasks[t].slot != NONE
    requires InDecide(h.tasks[t].pc)
    ensures h' == DecideStep(h, t) && Reach(W, limit, h')
  {
    hide Reach;
    h' := Walk(W, limit, h, t, Poll);
  }

  lemma WalkPark(W: nat, limit: nat, h: State, t: nat) returns (h': State)
    requires W > 0 && Reach(W, limit, h) && h.begun <= limit && t < |h.tasks| && Shaped(h) && h.tasks[t].slot != NONE
    requires InPark(h.tasks[t].pc)
    ensures h' == ParkStep(W, h, t) && Reach(W, limit, h')
  {
    hide Reach;
    h' := Walk(W, limit, h, t, Poll);
  }

  lemma WalkRegister(W: nat, limit: nat, h: State, t: nat) returns (h': State)
    requires W > 0 && Reach(W, limit, h) && h.begun <= limit && t < |h.tasks| && Shaped(h)
    requires InRegister(h.tasks[t].pc)
    ensures h' == RegisterStep(h, t) && Reach(W, limit, h')
  {
    hide Reach;
    h' := Walk(W, limit, h, t, Poll);
  }

  /** Slot 0 is the collector's and RUNNING, slot 1 the worker's. */
  function Pair(begun: nat, acks: seq<nat>, x: Task, y: Task, worker: Status): State {
    State(NONE, begun, 0, 0, [RUNNING, worker], acks, [x, y], [0, 1], NONE, false)
  }

  function At(x: Task, pc: Pc): Task { x.(pc := pc, slot := 0, waits := 0, budget := 0) }

  /** Task 0 has published the next ticket and is about to scan. */
  function Asked(begun: nat, acks: seq<nat>, x: Task, y: Task, worker: Status): State {
    Pair(begun + 1, acks, At(x, ScanState(0, begun + 1, 0, false)), y, worker)
      .(request := begun + 1, collector := 1, leader := 0)
  }

  lemma Enquire(W: nat, limit: nat, begun: nat, acks: seq<nat>, x: Task, y: Task, worker: Status)
    requires W > 0 && |acks| == 2 && y.slot == 1
    requires Reach(W, limit, Pair(begun, acks, x, y, worker)) && x.pc.Rest? && x.slot == 0 && begun + 1 <= limit
    ensures Reach(W, limit, Pair(begun, acks, At(x, StopStore(0, begun + 1)), y, worker).(lock := 0))
  {
    hide Reach;
    var h := Walk(W, limit, Pair(begun, acks, x, y, worker), 0, StopBegin(0));
    assert h == Pair(begun, acks, At(x, StopLock(0)), y, worker);
    h := Walk(W, limit, h, 0, Poll);
    assert h == Pair(begun, acks, At(x, StopRequest(0)), y, worker).(lock := 0);
    h := Walk(W, limit, h, 0, Poll);
    assert h == Pair(begun, acks, At(x, StopState(0)), y, worker).(lock := 0);
    h := Walk(W, limit, h, 0, Poll);
    assert h == Pair(begun, acks, At(x, StopEpoch(0)), y, worker).(lock := 0);
    h := Walk(W, limit, h, 0, Poll);
    assert h == Pair(begun, acks, At(x, StopStore(0, begun + 1)), y, worker).(lock := 0);
  }

  lemma Ask(W: nat, limit: nat, begun: nat, acks: seq<nat>, x: Task, y: Task, worker: Status)
    requires W > 0 && |acks| == 2 && y.slot == 1
    requires Reach(W, limit, Pair(begun, acks, x, y, worker)) && x.pc.Rest? && x.slot == 0 && begun + 1 <= limit
    ensures Reach(W, limit, Asked(begun, acks, x, y, worker))
  {
    hide Reach;
    Enquire(W, limit, begun, acks, x, y, worker);
    var h := Walk(W, limit, Pair(begun, acks, At(x, StopStore(0, begun + 1)), y, worker).(lock := 0), 0, Poll);
    assert h == Pair(begun + 1, acks, At(x, StopCollector(0, begun + 1)), y, worker).(lock := 0);
    h := Walk(W, limit, h, 0, Poll);
    assert h == Pair(begun + 1, acks, At(x, StopPublish(0, begun + 1)), y, worker).(lock := 0, collector := 1);
    h := Walk(W, limit, h, 0, Poll);
    assert h == Asked(begun, acks, x, y, worker).(lock := 0, tasks := [At(x, StopUnlock(0, begun + 1)), y]);
    h := Walk(W, limit, h, 0, Poll);
    assert h == Asked(begun, acks, x, y, worker);
  }

  /** The worker is RUNNING, so the scan fails and, with no budget, the stop gives up. */
  lemma GiveUp(W: nat, limit: nat, begun: nat, acks: seq<nat>, x: Task, y: Task)
    requires W > 0 && |acks| == 2 && y.slot == 1
    requires Reach(W, limit, Asked(begun, acks, x, y, RUNNING)) && begun + 1 <= limit
    ensures Reach(W, limit, Pair(begun + 1, acks, At(x, Rest).(result := 0), y, RUNNING))
  {
    hide Reach;
    var asked := Asked(begun, acks, x, y, RUNNING);
    var h := WalkScan(W, limit, asked, 0);
    assert h == asked.(tasks := [At(x, ScanState(0, begun + 1, 1, false)), y]);
    h := WalkScan(W, limit, h, 0);
    assert h == asked.(tasks := [At(x, Budget(0, begun + 1)), y]);
    h := WalkDecide(W, limit, h, 0);
    assert h == asked.(tasks := [At(x, FailLock), y]);
    Withdraw(W, limit, begun, acks, x, y);
  }

  lemma Withdraw(W: nat, limit: nat, begun: nat, acks: seq<nat>, x: Task, y: Task)
    requires W > 0 && |acks| == 2 && y.slot == 1
    requires Reach(W, limit, Asked(begun, acks, x, y, RUNNING).(tasks := [At(x, FailLock), y])) && begun + 1 <= limit
    ensures Reach(W, limit, Pair(begun + 1, acks, At(x, Rest).(result := 0), y, RUNNING))
  {
    hide Reach;
    var h := WalkDecide(W, limit, Asked(begun, acks, x, y, RUNNING).(tasks := [At(x, FailLock), y]), 0);
    assert h == Asked(begun, acks, x, y, RUNNING).(lock := 0, tasks := [At(x, FailRequest), y]);
    h := WalkDecide(W, limit, h, 0);
    assert h == Pair(begun + 1, acks, At(x, FailCollector), y, RUNNING).(lock := 0, collector := 1);
    h := WalkDecide(W, limit, h, 0);
    assert h == Pair(begun + 1, acks, At(x, FailUnlock), y, RUNNING).(lock := 0);
    h := WalkDecide(W, limit, h, 0);
    assert h == Pair(begun + 1, acks, At(x, Rest).(result := 0), y, RUNNING);
  }

  /** The scan, with or without the lock, accepts the worker's slot although its acknowledgement is
      not of this request. */
  lemma FalseScan(W: nat, limit: nat, begun: nat, acks: seq<nat>, x: Task, y: Task, locked: bool)
    requires W > 0 && |acks| == 2 && y.slot == 1 && Wrap(W, acks[1]) == Wrap(W, begun + 1) && begun + 1 <= limit
    requires Reach(W, limit, Scan(begun, acks, x, y, locked, ScanState(0, begun + 1, 0, locked)))
    ensures Reach(W, limit, Scan(begun, acks, x, y, locked, ScanState(0, begun + 1, 2, locked)))
  {
    hide Reach;
    var h := WalkScan(W, limit, Scan(begun, acks, x, y, locked, ScanState(0, begun + 1, 0, locked)), 0);
    assert h == Scan(begun, acks, x, y, locked, ScanState(0, begun + 1, 1, locked));
    FalsePass(W, limit, begun, acks, x, y, locked);
  }

  lemma FalsePass(W: nat, limit: nat, begun: nat, acks: seq<nat>, x: Task, y: Task, locked: bool)
    requires W > 0 && |acks| == 2 && y.slot == 1 && Wrap(W, acks[1]) == Wrap(W, begun + 1) && begun + 1 <= limit
    requires Reach(W, limit, Scan(begun, acks, x, y, locked, ScanState(0, begun + 1, 1, locked)))
    ensures Reach(W, limit, Scan(begun, acks, x, y, locked, ScanState(0, begun + 1, 2, locked)))
  {
    hide Reach;
    hide Wrap;
    var h := WalkScan(W, limit, Scan(begun, acks, x, y, locked, ScanState(0, begun + 1, 1, locked)), 0);
    assert h == Scan(begun, acks, x, y, locked, ScanAck(0, begun + 1, 1, locked));
    h := WalkScan(W, limit, h, 0);
    assert h == Scan(begun, acks, x, y, locked, ScanState(0, begun + 1, 2, locked));
  }

  function Scan(begun: nat, acks: seq<nat>, x: Task, y: Task, locked: bool, pc: Pc): State {
    Asked(begun, acks, x, y, PARKED).(lock := if locked then 0 else NONE, tasks := [At(x, pc), y])
  }

  /** So the stop is granted. */
  lemma FalseGrant(W: nat, limit: nat, begun: nat, acks: seq<nat>, x: Task, y: Task)
    requires W > 0 && |acks| == 2 && y.slot == 1 && Wrap(W, acks[1]) == Wrap(W, begun + 1) && begun + 1 <= limit
    requires Reach(W, limit, Asked(begun, acks, x, y, PARKED))
    ensures Reach(W, limit, Asked(begun, acks, x, y, PARKED).(held := true, tasks := [At(x, Rest).(result := 1), y]))
  {
    hide Reach;
    hide Wrap;
    assert Scan(begun, acks, x, y, false, ScanState(0, begun + 1, 0, false)) == Asked(begun, acks, x, y, PARKED);
    FalseScan(W, limit, begun, acks, x, y, false);
    var h := WalkScan(W, limit, Scan(begun, acks, x, y, false, ScanState(0, begun + 1, 2, false)), 0);
    assert h == Scan(begun, acks, x, y, false, ScanLock(0, begun + 1));
    h := WalkScan(W, limit, h, 0);
    assert h == Scan(begun, acks, x, y, true, ScanState(0, begun + 1, 0, true));
    FalseScan(W, limit, begun, acks, x, y, true);
    h := WalkScan(W, limit, Scan(begun, acks, x, y, true, ScanState(0, begun + 1, 2, true)), 0);
    assert h == Scan(begun, acks, x, y, true, ScanUnlock(0, begun + 1, true));
    h := WalkDecide(W, limit, h, 0);
    assert h == Asked(begun, acks, x, y, PARKED).(held := true, tasks := [At(x, Rest).(result := 1), y]);
  }

  const X0 := Task(Rest, 0, 1, 0, 0)
  const Y0 := Task(Rest, 1, 1, 0, 0)

  /** Both tasks register. */
  lemma Enrol(W: nat, limit: nat)
    requires W > 0
    ensures Reach(W, limit, Pair(0, [0, 0], X0, Y0, RUNNING))
  {
    assert Run(W, Init(2, 2), []) == Init(2, 2);
    assert Within(W, Init(2, 2), [], limit);
    hide Reach;
    var out := Task(Rest, NONE, 0, 0, 0);
    var none := State(NONE, 0, 0, 0, [EMPTY, EMPTY], [0, 0], [out, out], [NONE, NONE], NONE, false);
    assert Init(2, 2) == none;
    var h := Walk(W, limit, none, 0, Register(true));
    assert h == none.(tasks := [out.(pc := RegLock(true)), out]);
    h := WalkRegister(W, limit, h, 0);
    assert h == none.(lock := 0, tasks := [out.(pc := RegRequest(true)), out]);
    h := WalkRegister(W, limit, h, 0);
    assert h == none.(lock := 0, tasks := [out.(pc := RegScan(true, 0)), out]);
    h := WalkRegister(W, limit, h, 0);
    assert h == none.(lock := 0, tasks := [out.(pc := RegAck(0)), out]);
    EnrolCollector(W, limit);
  }

  lemma EnrolCollector(W: nat, limit: nat)
    requires W > 0
    requires var out := Task(Rest, NONE, 0, 0, 0);
             Reach(W, limit,
                   State(0, 0, 0, 0, [EMPTY, EMPTY], [0, 0], [out.(pc := RegAck(0)), out], [NONE, NONE], NONE, false))
    ensures Reach(W, limit, Pair(0, [0, 0], X0, Y0, RUNNING))
  {
    hide Reach;
    var out := Task(Rest, NONE, 0, 0, 0);
    var none := State(NONE, 0, 0, 0, [EMPTY, EMPTY], [0, 0], [out, out], [NONE, NONE], NONE, false);
    var h := WalkRegister(W, limit, none.(lock := 0, tasks := [out.(pc := RegAck(0)), out]), 0);
    assert h == none.(lock := 0, tasks := [out.(pc := RegRun(0)), out]);
    h := WalkRegister(W, limit, h, 0);
    assert h == none.(lock := 0, status := [RUNNING, EMPTY], owner := [0, NONE], tasks := [X0.(pc := RegUnlock), out]);
    h := WalkRegister(W, limit, h, 0);
    assert h == none.(status := [RUNNING, EMPTY], owner := [0, NONE], tasks := [X0, out]);
    EnrolWorker(W, limit);
  }

  lemma EnrolWorker(W: nat, limit: nat)
    requires W > 0
    requires Reach(W, limit,
                   State(NONE, 0, 0, 0, [RUNNING, EMPTY], [0, 0], [X0, Task(Rest, NONE, 0, 0, 0)], [0, NONE], NONE,
                         false))
    ensures Reach(W, limit, Pair(0, [0, 0], X0, Y0, RUNNING))
  {
    hide Reach;
    var out := Task(Rest, NONE, 0, 0, 0);
    var one := State(NONE, 0, 0, 0, [RUNNING, EMPTY], [0, 0], [X0, out], [0, NONE], NONE, false);
    var h := Walk(W, limit, one, 1, Register(true));
    assert h == one.(tasks := [X0, out.(pc := RegLock(true))]);
    h := WalkRegister(W, limit, h, 1);
    assert h == one.(lock := 1, tasks := [X0, out.(pc := RegRequest(true))]);
    h := WalkRegister(W, limit, h, 1);
    assert h == one.(lock := 1, tasks := [X0, out.(pc := RegScan(true, 0))]);
    h := WalkRegister(W, limit, h, 1);
    assert h == one.(lock := 1, tasks := [X0, out.(pc := RegScan(true, 1))]);
    h := WalkRegister(W, limit, h, 1);
    assert h == one.(lock := 1, tasks := [X0, out.(pc := RegAck(1))]);
    h := WalkRegister(W, limit, h, 1);
    assert h == one.(lock := 1, tasks := [X0, out.(pc := RegRun(1))]);
    h := WalkRegister(W, limit, h, 1);
    h := WalkRegister(W, limit, h, 1);
    assert h == Pair(0, [0, 0], X0, Y0, RUNNING);
  }

  /** The worker loads the published request and finds itself RUNNING; its PARKED store is next. */
  lemma Notice(W: nat, limit: nat, begun: nat, acks: seq<nat>, x: Task, y: Task)
    requires W > 0 && |acks| == 2 && y.slot == 1 && y.pc.Rest?
    requires Reach(W, limit, Asked(begun, acks, x, y, RUNNING)) && begun + 1 <= limit
    ensures Reach(W, limit, Asked(begun, acks, x, y.(pc := PollPark(begun + 1)), RUNNING))
  {
    hide Reach;
    var asked := Asked(begun, acks, x, y, RUNNING);
    var x' := asked.tasks[0];
    var h := Walk(W, limit, asked, 1, Poll);
    assert h == asked.(tasks := [x', y.(pc := PollRequest)]);
    h := Walk(W, limit, h, 1, Poll);
    assert h == asked.(tasks := [x', y.(pc := PollCollector(begun + 1))]);
    h := Walk(W, limit, h, 1, Poll);
    assert h == asked.(tasks := [x', y.(pc := PollState(begun + 1))]);
    h := Walk(W, limit, h, 1, Poll);
    assert h == asked.(tasks := [x', y.(pc := PollPark(begun + 1))]);
  }

  /** The request is gone before the worker's stores: it parks, acknowledges the old ticket and runs on. */
  lemma Lag(W: nat, limit: nat, begun: nat, a: nat, x: Task, y: Task)
    requires W > 0 && y.slot == 1 && y.pc == PollPark(begun) && 0 < begun <= limit
    requires Reach(W, limit, Pair(begun, [0, a], x, y, RUNNING)) && x.slot == 0
    ensures Reach(W, limit, Pair(begun, [0, begun], x, y.(pc := Rest, result := 0), RUNNING))
  {
    hide Reach;
    var h := WalkPark(W, limit, Pair(begun, [0, a], x, y, RUNNING), 1);
    assert h == Pair(begun, [0, a], x, y.(pc := PollAck(begun)), PARKED);
    h := WalkPark(W, limit, h, 1);
    assert h == Pair(begun, [0, begun], x, y.(pc := PollWait(begun)), PARKED);
    h := WalkPark(W, limit, h, 1);
    assert h == Pair(begun, [0, begun], x, y.(pc := PollRun(begun)), PARKED);
    h := WalkPark(W, limit, h, 1);
    assert h == Pair(begun, [0, begun], x, y.(pc := Rest, result := 0), RUNNING);
  }

  /** The worker acknowledges ticket 1, which is then over, and never polls while requests 2 to b fail. */
  lemma {:induction false} Idle(W: nat, limit: nat, b: nat)
    requires W > 0 && 1 <= b <= limit
    ensures Reach(W, limit, Pair(b, [0, 1], X0.(result := 0), Y0.(result := 0), RUNNING))
  {
    hide Reach;
    if b == 1 {
      Enrol(W, limit);
      Ask(W, limit, 0, [0, 0], X0, Y0, RUNNING);
      Notice(W, limit, 0, [0, 0], X0, Y0);
      GiveUp(W, limit, 0, [0, 0], X0, Y0.(pc := PollPark(1)));
      Lag(W, limit, 1, 0, X0.(result := 0), Y0.(pc := PollPark(1)));
    } else {
      Idle(W, limit, b - 1);
      var x, y := X0.(result := 0), Y0.(result := 0);
      Ask(W, limit, b - 1, [0, 1], x, y, RUNNING);
      GiveUp(W, limit, b - 1, [0, 1], x, y);
      assert At(x, Rest).(result := 0) == x;
    }
  }

  /** Request W finds the worker between its load of the request and its PARKED store, and fails.  The
      worker then parks under request W + 1, whose epoch is the one it acknowledged W requests ago. */
  lemma StaleAcknowledgement(W: nat)
    requires W > 1
    ensures var x, y := X0, Y0.(pc := PollAck(W), result := 0);
            Reach(W, W + 1, Asked(W, [0, 1], x, y, PARKED).(held := true, tasks := [x, y]))
  {
    hide Reach;
    var x, y := X0.(result := 0), Y0.(result := 0);
    Idle(W, W + 1, W - 1);
    Ask(W, W + 1, W - 1, [0, 1], x, y, RUNNING);
    Notice(W, W + 1, W - 1, [0, 1], x, y);
    GiveUp(W, W + 1, W - 1, [0, 1], x, y.(pc := PollPark(W)));
    assert At(x, Rest).(result := 0) == x;
    Ask(W, W + 1, W, [0, 1], x, y.(pc := PollPark(W)), RUNNING);
    var h := Walk(W, W + 1, Asked(W, [0, 1], x, y.(pc := PollPark(W)), RUNNING), 1, Poll);
    assert h == Asked(W, [0, 1], x, y.(pc := PollAck(W)), PARKED);
    WrapStale(W, 1);
    FalseGrant(W, W + 1, W, [0, 1], x, y.(pc := PollAck(W)));
    assert At(x, Rest).(result := 1) == X0;
  }

  /** With W + 1 requests a granted stop can lose its exclusiveness: the worker runs while it is held. */
  lemma Unsafe(W: nat)
    requires W > 1
    ensures !SafeFor(W, W + 1)
  {
    var x, y := X0, Y0.(pc := PollAck(W), result := 0);
    var asked := Asked(W, [0, 1], x, y, PARKED).(held := true, tasks := [x, y]);
    assert Reach(W, W + 1, asked) by { StaleAcknowledgement(W); }
    var bad := asked.(status := [RUNNING, RUNNING], ack := [0, W], tasks := [x, y.(pc := Rest)]);
    assert Reach(W, W + 1, bad) by { Resume(W, asked); }
    assert bad.status[1] == RUNNING && bad.tasks[bad.leader].slot == 0;
  }

  /** The worker acknowledges, sees a request that is not the one it parked for, and runs on. */
  lemma Resume(W: nat, asked: State)
    requires W > 1 && Reach(W, W + 1, asked)
    requires var x, y := X0, Y0.(pc := PollAck(W), result := 0);
             asked == Asked(W, [0, 1], x, y, PARKED).(held := true, tasks := [x, y])
    ensures Reach(W, W + 1, asked.(status := [RUNNING, RUNNING], ack := [0, W], tasks := [X0, Y0.(result := 0)]))
  {
    hide Reach;
    WrapStale(W, 1);
    assert Wrap(W, W + 1) == 1 && Wrap(W, W) == W;
    hide Wrap;
    var y := Y0.(result := 0);
    var h := Walk(W, W + 1, asked, 1, Poll);
    assert h == asked.(ack := [0, W], tasks := [X0, y.(pc := PollWait(W))]);
    h := Walk(W, W + 1, h, 1, Poll);
    assert h == asked.(ack := [0, W], tasks := [X0, y.(pc := PollRun(W))]);
    h := Walk(W, W + 1, h, 1, Poll);
    assert h == asked.(status := [RUNNING, RUNNING], ack := [0, W], tasks := [X0, y]);
  }

  /** The 32-bit epoch is safe for exactly as many requests as it has values.  (The bound is on the
      requests of a whole run: in the run above no poll is in flight while more than one request begins.) */
  lemma SafeIff(W: nat, limit: nat)
    requires W > 1
    ensures SafeFor(W, limit) <==> limit <= W
  {
    if limit <= W {
      forall moves | Within(W, Init(2, 2), moves, limit) ensures Exclusive(Run(W, Init(2, 2), moves)) {
        WithinMore(W, moves, limit, W);
        RunInv(W, 2, 2, moves);
        InvExclusive(Run(W, Init(2, 2), moves));
      }
    } else {
      Unsafe(W);
      var moves :| Within(W, Init(2, 2), moves, W + 1) && !Exclusive(Run(W, Init(2, 2), moves));
      WithinMore(W, moves, W + 1, limit);
    }
  }

  lemma WithinMore(W: nat, moves: seq<Move>, a: nat, b: nat)
    requires W > 0 && a <= b && Within(W, Init(2, 2), moves, a)
    ensures Within(W, Init(2, 2), moves, b)
  {
    if moves != [] { WithinMore(W, moves[..|moves| - 1], a, b); }
  }
}
