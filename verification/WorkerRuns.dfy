/** Whole jobs of the worker: a start, the entry, the exit and the join, one after the other, end with the result
    that the entry earned and with everything as before; so do an exit that a collection delays and a join
    that times out. */
module WorkerRuns {
  import opened Handshake
  import opened HandshakeSafety
  import opened HandshakeRuns
  import opened HandshakeCalls
  import opened Worker

  /** Some run leads from l to m. */
  ghost predicate Goes(W: nat, budget: nat, l: Life, m: Life)
    requires W > 0
  {
    exists acts :: DoAll(W, budget, l, acts) == m
  }

  lemma {:induction false} DoAllJoin(W: nat, budget: nat, l: Life, a: seq<Act>, b: seq<Act>)
    requires W > 0
    ensures DoAll(W, budget, l, a + b) == DoAll(W, budget, DoAll(W, budget, l, a), b)
  {
    if b == [] {
      assert a + b == a;
      hide Do;
    } else {
      var whole := a + b;
      assert whole[..|whole| - 1] == a + b[..|b| - 1] && whole[|whole| - 1] == b[|b| - 1];
      hide *;
      DoAllLast(W, budget, l, whole);
      DoAllLast(W, budget, DoAll(W, budget, l, a), b);
      DoAllJoin(W, budget, l, a, b[..|b| - 1]);
    }
  }

  lemma DoAllLast(W: nat, budget: nat, l: Life, acts: seq<Act>)
    requires W > 0 && acts != []
    ensures DoAll(W, budget, l, acts) == Do(W, budget, DoAll(W, budget, l, acts[..|acts| - 1]), acts[|acts| - 1])
  {
    hide Do;
  }

  lemma GoesSelf(W: nat, budget: nat, l: Life)
    requires W > 0
    ensures Goes(W, budget, l, l)
  {
    assert DoAll(W, budget, l, []) == l;
  }

  lemma GoesOn(W: nat, budget: nat, l: Life, m: Life, n: Life)
    requires W > 0 && Goes(W, budget, l, m) && Goes(W, budget, m, n)
    ensures Goes(W, budget, l, n)
  {
    var a :| DoAll(W, budget, l, a) == m;
    var b :| DoAll(W, budget, m, b) == n;
    DoAllJoin(W, budget, l, a, b);
    assert DoAll(W, budget, l, a + b) == n;
  }

  /** One more step. */
  lemma Then(W: nat, budget: nat, l: Life, m: Life, act: Act) returns (n: Life)
    requires W > 0 && Goes(W, budget, l, m)
    ensures n == Do(W, budget, m, act) && Goes(W, budget, l, n)
  {
    n := Do(W, budget, m, act);
    assert DoAll(W, budget, m, []) == m && [act][..0] == [];
    assert DoAll(W, budget, m, [act]) == n;
    hide Do;
    GoesOn(W, budget, l, m, n);
  }

  /** The worker's own step. */
  lemma Works(W: nat, budget: nat, l: Life, m: Life, call: Call) returns (n: Life)
    requires W > 0 && Goes(W, budget, l, m)
    ensures n == Advance(W, budget, m, call) && Goes(W, budget, l, n)
  {
    hide Goes, Advance;
    n := Then(W, budget, l, m, Act.Worker(call));
  }

  /** The owner's. */
  lemma Owns(W: nat, budget: nat, l: Life, m: Life, act: Act) returns (n: Life)
    requires W > 0 && Goes(W, budget, l, m)
    requires act.Start? || act.Launch? || act.Withdraw? || act.Join? || act.Load? || act.PlatformJoin? || act.Release?
    ensures n == OwnerAct(m, act) && Goes(W, budget, l, n)
  {
    hide Goes, OwnerAct;
    n := Then(W, budget, l, m, act);
  }

  // What the worker's steps do, one by one.

  lemma CallsRegister(W: nat, budget: nat, l: Life)
    requires W > 0 && l.thread.Starting? && Me(l) < |l.h.tasks| && Shaped(l.h) && l.h.tasks[Me(l)].pc.Rest?
    ensures Advance(W, budget, l, Register(true)) ==
              l.(h := Step(W, l.h, Me(l), Register(true)), thread := Registering)
  {
    hide Step;
  }

  lemma Registers(W: nat, budget: nat, l: Life)
    requires W > 0 && l.thread.Registering? && Resting(l) && Slot(l) == 1
    ensures Advance(W, budget, l, Poll) == l.(thread := Accepted)
    ensures Advance(W, budget, l.(thread := Accepted), Poll) ==
              l.(state := BUSY, thread := Body, handlers := l.handlers + 1, runs := l.runs + [Job(l)])
  {
    hide Step;
  }

  lemma CallsUnregister(W: nat, budget: nat, l: Life)
    requires W > 0 && l.thread.Exit? && Me(l) < |l.h.tasks| && Shaped(l.h) && l.h.tasks[Me(l)].pc.Rest?
    requires l.roots == 0 && l.handlers == 0
    ensures Advance(W, budget, l, Poll) ==
              l.(h := Step(W, l.h, Me(l), Unregister), thread := Exiting(l.thread.failed, l.thread.attempt))
  {
    hide Step;
  }

  lemma Unregisters(W: nat, budget: nat, l: Life)
    requires W > 0 && l.thread.Exiting? && Resting(l) && Slot(l) == NONE
    ensures Advance(W, budget, l, Poll) == l.(thread := Leaving(l.thread.failed))
    ensures Advance(W, budget, l.(thread := Leaving(l.thread.failed)), Poll) ==
              l.(state := if l.thread.failed then FAILED else DONE, thread := Ended)
  {
    hide Step;
  }

  lemma Retries(W: nat, budget: nat, l: Life)
    requires W > 0 && l.thread.Exiting? && Me(l) < |l.h.tasks| && Shaped(l.h) && l.h.tasks[Me(l)].pc.Rest?
    requires Slot(l) != NONE && l.roots == 0 && l.handlers == 0 && l.thread.attempt != budget
    ensures var m := l.(thread := Retry(l.thread.failed, l.thread.attempt));
            Advance(W, budget, l, Poll) == m
            && Advance(W, budget, m, Poll) ==
                 l.(h := Step(W, l.h, Me(l), Poll), thread := Polling(l.thread.failed, l.thread.attempt))
  {
    hide Step;
  }

  lemma Polled(W: nat, budget: nat, l: Life)
    requires W > 0 && l.thread.Polling? && Resting(l)
    ensures Advance(W, budget, l, Poll) == l.(thread := Exit(l.thread.failed, l.thread.attempt + 1))
  {
    hide Step;
  }

  predicate InCall(t: Thread) { t.Registering? || t.Exiting? || t.Polling? || t.Body? }

  /** A handshake operation of the worker goes on as it does alone. */
  lemma {:induction false} HandsOn(W: nat, budget: nat, l: Life, n: nat)
    requires W > 0 && InCall(l.thread) && Me(l) < |l.h.tasks| && Shaped(l.h)
    ensures Goes(W, budget, l, l.(h := Alone(W, l.h, Me(l), n)))
    decreases n
  {
    GoesSelf(W, budget, l);
    if n == 0 || l.h.tasks[Me(l)].pc.Rest? {
      assert l.(h := Alone(W, l.h, Me(l), n)) == l;
    } else {
      AloneStep(W, l.h, Me(l), n);
      HandStep(W, budget, l);
      var m := l.(h := Step(W, l.h, Me(l), Poll));
      StepKeeps(W, l.h, Me(l));
      HandsOn(W, budget, m, n - 1);
      assert m.(h := Alone(W, m.h, Me(m), n - 1)) == l.(h := Alone(W, l.h, Me(l), n));
      hide *;
      GoesOn(W, budget, l, m, m.(h := Alone(W, m.h, Me(m), n - 1)));
    }
  }

  lemma HandStep(W: nat, budget: nat, l: Life)
    requires W > 0 && InCall(l.thread) && Me(l) < |l.h.tasks| && Shaped(l.h) && !l.h.tasks[Me(l)].pc.Rest?
    ensures Goes(W, budget, l, l.(h := Step(W, l.h, Me(l), Poll)))
  {
    GoesSelf(W, budget, l);
    hide Goes, Step, Do;
    var m := Works(W, budget, l, l, Poll);
    assert m == l.(h := Step(W, l.h, Me(l), Poll));
  }

  lemma StepKeeps(W: nat, h: State, t: nat)
    requires W > 0 && t < |h.tasks| && Shaped(h) && !h.tasks[t].pc.Rest?
    ensures Shaped(Step(W, h, t, Poll)) && |Step(W, h, t, Poll).tasks| == |h.tasks|
  {
    var g, pc := Step(W, h, t, Poll), h.tasks[t].pc;
    ComesSelf(W, h, t);
    hide RegisterStep, UnregisterStep, PollStep, ParkStep, EnterStep, LeaveStep, StopStep, ScanStep, DecideStep,
         EndStep, Shaped, Comes, Wrap;
    if InRegister(pc) { g := OnRegister(W, h, t, h); }
    else if h.tasks[t].slot == NONE && !pc.UnUnlock? { }
    else if InUnregister(pc) { g := OnUnregister(W, h, t, h); }
    else if InPoll(pc) { g := OnPoll(W, h, t, h); }
    else if InPark(pc) { g := OnPark(W, h, t, h); }
    else if InEnter(pc) { g := OnEnter(W, h, t, h); }
    else if InLeave(pc) { g := OnLeave(W, h, t, h); }
    else if InStop(pc) { g := OnStop(W, h, t, h); }
    else if InDecide(pc) { g := OnDecide(W, h, t, h); }
    else if InEnd(pc) { g := OnEnd(W, h, t, h); }
    else { g := OnScan(W, h, t, h); }
  }

  lemma Operates(W: nat, budget: nat, l: Life, m: Life, g: State)
    requires W > 0 && Goes(W, budget, l, m) && InCall(m.thread) && Me(m) < |m.h.tasks| && Shaped(m.h)
    requires Comes(W, m.h, Me(m), g)
    ensures Goes(W, budget, l, m.(h := g))
  {
    var n: nat :| Alone(W, m.h, Me(m), n) == g;
    HandsOn(W, budget, m, n);
    hide Goes, Alone;
    GoesOn(W, budget, l, m, m.(h := g));
  }

  // ---- A whole job --------------------------------------------------------------------------------

  /** The owner runs in slot 0, nobody is in slot 1, no request stands, and there is a task for the next job. */
  predicate Ready(l: Life) {
    && l.owner.Free? && l.state.IDLE? && l.thread.Absent? && Calm(l.h) && l.h.status == [RUNNING, EMPTY]
    && l.starts + 1 < |l.h.tasks| && l.h.tasks[l.starts + 1].pc.Rest? && l.h.tasks[l.starts + 1].slot == NONE
  }

  predicate Calm(h: State) {
    Shaped(h) && h.lock == NONE && h.request == 0 && |h.status| == 2 && |h.tasks| > 0 && h.tasks[0].slot == 0
  }

  /** The handshake with task t in slot 1. */
  function Joining(h: State, t: nat): State
    requires t < |h.tasks| && |h.status| == |h.ack| == |h.owner| == 2
  {
    SetStatus(h, 1, RUNNING).(ack := h.ack[1 := 0], owner := h.owner[1 := t],
      tasks := h.tasks[t := h.tasks[t].(slot := 1, result := 1)])
  }

  function Parting(h: State, t: nat): State
    requires t < |h.tasks| && |h.status| == |h.ack| == |h.owner| == 2
  {
    SetStatus(h, 1, EMPTY).(owner := h.owner[1 := NONE], tasks := h.tasks[t := h.tasks[t].(slot := NONE, result := 1)])
  }

  lemma Accepts(W: nat, budget: nat, l: Life)
    requires W > 0 && Ready(l)
    ensures Goes(W, budget, l, l.(state := STARTING, thread := Starting, roots := 0, handlers := 0,
                                  starts := l.starts + 1))
  {
    GoesSelf(W, budget, l);
    hide Goes, Do, Advance;
    var m := Owns(W, budget, l, l, Start);
    m := Owns(W, budget, l, m, Launch(true));
  }

  function Running(l: Life): Life
    requires Ready(l)
  {
    l.(h := Joining(l.h, l.starts + 1), state := BUSY, thread := Body, roots := 0, handlers := 1,
       starts := l.starts + 1, runs := l.runs + [l.starts])
  }

  /** `worker_start` accepts, the thread registers in slot 1, and the entry is called. */
  lemma Starts(W: nat, budget: nat, l: Life)
    requires W > 0 && Ready(l)
    ensures Goes(W, budget, l, Running(l))
  {
    var t := l.starts + 1;
    var m := l.(state := STARTING, thread := Starting, roots := 0, handlers := 0, starts := t);
    assert FirstEmpty(l.h, 1) && HandshakeCalls.Free(l.h, t);
    Accepts(W, budget, l);
    RegisterAlone(W, l.h, t, 1);
    CallsRegister(W, budget, m);
    hide Goes, Step, Comes, Shaped, Do, Advance, FirstEmpty, Ready;
    var g := Calling(W, l.h, t, Register(true));
    var n := Works(W, budget, l, m, Register(true));
    assert n == m.(h := g, thread := Registering);
    Operates(W, budget, l, n, Joining(l.h, t));
    Enters(W, budget, l, m.(h := Joining(l.h, t), thread := Registering));
  }

  lemma Enters(W: nat, budget: nat, l: Life, m: Life)
    requires W > 0 && Goes(W, budget, l, m) && m.thread.Registering? && Resting(m) && Slot(m) == 1
    ensures Goes(W, budget, l, m.(state := BUSY, thread := Body, handlers := m.handlers + 1, runs := m.runs + [Job(m)]))
  {
    hide Goes, Do, Advance;
    Registers(W, budget, m);
    var n := Works(W, budget, l, m, Poll);
    n := Works(W, budget, l, n, Poll);
  }

  /** A worker that is about to leave. */
  predicate Parts(l: Life) {
    && l.thread.Exit? && l.roots == 0 && l.handlers == 0 && Me(l) > 0 && Me(l) < |l.h.tasks| && Shaped(l.h)
    && |l.h.status| == 2 && l.h.tasks[Me(l)].pc.Rest? && l.h.tasks[Me(l)].slot == 1 && l.h.status[1] == RUNNING
    && l.h.lock == NONE
  }

  /** Without a request the first attempt to unregister succeeds, and the state tells how the entry ended. */
  lemma Leaves(W: nat, budget: nat, l: Life)
    requires W > 0 && Parts(l) && l.h.request == 0
    ensures Goes(W, budget, l, l.(h := Parting(l.h, Me(l)), state := if l.thread.failed then FAILED else DONE,
                                  thread := Ended))
  {
    var t := Me(l);
    assert HandshakeCalls.Free(l.h, t);
    GoesSelf(W, budget, l);
    UnregisterAlone(W, l.h, t);
    CallsUnregister(W, budget, l);
    hide Goes, Step, Comes, Shaped, Do, Advance;
    var g := Calling(W, l.h, t, Unregister);
    var m := Works(W, budget, l, l, Poll);
    Operates(W, budget, l, m, Parting(l.h, t));
    m := m.(h := Parting(l.h, t));
    Unregisters(W, budget, m);
    m := Works(W, budget, l, m, Poll);
    m := Works(W, budget, l, m, Poll);
  }

  /** A join that finds the worker gone gives its result and lets the next start in. */
  lemma Joins(W: nat, budget: nat, l: Life, b: nat)
    requires W > 0 && l.owner.Free? && l.thread.Ended? && (l.state.DONE? || l.state.FAILED?)
    ensures Goes(W, budget, l, l.(state := IDLE, thread := Absent,
                                  joins := l.joins + [if l.state.DONE? then 1 else -1]))
  {
    GoesSelf(W, budget, l);
    hide Goes, Do, Advance;
    var m := Owns(W, budget, l, l, Join(b));
    m := Owns(W, budget, l, m, Load);
    assert m == l.(owner := Saw(l.state, b));
    m := Owns(W, budget, l, m, PlatformJoin(true));
    assert m == l.(owner := Joined(l.state), thread := Absent);
    m := Owns(W, budget, l, m, Release);
  }

  // The stations of a job.

  function Over(l: Life, thrown: bool): Life
    requires Ready(l)
  {
    Running(l).(handlers := 0, thread := Exit(thrown, 0),
                returned := if thrown then l.returned else l.returned + {l.starts})
  }

  function Gone(l: Life, thrown: bool): Life
    requires Ready(l)
  {
    Over(l, thrown).(h := Parting(Joining(l.h, l.starts + 1), l.starts + 1), state := if thrown then FAILED else DONE,
                     thread := Ended)
  }

  /** What a job makes of the worker: the logs grow by it, and all else is ready for the next. */
  function After(l: Life, thrown: bool): Life
    requires Ready(l)
  {
    l.(h := Parting(Joining(l.h, l.starts + 1), l.starts + 1), roots := 0, handlers := 0,
       starts := l.starts + 1, runs := l.runs + [l.starts],
       returned := if thrown then l.returned else l.returned + {l.starts},
       joins := l.joins + [if thrown then -1 else 1])
  }

  /** A whole job: start, entry, exit and join give 1 if the entry returned and -1 if it threw, and leave the
      worker ready for the next. */
  lemma JobDone(W: nat, budget: nat, l: Life, b: nat, thrown: bool)
    requires W > 0 && Ready(l)
    ensures Goes(W, budget, l, After(l, thrown))
    ensures l.starts + 2 < |l.h.tasks| && l.h.tasks[l.starts + 2].pc.Rest? && l.h.tasks[l.starts + 2].slot == NONE ==>
              Ready(After(l, thrown))
  {
    Starts(W, budget, l);
    ToOver(W, budget, l, thrown);
    ToGone(W, budget, l, thrown);
    ToAfter(W, budget, l, b, thrown);
    ReadyAgain(l, thrown);
    hide *;
    GoesOn(W, budget, l, Running(l), Over(l, thrown));
    GoesOn(W, budget, l, Over(l, thrown), Gone(l, thrown));
    GoesOn(W, budget, l, Gone(l, thrown), After(l, thrown));
  }

  lemma ReadyAgain(l: Life, thrown: bool)
    requires Ready(l)
    ensures l.starts + 2 < |l.h.tasks| && l.h.tasks[l.starts + 2].pc.Rest? && l.h.tasks[l.starts + 2].slot == NONE ==>
              Ready(After(l, thrown))
  {
  }

  lemma ToOver(W: nat, budget: nat, l: Life, thrown: bool)
    requires W > 0 && Ready(l)
    ensures Goes(W, budget, Running(l), Over(l, thrown))
  {
    hide Goes;
    EntryEnds(W, budget, Running(l), thrown);
    hide Ready;
  }

  lemma ToGone(W: nat, budget: nat, l: Life, thrown: bool)
    requires W > 0 && Ready(l)
    ensures Goes(W, budget, Over(l, thrown), Gone(l, thrown))
  {
    hide Goes;
    Leaves(W, budget, Over(l, thrown));
    hide Ready;
  }

  lemma ToAfter(W: nat, budget: nat, l: Life, b: nat, thrown: bool)
    requires W > 0 && Ready(l)
    ensures Goes(W, budget, Gone(l, thrown), After(l, thrown))
  {
    hide Goes;
    Joins(W, budget, Gone(l, thrown), b);
  }

  /** The entry returns, or throws to the boundary. */
  lemma EntryEnds(W: nat, budget: nat, l: Life, thrown: bool)
    requires W > 0 && l.thread.Body? && Resting(l) && l.handlers == 1 && l.roots == 0
    ensures Goes(W, budget, l, l.(handlers := 0, thread := Exit(thrown, 0),
                                  returned := if thrown then l.returned else l.returned + {Job(l)}))
  {
    GoesSelf(W, budget, l);
    hide Goes, Advance;
    var n := Then(W, budget, l, l, if thrown then EntryThrows else EntryReturns);
  }

  // ---- A collection in the way --------------------------------------------------------------------

  /** If a stop is requested just as the entry ends, the worker is refused, parks, and acknowledges. */
  lemma ExitParks(W: nat, budget: nat, l: Life)
    requires W > 0 && Parts(l) && l.h.request != 0 && l.h.collector != 2 && l.thread.attempt != budget
    ensures Goes(W, budget, l,
                 l.(h := Go(SetStatus(l.h, 1, PARKED)
                              .(ack := l.h.ack[1 := l.h.request],
                                tasks := l.h.tasks[Me(l) := l.h.tasks[Me(l)].(result := 0)]),
                            Me(l), PollWait(l.h.request)),
                    thread := Polling(l.thread.failed, l.thread.attempt)))
  {
    var t, h := Me(l), l.h;
    assert HandshakeCalls.Free(h, t);
    GoesSelf(W, budget, l);
    UnregisterAlone(W, h, t);
    CallsUnregister(W, budget, l);
    hide Goes, Step, Comes, Shaped, Do, Advance;
    var g := Calling(W, h, t, Unregister);
    var m := Works(W, budget, l, l, Poll);
    Operates(W, budget, l, m, Return(h, t, 0));
    RetryParks(W, budget, l, m.(h := Return(h, t, 0)));
  }

  lemma RetryParks(W: nat, budget: nat, l: Life, m: Life)
    requires W > 0 && Goes(W, budget, l, m) && m.thread.Exiting? && m.thread.attempt != budget
    requires m.roots == 0 && m.handlers == 0 && 0 < Me(m) < |m.h.tasks| && Shaped(m.h) && |m.h.status| == 2
    requires m.h.tasks[Me(m)].pc.Rest? && m.h.tasks[Me(m)].slot == 1 && m.h.status[1] == RUNNING
    requires m.h.request != 0 && m.h.collector != 2
    ensures Goes(W, budget, l,
                 m.(h := Go(SetStatus(m.h, 1, PARKED).(ack := m.h.ack[1 := m.h.request]), Me(m), PollWait(m.h.request)),
                    thread := Polling(m.thread.failed, m.thread.attempt)))
  {
    PollParks(W, m.h, Me(m));
    Retries(W, budget, m);
    hide Goes, Step, Comes, Shaped, Do, Advance;
    var g := Calling(W, m.h, Me(m), Poll);
    var n := Works(W, budget, l, m, Poll);
    n := Works(W, budget, l, n, Poll);
    Operates(W, budget, l, n,
             Go(SetStatus(m.h, 1, PARKED).(ack := m.h.ack[1 := m.h.request]), Me(m), PollWait(m.h.request)));
  }

  /** Once that stop has ended it goes on, with one attempt more. */
  lemma ExitResumes(W: nat, budget: nat, l: Life)
    requires W > 0 && l.thread.Polling? && 0 < Me(l) < |l.h.tasks| && Shaped(l.h) && |l.h.status| == 2
    requires l.h.tasks[Me(l)].slot == 1 && l.h.tasks[Me(l)].pc.PollWait?
    requires Wrap(W, l.h.request) != Wrap(W, l.h.tasks[Me(l)].pc.e)
    ensures Goes(W, budget, l, l.(h := Return(SetStatus(l.h, 1, RUNNING), Me(l), 0),
                                  thread := Exit(l.thread.failed, l.thread.attempt + 1)))
  {
    hide Goes, Alone, Step, Do, Advance, Wrap, Shaped;
    var t := Me(l);
    PollResumes(W, l.h, t);
    HandsOn(W, budget, l, 2);
    var m := l.(h := Return(SetStatus(l.h, 1, RUNNING), t, 0));
    Polled(W, budget, m);
    var n := Works(W, budget, l, m, Poll);
  }

  // ---- Refusals -----------------------------------------------------------------------------------

  /** A platform that cannot start a thread leaves the worker as it was. */
  lemma StartRefused(W: nat, budget: nat, l: Life)
    requires W > 0 && Ready(l)
    ensures Do(W, budget, Do(W, budget, Do(W, budget, l, Start), Launch(false)), Withdraw) == l
  {
  }

  /** A second start is refused while a job is not joined. */
  lemma StartBusy(W: nat, budget: nat, l: Life)
    requires W > 0 && !l.state.IDLE?
    ensures Do(W, budget, l, Start) == l
  {
  }

  /** The owner's part of a join that waits b times. */
  function Waiting(b: nat): seq<Act> {
    [Load, PlatformJoin(true)] + if b == 0 then [] else Waiting(b - 1)
  }

  /** A join with a budget of b looks b + 1 times, and then gives up with nothing changed. */
  lemma {:induction false} JoinTimesOut(W: nat, budget: nat, l: Life, b: nat)
    requires W > 0 && l.owner == Owner.Joining(b) && (l.state.STARTING? || l.state.BUSY?)
    ensures DoAll(W, budget, l, Waiting(b)) == l.(owner := Free)
    decreases b
  {
    LooksOnce(W, budget, l, b);
    if b == 0 {
      assert Waiting(0) == [Load, PlatformJoin(true)];
    } else {
      assert Waiting(b) == [Load, PlatformJoin(true)] + Waiting(b - 1);
      JoinTimesOut(W, budget, l.(owner := Owner.Joining(b - 1)), b - 1);
      hide *;
      DoAllJoin(W, budget, l, [Load, PlatformJoin(true)], Waiting(b - 1));
    }
  }

  lemma LooksOnce(W: nat, budget: nat, l: Life, b: nat)
    requires W > 0 && l.owner == Owner.Joining(b) && (l.state.STARTING? || l.state.BUSY?)
    ensures DoAll(W, budget, l, [Load, PlatformJoin(true)]) ==
              l.(owner := if b == 0 then Owner.Free else Owner.Joining(b - 1))
  {
    var looks := [Load, PlatformJoin(true)];
    assert looks[..1] == [Load] && [Load][..0] == [];
    assert Do(W, budget, l, Load) == l.(owner := Saw(l.state, b));
    hide Do, Advance;
    DoAllLast(W, budget, l, looks);
    DoAllLast(W, budget, l, [Load]);
    assert DoAll(W, budget, l, []) == l;
    OwnsIs(W, budget, l.(owner := Saw(l.state, b)), PlatformJoin(true));
  }

  lemma OwnsIs(W: nat, budget: nat, l: Life, act: Act)
    requires W > 0
    requires act.Start? || act.Launch? || act.Withdraw? || act.Join? || act.Load? || act.PlatformJoin? || act.Release?
    ensures Do(W, budget, l, act) == OwnerAct(l, act)
  {
    hide OwnerAct;
  }

  /** With nothing started a join returns at once. */
  lemma JoinIdle(W: nat, budget: nat, l: Life, b: nat)
    requires W > 0 && l.owner.Free? && l.state.IDLE?
    ensures Do(W, budget, Do(W, budget, l, Join(b)), Load) == l
  {
  }
}
