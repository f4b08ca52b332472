/** What each operation of the handshake does when its task runs alone: from the call to the return, or to the
    point where it must wait for others.  And what becomes of a slot that is parked when its stop ends. */
module HandshakeCalls {
  import opened Handshake
  import opened HandshakeSafety
  import opened HandshakeRuns

  /** n steps of task t, as far as it does not return. */
  function Alone(W: nat, h: State, t: nat, n: nat): State
    requires W > 0
    decreases n
  {
    if n == 0 || t >= |h.tasks| || !Shaped(h) || h.tasks[t].pc.Rest? then h
    else Alone(W, Step(W, h, t, Poll), t, n - 1)
  }

  /** Task t, running alone, gets from h to g. */
  ghost predicate Comes(W: nat, h: State, t: nat, g: State)
    requires W > 0
  {
    exists n: nat :: Alone(W, h, t, n) == g
  }

  ghost predicate Returns(W: nat, h: State, t: nat, call: Call, g: State)
    requires W > 0 && t < |h.tasks| && Shaped(h)
  {
    && t < |g.tasks| && g.tasks[t].pc.Rest? && !Step(W, h, t, call).tasks[t].pc.Rest?
    && Comes(W, Step(W, h, t, call), t, g)
  }

  lemma {:induction false} AloneMore(W: nat, h: State, t: nat, m: nat, n: nat)
    requires W > 0
    ensures Alone(W, h, t, m + n) == Alone(W, Alone(W, h, t, m), t, n)
    decreases m
  {
    hide *;
    if m == 0 {
      AloneNone(W, h, t);
    } else if t < |h.tasks| && Shaped(h) && !h.tasks[t].pc.Rest? {
      AloneStep(W, h, t, m);
      AloneStep(W, h, t, m + n);
      AloneMore(W, Step(W, h, t, Poll), t, m - 1, n);
    } else {
      AloneStays(W, h, t, m + n);
      AloneStays(W, h, t, m);
      AloneStays(W, h, t, n);
    }
  }

  lemma AloneNone(W: nat, h: State, t: nat)
    requires W > 0
    ensures Alone(W, h, t, 0) == h
  {
  }

  lemma AloneStep(W: nat, h: State, t: nat, n: nat)
    requires W > 0 && n > 0 && t < |h.tasks| && Shaped(h) && !h.tasks[t].pc.Rest?
    ensures Alone(W, h, t, n) == Alone(W, Step(W, h, t, Poll), t, n - 1)
  {
    hide Step;
  }

  lemma AloneStays(W: nat, h: State, t: nat, n: nat)
    requires W > 0 && (t >= |h.tasks| || !Shaped(h) || h.tasks[t].pc.Rest?)
    ensures Alone(W, h, t, n) == h
  {
  }

  /** So where a call returns is one state only. */
  lemma ReturnsOnce(W: nat, h: State, t: nat, call: Call, a: State, b: State)
    requires W > 0 && t < |h.tasks| && Shaped(h) && Returns(W, h, t, call, a) && Returns(W, h, t, call, b)
    ensures a == b
  {
    var g := Step(W, h, t, call);
    var m: nat :| Alone(W, g, t, m) == a;
    var n: nat :| Alone(W, g, t, n) == b;
    hide Step;
    if m <= n {
      AloneMore(W, g, t, m, n - m);
      AloneStays(W, a, t, n - m);
    } else {
      AloneMore(W, g, t, n, m - n);
      AloneStays(W, b, t, m - n);
    }
  }

  lemma ComesSelf(W: nat, h: State, t: nat)
    requires W > 0
    ensures Comes(W, h, t, h)
  {
    assert Alone(W, h, t, 0) == h;
  }

  lemma ComesOn(W: nat, h: State, t: nat, g: State, k: State)
    requires W > 0 && Comes(W, h, t, g) && Comes(W, g, t, k)
    ensures Comes(W, h, t, k)
  {
    var m: nat :| Alone(W, h, t, m) == g;
    var n: nat :| Alone(W, g, t, n) == k;
    AloneMore(W, h, t, m, n);
    assert Alone(W, h, t, m + n) == k;
  }

  /** One more step. */
  lemma Onward(W: nat, h: State, t: nat, g: State) returns (k: State)
    requires W > 0 && Comes(W, h, t, g) && t < |g.tasks| && Shaped(g) && !g.tasks[t].pc.Rest?
    ensures k == Step(W, g, t, Poll) && Comes(W, h, t, k)
  {
    k := Step(W, g, t, Poll);
    assert Alone(W, k, t, 0) == k && Alone(W, g, t, 1) == Alone(W, k, t, 0);
    hide Step;
    ComesOn(W, h, t, g, k);
  }

  // The same, group by group.

  lemma OnRegister(W: nat, h: State, t: nat, g: State) returns (k: State)
    requires W > 0 && Comes(W, h, t, g) && t < |g.tasks| && Shaped(g) && InRegister(g.tasks[t].pc)
    ensures k == RegisterStep(g, t) && Comes(W, h, t, k)
    ensures Shaped(k) && |k.tasks| == |g.tasks|
  {
    k := Onward(W, h, t, g);
    hide Comes;
  }

  lemma OnUnregister(W: nat, h: State, t: nat, g: State) returns (k: State)
    requires W > 0 && Comes(W, h, t, g) && t < |g.tasks| && Shaped(g)
    requires g.tasks[t].slot != NONE || g.tasks[t].pc.UnUnlock?
    requires InUnregister(g.tasks[t].pc)
    ensures k == UnregisterStep(g, t) && Comes(W, h, t, k)
    ensures Shaped(k) && |k.tasks| == |g.tasks|
  {
    k := Onward(W, h, t, g);
    hide Comes;
  }

  lemma OnPoll(W: nat, h: State, t: nat, g: State) returns (k: State)
    requires W > 0 && Comes(W, h, t, g) && t < |g.tasks| && Shaped(g) && g.tasks[t].slot != NONE
    requires InPoll(g.tasks[t].pc)
    ensures k == PollStep(g, t) && Comes(W, h, t, k)
    ensures Shaped(k) && |k.tasks| == |g.tasks|
  {
    k := Onward(W, h, t, g);
    hide Comes;
  }

  lemma OnPark(W: nat, h: State, t: nat, g: State) returns (k: State)
    requires W > 0 && Comes(W, h, t, g) && t < |g.tasks| && Shaped(g) && g.tasks[t].slot != NONE
    requires InPark(g.tasks[t].pc)
    ensures k == ParkStep(W, g, t) && Comes(W, h, t, k)
    ensures Shaped(k) && |k.tasks| == |g.tasks|
  {
    k := Onward(W, h, t, g);
    hide Comes;
  }

  lemma OnEnter(W: nat, h: State, t: nat, g: State) returns (k: State)
    requires W > 0 && Comes(W, h, t, g) && t < |g.tasks| && Shaped(g) && g.tasks[t].slot != NONE
    requires InEnter(g.tasks[t].pc)
    ensures k == EnterStep(g, t) && Comes(W, h, t, k)
    ensures Shaped(k) && |k.tasks| == |g.tasks|
  {
    k := Onward(W, h, t, g);
    hide Comes;
  }

  lemma OnLeave(W: nat, h: State, t: nat, g: State) returns (k: State)
    requires W > 0 && Comes(W, h, t, g) && t < |g.tasks| && Shaped(g) && g.tasks[t].slot != NONE
    requires InLeave(g.tasks[t].pc)
    ensures k == LeaveStep(g, t) && Comes(W, h, t, k)
    ensures Shaped(k) && |k.tasks| == |g.tasks|
  {
    k := Onward(W, h, t, g);
    hide Comes;
  }

  lemma OnStop(W: nat, h: State, t: nat, g: State) returns (k: State)
    requires W > 0 && Comes(W, h, t, g) && t < |g.tasks| && Shaped(g) && g.tasks[t].slot != NONE
    requires InStop(g.tasks[t].pc)
    ensures k == StopStep(g, t) && Comes(W, h, t, k)
    ensures Shaped(k) && |k.tasks| == |g.tasks|
  {
    k := Onward(W, h, t, g);
    hide Comes;
  }

  lemma OnDecide(W: nat, h: State, t: nat, g: State) returns (k: State)
    requires W > 0 && Comes(W, h, t, g) && t < |g.tasks| && Shaped(g) && g.tasks[t].slot != NONE
    requires InDecide(g.tasks[t].pc)
    ensures k == DecideStep(g, t) && Comes(W, h, t, k)
    ensures Shaped(k) && |k.tasks| == |g.tasks|
  {
    k := Onward(W, h, t, g);
    hide Comes;
  }

  lemma OnEnd(W: nat, h: State, t: nat, g: State) returns (k: State)
    requires W > 0 && Comes(W, h, t, g) && t < |g.tasks| && Shaped(g) && g.tasks[t].slot != NONE
    requires InEnd(g.tasks[t].pc)
    ensures k == EndStep(g, t) && Comes(W, h, t, k)
    ensures Shaped(k) && |k.tasks| == |g.tasks|
  {
    k := Onward(W, h, t, g);
    hide Comes;
  }

  lemma OnScan(W: nat, h: State, t: nat, g: State) returns (k: State)
    requires W > 0 && Comes(W, h, t, g) && t < |g.tasks| && Shaped(g) && g.tasks[t].slot != NONE
    requires g.tasks[t].pc.ScanState? || g.tasks[t].pc.ScanAck? || g.tasks[t].pc.ScanLock?
    ensures k == ScanStep(W, g, t) && Comes(W, h, t, k)
    ensures Shaped(k) && |k.tasks| == |g.tasks|
  {
    k := Onward(W, h, t, g);
    hide Comes;
  }

  /** The call. */
  lemma Calling(W: nat, h: State, t: nat, call: Call) returns (g: State)
    requires W > 0 && t < |h.tasks| && Shaped(h) && h.tasks[t].pc.Rest?
    ensures g == Step(W, h, t, call) == CallStep(h, t, call) && Comes(W, g, t, g)
    ensures Shaped(g) && |g.tasks| == |h.tasks|
  {
    g := Step(W, h, t, call);
    ComesSelf(W, g, t);
    hide Comes;
  }

  predicate Free(h: State, t: nat) { t < |h.tasks| && Shaped(h) && h.tasks[t].pc.Rest? && h.lock == NONE }

  // ---- Native code --------------------------------------------------------------------------------

  /** `task_enter_native_safe` succeeds exactly from RUNNING, and then the slot is native-safe. */
  lemma EnterAlone(W: nat, h: State, t: nat)
    requires W > 0 && Free(h, t) && h.tasks[t].slot != NONE
    ensures var s := h.tasks[t].slot;
            Returns(W, h, t, EnterNative,
                    if h.status[s] == RUNNING then Return(SetStatus(h, s, NATIVE), t, 1) else Return(h, t, 0))
  {
    var g := Calling(W, h, t, EnterNative);
    hide Comes, Step, Shaped;
    var l := h.(lock := t);
    var k := OnEnter(W, g, t, g);
    assert k == Go(l, t, EnterState);
    EnterRest(W, h, t, g);
  }

  lemma EnterRest(W: nat, h: State, t: nat, g: State)
    requires W > 0 && Free(h, t) && h.tasks[t].slot != NONE && Comes(W, g, t, Go(h.(lock := t), t, EnterState))
    ensures var s := h.tasks[t].slot;
            Comes(W, g, t, if h.status[s] == RUNNING then Return(SetStatus(h, s, NATIVE), t, 1) else Return(h, t, 0))
  {
    hide Comes, Step;
    var s, l := h.tasks[t].slot, h.(lock := t);
    var k := OnEnter(W, g, t, Go(l, t, EnterState));
    if h.status[s] == RUNNING {
      assert k == Go(l, t, EnterStore);
      k := OnEnter(W, g, t, k);
      assert k == Return(SetStatus(l, s, NATIVE), t, 1).(tasks := k.tasks) && k.tasks[t].pc.EnterUnlock?;
      k := OnEnter(W, g, t, k);
      assert k == Return(SetStatus(h, s, NATIVE), t, 1);
    } else {
      k := OnEnter(W, g, t, k);
      assert k == Return(h, t, 0);
    }
  }

  /** `task_leave_native_safe` without a request makes a native-safe slot RUNNING again. */
  lemma LeaveAlone(W: nat, h: State, t: nat)
    requires W > 0 && Free(h, t) && h.tasks[t].slot != NONE && h.request == 0
    ensures var s := h.tasks[t].slot;
            Returns(W, h, t, LeaveNative,
                    if h.status[s] == NATIVE then Return(SetStatus(h, s, RUNNING), t, 0) else Return(h, t, 0))
  {
    var g := Calling(W, h, t, LeaveNative);
    hide Comes, Step, Shaped;
    var k := OnLeave(W, g, t, g);
    assert k == Go(h.(lock := t), t, LeaveRequest);
    k := OnLeave(W, g, t, k);
    assert k == Go(h.(lock := t), t, LeaveState);
    LeaveRest(W, h, t, g);
  }

  lemma LeaveRest(W: nat, h: State, t: nat, g: State)
    requires W > 0 && Free(h, t) && h.tasks[t].slot != NONE && Comes(W, g, t, Go(h.(lock := t), t, LeaveState))
    ensures var s := h.tasks[t].slot;
            Comes(W, g, t, if h.status[s] == NATIVE then Return(SetStatus(h, s, RUNNING), t, 0) else Return(h, t, 0))
  {
    hide Comes, Step;
    var s, l := h.tasks[t].slot, h.(lock := t);
    var k := OnLeave(W, g, t, Go(l, t, LeaveState));
    if h.status[s] == NATIVE {
      assert k == Go(l, t, LeaveStore);
      k := OnLeave(W, g, t, k);
      assert k == Go(SetStatus(l, s, RUNNING), t, LeaveUnlock(false));
      k := OnLeave(W, g, t, k);
      assert k == Return(SetStatus(h, s, RUNNING), t, 0);
    } else {
      assert k == Go(l, t, LeaveUnlock(false));
      k := OnLeave(W, g, t, k);
      assert k == Return(h, t, 0);
    }
  }

  /** The three states it goes round in. */
  predicate Leaving(h: State, t: nat, g: State)
    requires t < |h.tasks|
  {
    || g == Go(h, t, LeaveLock) || g == Go(h.(lock := t), t, LeaveRequest)
    || g == Go(h.(lock := t), t, LeaveUnlock(true))
  }

  lemma LeavingStep(W: nat, h: State, t: nat, g: State)
    requires W > 0 && Free(h, t) && h.tasks[t].slot != NONE && h.request != 0 && Leaving(h, t, g)
    ensures t < |g.tasks| && Shaped(g) && !g.tasks[t].pc.Rest? && Leaving(h, t, Step(W, g, t, Poll))
  {
    assert Step(W, g, t, Poll) == LeaveStep(g, t);
    hide Step;
  }

  /** While a request stands it does not return, and changes nothing but the lock for a moment. */
  lemma {:induction false} LeaveWaits(W: nat, h: State, t: nat, n: nat)
    requires W > 0 && Free(h, t) && h.tasks[t].slot != NONE && h.request != 0
    ensures Leaving(h, t, Alone(W, Step(W, h, t, LeaveNative), t, n))
  {
    var a := Step(W, h, t, LeaveNative);
    assert a == Go(h, t, LeaveLock);
    if n > 0 {
      var g := Alone(W, a, t, n - 1);
      LeaveWaits(W, h, t, n - 1);
      hide Step, Free;
      LeavingStep(W, h, t, g);
      hide *;
      AloneMore(W, a, t, n - 1, 1);
      AloneStep(W, g, t, 1);
      AloneNone(W, Step(W, g, t, Poll), t);
    }
  }

  // ---- Registration -------------------------------------------------------------------------------

  /** `task_unregister` succeeds exactly from RUNNING and without a request, and leaves the slot EMPTY. */
  lemma UnregisterAlone(W: nat, h: State, t: nat)
    requires W > 0 && Free(h, t) && h.tasks[t].slot != NONE
    ensures var s := h.tasks[t].slot;
            Returns(W, h, t, Unregister,
                    if h.request == 0 && h.status[s] == RUNNING then
                      SetStatus(h, s, EMPTY).(owner := h.owner[s := NONE],
                        tasks := h.tasks[t := h.tasks[t].(slot := NONE, result := 1)])
                    else Return(h, t, 0))
  {
    var g := Calling(W, h, t, Unregister);
    hide Comes, Step, Shaped;
    var s, l := h.tasks[t].slot, h.(lock := t);
    var no := l.(tasks := l.tasks[t := l.tasks[t].(pc := UnUnlock, result := 0)]);
    var k := OnUnregister(W, g, t, g);
    assert k == Go(l, t, UnRequest);
    k := OnUnregister(W, g, t, k);
    if h.request != 0 {
      assert k == no;
      k := OnUnregister(W, g, t, k);
      assert k == Return(h, t, 0);
    } else {
      assert k == Go(l, t, UnState);
      k := OnUnregister(W, g, t, k);
      if h.status[s] != RUNNING {
        assert k == no;
        k := OnUnregister(W, g, t, k);
        assert k == Return(h, t, 0);
      } else {
        assert k == Go(l, t, UnStore);
        k := OnUnregister(W, g, t, k);
        var gone := SetStatus(l, s, EMPTY).(owner := h.owner[s := NONE],
                      tasks := h.tasks[t := h.tasks[t].(pc := UnUnlock, slot := NONE, result := 1)]);
        assert k == gone;
        k := OnUnregister(W, g, t, k);
        assert k == gone.(lock := NONE, tasks := h.tasks[t := h.tasks[t].(slot := NONE, result := 1)]);
      }
    }
  }

  /** Slot i is the first EMPTY one. */
  predicate FirstEmpty(h: State, i: nat) {
    i < |h.status| && h.status[i] == EMPTY && forall j :: 0 <= j < i ==> h.status[j] != EMPTY
  }

  lemma {:induction false} RegScans(W: nat, h: State, t: nat, bind: bool, i: nat, n: nat)
    requires W > 0 && t < |h.tasks| && Shaped(h) && i <= n <= |h.status|
    requires forall j :: i <= j < n ==> h.status[j] != EMPTY
    ensures Comes(W, Go(h, t, RegScan(bind, i)), t, Go(h, t, RegScan(bind, n)))
    decreases n - i
  {
    var a := Go(h, t, RegScan(bind, i));
    ComesSelf(W, a, t);
    if i < n {
      hide Comes;
      var b := OnRegister(W, a, t, a);
      assert b == Go(h, t, RegScan(bind, i + 1));
      RegScans(W, h, t, bind, i + 1, n);
      ComesOn(W, a, t, b, Go(h, t, RegScan(bind, n)));
    }
  }

  /** `task_register_bound` takes the first EMPTY slot, with no acknowledgement, and makes it RUNNING. */
  lemma RegisterAlone(W: nat, h: State, t: nat, i: nat)
    requires W > 0 && Free(h, t) && h.tasks[t].slot == NONE && h.request == 0 && FirstEmpty(h, i)
    ensures Returns(W, h, t, Register(true),
                    SetStatus(h, i, RUNNING).(ack := h.ack[i := 0], owner := h.owner[i := t],
                      tasks := h.tasks[t := h.tasks[t].(slot := i, result := 1)]))
  {
    var g := Calling(W, h, t, Register(true));
    hide Comes, Step, Shaped;
    var l := h.(lock := t);
    RegScans(W, l, t, true, 0, i);
    var k := OnRegister(W, g, t, g);
    k := OnRegister(W, g, t, k);
    assert k == Go(l, t, RegScan(true, 0));
    ComesOn(W, g, t, k, Go(l, t, RegScan(true, i)));
    k := OnRegister(W, g, t, Go(l, t, RegScan(true, i)));
    assert k == Go(l, t, RegAck(i));
    k := OnRegister(W, g, t, k);
    k := OnRegister(W, g, t, k);
    k := OnRegister(W, g, t, k);
  }

  /** It is refused, with no change, while a request stands, when every slot is taken, or when binding fails. */
  lemma RegisterRefused(W: nat, h: State, t: nat, bind: bool)
    requires W > 0 && Free(h, t) && h.tasks[t].slot == NONE
    requires h.request != 0 || !bind || forall i :: 0 <= i < |h.status| ==> h.status[i] != EMPTY
    ensures Returns(W, h, t, Register(bind), Return(h, t, 0))
  {
    var g := Calling(W, h, t, Register(bind));
    hide Comes, Step, Shaped;
    var l := h.(lock := t);
    var i := Vacancy(h, 0);
    RegScans(W, l, t, bind, 0, i);
    var k := OnRegister(W, g, t, g);
    k := OnRegister(W, g, t, k);
    if h.request == 0 {
      assert k == Go(l, t, RegScan(bind, 0));
      ComesOn(W, g, t, k, Go(l, t, RegScan(bind, i)));
      k := OnRegister(W, g, t, Go(l, t, RegScan(bind, i)));
    }
    k := OnRegister(W, g, t, k);
  }

  /** The first EMPTY slot from i on, or the end. */
  function Vacancy(h: State, i: nat): (r: nat)
    requires i <= |h.status|
    ensures i <= r <= |h.status| && (r < |h.status| ==> h.status[r] == EMPTY)
    ensures forall j :: i <= j < r ==> h.status[j] != EMPTY
    decreases |h.status| - i
  {
    if i == |h.status| || h.status[i] == EMPTY then i else Vacancy(h, i + 1)
  }

  // ---- Polling ------------------------------------------------------------------------------------

  /** `task_poll` has nothing to do without a request, for the collector itself, or off RUNNING. */
  lemma PollPasses(W: nat, h: State, t: nat)
    requires W > 0 && t < |h.tasks| && Shaped(h) && h.tasks[t].pc.Rest? && h.tasks[t].slot != NONE
    requires h.request == 0 || h.collector == h.tasks[t].slot + 1 || h.status[h.tasks[t].slot] != RUNNING
    ensures Returns(W, h, t, Poll, Return(h, t, 0))
  {
    var g := Calling(W, h, t, Poll);
    hide Comes, Step, Shaped;
    var k := OnPoll(W, g, t, g);
    if h.request != 0 {
      k := OnPoll(W, g, t, k);
      if h.collector != h.tasks[t].slot + 1 { k := OnPoll(W, g, t, k); }
    }
  }

  lemma WaitStays(W: nat, h: State, t: nat)
    requires W > 0 && t < |h.tasks| && Shaped(h) && h.tasks[t].slot != NONE && h.tasks[t].pc == PollWait(h.request)
    ensures Step(W, h, t, Poll) == h
  {
  }

  /** Otherwise the slot is parked, acknowledges the request, and waits for its end. */
  lemma PollParks(W: nat, h: State, t: nat)
    requires W > 0 && t < |h.tasks| && Shaped(h) && h.tasks[t].pc.Rest? && h.tasks[t].slot != NONE
    requires h.request != 0 && h.collector != h.tasks[t].slot + 1 && h.status[h.tasks[t].slot] == RUNNING
    ensures var s := h.tasks[t].slot;
            var g := Go(SetStatus(h, s, PARKED).(ack := h.ack[s := h.request]), t, PollWait(h.request));
            Comes(W, Step(W, h, t, Poll), t, g) && Step(W, g, t, Poll) == g
  {
    var g := Calling(W, h, t, Poll);
    hide Comes, Step, Shaped;
    var s, e := h.tasks[t].slot, h.request;
    var k := OnPoll(W, g, t, g);
    assert k == Go(h, t, PollCollector(e));
    k := OnPoll(W, g, t, k);
    assert k == Go(h, t, PollState(e));
    k := OnPoll(W, g, t, k);
    assert k == Go(h, t, PollPark(e));
    PollRest(W, h, t, g, e);
    WaitStays(W, Go(SetStatus(h, s, PARKED).(ack := h.ack[s := e]), t, PollWait(e)), t);
  }

  lemma PollRest(W: nat, h: State, t: nat, g: State, e: nat)
    requires W > 0 && t < |h.tasks| && Shaped(h) && h.tasks[t].slot != NONE
    requires Comes(W, g, t, Go(h, t, PollPark(e)))
    ensures var s := h.tasks[t].slot;
            Comes(W, g, t, Go(SetStatus(h, s, PARKED).(ack := h.ack[s := e]), t, PollWait(e)))
  {
    hide Comes, Step, Wrap;
    var s := h.tasks[t].slot;
    var k := OnPark(W, g, t, Go(h, t, PollPark(e)));
    assert k == Go(SetStatus(h, s, PARKED), t, PollAck(e));
    k := OnPark(W, g, t, k);
    assert k == Go(SetStatus(h, s, PARKED).(ack := h.ack[s := e]), t, PollWait(e));
  }

  /** A parked slot whose request is over is RUNNING again after two steps of its task. */
  lemma PollResumes(W: nat, h: State, t: nat)
    requires W > 0 && t < |h.tasks| && Shaped(h) && h.tasks[t].slot != NONE && h.tasks[t].pc.PollWait?
    requires Wrap(W, h.request) != Wrap(W, h.tasks[t].pc.e)
    ensures Alone(W, h, t, 2) == Return(SetStatus(h, h.tasks[t].slot, RUNNING), t, 0)
  {
    var g := Step(W, h, t, Poll);
    assert g == Go(h, t, PollRun(h.tasks[t].pc.e));
    var k := Step(W, g, t, Poll);
    assert k == Return(SetStatus(h, h.tasks[t].slot, RUNNING), t, 0);
    assert Alone(W, h, t, 2) == Alone(W, g, t, 1) == Alone(W, k, t, 0);
  }

  // ---- Stopping -----------------------------------------------------------------------------------

  /** Every slot from i on but s is EMPTY, native-safe, or parked with the epoch of ticket e. */
  predicate StoppedFrom(W: nat, h: State, s: int, e: nat, i: nat)
    requires W > 0 && Shaped(h)
  {
    forall j :: i <= j < |h.status| && j != s ==>
      h.status[j] == EMPTY || h.status[j] == NATIVE || (h.status[j] == PARKED && Wrap(W, h.ack[j]) == Wrap(W, e))
  }

  function ScanEnd(stopped: bool, b: nat, e: nat, locked: bool): Pc {
    if locked then ScanUnlock(b, e, stopped) else if stopped then ScanLock(b, e) else Budget(b, e)
  }

  /** `all_stopped` finds out whether every other slot is stopped. */
  lemma {:induction false} ScanAlone(W: nat, h: State, t: nat, b: nat, e: nat, i: nat, locked: bool)
    requires W > 0 && t < |h.tasks| && Shaped(h) && h.tasks[t].slot != NONE && i <= |h.status|
    ensures Comes(W, Go(h, t, ScanState(b, e, i, locked)), t,
                  Go(h, t, ScanEnd(StoppedFrom(W, h, h.tasks[t].slot, e, i), b, e, locked)))
    decreases |h.status| - i
  {
    var a := Go(h, t, ScanState(b, e, i, locked));
    var goal := Go(h, t, ScanEnd(StoppedFrom(W, h, h.tasks[t].slot, e, i), b, e, locked));
    ComesSelf(W, a, t);
    ScanOne(W, h, t, b, e, i, locked);
    if i < |h.status| && StoppedAt(W, h, h.tasks[t].slot, e, i) {
      var next := Go(h, t, ScanState(b, e, i + 1, locked));
      ScanAlone(W, h, t, b, e, i + 1, locked);
      assert StoppedFrom(W, h, h.tasks[t].slot, e, i) == StoppedFrom(W, h, h.tasks[t].slot, e, i + 1);
      hide *;
      ComesOn(W, a, t, next, goal);
    }
  }

  predicate StoppedAt(W: nat, h: State, s: int, e: nat, j: nat)
    requires W > 0 && Shaped(h) && j < |h.status|
  {
    j != s ==>
      h.status[j] == EMPTY || h.status[j] == NATIVE || (h.status[j] == PARKED && Wrap(W, h.ack[j]) == Wrap(W, e))
  }

  /** One slot of the scan. */
  lemma ScanOne(W: nat, h: State, t: nat, b: nat, e: nat, i: nat, locked: bool)
    requires W > 0 && t < |h.tasks| && Shaped(h) && h.tasks[t].slot != NONE && i <= |h.status|
    ensures Comes(W, Go(h, t, ScanState(b, e, i, locked)), t,
                  Go(h, t, if i == |h.status| then ScanEnd(true, b, e, locked)
                           else if StoppedAt(W, h, h.tasks[t].slot, e, i) then ScanState(b, e, i + 1, locked)
                           else ScanEnd(false, b, e, locked)))
  {
    var a := Go(h, t, ScanState(b, e, i, locked));
    ComesSelf(W, a, t);
    hide Comes, Step, Wrap;
    var k := OnScan(W, a, t, a);
    if i < |h.status| && i != h.tasks[t].slot && h.status[i] == PARKED {
      assert k == Go(h, t, ScanAck(b, e, i, locked));
      ScanParked(W, h, t, b, e, i, locked, a);
    }
  }

  lemma ScanParked(W: nat, h: State, t: nat, b: nat, e: nat, i: nat, locked: bool, a: State)
    requires W > 0 && t < |h.tasks| && Shaped(h) && h.tasks[t].slot != NONE && i < |h.status|
    requires i != h.tasks[t].slot && h.status[i] == PARKED && Comes(W, a, t, Go(h, t, ScanAck(b, e, i, locked)))
    ensures Comes(W, a, t, Go(h, t, if StoppedAt(W, h, h.tasks[t].slot, e, i) then ScanState(b, e, i + 1, locked)
                                    else ScanEnd(false, b, e, locked)))
  {
    hide Comes, Step, Wrap;
    var k := OnScan(W, a, t, Go(h, t, ScanAck(b, e, i, locked)));
    if StoppedAt(W, h, h.tasks[t].slot, e, i) { assert k == Go(h, t, ScanState(b, e, i + 1, locked)); }
    else { assert k == Go(h, t, ScanEnd(false, b, e, locked)); }
  }

  /** Task t has published the next ticket, waited n times, may wait b times more, and stands at pc. */
  function Asking(h: State, t: nat, b: nat, n: nat, pc: Pc): State
    requires t < |h.tasks|
  {
    h.(begun := h.begun + 1, collector := h.tasks[t].slot + 1, request := h.begun + 1, leader := t, held := false,
       tasks := h.tasks[t := h.tasks[t].(pc := pc, waits := n, budget := n + b)])
  }

  function Granting(h: State, t: nat, b: nat, n: nat): State
    requires t < |h.tasks|
  {
    Return(Asking(h, t, b, n, Rest).(held := true), t, 1)
  }

  /** The stop is given up: a ticket is used, and nothing else is left of it. */
  function GivenUp(h: State, t: nat, n: nat): State
    requires t < |h.tasks|
  {
    h.(begun := h.begun + 1, collector := 0, request := 0, leader := NONE, held := false,
       tasks := h.tasks[t := h.tasks[t].(pc := Rest, result := 0, waits := n, budget := n)])
  }

  /** A stop publishes its request. */
  lemma StopAsks(W: nat, h: State, t: nat, b: nat)
    requires W > 0 && Free(h, t) && h.tasks[t].slot != NONE && h.request == 0
    requires h.status[h.tasks[t].slot] == RUNNING
    ensures Comes(W, Step(W, h, t, StopBegin(b)), t, Asking(h, t, b, 0, ScanState(b, h.begun + 1, 0, false)))
  {
    var g := Calling(W, h, t, StopBegin(b));
    hide Comes, Step, Shaped;
    var l := h.(lock := t, tasks := h.tasks[t := h.tasks[t].(waits := 0, budget := b)]);
    var k := OnStop(W, g, t, g);
    assert k == Go(l, t, StopRequest(b));
    k := OnStop(W, g, t, k);
    assert k == Go(l, t, StopState(b));
    k := OnStop(W, g, t, k);
    assert k == Go(l, t, StopEpoch(b));
    StopPublishes(W, h, t, b, g);
  }

  lemma StopPublishes(W: nat, h: State, t: nat, b: nat, g: State)
    requires W > 0 && Free(h, t) && h.tasks[t].slot != NONE
    requires var l := h.(lock := t, tasks := h.tasks[t := h.tasks[t].(waits := 0, budget := b)]);
             Comes(W, g, t, Go(l, t, StopEpoch(b)))
    ensures Comes(W, g, t, Asking(h, t, b, 0, ScanState(b, h.begun + 1, 0, false)))
  {
    hide Comes, Step, Wrap;
    var e, l := h.begun + 1, h.(lock := t, tasks := h.tasks[t := h.tasks[t].(waits := 0, budget := b)]);
    var k := OnStop(W, g, t, Go(l, t, StopEpoch(b)));
    assert k == Go(l, t, StopStore(b, e));
    k := OnStop(W, g, t, k);
    assert k == Go(l.(begun := e), t, StopCollector(b, e));
    StopStores(W, h, t, b, g);
  }

  lemma StopStores(W: nat, h: State, t: nat, b: nat, g: State)
    requires W > 0 && Free(h, t) && h.tasks[t].slot != NONE
    requires var l := h.(lock := t, tasks := h.tasks[t := h.tasks[t].(waits := 0, budget := b)]);
             Comes(W, g, t, Go(l.(begun := h.begun + 1), t, StopCollector(b, h.begun + 1)))
    ensures Comes(W, g, t, Asking(h, t, b, 0, ScanState(b, h.begun + 1, 0, false)))
  {
    hide Comes, Step, Wrap;
    var e, l := h.begun + 1, h.(lock := t, tasks := h.tasks[t := h.tasks[t].(waits := 0, budget := b)]);
    var k := OnStop(W, g, t, Go(l.(begun := e), t, StopCollector(b, e)));
    assert k == Go(l.(begun := e, collector := h.tasks[t].slot + 1), t, StopPublish(b, e));
    k := OnStop(W, g, t, k);
    assert k == Asking(h, t, b, 0, StopUnlock(b, e)).(lock := t);
    k := OnStop(W, g, t, k);
    assert k == Asking(h, t, b, 0, ScanState(b, e, 0, false));
  }

  /** If all others are stopped the first scan grants it. */
  lemma StopGrants(W: nat, h: State, t: nat, b: nat, n: nat)
    requires W > 0 && Free(h, t) && h.tasks[t].slot != NONE
    requires StoppedFrom(W, h, h.tasks[t].slot, h.begun + 1, 0)
    ensures Comes(W, Asking(h, t, b, n, ScanState(b, h.begun + 1, 0, false)), t, Granting(h, t, b, n))
  {
    var e := h.begun + 1;
    var a := Asking(h, t, b, n, ScanState(b, e, 0, false));
    ScanAlone(W, a, t, b, e, 0, false);
    assert Go(a, t, ScanState(b, e, 0, false)) == a;
    ScanAlone(W, a.(lock := t), t, b, e, 0, true);
    hide Comes, Step, Wrap;
    var k := OnScan(W, a, t, Go(a, t, ScanLock(b, e)));
    assert k == Go(a.(lock := t), t, ScanState(b, e, 0, true));
    hide Shaped, Go;
    ComesOn(W, a, t, k, Go(a.(lock := t), t, ScanUnlock(b, e, true)));
    StopTold(W, h, t, b, n, a);
  }

  lemma StopTold(W: nat, h: State, t: nat, b: nat, n: nat, a: State)
    requires W > 0 && Free(h, t) && h.tasks[t].slot != NONE
    requires var e := h.begun + 1;
             a == Asking(h, t, b, n, ScanState(b, e, 0, false))
             && Comes(W, a, t, Go(a.(lock := t), t, ScanUnlock(b, e, true)))
    ensures Comes(W, a, t, Granting(h, t, b, n))
  {
    hide Comes, Step;
    var e := h.begun + 1;
    var k := OnDecide(W, a, t, Go(a.(lock := t), t, ScanUnlock(b, e, true)));
    assert k == Granting(h, t, b, n);
  }

  lemma StopWaitsOnce(W: nat, h: State, t: nat, b: nat, n: nat)
    requires W > 0 && Free(h, t) && h.tasks[t].slot != NONE
    requires !StoppedFrom(W, h, h.tasks[t].slot, h.begun + 1, 0)
    ensures Comes(W, Asking(h, t, b, n, ScanState(b, h.begun + 1, 0, false)), t,
                  Asking(h, t, b, n, Budget(b, h.begun + 1)))
  {
    var e := h.begun + 1;
    var a := Asking(h, t, b, n, ScanState(b, e, 0, false));
    ScanAlone(W, a, t, b, e, 0, false);
    assert Go(a, t, ScanState(b, e, 0, false)) == a;
    assert Go(a, t, Budget(b, e)) == Asking(h, t, b, n, Budget(b, e));
  }

  /** Otherwise, as nobody moves, it waits as often as it may and gives up. */
  lemma {:induction false} StopGivesUp(W: nat, h: State, t: nat, b: nat, n: nat)
    requires W > 0 && Free(h, t) && h.tasks[t].slot != NONE
    requires !StoppedFrom(W, h, h.tasks[t].slot, h.begun + 1, 0)
    ensures Comes(W, Asking(h, t, b, n, ScanState(b, h.begun + 1, 0, false)), t, GivenUp(h, t, n + b))
    decreases b
  {
    var e := h.begun + 1;
    var a := Asking(h, t, b, n, ScanState(b, e, 0, false));
    StopWaitsOnce(W, h, t, b, n);
    hide Comes, Step, Wrap;
    var k := OnDecide(W, a, t, Asking(h, t, b, n, Budget(b, e)));
    if b > 0 {
      assert k == Asking(h, t, b - 1, n + 1, ScanState(b - 1, e, 0, false));
      StopGivesUp(W, h, t, b - 1, n + 1);
      ComesOn(W, a, t, k, GivenUp(h, t, n + b));
    } else {
      assert k == Asking(h, t, 0, n, FailLock);
      Withdraws(W, h, t, n, a);
    }
  }

  lemma Withdraws(W: nat, h: State, t: nat, n: nat, a: State)
    requires W > 0 && Free(h, t) && h.tasks[t].slot != NONE && Comes(W, a, t, Asking(h, t, 0, n, FailLock))
    ensures Comes(W, a, t, GivenUp(h, t, n))
  {
    hide Comes, Step;
    var k := OnDecide(W, a, t, Asking(h, t, 0, n, FailLock));
    assert k == Asking(h, t, 0, n, FailRequest).(lock := t);
    k := OnDecide(W, a, t, k);
    assert k == Asking(h, t, 0, n, FailCollector).(lock := t, request := 0, leader := NONE);
    k := OnDecide(W, a, t, k);
    assert k == Asking(h, t, 0, n, FailUnlock).(lock := t, request := 0, leader := NONE, collector := 0);
    k := OnDecide(W, a, t, k);
    assert k == GivenUp(h, t, n);
  }

  /** `stop_begin`, alone: refused while another request stands or off RUNNING; granted if every other slot is
      stopped; and else given up after its budget of waits. */
  lemma StopAlone(W: nat, h: State, t: nat, b: nat)
    requires W > 0 && Free(h, t) && h.tasks[t].slot != NONE
    ensures var s := h.tasks[t].slot;
            Returns(W, h, t, StopBegin(b),
                    if h.request != 0 || h.status[s] != RUNNING then
                      h.(tasks := h.tasks[t := h.tasks[t].(result := 0, waits := 0, budget := b)])
                    else if StoppedFrom(W, h, s, h.begun + 1, 0) then Granting(h, t, b, 0)
                    else GivenUp(h, t, b))
  {
    var g := Calling(W, h, t, StopBegin(b));
    var asking := Asking(h, t, b, 0, ScanState(b, h.begun + 1, 0, false));
    if h.request != 0 || h.status[h.tasks[t].slot] != RUNNING {
      StopRefused(W, h, t, b);
    } else {
      StopAsks(W, h, t, b);
      if StoppedFrom(W, h, h.tasks[t].slot, h.begun + 1, 0) {
        StopGrants(W, h, t, b, 0);
        hide Comes, Step, StoppedFrom;
        ComesOn(W, g, t, asking, Granting(h, t, b, 0));
      } else {
        StopGivesUp(W, h, t, b, 0);
        hide Comes, Step, StoppedFrom;
        ComesOn(W, g, t, asking, GivenUp(h, t, b));
      }
    }
    hide Comes, Step, StoppedFrom;
  }

  lemma StopRefused(W: nat, h: State, t: nat, b: nat)
    requires W > 0 && Free(h, t) && h.tasks[t].slot != NONE
    requires h.request != 0 || h.status[h.tasks[t].slot] != RUNNING
    ensures Comes(W, Step(W, h, t, StopBegin(b)), t,
                  h.(tasks := h.tasks[t := h.tasks[t].(result := 0, waits := 0, budget := b)]))
  {
    var g := Calling(W, h, t, StopBegin(b));
    hide Comes, Step, Shaped;
    var l := h.(lock := t, tasks := h.tasks[t := h.tasks[t].(waits := 0, budget := b)]);
    var k := OnStop(W, g, t, g);
    assert k == Go(l, t, StopRequest(b));
    k := OnStop(W, g, t, k);
    if h.request == 0 {
      assert k == Go(l, t, StopState(b));
      k := OnStop(W, g, t, k);
    }
    assert k == Go(l, t, StopReject);
    StopRejects(W, h, t, b, g);
  }

  lemma StopRejects(W: nat, h: State, t: nat, b: nat, g: State)
    requires W > 0 && Free(h, t) && h.tasks[t].slot != NONE
    requires var l := h.(lock := t, tasks := h.tasks[t := h.tasks[t].(waits := 0, budget := b)]);
             Comes(W, g, t, Go(l, t, StopReject))
    ensures Comes(W, g, t, h.(tasks := h.tasks[t := h.tasks[t].(result := 0, waits := 0, budget := b)]))
  {
    hide Comes, Step, Wrap;
    var l := h.(lock := t, tasks := h.tasks[t := h.tasks[t].(waits := 0, budget := b)]);
    var k := OnStop(W, g, t, Go(l, t, StopReject));
    assert k == h.(tasks := h.tasks[t := h.tasks[t].(result := 0, waits := 0, budget := b)]);
  }

  /** `stop_end` withdraws the request of its own slot's stop, and does nothing for any other. */
  lemma EndAlone(W: nat, h: State, t: nat)
    requires W > 0 && Free(h, t) && h.tasks[t].slot != NONE
    ensures Returns(W, h, t, StopEnd,
                    if h.collector == h.tasks[t].slot + 1 then
                      Return(h.(request := 0, collector := 0, leader := NONE, held := false), t, 0)
                    else Return(h, t, 0))
  {
    var g := Calling(W, h, t, StopEnd);
    hide Comes, Step, Shaped;
    var k := OnEnd(W, g, t, g);
    assert k == Go(h.(lock := t), t, EndCollector);
    if h.collector == h.tasks[t].slot + 1 { EndWithdraws(W, h, t, g); } else { EndOther(W, h, t, g); }
  }

  lemma EndOther(W: nat, h: State, t: nat, g: State)
    requires W > 0 && Free(h, t) && h.tasks[t].slot != NONE && Comes(W, g, t, Go(h.(lock := t), t, EndCollector))
    requires h.collector != h.tasks[t].slot + 1
    ensures Comes(W, g, t, Return(h, t, 0))
  {
    hide Comes, Step;
    var k := OnEnd(W, g, t, Go(h.(lock := t), t, EndCollector));
    assert k == Go(h.(lock := t), t, EndUnlock);
    k := OnEnd(W, g, t, k);
    assert k == Return(h, t, 0);
  }

  lemma EndWithdraws(W: nat, h: State, t: nat, g: State)
    requires W > 0 && Free(h, t) && h.tasks[t].slot != NONE && Comes(W, g, t, Go(h.(lock := t), t, EndCollector))
    requires h.collector == h.tasks[t].slot + 1
    ensures Comes(W, g, t, Return(h.(request := 0, collector := 0, leader := NONE, held := false), t, 0))
  {
    hide Comes, Step;
    var l := h.(lock := t, request := 0, leader := NONE, held := false);
    var k := OnEnd(W, g, t, Go(h.(lock := t), t, EndCollector));
    assert k == Go(h.(lock := t), t, EndRequest);
    k := OnEnd(W, g, t, k);
    assert k == Go(l, t, EndClear);
    EndClears(W, h, t, g);
  }

  lemma EndClears(W: nat, h: State, t: nat, g: State)
    requires W > 0 && Free(h, t) && h.tasks[t].slot != NONE
    requires Comes(W, g, t, Go(h.(lock := t, request := 0, leader := NONE, held := false), t, EndClear))
    ensures Comes(W, g, t, Return(h.(request := 0, collector := 0, leader := NONE, held := false), t, 0))
  {
    hide Comes, Step;
    var l := h.(lock := t, request := 0, leader := NONE, held := false);
    var k := OnEnd(W, g, t, Go(l, t, EndClear));
    assert k == Go(l.(collector := 0), t, EndUnlock);
    k := OnEnd(W, g, t, k);
    assert k == Return(l.(collector := 0, lock := NONE), t, 0);
  }

  // ---- The end of a stop --------------------------------------------------------------------------

  /** When `stop_end` returns, its task leads no stop, and if no other does, nothing is left of one. */
  lemma StopEnded(W: nat, h: State, t: nat, call: Call)
    requires W > 0 && Inv(h) && t < |h.tasks| && h.tasks[t].pc.EndUnlock?
    ensures var h' := Step(W, h, t, call);
            && h'.tasks[t].pc.Rest? && h'.leader != t
            && (h'.leader == NONE ==> h'.request == 0 && h'.collector == 0 && !h'.held)
  {
    assert TaskOk(h, t);
  }

  /** Request e is published, and whoever still has it published is t. */
  ghost predicate Leads(h: State, t: nat, e: nat) {
    Inv(h) && 0 < e <= Published(h) && (h.request == e ==> h.leader == t)
  }

  lemma LeadsStep(W: nat, h: State, t: nat, e: nat, u: nat, call: Call)
    requires W > 0 && Leads(h, t, e) && Fresh(W, h) && u < |h.tasks|
    ensures Leads(Step(W, h, u, call), t, e)
  {
    var h' := Step(W, h, u, call);
    StartOf(h, u);
    StepOwn(W, h, u, call);
    StepInv(W, h, u, call);
    hide Bound, Deciding, SlotOk, Stays, Step, Placed, TaskOk;
  }

  lemma {:induction false} LeadsOn(W: nat, h: State, t: nat, e: nat, moves: seq<Move>)
    requires W > 0 && Leads(h, t, e) && FreshRun(W, h, moves)
    ensures Leads(Run(W, h, moves), t, e)
  {
    if moves != [] {
      var before, move := moves[..|moves| - 1], moves[|moves| - 1];
      LeadsOn(W, h, t, e, before);
      var g := Run(W, h, before);
      if move.task < |g.tasks| && Shaped(g) { LeadsStep(W, g, t, e, move.task, move.call); }
      hide Leads, Step;
    }
  }

  /** In every run: once the `stop_end` of a granted stop returns, its request is withdrawn for good, and every slot
      that is parked for it is RUNNING again after two steps of its task. */
  lemma ParkedResumes(W: nat, h: State, moves: seq<Move>, u: nat)
    requires W > 0 && Inv(h) && h.held && FreshRun(W, h, moves) && Fresh(W, Run(W, h, moves))
    requires var g := Run(W, h, moves);
             && h.leader < |g.tasks| && g.tasks[h.leader].pc.EndUnlock?
             && u < |g.tasks| && g.tasks[u].pc == PollWait(h.request)
    ensures var g := Run(W, h, moves);
            && Inv(g) && g.request != h.request && g.tasks[u].slot != NONE
            && Alone(W, g, u, 2) == Return(SetStatus(g, g.tasks[u].slot, RUNNING), u, 0)
  {
    var g, t, e := Run(W, h, moves), h.leader, h.request;
    HeldLeads(h);
    LeadsOn(W, h, t, e, moves);
    EndsWithout(g, t, e);
    OverDiffers(W, g, u, e);
    hide Inv, FreshRun, Step, Alone;
    PollResumes(W, g, u);
  }

  lemma HeldLeads(h: State)
    requires Inv(h) && h.held
    ensures 0 <= h.leader < |h.tasks| && Leads(h, h.leader, h.request) && h.request > 0
  {
    assert h.lock != NONE ==> TaskOk(h, h.lock);
    hide Bound, Deciding, SlotOk, Stopped;
  }

  lemma EndsWithout(h: State, t: nat, e: nat)
    requires Leads(h, t, e) && t < |h.tasks| && h.tasks[t].pc.EndUnlock?
    ensures Inv(h) && h.request != e
  {
    assert TaskOk(h, t);
    hide Bound, Deciding, SlotOk, Stopped;
  }

  lemma OverDiffers(W: nat, h: State, u: nat, e: nat)
    requires W > 0 && Inv(h) && Fresh(W, h) && u < |h.tasks| && h.tasks[u].pc == PollWait(e) && h.request != e > 0
    ensures Shaped(h) && h.tasks[u].slot != NONE && Wrap(W, h.request) != Wrap(W, e)
  {
    assert TaskOk(h, u);
    hide Placed, Deciding, SlotOk, Stopped;
  }
}
