// Progress: how much work the daemon can do between outside events, where it
// can come to rest, and exactly when it still serves.

module DaemonProgress {
  import opened Optional
  import opened Status
  import opened Sums
  import opened Daemon
  import opened DaemonInvariants
  import opened DaemonSafety

  // ------------------------------------------------------- work left to do

  function ConnRank(pc: ConnPc): nat {
    match pc
    case Gone => 0
    case Lost => 0
    case Left => 1
    case Leaving => 4
    case WantLeave => 5
    case Replying => 6
    case KillDone => 7
    case Killing(_) => 8
    case WantKill(_) => 9
    case Reporting(_) => 7
    case FinalJoin(_) => 8
    case CancelDone(_) => 9
    case Cancelling(_) => 10
    case WantCancel(_) => 11
    case Joining(_) => 12
    case Timing(_) => 13
    case Spawning(_) => 24
    case Admitted(_) => 25
    case Parked(_) => 26
    case Checking(_, _) => 27
    case Woken(_, _) => 28
    case WantGate(_) => 28
    case Parsing => 29
    case Reading => 30
  }

  function AcceptorRank(pc: AcceptorPc): nat {
    match pc
    case Accepting => 0
    case Exited => 0
    case Spawning => 31
    case Admitted => 32
    case Parked => 33
    case Checking => 34
    case Woken => 35
    case WantGate => 35
  }

  function TestRank(pc: TestPc): nat {
    match pc
    case Terminated => 0
    case Released => 1
    case Releasing => 4
    case WantRelease => 5
    case Settled => 6
    case Settling(_) => 7
    case WantSettle(_) => 8
    case Running(_) => 9
    case Fresh => 10
  }

  ghost function Rank(s: State): nat {
    AcceptorRank(s.acceptor) + Sum(s.conns, ConnRank) + Sum(s.tests, TestRank)
  }

  predicate IsAccept(a: Step) { a == OfAcceptor(Accept) }

  predicate IsSpurious(a: Step) { a == OfAcceptor(Spurious) || (a.OfConn? && a.c.GateSpurious?) }

  /** A test body writing its status, which it may do any number of times. */
  predicate IsWork(a: Step) { a.OfTest? && a.r.Work? }

  /** A step of the daemon's own code: not a client connecting, not a spurious
      wakeup, not a test body at work. */
  predicate IsOwn(a: Step) { !IsAccept(a) && !IsSpurious(a) && !IsWork(a) }

  /** What a step may add to the rank; the daemon's own steps lower it. */
  function Cost(a: Step): int {
    if IsAccept(a) then 35 else if IsSpurious(a) then 2 else if IsWork(a) then 0 else -1
  }

  lemma RankStepAcceptor(s: State, x: AcceptorStep)
    requires AcceptorEnabled(s, x)
    ensures Rank(AcceptorApply(s, x)) <= Rank(s) + Cost(OfAcceptor(x))
  {
    AcceptorFrame(s, x);
    SumAppend(s.conns, ConnRank, Reading);
  }

  // What a handler's step hands on: a test to run, or the acceptor to wake.
  function HandedOn(c: ConnStep): nat {
    if c == CreateTest(true) then TestRank(Fresh) else if c.Leave? then 2 else 0
  }

  predicate UpToCreation(c: ConnStep) {
    c.Read? || c.Parse? || c.GateLock? || c.GateCheck? || c.GateSpurious? || c.GateUnlock? || c.CreateTest?
  }

  lemma EarlyStepPays(s: State, h: nat, c: ConnStep)
    requires ConnEnabled(s, h, c) && UpToCreation(c)
    ensures ConnRank(ConnApply(s, h, c).conns[h]) + HandedOn(c) <= ConnRank(s.conns[h]) + Cost(OfConn(h, c))
  {
  }

  predicate WithTest(c: ConnStep) {
    || c.SetDeadline? || c.Join? || c.JoinTimeout? || c.CancelLock? || c.Cancel? || c.CancelUnlock?
    || c.LastJoin? || c.Report?
  }

  lemma JoinStepPays(s: State, h: nat, c: ConnStep)
    requires ConnEnabled(s, h, c) && WithTest(c)
    ensures ConnRank(ConnApply(s, h, c).conns[h]) + HandedOn(c) <= ConnRank(s.conns[h]) + Cost(OfConn(h, c))
  {
  }

  lemma LateStepPays(s: State, h: nat, c: ConnStep)
    requires ConnEnabled(s, h, c) && !UpToCreation(c) && !WithTest(c)
    ensures ConnRank(ConnApply(s, h, c).conns[h]) + HandedOn(c) <= ConnRank(s.conns[h]) + Cost(OfConn(h, c))
  {
  }

  lemma AcceptorIsPaid(s: State, h: nat, c: ConnStep)
    requires ConnEnabled(s, h, c)
    ensures AcceptorRank(ConnApply(s, h, c).acceptor) <= AcceptorRank(s.acceptor) + (if c.Leave? then 2 else 0)
  {
  }

  lemma RankStepConn(s: State, h: nat, c: ConnStep)
    requires ConnEnabled(s, h, c)
    ensures Rank(ConnApply(s, h, c)) <= Rank(s) + Cost(OfConn(h, c))
  {
    ConnFrame(s, h, c);
    if UpToCreation(c) {
      EarlyStepPays(s, h, c);
    } else if WithTest(c) {
      JoinStepPays(s, h, c);
    } else {
      LateStepPays(s, h, c);
    }
    AcceptorIsPaid(s, h, c);
    SumUpdate(s.conns, ConnRank, h, ConnApply(s, h, c).conns[h]);
    SumAppend(s.tests, TestRank, Fresh);
  }

  // So does a test thread's step, for the handler it wakes.
  lemma TestStepPays(s: State, t: nat, r: TestStep)
    requires TestEnabled(s, t, r)
    ensures TestRank(TestApply(s, t, r).tests[t]) + (if r.Release? && r.wake.Some? then 2 else 0)
            <= TestRank(s.tests[t]) + Cost(OfTest(t, r))
  {
  }

  lemma RankStepTest(s: State, t: nat, r: TestStep)
    requires TestEnabled(s, t, r)
    ensures Rank(TestApply(s, t, r)) <= Rank(s) + Cost(OfTest(t, r))
  {
    var s' := TestApply(s, t, r);
    TestFrame(s, t, r);
    TestStepPays(s, t, r);
    SumUpdate(s.tests, TestRank, t, s'.tests[t]);
    if r.Release? && r.wake.Some? {
      SumUpdate(s.conns, ConnRank, r.wake.value, s'.conns[r.wake.value]);
    }
  }

  lemma RankStep(s: State, a: Step)
    requires Enabled(s, a)
    ensures Rank(Apply(s, a)) <= Rank(s) + Cost(a)
  {
    match a
    case OfAcceptor(x) => RankStepAcceptor(s, x);
    case OfConn(h, c) => RankStepConn(s, h, c);
    case OfTest(t, r) => RankStepTest(s, t, r);
  }

  ghost function Count(run: seq<Step>, p: Step -> bool): nat {
    if run == [] then 0 else (if p(run[0]) then 1 else 0) + Count(run[1..], p)
  }

  /** In every run the daemon's own steps are bounded by what was left to do at
      the start, 35 per connection accepted and 2 per spurious wakeup: no
      livelock between waiters, signals and slot stealing. */
  lemma {:induction false} OwnStepsAreBounded(s: State, run: seq<Step>)
    requires Valid(s, run)
    ensures Count(run, IsOwn) + Rank(After(s, run))
            <= Rank(s) + 35 * Count(run, IsAccept) + 2 * Count(run, IsSpurious)
    decreases |run|
  {
    if run != [] {
      RankStep(s, run[0]);
      OwnStepsAreBounded(Apply(s, run[0]), run[1..]);
    }
  }

  // ----------------------------------------------------- where it can come to rest

  predicate ConnAtRest(pc: ConnPc) { pc.Gone? || pc.Lost? || pc.Parked? }

  /** Nothing left but sleepers and the accept call. */
  ghost predicate AtRest(s: State) {
    && (s.acceptor.Accepting? || s.acceptor.Parked?)
    && s.connLock.Nobody? && s.testLock.Nobody? && s.statusLock.Nobody?
    && (forall h :: 0 <= h < |s.conns| ==> ConnAtRest(s.conns[h]))
    && (forall t :: 0 <= t < |s.tests| ==> s.tests[t].Terminated?)
  }

  /** An own step in which nothing fails: every creation and read succeeds, no test
      leaves early or dies of a cancellation, and no join misses its deadline.  A
      handler that is already at a cancel site, holding the status mutex, may still
      request the cancellation. */
  predicate Smooth(a: Step) {
    IsOwn(a) &&
    match a
    case OfAcceptor(Create(ok)) => ok
    case OfConn(_, Read(ok)) => ok
    case OfConn(_, CreateTest(ok)) => ok
    case OfConn(_, JoinTimeout) => false
    case OfTest(_, Abort) => false
    case OfTest(_, Die) => false
    case _ => true
  }

  lemma TestCanStep(s: State, t: nat) returns (a: Step)
    requires GroupsOk(s) && !s.acceptor.Exited? && t < |s.tests| && !s.tests[t].Terminated?
    requires s.tests[t].WantSettle? ==> s.statusLock.Nobody?
    requires s.tests[t].WantRelease? ==> s.testLock.Nobody?
    ensures Enabled(s, a) && Smooth(a)
  {
    match s.tests[t]
    case Fresh => a := OfTest(t, Register(RunningTest));
    case Running(_) => a := OfTest(t, Finish);
    case WantSettle(_) => a := OfTest(t, SettleLock);
    case Settling(_) => a := OfTest(t, Settle);
    case Settled => a := OfTest(t, SettleUnlock);
    case WantRelease => a := OfTest(t, ReleaseLock);
    case Releasing =>
      if h :| 0 <= h < |s.conns| && s.conns[h].Parked? {
        a := OfTest(t, Release(Some(h)));
      } else {
        a := OfTest(t, Release(None));
      }
    case Released => a := OfTest(t, ReleaseUnlock);
  }

  lemma ConnCanStep(s: State, h: nat) returns (a: Step)
    requires TargetsOk(s) && !s.acceptor.Exited? && h < |s.conns| && !ConnAtRest(s.conns[h])
    requires s.conns[h].WantGate? || s.conns[h].Woken? ==> s.testLock.Nobody?
    requires s.conns[h].WantCancel? || s.conns[h].WantKill? ==> s.statusLock.Nobody?
    requires s.conns[h].WantLeave? ==> s.connLock.Nobody?
    requires s.conns[h].Joining? || s.conns[h].FinalJoin? ==>
               s.conns[h].t < |s.tests| && s.tests[s.conns[h].t].Terminated?
    ensures Enabled(s, a) && Smooth(a)
  {
    match s.conns[h]
    case Reading => a := OfConn(h, Read(true));
    case Parsing => a := OfConn(h, Parse(Utility));
    case WantGate(_) => a := OfConn(h, GateLock);
    case Woken(_, _) => a := OfConn(h, GateLock);
    case Checking(_, _) => a := OfConn(h, GateCheck);
    case Admitted(_) => a := OfConn(h, GateUnlock);
    case Spawning(_) => a := OfConn(h, CreateTest(true));
    case Timing(_) => a := OfConn(h, SetDeadline);
    case Joining(_) => a := OfConn(h, Join);
    case WantCancel(_) => a := OfConn(h, CancelLock);
    case Cancelling(_) => a := OfConn(h, Cancel);
    case CancelDone(_) => a := OfConn(h, CancelUnlock);
    case FinalJoin(_) => a := OfConn(h, LastJoin);
    case Reporting(_) => a := OfConn(h, Report);
    case WantKill(_) => a := OfConn(h, KillLock);
    case Killing(_) => a := OfConn(h, KillThread);
    case KillDone => a := OfConn(h, KillUnlock);
    case Replying => a := OfConn(h, Reply);
    case WantLeave => a := OfConn(h, LeaveLock);
    case Leaving => a := OfConn(h, Leave);
    case Left => a := OfConn(h, LeaveUnlock);
  }

  lemma AcceptorCanStep(s: State) returns (a: Step)
    requires !s.acceptor.Exited? && !s.acceptor.Accepting? && !s.acceptor.Parked?
    requires s.acceptor.WantGate? || s.acceptor.Woken? ==> s.connLock.Nobody?
    ensures Enabled(s, a) && Smooth(a)
  {
    match s.acceptor
    case WantGate => a := OfAcceptor(Lock);
    case Woken => a := OfAcceptor(Lock);
    case Checking => a := OfAcceptor(Check);
    case Admitted => a := OfAcceptor(Unlock);
    case Spawning => a := OfAcceptor(Create(true));
  }

  /** The wait-for argument: a mutex holder can always go on, a test thread waits
      for mutexes only, a handler for mutexes and finished tests only. */
  lemma RestOrStep(s: State) returns (a: Option<Step>)
    requires Inv(s) && !s.acceptor.Exited?
    ensures a.Some? ==> Enabled(s, a.value) && Smooth(a.value)
    ensures a.None? ==> AtRest(s)
  {
    var step: Step;
    if s.connLock.Acceptor? {
      step := AcceptorCanStep(s);
    } else if s.connLock.Handler? {
      step := ConnCanStep(s, s.connLock.h);
    } else if s.testLock.Handler? {
      step := ConnCanStep(s, s.testLock.h);
    } else if s.testLock.Runner? {
      step := TestCanStep(s, s.testLock.t);
    } else if s.statusLock.Handler? {
      step := ConnCanStep(s, s.statusLock.h);
    } else if s.statusLock.Runner? {
      step := TestCanStep(s, s.statusLock.t);
    } else if t :| 0 <= t < |s.tests| && !s.tests[t].Terminated? {
      step := TestCanStep(s, t);
    } else if h :| 0 <= h < |s.conns| && !ConnAtRest(s.conns[h]) {
      step := ConnCanStep(s, h);
    } else if !s.acceptor.Accepting? && !s.acceptor.Parked? {
      step := AcceptorCanStep(s);
    } else {
      return None;
    }
    return Some(step);
  }

  /** No thread still on its way, only lost and finished connections. */
  ghost predicate Drained(s: State) {
    && AtRest(s) && s.acceptor.Accepting?
    && (forall h :: 0 <= h < |s.conns| ==> !s.conns[h].Parked?)
    && s.connCount == LostConns(s) && s.testCount == s.failedCreates
  }

  /** At rest, a handler sleeps at the test gate only if all 100 test slots have
      leaked, and the acceptor sleeps only if lost and sleeping handlers fill all
      101 connection slots. */
  lemma AtRestShape(s: State)
    requires Inv(s) && AtRest(s)
    ensures s.testCount == s.failedCreates
    ensures (exists h :: 0 <= h < |s.conns| && s.conns[h].Parked?) ==> s.failedCreates == 100
    ensures s.connCount == LostConns(s) + Sum(s.conns, LiveSlot)
    ensures s.acceptor.Parked? ==> LostConns(s) + Sum(s.conns, LiveSlot) == 101
    ensures LostConns(s) <= 100 && s.failedCreates <= 99 ==> Drained(s)
  {
    SumZero(s.conns, ReservedSlot);
    SumZero(s.tests, TestSlot);
    SumZero(s.conns, Resuming);
    SumAdd(s.conns, LiveSlot, LostSlot, ConnSlot);
    if forall h :: 0 <= h < |s.conns| ==> !s.conns[h].Parked? {
      SumZero(s.conns, LiveSlot);
    }
  }

  /** Deadlock freedom of the nested gates: as long as read errors have not taken
      all 101 connection slots, nor failed creations all 100 test slots, every
      reachable state either has nothing left to wait for or offers an own step in
      which nothing fails. */
  lemma DeadlockFree(s: State)
    requires Reachable(s) && !s.acceptor.Exited?
    requires LostConns(s) <= 100 && s.failedCreates <= 99
    ensures Drained(s) || exists a :: Enabled(s, a) && Smooth(a)
  {
    ReachableInv(s);
    var a := RestOrStep(s);
    if a.None? {
      AtRestShape(s);
    }
  }

  // -------------------------------------------------- exactly when it serves

  lemma SmoothLeaksNothing(s: State, a: Step)
    requires Enabled(s, a) && Smooth(a)
    ensures LostConns(Apply(s, a)) == LostConns(s)
    ensures Apply(s, a).failedCreates == s.failedCreates
    ensures !Apply(s, a).acceptor.Exited?
  {
    ConnsAfter(s, a, LostSlot);
  }

  /** Left alone, with nothing failing, the daemon comes to rest. */
  lemma {:induction false} ComeToRest(s: State) returns (run: seq<Step>)
    requires Inv(s) && !s.acceptor.Exited?
    ensures Valid(s, run) && Inv(After(s, run)) && AtRest(After(s, run))
    ensures LostConns(After(s, run)) == LostConns(s)
    ensures After(s, run).failedCreates == s.failedCreates
    decreases Rank(s)
  {
    var a := RestOrStep(s);
    match a
    case None => run := [];
    case Some(step) =>
      RankStep(s, step);
      InvKept(s, step);
      SmoothLeaksNothing(s, step);
      var rest := ComeToRest(Apply(s, step));
      run := [step] + rest;
      assert run[1..] == rest;
  }

  /** Some continuation lets a handler through the test gate. */
  ghost predicate CanServe(s: State) {
    exists run, h :: Valid(s, run) && Serves(After(s, run), h)
  }

  ghost predicate Serves(s: State, h: nat) {
    ConnEnabled(s, h, GateCheck) && ConnApply(s, h, GateCheck).conns[h].Admitted?
  }

  // With no thread on its way, the next connection reaches the test gate's check.
  lemma ServesNext(s: State, run: seq<Step>) returns (longer: seq<Step>, h: nat)
    requires Valid(s, run)
    requires var e := After(s, run);
             && AtRest(e) && e.acceptor.Accepting? && e.connCount <= CONN_GUARD && e.testCount < TEST_THREAD_COUNT
    ensures Valid(s, longer) && Serves(After(s, longer), h)
  {
    h := |After(s, run).conns|;
    longer := Connect(s, run, true);
    longer := Extend(s, longer, OfConn(h, GateLock));
  }

  lemma ServesSoon(s: State)
    requires Inv(s) && !s.acceptor.Exited?
    requires LostConns(s) <= 100 && s.failedCreates <= 99
    ensures CanServe(s)
  {
    var run := ComeToRest(s);
    AtRestShape(After(s, run));
    var longer, h := ServesNext(s, run);
  }

  lemma ServesNeverAgain(s: State, run: seq<Step>, h: nat)
    requires Inv(s) && Valid(s, run) && Serves(After(s, run), h)
    ensures LostConns(s) <= 100 && s.failedCreates <= 99
  {
    InvAlong(s, run);
    LeaksStayAlong(s, run);
    var e := After(s, run);
    SumAdd(e.conns, LiveSlot, LostSlot, ConnSlot);
    SumAt(e.conns, LiveSlot, h);
  }

  /** The two leaks decide exactly whether the daemon can ever start another
      test: it can as long as one connection slot and one test slot are left,
      and never again after that. */
  lemma ServesExactlyWhenSlotsAreLeft(s: State)
    requires Reachable(s) && !s.acceptor.Exited?
    ensures CanServe(s) <==> LostConns(s) <= 100 && s.failedCreates <= 99
  {
    ReachableInv(s);
    if LostConns(s) <= 100 && s.failedCreates <= 99 {
      ServesSoon(s);
    }
    if CanServe(s) {
      var run, h :| Valid(s, run) && Serves(After(s, run), h);
      ServesNeverAgain(s, run, h);
    }
  }

  /** After 101 read errors the acceptor never gets past its gate again, in any
      continuation of the run. */
  lemma WedgedByReadErrors(s: State, run: seq<Step>)
    requires Reachable(s) && LostConns(s) >= 101 && Valid(s, run)
    ensures LostConns(s) == 101
    ensures var e := After(s, run);
            e.connCount == 101 && !e.acceptor.Admitted? && !e.acceptor.Spawning? && !e.acceptor.Exited?
  {
    ReachableInv(s);
    InvAlong(s, run);
    LeaksStayAlong(s, run);
    SumAdd(s.conns, LiveSlot, LostSlot, ConnSlot);
    SumAdd(After(s, run).conns, LiveSlot, LostSlot, ConnSlot);
  }

  lemma {:induction false} LoseAll(n: nat) returns (run: seq<Step>)
    requires n <= 101
    ensures Valid(INIT, run)
    ensures After(INIT, run) == INIT.(connCount := n, conns := seq(n, i => Lost))
    ensures LostConns(After(INIT, run)) == n
  {
    if n == 0 {
      run := [];
      assert INIT == INIT.(connCount := 0, conns := seq(0, i => Lost));
    } else {
      run := LoseAll(n - 1);
      SumAppend(After(INIT, run).conns, LostSlot, Lost);
      run := AcceptOne(INIT, run);
      run := Extend(INIT, run, OfConn(n - 1, Read(false)));
      assert After(INIT, run).conns == seq(n - 1, i => Lost) + [Lost] == seq(n, i => Lost);
    }
  }

  lemma {:induction false} FailAll(n: nat) returns (run: seq<Step>)
    requires n <= 100
    ensures Valid(INIT, run)
    ensures After(INIT, run) == INIT.(connCount := n, testCount := n, failedCreates := n,
                                      conns := seq(n, i => Replying))
  {
    if n == 0 {
      run := [];
      assert INIT == INIT.(connCount := 0, testCount := 0, failedCreates := 0, conns := seq(0, i => Replying));
    } else {
      run := FailAll(n - 1);
      run := Connect(INIT, run, true);
      run := Admit(INIT, run, n - 1);
      run := Extend(INIT, run, OfConn(n - 1, CreateTest(false)));
      assert After(INIT, run).conns == seq(n, i => Replying);
    }
  }

  /** Both ways of losing the service for good do occur. */
  lemma ServiceCanBeLost() returns (byRead: State, byCreate: State)
    ensures Reachable(byRead) && LostConns(byRead) == 101 && byRead.failedCreates == 0 && !CanServe(byRead)
    ensures Reachable(byCreate) && byCreate.failedCreates == 100 && LostConns(byCreate) == 0 && !CanServe(byCreate)
  {
    var run := LoseAll(101);
    byRead := After(INIT, run);
    ServesExactlyWhenSlotsAreLeft(byRead);
    var run' := FailAll(100);
    byCreate := After(INIT, run');
    SumZero(byCreate.conns, LostSlot);
    ServesExactlyWhenSlotsAreLeft(byCreate);
  }
}
