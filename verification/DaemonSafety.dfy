// Safety over whole runs of the daemon, stated in the source's own terms.

module DaemonSafety {
  import opened Optional
  import opened Status
  import opened Sums
  import opened Daemon
  import opened DaemonInvariants

  /** Admitted, and neither at nor past its decrement, nor lost. */
  function LiveSlot(pc: ConnPc): nat { if pc.Left? || pc.Gone? || pc.Lost? then 0 else 1 }

  function SignalledSlot(pc: ConnPc): nat { if pc.Woken? && pc.signalled then 1 else 0 }

  /** Both counters count exactly the slots in use plus the slots leaked: by read
      errors for connections, by failed pthread_create calls for tests.  The
      connection bound is 101, not the 100 of the source's comment. */
  lemma SlotConservation(s: State)
    requires Reachable(s)
    ensures s.connCount == AcceptorSlot(s.acceptor) + Sum(s.conns, LiveSlot) + LostConns(s) <= 101
    ensures s.testCount == Sum(s.conns, ReservedSlot) + Sum(s.tests, TestSlot) + s.failedCreates <= 100
  {
    ReachableInv(s);
    SumAdd(s.conns, LiveSlot, LostSlot, ConnSlot);
  }

  /** Whenever the test mutex is free, a sleeping, unsignalled waiter means that
      every free slot already has a signalled waiter coming for it: whatever the
      spurious wakeups, and however many slots newcomers stole in between. */
  lemma NoWakeupIsLost(s: State, h: nat)
    requires Reachable(s) && s.testLock.Nobody?
    requires h < |s.conns| && s.conns[h].Parked?
    ensures 100 - s.testCount <= Sum(s.conns, SignalledSlot)
  {
    ReachableInv(s);
    SumEqual(s.conns, Resuming, SignalledSlot);
  }

  lemma {:induction false} SumEqual<T>(s: seq<T>, u: T -> nat, v: T -> nat)
    requires forall i :: 0 <= i < |s| ==> u(s[i]) == v(s[i])
    ensures Sum(s, u) == Sum(s, v)
  {
    if |s| > 0 {
      SumEqual(s[..|s| - 1], u, v);
    }
  }

  /** The three mutexes exclude: two threads inside the same critical section
      are the same thread. */
  lemma MutualExclusion(s: State, h: nat, k: nat, t: nat)
    requires Reachable(s) && h < |s.conns| && k < |s.conns| && t < |s.tests|
    ensures HoldsTestLock(s.conns[h]) && HoldsTestLock(s.conns[k]) ==> h == k
    ensures HoldsTestLock(s.conns[h]) ==> !s.tests[t].Releasing? && !s.tests[t].Released?
    ensures HoldsStatusLock(s.conns[h]) && HoldsStatusLock(s.conns[k]) ==> h == k
    ensures HoldsStatusLock(s.conns[h]) ==> !s.tests[t].Settling? && !s.tests[t].Settled?
    ensures HoldsConnLock(s.conns[h]) && HoldsConnLock(s.conns[k]) ==> h == k
    ensures HoldsConnLock(s.conns[h]) ==> !s.acceptor.Checking? && !s.acceptor.Admitted?
  {
    ReachableInv(s);
  }

  // ------------------------------------------------------------- cancellation

  /** A thread pthread_cancel may still be applied to. */
  predicate Live(s: State, t: nat) {
    t < |s.tests| && !s.tests[t].Terminated?
  }

  lemma NewlyCancelled(s: State, h: nat, c: ConnStep, t: nat)
    requires ConnEnabled(s, h, c)
    requires t in ConnApply(s, h, c).cancelled && t !in s.cancelled
    ensures (c.Cancel? && s.conns[h].Cancelling?) || (c.KillThread? && s.conns[h].Killing?)
    ensures Registered(s, t)
  {
  }

  /** Both cancel sites, run under the status mutex, hit only threads that are
      alive with their status cleanup still ahead of them. */
  lemma CancelHitsLiveThread(s: State, h: nat, c: ConnStep, t: nat)
    requires Reachable(s) && ConnEnabled(s, h, c)
    requires t in ConnApply(s, h, c).cancelled && t !in s.cancelled
    ensures c.Cancel? || c.KillThread?
    ensures s.statusLock == Handler(h)
    ensures Live(s, t) && (s.tests[t].Running? || s.tests[t].WantSettle?)
  {
    NewlyCancelled(s, h, c, t);
    ReachableInv(s);
    var g :| 0 <= g < |s.groups| && s.groups[g].thread == Some(t);
    assert GroupOk(s, g);
  }

  /** While the status mutex is held by anyone but the thread's own cleanup, a
      group's thread field never names a terminated thread; in fact it never
      does, in any reachable state. */
  lemma ThreadFieldIsLive(s: State, g: nat)
    requires Reachable(s) && g < |s.groups| && s.groups[g].thread.Some?
    ensures Live(s, s.groups[g].thread.value)
    ensures InGroup(s.tests[s.groups[g].thread.value])
    ensures forall k :: 0 <= k < |s.groups| && s.groups[k].thread == s.groups[g].thread ==> k == g
  {
    ReachableInv(s);
    assert GroupOk(s, g);
    forall k | 0 <= k < |s.groups| && s.groups[k].thread == s.groups[g].thread
      ensures k == g
    {
      assert GroupOk(s, k);
    }
  }

  /** The timed-out join's lookup by thread finds a group exactly while that
      test is registered and its status cleanup has not run. */
  lemma LookupFindsExactlyRegistered(s: State, t: nat)
    requires Reachable(s) && t < |s.tests|
    ensures Registered(s, t) <==> InGroup(s.tests[t])
  {
    ReachableInv(s);
    if Registered(s, t) {
      var g :| 0 <= g < |s.groups| && s.groups[g].thread == Some(t);
      assert GroupOk(s, g);
    }
    if InGroup(s.tests[t]) {
      assert GroupOk(s, s.tests[t].g);
    }
  }

  /** Past its deadline, a joining handler cancels the test exactly when the test
      is registered and its status cleanup has not run. */
  lemma TimeoutCancelsExactlyRegistered(s: State, h: nat)
    requires Reachable(s) && ConnEnabled(s, h, Cancel)
    ensures var t := s.conns[h].t;
            && t < |s.tests|
            && ConnApply(s, h, Cancel).cancelled == if InGroup(s.tests[t]) then s.cancelled + {t} else s.cancelled
  {
    ReachableInv(s);
    LookupFindsExactlyRegistered(s, s.conns[h].t);
  }

  /** The kill command cancels exactly the thread that runs the group it names, if
      that thread's status cleanup has not run. */
  lemma KillCancelsExactlyTheOwner(s: State, h: nat)
    requires Reachable(s) && ConnEnabled(s, h, KillThread)
    ensures var g := s.conns[h].idx;
            var t := s.groups[g].owner;
            && t < |s.tests|
            && ConnApply(s, h, KillThread).cancelled
               == if Owes(s.tests[t], g) then s.cancelled + {t} else s.cancelled
  {
    ReachableInv(s);
    assert GroupOk(s, s.conns[h].idx);
  }

  /** After any run, cancelled or not, its group is settled: thread -1, action
      done or stopped. */
  lemma EndedRunIsSettled(s: State, t: nat, g: nat)
    requires Reachable(s) && t < |s.tests| && g < |s.groups| && s.groups[g].owner == t
    requires s.tests[t].Terminated? || s.tests[t].WantRelease? || s.tests[t].Releasing? || s.tests[t].Released?
    ensures s.groups[g].thread.None? && Settles(s.groups[g].action)
  {
    ReachableInv(s);
    assert GroupOk(s, g);
  }

  /** What a run's body last recorded is final once the body is left: a recorded
      done or stopped survives cleanup and cancellation, anything else becomes
      stopped when the thread field is cleared, and that field stays cleared. */
  ghost predicate Outcome(before: Group, after: Group) {
    && after.owner == before.owner
    && (before.thread.None? ==> after.thread.None?)
    && after.action == (if after.thread.None? && !Settles(before.action) then Stopped else before.action)
  }

  /** The body of group g's test has been left, by its end or by cancellation. */
  ghost predicate BodyLeft(s: State, g: nat) {
    g < |s.groups| && s.groups[g].owner < |s.tests|
    && var pc := s.tests[s.groups[g].owner]; !pc.Fresh? && pc != Running(g)
  }

  lemma OutcomeTestStep(s: State, t: nat, r: TestStep, g: nat)
    requires BodyLeft(s, g) && GroupsOk(s) && TestEnabled(s, t, r)
    ensures BodyLeft(TestApply(s, t, r), g) && Outcome(s.groups[g], TestApply(s, t, r).groups[g])
  {
    assert GroupOk(s, g);
    if InGroup(s.tests[t]) {
      assert GroupOk(s, s.tests[t].g);
    }
  }

  lemma OutcomeStep(s: State, a: Step, g: nat)
    requires BodyLeft(s, g) && GroupsOk(s) && Enabled(s, a)
    ensures BodyLeft(Apply(s, a), g) && Outcome(s.groups[g], Apply(s, a).groups[g])
  {
    assert GroupOk(s, g);
    match a
    case OfAcceptor(_) =>
    case OfConn(h, c) => assert Apply(s, a).groups == s.groups;
    case OfTest(t, r) => OutcomeTestStep(s, t, r, g);
  }

  lemma {:induction false} OutcomeIsFinal(s: State, run: seq<Step>, g: nat)
    requires Inv(s) && Valid(s, run) && BodyLeft(s, g)
    ensures g < |After(s, run).groups| && Outcome(s.groups[g], After(s, run).groups[g])
    decreases |run|
  {
    assert GroupOk(s, g);
    if run != [] {
      OutcomeStep(s, run[0], g);
      InvKept(s, run[0]);
      OutcomeIsFinal(Apply(s, run[0]), run[1..], g);
    }
  }

  /** Only registered threads are ever cancelled: one that ended without
      registering never was. */
  lemma CancelledWasRegistered(s: State, t: nat)
    requires Reachable(s) && t in s.cancelled
    ensures t < |s.tests| && !s.tests[t].Fresh?
    ensures exists g :: 0 <= g < |s.groups| && s.groups[g].owner == t
  {
    ReachableInv(s);
    var g :| 0 <= g < |s.groups| && s.groups[g].owner == t;
    assert GroupOk(s, g);
  }

  /** No join, timed or final, is done while holding any mutex. */
  lemma JoinHoldsNoMutex(s: State, h: nat)
    requires Reachable(s) && h < |s.conns| && (s.conns[h].Joining? || s.conns[h].FinalJoin?)
    ensures s.connLock != Handler(h) && s.testLock != Handler(h) && s.statusLock != Handler(h)
  {
    ReachableInv(s);
  }

  // -------------------------------------------------------------------- leaks

  lemma LeaksStay(s: State, a: Step)
    requires Enabled(s, a)
    ensures LostConns(Apply(s, a)) >= LostConns(s)
    ensures Apply(s, a).failedCreates >= s.failedCreates
  {
    ConnsAfter(s, a, LostSlot);
  }

  lemma {:induction false} LeaksStayAlong(s: State, run: seq<Step>)
    requires Valid(s, run)
    ensures LostConns(After(s, run)) >= LostConns(s)
    ensures After(s, run).failedCreates >= s.failedCreates
    decreases |run|
  {
    if run != [] {
      LeaksStay(s, run[0]);
      LeaksStayAlong(Apply(s, run[0]), run[1..]);
    }
  }

  // --------------------------------------------------------------------- joins

  /** A handler that waits for a test goes on only after that test has terminated,
      timed out and cancelled or not. */
  lemma {:induction false} WaitedTestHasEnded(s: State, run: seq<Step>, h: nat, t: nat)
    requires Inv(s) && Valid(s, run) && h < |s.conns| && t < |s.tests|
    requires JoinTarget(s.conns[h]) == Some(t) || s.tests[t].Terminated?
    ensures var e := After(s, run);
            && h < |e.conns| && t < |e.tests|
            && (JoinTarget(e.conns[h]) == Some(t) || e.tests[t].Terminated?)
    decreases |run|
  {
    if run != [] {
      var s' := Apply(s, run[0]);
      TerminatedStays(s, run[0], t);
      TargetAfter(s, run[0], h);
      InvKept(s, run[0]);
      WaitedTestHasEnded(s', run[1..], h, t);
    }
  }

  ghost predicate Joins(s: State, h: nat, t: nat) {
    h < |s.conns| && JoinTarget(s.conns[h]) == Some(t)
  }

  /** No thread is joined twice: a test has one joining handler at most, and one
      that nobody is joining never gets a joining handler. */
  lemma JoinedByOne(s: State, h: nat, k: nat, t: nat)
    requires Reachable(s) && Joins(s, h, t) && Joins(s, k, t)
    ensures h == k
  {
    ReachableInv(s);
  }

  lemma {:induction false} NeverJoinedAgain(s: State, run: seq<Step>, t: nat, h: nat)
    requires Inv(s) && Valid(s, run) && t < |s.tests| && forall k: nat :: !Joins(s, k, t)
    ensures !Joins(After(s, run), h, t)
    decreases |run|
  {
    if run != [] {
      var s' := Apply(s, run[0]);
      TerminatedStays(s, run[0], t);
      forall k: nat
        ensures !Joins(s', k, t)
      {
        if k < |s'.conns| {
          TargetAfter(s, run[0], k);
          assert k < |s.conns| ==> !Joins(s, k, t);
        }
      }
      InvKept(s, run[0]);
      NeverJoinedAgain(s', run[1..], t, h);
    }
  }

  predicate WaitsAtGate(pc: ConnPc) {
    || (pc.WantGate? && pc.wait) || (pc.Checking? && pc.wait) || (pc.Parked? && pc.wait)
    || (pc.Woken? && pc.wait) || (pc.Admitted? && pc.wait) || (pc.Spawning? && pc.wait)
  }

  /** It joins test t, or t has terminated. */
  ghost predicate Awaits(s: State, h: nat, t: nat) {
    h < |s.conns| && t < |s.tests| && (JoinTarget(s.conns[h]) == Some(t) || s.tests[t].Terminated?)
  }

  lemma GateStep(s: State, h: nat, c: ConnStep)
    requires ConnEnabled(s, h, c) && WaitsAtGate(s.conns[h])
    ensures WaitsAtGate(ConnApply(s, h, c).conns[h]) || c.CreateTest?
    ensures c == CreateTest(true) ==> Awaits(ConnApply(s, h, c), h, |s.tests|)
  {
  }

  lemma StaysAtGate(s: State, a: Step, h: nat)
    requires Enabled(s, a) && h < |s.conns| && WaitsAtGate(s.conns[h]) && !(a.OfConn? && a.h == h)
    ensures h < |Apply(s, a).conns| && WaitsAtGate(Apply(s, a).conns[h])
  {
    match a
    case OfAcceptor(x) => AcceptorFrame(s, x);
    case OfConn(k, c) => ConnFrame(s, k, c);
    case OfTest(t, r) => TestFrame(s, t, r);
  }

  /** Step i of the run is handler h's own creation of a test; if it succeeds, the
      handler awaits that very test at the end of the run. */
  ghost predicate OwnCreation(s: State, run: seq<Step>, h: nat, i: nat)
    requires Valid(s, run)
  {
    && i < |run| && run[i].OfConn? && run[i].h == h && run[i].c.CreateTest?
    && Valid(s, run[..i])
    && (run[i].c.ok ==> Awaits(After(s, run), h, |After(s, run[..i]).tests|))
  }

  lemma LaterCreation(s: State, run: seq<Step>, h: nat, i: nat)
    requires run != [] && Valid(s, run) && OwnCreation(Apply(s, run[0]), run[1..], h, i)
    ensures OwnCreation(s, run, h, i + 1)
  {
    assert run[..i + 1][1..] == run[1..][..i];
  }

  /** A handler told to wait for its test leaves the gate only by creating a test of
      its own, and unless that creation fails it goes no further before that very
      test has terminated. */
  lemma {:induction false} WaiterJoinsItsTest(s: State, run: seq<Step>, h: nat)
    requires Inv(s) && Valid(s, run) && h < |s.conns| && WaitsAtGate(s.conns[h])
    ensures h < |After(s, run).conns|
    ensures WaitsAtGate(After(s, run).conns[h]) || exists i :: OwnCreation(s, run, h, i)
    decreases |run|
  {
    if run != [] {
      var a, s' := run[0], Apply(s, run[0]);
      ThreadsStay(s, a);
      ConnsStayAlong(s', run[1..]);
      InvKept(s, a);
      if a.OfConn? && a.h == h && a.c.CreateTest? {
        GateStep(s, h, a.c);
        assert run[..0] == [];
        if a.c.ok {
          WaitedTestHasEnded(s', run[1..], h, |s.tests|);
        }
        assert OwnCreation(s, run, h, 0);
      } else {
        if a.OfConn? && a.h == h {
          GateStep(s, h, a.c);
        } else {
          StaysAtGate(s, a, h);
        }
        WaiterJoinsItsTest(s', run[1..], h);
        if i :| OwnCreation(s', run[1..], h, i) {
          LaterCreation(s, run, h, i);
        }
      }
    }
  }

  lemma ThreadsStay(s: State, a: Step)
    requires Enabled(s, a)
    ensures |s.conns| <= |Apply(s, a).conns| && |s.tests| <= |Apply(s, a).tests|
  {
    match a
    case OfAcceptor(x) => AcceptorFrame(s, x);
    case OfConn(h, c) => ConnFrame(s, h, c);
    case OfTest(t, r) => TestFrame(s, t, r);
  }

  lemma {:induction false} ConnsStayAlong(s: State, run: seq<Step>)
    requires Valid(s, run)
    ensures |s.conns| <= |After(s, run).conns|
    decreases |run|
  {
    if run != [] {
      ThreadsStay(s, run[0]);
      ConnsStayAlong(Apply(s, run[0]), run[1..]);
    }
  }

  // -------------------------------------------------------- the bounds are met

  /** n detached tests created by n connections whose replies are still due. */
  ghost function Busy(n: nat): State {
    INIT.(connCount := n, testCount := n,
          conns := seq(n, i => Replying), tests := seq(n, i => Fresh))
  }

  lemma Extend(s: State, run: seq<Step>, a: Step) returns (longer: seq<Step>)
    requires Valid(s, run) && Enabled(After(s, run), a)
    ensures Valid(s, longer) && After(s, longer) == Apply(After(s, run), a)
  {
    var end := After(s, run);
    assert Valid(Apply(end, a), []);
    assert [a][1..] == [];
    assert Valid(end, [a]);
    ValidConcat(s, run, [a]);
    longer := run + [a];
  }

  /** One more connection accepted. */
  lemma AcceptOne(s: State, run: seq<Step>) returns (longer: seq<Step>)
    requires Valid(s, run)
    requires var e := After(s, run); e.acceptor.Accepting? && e.connLock.Nobody? && e.connCount <= CONN_GUARD
    ensures Valid(s, longer)
    ensures var e := After(s, run);
            After(s, longer) == e.(connCount := e.connCount + 1, conns := e.conns + [Reading])
  {
    longer := Extend(s, run, OfAcceptor(Accept));
    longer := Extend(s, longer, OfAcceptor(Lock));
    longer := Extend(s, longer, OfAcceptor(Check));
    longer := Extend(s, longer, OfAcceptor(Unlock));
    longer := Extend(s, longer, OfAcceptor(Create(true)));
  }

  /** One more connection accepted, read and parsed into a test command. */
  lemma Connect(s: State, run: seq<Step>, wait: bool) returns (longer: seq<Step>)
    requires Valid(s, run)
    requires var e := After(s, run); e.acceptor.Accepting? && e.connLock.Nobody? && e.connCount <= CONN_GUARD
    ensures Valid(s, longer)
    ensures var e := After(s, run);
            After(s, longer) == e.(connCount := e.connCount + 1, conns := e.conns + [ConnPc.WantGate(wait)])
  {
    var e := After(s, run);
    var h := |e.conns|;
    longer := AcceptOne(s, run);
    longer := Extend(s, longer, OfConn(h, Read(true)));
    longer := Extend(s, longer, OfConn(h, Parse(RunTest(wait))));
    assert After(s, longer).conns == e.conns + [ConnPc.WantGate(wait)];
  }

  /** One waiter led through the gate's check and out of its mutex. */
  lemma Admit(s: State, run: seq<Step>, h: nat) returns (longer: seq<Step>)
    requires Valid(s, run)
    requires var e := After(s, run);
             && !e.acceptor.Exited? && e.testLock.Nobody? && e.testCount < TEST_THREAD_COUNT
             && h < |e.conns| && e.conns[h].WantGate?
    ensures Valid(s, longer)
    ensures var e := After(s, run);
            After(s, longer) == e.(testCount := e.testCount + 1,
                                   conns := e.conns[h := ConnPc.Spawning(e.conns[h].wait)])
  {
    var e := After(s, run);
    longer := Extend(s, run, OfConn(h, GateLock));
    longer := Extend(s, longer, OfConn(h, GateCheck));
    longer := Extend(s, longer, OfConn(h, GateUnlock));
    assert After(s, longer).conns == e.conns[h := ConnPc.Spawning(e.conns[h].wait)];
  }

  lemma {:induction false} Fill(n: nat) returns (run: seq<Step>)
    requires n <= 100
    ensures Valid(INIT, run) && After(INIT, run) == Busy(n)
  {
    if n == 0 {
      run := [];
      assert Busy(0) == INIT;
    } else {
      var before := Fill(n - 1);
      run := Connect(INIT, before, false);
      var h := n - 1;
      run := Admit(INIT, run, h);
      run := Extend(INIT, run, OfConn(h, CreateTest(true)));
      var e := After(INIT, run);
      assert e.conns == Busy(n).conns;
      assert e.tests == Busy(n).tests;
    }
  }

  /** Both bounds are met, in one reachable state: 101 connections counted, 100
      tests counted, and the last connection asleep at the test gate. */
  lemma BoundsAreMet() returns (s: State)
    ensures Reachable(s) && s.connCount == 101 && s.testCount == 100
    ensures |s.conns| == 101 && s.conns[100].Parked?
  {
    var run := Fill(100);
    run := Connect(INIT, run, true);
    run := Extend(INIT, run, OfConn(100, GateLock));
    run := Extend(INIT, run, OfConn(100, GateCheck));
    s := After(INIT, run);
  }
}
