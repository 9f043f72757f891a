// What every step of the daemon keeps, and so what holds in every reachable
// state: mutex ownership, the conservation of both counters, no lost wakeup,
// and the bookkeeping of status groups and cancellations.

module DaemonInvariants {
  import opened Optional
  import opened Status
  import opened Sums
  import opened Daemon

  // ------------------------------------------- what a step leaves as it was

  /** A handler's step moves its own program counter, may create one test, and may
      wake the acceptor. */
  lemma ConnFrame(s: State, h: nat, c: ConnStep)
    requires ConnEnabled(s, h, c)
    ensures var s' := ConnApply(s, h, c);
            && s'.conns == s.conns[h := s'.conns[h]]
            && s'.tests == (if c == CreateTest(true) then s.tests + [Fresh] else s.tests)
            && (s'.acceptor == s.acceptor || (s.acceptor.Parked? && s'.acceptor.Woken?))
            && s'.groups == s.groups
  {
  }

  /** A test thread's step moves its own program counter and may wake a handler. */
  lemma TestFrame(s: State, t: nat, r: TestStep)
    requires TestEnabled(s, t, r)
    ensures var s' := TestApply(s, t, r);
            && s'.tests == s.tests[t := s'.tests[t]]
            && s'.acceptor == s.acceptor && s'.connLock == s.connLock && s'.connCount == s.connCount
            && (if r.Release? && r.wake.Some?
                then s'.conns == s.conns[r.wake.value := ConnPc.Woken(s.conns[r.wake.value].wait, true)]
                else s'.conns == s.conns)
  {
  }

  lemma AcceptorFrame(s: State, a: AcceptorStep)
    requires AcceptorEnabled(s, a)
    ensures var s' := AcceptorApply(s, a);
            && s'.conns == (if a == Create(true) then s.conns + [Reading] else s.conns)
            && s'.tests == s.tests && s'.groups == s.groups && s'.cancelled == s.cancelled
            && s'.testLock == s.testLock && s'.testCount == s.testCount && s'.statusLock == s.statusLock
            && s'.freed == s.freed && s'.died == s.died
            && s'.failedCreates == s.failedCreates
  {
  }

  // --------------------------------------------------------- mutex ownership

  predicate HoldsConnLock(pc: ConnPc) { pc.Leaving? || pc.Left? }

  predicate HoldsTestLock(pc: ConnPc) { pc.Checking? || pc.Admitted? }

  predicate HoldsStatusLock(pc: ConnPc) {
    pc.Cancelling? || pc.CancelDone? || pc.Killing? || pc.KillDone?
  }

  ghost predicate ConnLockOk(s: State) {
    && (s.connLock == Acceptor <==> s.acceptor.Checking? || s.acceptor.Admitted?)
    && !s.connLock.Runner?
    && (s.connLock.Handler? ==> s.connLock.h < |s.conns|)
    && forall h :: 0 <= h < |s.conns| ==> (s.connLock == Handler(h) <==> HoldsConnLock(s.conns[h]))
  }

  ghost predicate TestLockOk(s: State) {
    && s.testLock != Acceptor
    && (s.testLock.Handler? ==> s.testLock.h < |s.conns|)
    && (s.testLock.Runner? ==> s.testLock.t < |s.tests|)
    && (forall h :: 0 <= h < |s.conns| ==> (s.testLock == Handler(h) <==> HoldsTestLock(s.conns[h])))
    && forall t :: 0 <= t < |s.tests| ==>
                     (s.testLock == Runner(t) <==> s.tests[t].Releasing? || s.tests[t].Released?)
  }

  ghost predicate StatusLockOk(s: State) {
    && s.statusLock != Acceptor
    && (s.statusLock.Handler? ==> s.statusLock.h < |s.conns|)
    && (s.statusLock.Runner? ==> s.statusLock.t < |s.tests|)
    && (forall h :: 0 <= h < |s.conns| ==> (s.statusLock == Handler(h) <==> HoldsStatusLock(s.conns[h])))
    && forall t :: 0 <= t < |s.tests| ==>
                     (s.statusLock == Runner(t) <==> s.tests[t].Settling? || s.tests[t].Settled?)
  }

  /** A step of one thread neither touches a mutex, nor takes it when free, nor
      releases it. */
  predicate Moves(lock: Owner, lock': Owner, who: Owner, held: bool, held': bool) {
    || (lock' == lock && held' == held)
    || (lock.Nobody? && lock' == who && !held && held')
    || (lock'.Nobody? && held && !held')
  }

  lemma ConnMovesConnLock(s: State, h: nat, c: ConnStep)
    requires ConnEnabled(s, h, c)
    ensures var s' := ConnApply(s, h, c);
            Moves(s.connLock, s'.connLock, Handler(h), HoldsConnLock(s.conns[h]), HoldsConnLock(s'.conns[h]))
  {
  }

  lemma ConnMovesTestLock(s: State, h: nat, c: ConnStep)
    requires ConnEnabled(s, h, c)
    ensures var s' := ConnApply(s, h, c);
            Moves(s.testLock, s'.testLock, Handler(h), HoldsTestLock(s.conns[h]), HoldsTestLock(s'.conns[h]))
  {
  }

  lemma ConnMovesStatusLock(s: State, h: nat, c: ConnStep)
    requires ConnEnabled(s, h, c)
    ensures var s' := ConnApply(s, h, c);
            Moves(s.statusLock, s'.statusLock, Handler(h), HoldsStatusLock(s.conns[h]), HoldsStatusLock(s'.conns[h]))
  {
  }

  lemma ConnLockMoved(s: State, s': State, h: nat)
    requires ConnLockOk(s) && h < |s.conns| == |s'.conns| && s'.conns == s.conns[h := s'.conns[h]]
    requires s'.acceptor == s.acceptor || (s.acceptor.Parked? && s'.acceptor.Woken?)
    requires Moves(s.connLock, s'.connLock, Handler(h), HoldsConnLock(s.conns[h]), HoldsConnLock(s'.conns[h]))
    ensures ConnLockOk(s')
  {
  }

  lemma TestLockMoved(s: State, s': State, h: nat)
    requires TestLockOk(s) && h < |s.conns| == |s'.conns| && s'.conns == s.conns[h := s'.conns[h]]
    requires s'.tests == s.tests || s'.tests == s.tests + [Fresh]
    requires Moves(s.testLock, s'.testLock, Handler(h), HoldsTestLock(s.conns[h]), HoldsTestLock(s'.conns[h]))
    ensures TestLockOk(s')
  {
  }

  lemma StatusLockMoved(s: State, s': State, h: nat)
    requires StatusLockOk(s) && h < |s.conns| == |s'.conns| && s'.conns == s.conns[h := s'.conns[h]]
    requires s'.tests == s.tests || s'.tests == s.tests + [Fresh]
    requires Moves(s.statusLock, s'.statusLock, Handler(h), HoldsStatusLock(s.conns[h]), HoldsStatusLock(s'.conns[h]))
    ensures StatusLockOk(s')
  {
  }

  lemma ConnLockKeptAcceptor(s: State, a: AcceptorStep)
    requires ConnLockOk(s) && AcceptorEnabled(s, a)
    ensures ConnLockOk(AcceptorApply(s, a))
  {
  }

  lemma ConnLockKeptConn(s: State, h: nat, c: ConnStep)
    requires ConnLockOk(s) && ConnEnabled(s, h, c)
    ensures ConnLockOk(ConnApply(s, h, c))
  {
    ConnFrame(s, h, c);
    ConnMovesConnLock(s, h, c);
    ConnLockMoved(s, ConnApply(s, h, c), h);
  }

  lemma ConnLockKeptTest(s: State, t: nat, r: TestStep)
    requires ConnLockOk(s) && TestEnabled(s, t, r)
    ensures ConnLockOk(TestApply(s, t, r))
  {
  }

  lemma TestLockKeptAcceptor(s: State, a: AcceptorStep)
    requires TestLockOk(s) && AcceptorEnabled(s, a)
    ensures TestLockOk(AcceptorApply(s, a))
  {
  }

  lemma TestLockKeptConn(s: State, h: nat, c: ConnStep)
    requires TestLockOk(s) && ConnEnabled(s, h, c)
    ensures TestLockOk(ConnApply(s, h, c))
  {
    ConnFrame(s, h, c);
    ConnMovesTestLock(s, h, c);
    TestLockMoved(s, ConnApply(s, h, c), h);
  }

  lemma TestLockKeptTest(s: State, t: nat, r: TestStep)
    requires TestLockOk(s) && TestEnabled(s, t, r)
    ensures TestLockOk(TestApply(s, t, r))
  {
  }

  lemma StatusLockKeptAcceptor(s: State, a: AcceptorStep)
    requires StatusLockOk(s) && AcceptorEnabled(s, a)
    ensures StatusLockOk(AcceptorApply(s, a))
  {
  }

  lemma StatusLockKeptConn(s: State, h: nat, c: ConnStep)
    requires StatusLockOk(s) && ConnEnabled(s, h, c)
    ensures StatusLockOk(ConnApply(s, h, c))
  {
    ConnFrame(s, h, c);
    ConnMovesStatusLock(s, h, c);
    StatusLockMoved(s, ConnApply(s, h, c), h);
  }

  lemma StatusLockKeptTest(s: State, t: nat, r: TestStep)
    requires StatusLockOk(s) && TestEnabled(s, t, r)
    ensures StatusLockOk(TestApply(s, t, r))
  {
  }

  // ---------------------------------------------- conservation of the counters

  /** The connection slot a handler occupies: from its admission to its
      decrement, or for ever once a read error took it past the decrement. */
  function ConnSlot(pc: ConnPc): nat { if pc.Left? || pc.Gone? then 0 else 1 }

  function AcceptorSlot(pc: AcceptorPc): nat {
    if pc.Admitted? || pc.Spawning? || pc.Exited? then 1 else 0
  }

  function LostSlot(pc: ConnPc): nat { if pc.Lost? then 1 else 0 }

  /** Admitted through the test gate, test thread not created yet. */
  function ReservedSlot(pc: ConnPc): nat { if pc.Admitted? || pc.Spawning? then 1 else 0 }

  /** The outer cleanup handler has not yet given the slot back. */
  function TestSlot(pc: TestPc): nat { if pc.Released? || pc.Terminated? then 0 else 1 }

  /** Signalled out of the test gate's wait, guard not re-evaluated yet; a spurious
      wakeup does not count. */
  function Resuming(pc: ConnPc): nat {
    if (pc.Woken? || pc.Checking?) && pc.signalled then 1 else 0
  }

  /** How many connection slots read errors have leaked so far. */
  ghost function LostConns(s: State): nat { Sum(s.conns, LostSlot) }

  /** connection_count counts exactly the occupied slots, 101 at most. */
  ghost predicate ConnCountOk(s: State) {
    s.connCount == AcceptorSlot(s.acceptor) + Sum(s.conns, ConnSlot) <= CONN_GUARD + 1
  }

  /** test_thread_cnt counts exactly the occupied and the leaked slots, 100 at most. */
  ghost predicate TestCountOk(s: State) {
    s.testCount == Sum(s.conns, ReservedSlot) + Sum(s.tests, TestSlot) + s.failedCreates <= TEST_THREAD_COUNT
  }

  ghost predicate SomeParked(s: State) { exists h :: 0 <= h < |s.conns| && s.conns[h].Parked? }

  /** Slots that are free are at most the signalled waiters already on their way. */
  ghost predicate NoLostWakeup(s: State) {
    SomeParked(s) ==> TEST_THREAD_COUNT - s.testCount <= Sum(s.conns, Resuming)
  }

  /** The acceptor sleeps only while every slot is taken. */
  ghost predicate AcceptorWakeupOk(s: State) {
    s.acceptor.Parked? ==> s.connCount == CONN_GUARD + 1
  }

  // The wake-up target of a step, which is the one handler besides the acting
  // one whose program counter may change.
  lemma ConnsAfter(s: State, a: Step, w: ConnPc -> nat)
    requires Enabled(s, a)
    ensures match a
            case OfAcceptor(Create(true)) => Sum(Apply(s, a).conns, w) == Sum(s.conns, w) + w(Reading)
            case OfAcceptor(_) => Apply(s, a).conns == s.conns
            case OfConn(h, _) =>
              Sum(Apply(s, a).conns, w) + w(s.conns[h]) == Sum(s.conns, w) + w(Apply(s, a).conns[h])
            case OfTest(_, Release(Some(h))) =>
              Sum(Apply(s, a).conns, w) + w(s.conns[h]) == Sum(s.conns, w) + w(Apply(s, a).conns[h])
            case OfTest(_, _) => Apply(s, a).conns == s.conns
  {
    match a
    case OfAcceptor(_) => SumAppend(s.conns, w, Reading);
    case OfConn(h, c) =>
      ConnFrame(s, h, c);
      SumUpdate(s.conns, w, h, Apply(s, a).conns[h]);
    case OfTest(_, Release(Some(h))) => SumUpdate(s.conns, w, h, Apply(s, a).conns[h]);
    case OfTest(_, _) =>
  }

  // A handler's step changes each counter by the slots it takes or gives back.
  lemma ConnPaysConnSlot(s: State, h: nat, c: ConnStep)
    requires ConnEnabled(s, h, c)
    ensures var s' := ConnApply(s, h, c);
            && s'.connCount == s.connCount + ConnSlot(s'.conns[h]) - ConnSlot(s.conns[h]) <= s.connCount
            && AcceptorSlot(s'.acceptor) == AcceptorSlot(s.acceptor)
  {
  }

  lemma ConnPaysTestSlot(s: State, h: nat, c: ConnStep)
    requires ConnEnabled(s, h, c)
    ensures var s' := ConnApply(s, h, c);
            && s'.testCount == s.testCount + ReservedSlot(s'.conns[h]) - ReservedSlot(s.conns[h])
                               + (if c == CreateTest(true) then 1 else 0) + s'.failedCreates - s.failedCreates
            && (s'.testCount == s.testCount || s.testCount < s'.testCount <= TEST_THREAD_COUNT)
  {
  }

  lemma ConnCountKeptConn(s: State, h: nat, c: ConnStep)
    requires ConnCountOk(s) && ConnEnabled(s, h, c)
    ensures ConnCountOk(ConnApply(s, h, c))
  {
    ConnFrame(s, h, c);
    ConnPaysConnSlot(s, h, c);
    SumUpdate(s.conns, ConnSlot, h, ConnApply(s, h, c).conns[h]);
  }

  lemma ConnCountKeptTest(s: State, t: nat, r: TestStep)
    requires ConnCountOk(s) && TestEnabled(s, t, r)
    ensures ConnCountOk(TestApply(s, t, r))
  {
    TestFrame(s, t, r);
    if r.Release? && r.wake.Some? {
      SumUpdate(s.conns, ConnSlot, r.wake.value, TestApply(s, t, r).conns[r.wake.value]);
    }
  }

  lemma ConnCountKept(s: State, a: Step)
    requires ConnCountOk(s) && Enabled(s, a)
    ensures ConnCountOk(Apply(s, a))
  {
    match a
    case OfAcceptor(_) => SumAppend(s.conns, ConnSlot, Reading);
    case OfConn(h, c) => ConnCountKeptConn(s, h, c);
    case OfTest(t, r) => ConnCountKeptTest(s, t, r);
  }

  lemma TestCountKeptConn(s: State, h: nat, c: ConnStep)
    requires TestCountOk(s) && ConnEnabled(s, h, c)
    ensures TestCountOk(ConnApply(s, h, c))
  {
    ConnFrame(s, h, c);
    ConnPaysTestSlot(s, h, c);
    SumUpdate(s.conns, ReservedSlot, h, ConnApply(s, h, c).conns[h]);
    SumAppend(s.tests, TestSlot, Fresh);
  }

  lemma TestCountKeptTest(s: State, t: nat, r: TestStep)
    requires TestCountOk(s) && TestEnabled(s, t, r)
    ensures TestCountOk(TestApply(s, t, r))
  {
    TestFrame(s, t, r);
    SumUpdate(s.tests, TestSlot, t, TestApply(s, t, r).tests[t]);
    if r.Release? && r.wake.Some? {
      SumUpdate(s.conns, ReservedSlot, r.wake.value, TestApply(s, t, r).conns[r.wake.value]);
    }
  }

  lemma TestCountKept(s: State, a: Step)
    requires TestCountOk(s) && Enabled(s, a)
    ensures TestCountOk(Apply(s, a))
  {
    match a
    case OfAcceptor(x) =>
      AcceptorFrame(s, x);
      SumAppend(s.conns, ReservedSlot, Reading);
    case OfConn(h, c) => TestCountKeptConn(s, h, c);
    case OfTest(t, r) => TestCountKeptTest(s, t, r);
  }

  // A handler's step never uses up more signals than slots while anyone sleeps.
  lemma ConnPaysSignal(s: State, h: nat, c: ConnStep)
    requires ConnEnabled(s, h, c)
    ensures var s' := ConnApply(s, h, c);
            || (s'.conns[h].Parked? && s'.testCount >= TEST_THREAD_COUNT)
            || (!s'.conns[h].Parked? && s.testCount - Resuming(s.conns[h]) <= s'.testCount - Resuming(s'.conns[h]))
  {
  }

  lemma NoLostWakeupKeptConn(s: State, h: nat, c: ConnStep)
    requires NoLostWakeup(s) && ConnEnabled(s, h, c)
    ensures NoLostWakeup(ConnApply(s, h, c))
  {
    var s' := ConnApply(s, h, c);
    ConnFrame(s, h, c);
    ConnPaysSignal(s, h, c);
    SumUpdate(s.conns, Resuming, h, s'.conns[h]);
    if k :| 0 <= k < |s'.conns| && s'.conns[k].Parked? && !s'.conns[h].Parked? {
      assert s.conns[k].Parked?;
    }
  }

  lemma NoLostWakeupKeptTest(s: State, t: nat, r: TestStep)
    requires NoLostWakeup(s) && TestEnabled(s, t, r)
    ensures NoLostWakeup(TestApply(s, t, r))
  {
    TestFrame(s, t, r);
    var s' := TestApply(s, t, r);
    if r.Release? && r.wake.Some? {
      SumUpdate(s.conns, Resuming, r.wake.value, s'.conns[r.wake.value]);
    }
    if k :| 0 <= k < |s'.conns| && s'.conns[k].Parked? {
      assert s.conns[k].Parked?;
    }
  }

  lemma NoLostWakeupKept(s: State, a: Step)
    requires NoLostWakeup(s) && Enabled(s, a)
    ensures NoLostWakeup(Apply(s, a))
  {
    match a
    case OfAcceptor(x) =>
      AcceptorFrame(s, x);
      SumAppend(s.conns, Resuming, Reading);
      if k :| 0 <= k < |Apply(s, a).conns| && Apply(s, a).conns[k].Parked? {
        assert s.conns[k].Parked?;
      }
    case OfConn(h, c) => NoLostWakeupKeptConn(s, h, c);
    case OfTest(t, r) => NoLostWakeupKeptTest(s, t, r);
  }

  lemma AcceptorWakeupKept(s: State, a: Step)
    requires ConnCountOk(s) && AcceptorWakeupOk(s) && Enabled(s, a)
    ensures AcceptorWakeupOk(Apply(s, a))
  {
  }

  // ------------------------------------------- status groups and cancellation

  /** The test thread is registered in group g and its status cleanup is due. */
  predicate Owes(pc: TestPc, g: nat) { InGroup(pc) && pc.g == g }

  predicate InGroup(pc: TestPc) { pc.Running? || pc.WantSettle? || pc.Settling? }

  /** thread names a live test thread exactly while that thread's status cleanup
      is due; afterwards the group is settled. */
  ghost predicate GroupOk(s: State, g: nat)
    requires g < |s.groups|
  {
    var group := s.groups[g];
    && group.owner < |s.tests|
    && !s.tests[group.owner].Fresh?
    && (group.thread.Some? ==> group.thread.value == group.owner)
    && (group.thread.Some? <==> Owes(s.tests[group.owner], g))
    && (group.thread.None? ==> Settles(group.action))
  }

  ghost predicate GroupsOk(s: State) {
    && (forall g :: 0 <= g < |s.groups| ==> GroupOk(s, g))
    && (forall t :: 0 <= t < |s.tests| && InGroup(s.tests[t]) ==>
                      s.tests[t].g < |s.groups| && s.groups[s.tests[t].g].owner == t)
  }

  /** Only threads registered in a status group are ever cancelled. */
  ghost predicate CancelledOk(s: State) {
    forall t :: t in s.cancelled ==> exists g :: 0 <= g < |s.groups| && s.groups[g].owner == t
  }

  function JoinTarget(pc: ConnPc): Option<nat> {
    match pc
    case Timing(t) => Some(t)
    case Joining(t) => Some(t)
    case WantCancel(t) => Some(t)
    case Cancelling(t) => Some(t)
    case CancelDone(t) => Some(t)
    case FinalJoin(t) => Some(t)
    case _ => None
  }

  ghost predicate TargetsOk(s: State) {
    && (forall h :: 0 <= h < |s.conns| && JoinTarget(s.conns[h]).Some? ==>
                      JoinTarget(s.conns[h]).value < |s.tests|)
    && (forall h :: 0 <= h < |s.conns| && (s.conns[h].WantKill? || s.conns[h].Killing?) ==>
                      s.conns[h].idx < |s.groups|)
  }

  lemma GroupsKeptBeside(s: State, s': State)
    requires GroupsOk(s) && s'.groups == s.groups && (s'.tests == s.tests || s'.tests == s.tests + [Fresh])
    ensures GroupsOk(s')
  {
    forall g | 0 <= g < |s'.groups|
      ensures GroupOk(s', g)
    {
      assert GroupOk(s, g);
    }
  }

  lemma GroupsKeptTest(s: State, t: nat, r: TestStep)
    requires GroupsOk(s) && TestEnabled(s, t, r)
    ensures GroupsOk(TestApply(s, t, r))
  {
    var s' := TestApply(s, t, r);
    forall g | 0 <= g < |s'.groups|
      ensures GroupOk(s', g)
    {
      if g < |s.groups| {
        assert GroupOk(s, g);
      }
    }
  }

  lemma GroupsKept(s: State, a: Step)
    requires GroupsOk(s) && Enabled(s, a)
    ensures GroupsOk(Apply(s, a))
  {
    match a
    case OfAcceptor(x) =>
      AcceptorFrame(s, x);
      GroupsKeptBeside(s, AcceptorApply(s, x));
    case OfConn(h, c) =>
      ConnFrame(s, h, c);
      GroupsKeptBeside(s, ConnApply(s, h, c));
    case OfTest(t, r) => GroupsKeptTest(s, t, r);
  }

  lemma CancelledKept(s: State, a: Step)
    requires GroupsOk(s) && CancelledOk(s) && Enabled(s, a)
    ensures CancelledOk(Apply(s, a))
  {
    var s' := Apply(s, a);
    forall t | t in s'.cancelled
      ensures exists g :: 0 <= g < |s'.groups| && s'.groups[g].owner == t
    {
      var g;
      if t in s.cancelled {
        g :| 0 <= g < |s.groups| && s.groups[g].owner == t;
      } else {
        g :| 0 <= g < |s.groups| && s.groups[g].thread == Some(t);
        assert GroupOk(s, g);
      }
      assert s'.groups[g].owner == t;
    }
  }

  /** A handler's own step keeps its target, takes on the test it creates, or gives
      its target up. */
  lemma OwnTarget(s: State, h: nat, c: ConnStep)
    requires ConnEnabled(s, h, c)
    ensures var was, now := JoinTarget(s.conns[h]), JoinTarget(ConnApply(s, h, c).conns[h]);
            now == was || now == None || (c == CreateTest(true) && now == Some(|s.tests|))
  {
  }

  /** It gives up only a test that has terminated. */
  lemma GivenUp(s: State, h: nat, c: ConnStep)
    requires ConnEnabled(s, h, c)
    ensures var was, now := JoinTarget(s.conns[h]), JoinTarget(ConnApply(s, h, c).conns[h]);
            was.Some? && now != was ==> was.value < |s.tests| && s.tests[was.value].Terminated?
  {
  }

  lemma OwnKill(s: State, h: nat, c: ConnStep)
    requires ConnEnabled(s, h, c)
    ensures var now := ConnApply(s, h, c).conns[h];
            (now.WantKill? || now.Killing?) ==>
              || now.idx < |s.groups|
              || ((s.conns[h].WantKill? || s.conns[h].Killing?) && now.idx == s.conns[h].idx)
  {
  }

  lemma TargetsKeptAcceptor(s: State, a: AcceptorStep)
    requires TargetsOk(s) && AcceptorEnabled(s, a)
    ensures TargetsOk(AcceptorApply(s, a))
  {
  }

  lemma TargetsMoved(s: State, s': State, h: nat)
    requires TargetsOk(s) && h < |s.conns| == |s'.conns| && s'.conns == s.conns[h := s'.conns[h]]
    requires |s'.tests| >= |s.tests| && |s'.groups| >= |s.groups|
    requires var now := JoinTarget(s'.conns[h]);
             now == None || now == JoinTarget(s.conns[h]) || now.value < |s'.tests|
    requires var now := s'.conns[h];
             (now.WantKill? || now.Killing?) ==>
               || now.idx < |s'.groups|
               || ((s.conns[h].WantKill? || s.conns[h].Killing?) && now.idx == s.conns[h].idx)
    ensures TargetsOk(s')
  {
  }

  lemma TargetsKeptConn(s: State, h: nat, c: ConnStep)
    requires TargetsOk(s) && ConnEnabled(s, h, c)
    ensures TargetsOk(ConnApply(s, h, c))
  {
    ConnFrame(s, h, c);
    OwnTarget(s, h, c);
    OwnKill(s, h, c);
    TargetsMoved(s, ConnApply(s, h, c), h);
  }

  lemma TargetsKeptTest(s: State, t: nat, r: TestStep)
    requires TargetsOk(s) && TestEnabled(s, t, r)
    ensures TargetsOk(TestApply(s, t, r))
  {
  }

  /** No two handlers join the same test. */
  ghost predicate JoinersOk(s: State) {
    forall h, k :: 0 <= h < k < |s.conns| && JoinTarget(s.conns[h]).Some? ==>
                     JoinTarget(s.conns[h]) != JoinTarget(s.conns[k])
  }

  lemma TargetAfter(s: State, a: Step, h: nat)
    requires Enabled(s, a) && h < |Apply(s, a).conns|
    ensures var now := JoinTarget(Apply(s, a).conns[h]);
            || now == None
            || (h < |s.conns| && now == JoinTarget(s.conns[h]))
            || (a == OfConn(h, CreateTest(true)) && now == Some(|s.tests|))
    ensures h < |s.conns| && JoinTarget(s.conns[h]).Some?
            && JoinTarget(s.conns[h]) != JoinTarget(Apply(s, a).conns[h]) ==>
              var t := JoinTarget(s.conns[h]).value; t < |s.tests| && s.tests[t].Terminated?
  {
    match a
    case OfAcceptor(_) =>
    case OfConn(k, c) =>
      ConnFrame(s, k, c);
      OwnTarget(s, k, c);
      GivenUp(s, k, c);
    case OfTest(t, r) => TestFrame(s, t, r);
  }

  lemma TerminatedStays(s: State, a: Step, t: nat)
    requires Enabled(s, a) && t < |s.tests|
    ensures t < |Apply(s, a).tests| && |s.conns| <= |Apply(s, a).conns|
    ensures s.tests[t].Terminated? ==> Apply(s, a).tests[t].Terminated?
  {
    match a
    case OfAcceptor(_) =>
    case OfConn(h, c) => ConnFrame(s, h, c);
    case OfTest(t, r) => TestFrame(s, t, r);
  }

  lemma JoinersKept(s: State, a: Step)
    requires TargetsOk(s) && JoinersOk(s) && Enabled(s, a)
    ensures JoinersOk(Apply(s, a))
  {
    var s' := Apply(s, a);
    forall h, k | 0 <= h < k < |s'.conns| && JoinTarget(s'.conns[h]).Some?
      ensures JoinTarget(s'.conns[h]) != JoinTarget(s'.conns[k])
    {
      TargetAfter(s, a, h);
      TargetAfter(s, a, k);
    }
  }

  // --------------------------------------------------- the life of the arguments

  predicate BodyOver(pc: TestPc) { !pc.Fresh? && !pc.Running? }

  /** A test whose body is over has either freed its arguments or died, not both. */
  ghost predicate FreedOk(s: State) {
    && (forall t :: t in s.freed || t in s.died ==> 0 <= t < |s.tests|)
    && (forall t :: 0 <= t < |s.tests| ==> (BodyOver(s.tests[t]) <==> t in s.freed || t in s.died))
    && s.freed !! s.died && s.died <= s.cancelled
  }

  ghost predicate ReportsOk(s: State) {
    forall h :: 0 <= h < |s.conns| && s.conns[h].Reporting? ==> s.conns[h].t in s.died
  }

  lemma ConnFreesNothing(s: State, h: nat, c: ConnStep)
    requires ConnEnabled(s, h, c)
    ensures var s' := ConnApply(s, h, c);
            && s'.freed == s.freed && s'.died == s.died && s.cancelled <= s'.cancelled
            && (s'.conns[h].Reporting? ==> s'.conns[h].t in s.died)
  {
  }

  lemma FreedKeptTest(s: State, t: nat, r: TestStep)
    requires FreedOk(s) && TestEnabled(s, t, r)
    ensures FreedOk(TestApply(s, t, r))
  {
    TestFrame(s, t, r);
  }

  lemma FreedKeptBeside(s: State, s': State)
    requires FreedOk(s) && s'.freed == s.freed && s'.died == s.died && s.cancelled <= s'.cancelled
    requires s'.tests == s.tests || s'.tests == s.tests + [Fresh]
    ensures FreedOk(s')
  {
  }

  lemma FreedKept(s: State, a: Step)
    requires FreedOk(s) && Enabled(s, a)
    ensures FreedOk(Apply(s, a))
  {
    match a
    case OfAcceptor(x) =>
      AcceptorFrame(s, x);
      FreedKeptBeside(s, AcceptorApply(s, x));
    case OfConn(h, c) =>
      ConnFrame(s, h, c);
      ConnFreesNothing(s, h, c);
      FreedKeptBeside(s, ConnApply(s, h, c));
    case OfTest(t, r) => FreedKeptTest(s, t, r);
  }

  lemma ReportsKept(s: State, a: Step)
    requires ReportsOk(s) && Enabled(s, a)
    ensures ReportsOk(Apply(s, a))
  {
    match a
    case OfAcceptor(x) => AcceptorFrame(s, x);
    case OfConn(h, c) =>
      ConnFrame(s, h, c);
      ConnFreesNothing(s, h, c);
    case OfTest(t, r) => TestFrame(s, t, r);
  }

  // -------------------------------------------------------------- all of them

  ghost predicate Inv(s: State) {
    && ConnLockOk(s) && TestLockOk(s) && StatusLockOk(s)
    && ConnCountOk(s) && TestCountOk(s) && NoLostWakeup(s) && AcceptorWakeupOk(s)
    && GroupsOk(s) && CancelledOk(s) && TargetsOk(s) && JoinersOk(s)
    && FreedOk(s) && ReportsOk(s)
  }

  lemma InvKept(s: State, a: Step)
    requires Inv(s) && Enabled(s, a)
    ensures Inv(Apply(s, a))
  {
    match a {
      case OfAcceptor(x) =>
        ConnLockKeptAcceptor(s, x); TestLockKeptAcceptor(s, x); StatusLockKeptAcceptor(s, x); TargetsKeptAcceptor(s, x);
      case OfConn(h, c) =>
        ConnLockKeptConn(s, h, c); TestLockKeptConn(s, h, c); StatusLockKeptConn(s, h, c); TargetsKeptConn(s, h, c);
      case OfTest(t, r) =>
        ConnLockKeptTest(s, t, r); TestLockKeptTest(s, t, r); StatusLockKeptTest(s, t, r); TargetsKeptTest(s, t, r);
    }
    ConnCountKept(s, a);
    TestCountKept(s, a);
    NoLostWakeupKept(s, a);
    AcceptorWakeupKept(s, a);
    GroupsKept(s, a);
    CancelledKept(s, a);
    JoinersKept(s, a);
    FreedKept(s, a);
    ReportsKept(s, a);
  }

  lemma {:induction false} InvAlong(s: State, run: seq<Step>)
    requires Inv(s) && Valid(s, run)
    ensures Inv(After(s, run))
    decreases |run|
  {
    if run != [] {
      InvKept(s, run[0]);
      InvAlong(Apply(s, run[0]), run[1..]);
    }
  }

  lemma ReachableInv(s: State)
    requires Reachable(s)
    ensures Inv(s)
  {
    var run :| Valid(INIT, run) && After(INIT, run) == s;
    InvAlong(INIT, run);
  }
}
