// The daemon as a transition system: one acceptor (tb_socket_handling), one
// handler per connection (tb_socket_th with cmd_parse and exec_test_thread),
// one runner per test (the tb_thread_handler_* functions).  Every lock, unlock,
// creation and join of the three of them is a step of its own, and the steps of
// different threads interleave freely.  What a thread does without giving up a mutex
// in between is one step where no other thread could tell: a gate's check with the
// increment or the wait that follows from it, a decrement with its signal.

module Daemon {
  import opened Optional
  import opened Status
  import opened Sums

  // The guards of the two gates: dibd/testboxd_sockets.c:139 and
  // dibd/testboxd_threads.c:28,102.
  const CONN_GUARD := 100
  const TEST_THREAD_COUNT := 100

  /** The holder of a mutex. */
  datatype Owner = Nobody | Acceptor | Handler(h: nat) | Runner(t: nat)

  /** Parked: asleep in pthread_cond_wait.  Woken: signalled, or spuriously
      awake, and not yet back in possession of the mutex. */
  datatype AcceptorPc =
    | Accepting | WantGate | Checking | Parked | Woken | Admitted | Spawning | Exited

  datatype ConnPc =
    | Reading
    | Parsing
    | WantGate(wait: bool)
    | Checking(wait: bool, signalled: bool)
    | Parked(wait: bool)
    | Woken(wait: bool, signalled: bool)
    | Admitted(wait: bool)
    | Spawning(wait: bool)
    | Timing(t: nat)
    | Joining(t: nat)
    | WantCancel(t: nat)
    | Cancelling(t: nat)
    | CancelDone(t: nat)
    | FinalJoin(t: nat)
    | Reporting(t: nat)
    | WantKill(idx: nat)
    | Killing(idx: nat)
    | KillDone
    | Replying
    | WantLeave
    | Leaving
    | Left
    | Gone
    | Lost   // left by the read-error path

  datatype TestPc =
    | Fresh
    | Running(g: nat)
    | WantSettle(g: nat)
    | Settling(g: nat)
    | Settled
    | WantRelease
    | Releasing
    | Released
    | Terminated

  /** A status group; thread None is the source's (pthread_t)-1.  The owner is
      the test thread that registered the group. */
  datatype Group = Group(thread: Option<nat>, action: TestAction, owner: nat)

  /** freed: the tests whose thread_args have been freed, which the test thread does
      itself on its way out.  died: the tests that ended by cancellation instead. */
  datatype State = State(
    acceptor: AcceptorPc,
    connLock: Owner, connCount: int,
    testLock: Owner, testCount: int, failedCreates: nat,
    statusLock: Owner,
    conns: seq<ConnPc>,
    tests: seq<TestPc>,
    groups: seq<Group>,
    cancelled: set<nat>,
    freed: set<nat>,
    died: set<nat>)

  const INIT := State(AcceptorPc.Accepting, Nobody, 0, Nobody, 0, 0, Nobody, [], [], [], {}, {}, {})

  // What a connection handler is asked to do by its command line.
  datatype Command = Utility | Kill(idx: nat) | RunTest(wait: bool)

  datatype AcceptorStep = Accept | Lock | Check | Spurious | Unlock | Create(ok: bool)

  datatype ConnStep =
    | Read(ok: bool)
    | Parse(cmd: Command)
    | GateLock
    | GateCheck
    | GateSpurious
    | GateUnlock
    | CreateTest(ok: bool)
    | SetDeadline
    | Join
    | JoinTimeout
    | CancelLock
    | Cancel
    | CancelUnlock
    | LastJoin
    | Report
    | KillLock
    | KillThread
    | KillUnlock
    | Reply
    | LeaveLock
    | Leave
    | LeaveUnlock

  datatype TestStep =
    | Abort
    | Register(action: TestAction)
    | Work(action: TestAction)
    | Finish
    | Die
    | SettleLock
    | Settle
    | SettleUnlock
    | ReleaseLock
    | Release(wake: Option<nat>)
    | ReleaseUnlock

  datatype Step = OfAcceptor(a: AcceptorStep) | OfConn(h: nat, c: ConnStep) | OfTest(t: nat, r: TestStep)

  predicate Settles(a: TestAction) { a.Done? || a.Stopped? }

  /** tb_status_lookup_group_node_by_thread finds a group. */
  predicate Registered(s: State, t: nat) {
    exists g :: 0 <= g < |s.groups| && s.groups[g].thread == Some(t)
  }

  // ---------------------------------------------------------------- acceptor

  predicate AcceptorEnabled(s: State, a: AcceptorStep) {
    match a
    case Accept => s.acceptor.Accepting?
    case Lock => (s.acceptor.WantGate? || s.acceptor.Woken?) && s.connLock.Nobody?
    case Check => s.acceptor.Checking?
    case Spurious => s.acceptor.Parked?
    case Unlock => s.acceptor.Admitted?
    case Create(_) => s.acceptor.Spawning?
  }

  function AcceptorApply(s: State, a: AcceptorStep): State
    requires AcceptorEnabled(s, a)
  {
    match a
    case Accept => s.(acceptor := AcceptorPc.WantGate)
    case Lock => s.(acceptor := AcceptorPc.Checking, connLock := Acceptor)
    case Check =>
      if s.connCount > CONN_GUARD
      then s.(acceptor := AcceptorPc.Parked, connLock := Nobody)
      else s.(acceptor := AcceptorPc.Admitted, connCount := s.connCount + 1)
    case Spurious => s.(acceptor := AcceptorPc.Woken)
    case Unlock => s.(acceptor := AcceptorPc.Spawning, connLock := Nobody)
    case Create(ok) =>
      if ok
      then s.(acceptor := AcceptorPc.Accepting, conns := s.conns + [Reading])
      else s.(acceptor := AcceptorPc.Exited)
  }

  // ------------------------------------------------------ connection handlers

  predicate ConnEnabled(s: State, h: nat, c: ConnStep) {
    h < |s.conns| &&
    var pc := s.conns[h];
    match c
    case Read(_) => pc.Reading?
    case Parse(cmd) => pc.Parsing? && (cmd.Kill? ==> cmd.idx < |s.groups|)
    case GateLock => (pc.WantGate? || pc.Woken?) && s.testLock.Nobody?
    case GateCheck => pc.Checking?
    case GateSpurious => pc.Parked?
    case GateUnlock => pc.Admitted?
    case CreateTest(_) => pc.Spawning?
    case SetDeadline => pc.Timing?
    case Join => pc.Joining? && pc.t < |s.tests| && s.tests[pc.t].Terminated?
    case JoinTimeout => pc.Joining?
    case CancelLock => pc.WantCancel? && s.statusLock.Nobody?
    case Cancel => pc.Cancelling?
    case CancelUnlock => pc.CancelDone?
    case LastJoin => pc.FinalJoin? && pc.t < |s.tests| && s.tests[pc.t].Terminated?
    case Report => pc.Reporting?
    case KillLock => pc.WantKill? && s.statusLock.Nobody?
    case KillThread => pc.Killing? && pc.idx < |s.groups|
    case KillUnlock => pc.KillDone?
    case Reply => pc.Replying?
    case LeaveLock => pc.WantLeave? && s.connLock.Nobody?
    case Leave => pc.Leaving?
    case LeaveUnlock => pc.Left?
  }

  function GoConn(s: State, h: nat, pc: ConnPc): State
    requires h < |s.conns|
  {
    s.(conns := s.conns[h := pc])
  }

  function ConnApply(s: State, h: nat, c: ConnStep): State
    requires ConnEnabled(s, h, c)
  {
    var pc := s.conns[h];
    match c
    case Read(ok) => GoConn(s, h, if ok then Parsing else Lost)
    case Parse(cmd) =>
      GoConn(s, h, match cmd
                   case Utility => Replying
                   case Kill(i) => WantKill(i)
                   case RunTest(w) => ConnPc.WantGate(w))
    case GateLock => GoConn(s, h, ConnPc.Checking(pc.wait, pc.Woken? && pc.signalled)).(testLock := Handler(h))
    case GateCheck =>
      if s.testCount > TEST_THREAD_COUNT - 1
      then GoConn(s, h, ConnPc.Parked(pc.wait)).(testLock := Nobody)
      else GoConn(s, h, ConnPc.Admitted(pc.wait)).(testCount := s.testCount + 1)
    case GateSpurious => GoConn(s, h, ConnPc.Woken(pc.wait, false))
    case GateUnlock => GoConn(s, h, ConnPc.Spawning(pc.wait)).(testLock := Nobody)
    case CreateTest(ok) =>
      if ok
      then GoConn(s, h, if pc.wait then Timing(|s.tests|) else Replying).(tests := s.tests + [Fresh])
      else GoConn(s, h, Replying).(failedCreates := s.failedCreates + 1)
    case SetDeadline => GoConn(s, h, Joining(pc.t))
    case Join => GoConn(s, h, if pc.t in s.died then Reporting(pc.t) else Replying)
    case JoinTimeout => GoConn(s, h, WantCancel(pc.t))
    case CancelLock => GoConn(s, h, Cancelling(pc.t)).(statusLock := Handler(h))
    case Cancel =>
      GoConn(s, h, CancelDone(pc.t)).(
        cancelled := if Registered(s, pc.t) then s.cancelled + {pc.t} else s.cancelled)
    case CancelUnlock => GoConn(s, h, FinalJoin(pc.t)).(statusLock := Nobody)
    case LastJoin => GoConn(s, h, if pc.t in s.died then Reporting(pc.t) else Replying)
    case Report => GoConn(s, h, Replying)
    case KillLock => GoConn(s, h, Killing(pc.idx)).(statusLock := Handler(h))
    case KillThread =>
      GoConn(s, h, KillDone).(
        cancelled := match s.groups[pc.idx].thread
                     case Some(t) => s.cancelled + {t}
                     case None => s.cancelled)
    case KillUnlock => GoConn(s, h, Replying).(statusLock := Nobody)
    case Reply => GoConn(s, h, WantLeave)
    case LeaveLock => GoConn(s, h, Leaving).(connLock := Handler(h))
    case Leave =>
      GoConn(s, h, Left).(
        connCount := s.connCount - 1,
        acceptor := if s.acceptor.Parked? then AcceptorPc.Woken else s.acceptor)
    case LeaveUnlock => GoConn(s, h, Gone).(connLock := Nobody)
  }

  // ------------------------------------------------------------ test threads

  predicate TestEnabled(s: State, t: nat, r: TestStep) {
    t < |s.tests| &&
    var pc := s.tests[t];
    match r
    case Abort => pc.Fresh?
    case Register(_) => pc.Fresh?
    case Work(_) => pc.Running? && pc.g < |s.groups|
    case Finish => pc.Running?
    case Die => pc.Running? && t in s.cancelled
    case SettleLock => pc.WantSettle? && s.statusLock.Nobody?
    case Settle => pc.Settling? && pc.g < |s.groups|
    case SettleUnlock => pc.Settled?
    case ReleaseLock => pc.WantRelease? && s.testLock.Nobody?
    case Release(wake) => pc.Releasing? && Wakes(s, wake)
    case ReleaseUnlock => pc.Released?
  }

  /** pthread_cond_signal: one sleeper, whichever, if there is one. */
  predicate Wakes(s: State, wake: Option<nat>) {
    match wake
    case Some(h) => h < |s.conns| && s.conns[h].Parked?
    case None => forall h :: 0 <= h < |s.conns| ==> !s.conns[h].Parked?
  }

  function GoTest(s: State, t: nat, pc: TestPc): State
    requires t < |s.tests|
  {
    s.(tests := s.tests[t := pc])
  }

  function SettledGroup(g: Group): Group {
    g.(thread := None, action := if Settles(g.action) then g.action else Stopped)
  }

  function TestApply(s: State, t: nat, r: TestStep): State
    requires TestEnabled(s, t, r)
  {
    var pc := s.tests[t];
    match r
    case Abort => GoTest(s, t, WantRelease).(freed := s.freed + {t})
    case Register(a) =>
      GoTest(s, t, Running(|s.groups|)).(groups := s.groups + [Group(Some(t), a, t)])
    case Work(a) => s.(groups := s.groups[pc.g := s.groups[pc.g].(action := a)])
    case Finish => GoTest(s, t, WantSettle(pc.g)).(freed := s.freed + {t})
    case Die => GoTest(s, t, WantSettle(pc.g)).(died := s.died + {t})
    case SettleLock => GoTest(s, t, Settling(pc.g)).(statusLock := Runner(t))
    case Settle =>
      GoTest(s, t, Settled).(groups := s.groups[pc.g := SettledGroup(s.groups[pc.g])])
    case SettleUnlock => GoTest(s, t, WantRelease).(statusLock := Nobody)
    case ReleaseLock => GoTest(s, t, Releasing).(testLock := Runner(t))
    case Release(wake) =>
      GoTest(s, t, Released).(
        testCount := s.testCount - 1,
        conns := match wake
                 case Some(h) => s.conns[h := ConnPc.Woken(s.conns[h].wait, true)]
                 case None => s.conns)
    case ReleaseUnlock => GoTest(s, t, Terminated).(testLock := Nobody)
  }

  // --------------------------------------------------------------------- runs

  // When tb_socket_handling returns, main returns and the process ends.
  predicate Enabled(s: State, a: Step) {
    !s.acceptor.Exited? &&
    match a
    case OfAcceptor(x) => AcceptorEnabled(s, x)
    case OfConn(h, c) => ConnEnabled(s, h, c)
    case OfTest(t, r) => TestEnabled(s, t, r)
  }

  function Apply(s: State, a: Step): State
    requires Enabled(s, a)
  {
    match a
    case OfAcceptor(x) => AcceptorApply(s, x)
    case OfConn(h, c) => ConnApply(s, h, c)
    case OfTest(t, r) => TestApply(s, t, r)
  }

  ghost predicate Valid(s: State, run: seq<Step>)
    decreases |run|
  {
    run == [] || (Enabled(s, run[0]) && Valid(Apply(s, run[0]), run[1..]))
  }

  ghost function After(s: State, run: seq<Step>): State
    requires Valid(s, run)
    decreases |run|
  {
    if run == [] then s else After(Apply(s, run[0]), run[1..])
  }

  ghost predicate Reachable(s: State) {
    exists run :: Valid(INIT, run) && After(INIT, run) == s
  }

  lemma {:induction false} ValidConcat(s: State, first: seq<Step>, second: seq<Step>)
    requires Valid(s, first) && Valid(After(s, first), second)
    ensures Valid(s, first + second)
    ensures After(s, first + second) == After(After(s, first), second)
    decreases |first|
  {
    if first == [] {
      assert first + second == second;
    } else {
      assert (first + second)[1..] == first[1..] + second;
      ValidConcat(Apply(s, first[0]), first[1..], second);
    }
  }
}
