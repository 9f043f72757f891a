// The life of a test's arguments: who frees them, when, and which of the creator's
// later reads still find them.

module DaemonArguments {
  import opened Optional
  import opened Status
  import opened Daemon
  import opened DaemonInvariants
  import opened DaemonSafety

  /** The handler's next step reads the arguments of test t: max_timeout ahead of the
      timed join, or gen_xml_file once the join has reported a cancellation. */
  predicate ReadsArguments(pc: ConnPc, t: nat) { pc == Timing(t) || pc == Reporting(t) }

  /** Arguments are freed exactly when the test's body is over by its own end, and
      not by cancellation. */
  lemma FreedExactly(s: State, t: nat)
    requires Reachable(s) && t < |s.tests|
    ensures t in s.freed <==> BodyOver(s.tests[t]) && t !in s.died
    ensures t in s.died ==> BodyOver(s.tests[t]) && t in s.cancelled
  {
    ReachableInv(s);
  }

  lemma FreesOwn(s: State, a: Step, t: nat)
    requires Enabled(s, a) && t in Apply(s, a).freed && t !in s.freed
    ensures a == OfTest(t, Finish) || a == OfTest(t, Abort)
  {
    match a
    case OfAcceptor(x) => AcceptorFrame(s, x);
    case OfConn(h, c) => ConnFreesNothing(s, h, c);
    case OfTest(_, _) =>
  }

  /** Nothing is freed twice: a test's thread frees its own arguments, on its way out
      of the body, and they were not freed before. */
  lemma NoDoubleFree(s: State, t: nat, r: TestStep)
    requires Reachable(s) && TestEnabled(s, t, r) && (r.Finish? || r.Abort?)
    ensures t !in s.freed && TestApply(s, t, r).freed == s.freed + {t}
  {
    ReachableInv(s);
  }

  /** What a handler may still read: a read finds freed arguments if and only if it is
      the one ahead of the timed join and the test's body has ended meanwhile without
      being cancelled. */
  lemma ReadsFreedExactly(s: State, h: nat, t: nat)
    requires Reachable(s) && h < |s.conns| && ReadsArguments(s.conns[h], t)
    ensures t < |s.tests|
    ensures t in s.freed <==> s.conns[h].Timing? && BodyOver(s.tests[t]) && t !in s.died
  {
    ReachableInv(s);
  }

  /** The read after a cancellation always finds the arguments alive. */
  lemma ReportReadsLive(s: State, h: nat, t: nat)
    requires Reachable(s) && h < |s.conns| && s.conns[h] == Reporting(t)
    ensures t in s.died && t !in s.freed
  {
    ReachableInv(s);
  }

  /** The arguments of a cancelled test are never freed, in any continuation. */
  lemma {:induction false} CancelledLeak(s: State, run: seq<Step>, t: nat)
    requires Inv(s) && Valid(s, run) && t in s.died
    ensures t in After(s, run).died && t !in After(s, run).freed
    decreases |run|
  {
    if run != [] {
      InvKept(s, run[0]);
      DeadStay(s, run[0], t);
      CancelledLeak(Apply(s, run[0]), run[1..], t);
    }
  }

  lemma DeadStay(s: State, a: Step, t: nat)
    requires Enabled(s, a) && t in s.died
    ensures t in Apply(s, a).died
  {
    match a
    case OfAcceptor(x) => AcceptorFrame(s, x);
    case OfConn(h, c) => ConnFreesNothing(s, h, c);
    case OfTest(_, _) =>
  }

  /** And freed ones stay freed, so a handler that is late once is late for good. */
  lemma {:induction false} FreedStay(s: State, run: seq<Step>, t: nat)
    requires Valid(s, run) && t in s.freed
    ensures t in After(s, run).freed
    decreases |run|
  {
    if run != [] {
      var a := run[0];
      assert t in Apply(s, a).freed by {
        match a
        case OfAcceptor(x) => AcceptorFrame(s, x);
        case OfConn(h, c) => ConnFreesNothing(s, h, c);
        case OfTest(_, _) =>
      }
      FreedStay(Apply(s, a), run[1..], t);
    }
  }

  /** The late read does occur: the test runs to its end before its creator has
      computed the deadline. */
  lemma LateReadIsReachable() returns (s: State)
    ensures Reachable(s) && |s.conns| == 1 && ReadsArguments(s.conns[0], 0) && 0 in s.freed
  {
    var run: seq<Step> := [];
    run := Connect(INIT, run, true);
    run := Admit(INIT, run, 0);
    run := Extend(INIT, run, OfConn(0, CreateTest(true)));
    run := Extend(INIT, run, OfTest(0, Register(RunningTest)));
    run := Extend(INIT, run, OfTest(0, Finish));
    s := After(INIT, run);
  }
}
