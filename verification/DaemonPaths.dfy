// The path of one connection handler through its command: what it must have done by
// the time it is found further on, over every run and every interleaving.

module DaemonPaths {
  import opened Optional
  import opened Status
  import opened Daemon
  import opened DaemonInvariants
  import opened DaemonSafety
  import opened DaemonArguments

  // ----------------------------------------------------- steps taken in a run

  /** Step i of the run is handler h's step c. */
  ghost predicate Takes(s: State, run: seq<Step>, h: nat, c: ConnStep, i: nat)
    requires Valid(s, run)
  {
    i < |run| && run[i] == OfConn(h, c) && Valid(s, run[..i])
  }

  /** The state right before step i. */
  ghost function Ahead(s: State, run: seq<Step>, i: nat): State
    requires i <= |run| && Valid(s, run[..i])
  {
    After(s, run[..i])
  }

  lemma TakesFirst(s: State, run: seq<Step>, h: nat, c: ConnStep)
    requires run != [] && Valid(s, run) && run[0] == OfConn(h, c)
    ensures Takes(s, run, h, c, 0) && Ahead(s, run, 0) == s
  {
    assert run[..0] == [];
  }

  lemma TakesLater(s: State, run: seq<Step>, h: nat, c: ConnStep, i: nat)
    requires run != [] && Valid(s, run) && Takes(Apply(s, run[0]), run[1..], h, c, i)
    ensures Takes(s, run, h, c, i + 1) && Ahead(s, run, i + 1) == Ahead(Apply(s, run[0]), run[1..], i)
  {
    assert run[..i + 1][1..] == run[1..][..i];
  }

  lemma TakesShift(s: State, run: seq<Step>, h: nat, c: ConnStep, i: nat)
    requires run != [] && Valid(s, run) && 0 < i && Takes(s, run, h, c, i)
    ensures Takes(Apply(s, run[0]), run[1..], h, c, i - 1)
  {
    assert run[..i][1..] == run[1..][..i - 1];
  }

  /** Another thread's step leaves a handler where it is, unless it wakes it. */
  lemma OthersLeave(s: State, a: Step, h: nat)
    requires Enabled(s, a) && h < |s.conns| && !(a.OfConn? && a.h == h)
    ensures h < |Apply(s, a).conns|
    ensures || Apply(s, a).conns[h] == s.conns[h]
            || (s.conns[h].Parked? && Apply(s, a).conns[h] == ConnPc.Woken(s.conns[h].wait, true))
  {
    match a
    case OfAcceptor(x) => AcceptorFrame(s, x);
    case OfConn(k, c) => ConnFrame(s, k, c);
    case OfTest(t, r) => TestFrame(s, t, r);
  }

  // -------------------------------------------------------- having to take a step

  /** Stretches of a handler's path that end with a certain step: waiting for test t
      up to the missed deadline, and on up to the cancellation; a kill command; the
      test gate up to the creation; and everything up to the reply. */
  datatype Leg = ToTimeout(t: nat) | ToCancel(t: nat) | ToKill(g: nat) | ToCreation | ToReply

  predicate Waiting(t: nat, pc: ConnPc) { pc == Timing(t) || pc == Joining(t) }

  predicate OnLeg(leg: Leg, pc: ConnPc) {
    match leg
    case ToTimeout(t) => Waiting(t, pc)
    case ToCancel(t) => Waiting(t, pc) || pc == WantCancel(t) || pc == Cancelling(t)
    case ToKill(g) => pc == WantKill(g) || pc == Killing(g)
    case ToCreation =>
      pc.WantGate? || pc.Checking? || pc.Parked? || pc.Woken? || pc.Admitted? || pc.Spawning?
    case ToReply => !pc.WantLeave? && !pc.Leaving? && !pc.Left? && !pc.Gone? && !pc.Lost?
  }

  predicate EndsLeg(leg: Leg, c: ConnStep) {
    match leg
    case ToTimeout(_) => c.JoinTimeout?
    case ToCancel(_) => c.Cancel?
    case ToKill(_) => c.KillThread?
    case ToCreation => c.CreateTest?
    case ToReply => c.Reply?
  }

  /** Done with the command, only the reply and the way out are left. */
  predicate Answering(pc: ConnPc) {
    pc.Reporting? || pc.Replying? || pc.WantLeave? || pc.Leaving? || pc.Left? || pc.Gone?
  }

  /** The way off a leg without its step: a join that succeeds, or a failed read. */
  predicate OffLeg(leg: Leg, pc: ConnPc) {
    match leg
    case ToTimeout(_) => Answering(pc)
    case ToCancel(_) => Answering(pc)
    case ToReply => pc.Lost?
    case _ => false
  }

  lemma LegStep(s: State, h: nat, c: ConnStep, leg: Leg)
    requires ConnEnabled(s, h, c) && OnLeg(leg, s.conns[h]) && !EndsLeg(leg, c)
    ensures OnLeg(leg, ConnApply(s, h, c).conns[h]) || OffLeg(leg, ConnApply(s, h, c).conns[h])
  {
  }

  lemma AnsweringStep(s: State, h: nat, c: ConnStep)
    requires ConnEnabled(s, h, c) && Answering(s.conns[h])
    ensures Answering(ConnApply(s, h, c).conns[h])
  {
  }

  lemma {:induction false} StaysAnswering(s: State, run: seq<Step>, h: nat)
    requires Valid(s, run) && h < |s.conns| && Answering(s.conns[h])
    ensures h < |After(s, run).conns| && Answering(After(s, run).conns[h])
    decreases |run|
  {
    if run != [] {
      var a := run[0];
      ThreadsStay(s, a);
      if a.OfConn? && a.h == h {
        AnsweringStep(s, h, a.c);
      } else {
        OthersLeave(s, a, h);
      }
      StaysAnswering(Apply(s, a), run[1..], h);
    }
  }

  lemma {:induction false} StaysOff(s: State, run: seq<Step>, h: nat, leg: Leg)
    requires Valid(s, run) && h < |s.conns| && OffLeg(leg, s.conns[h])
    ensures h < |After(s, run).conns| && OffLeg(leg, After(s, run).conns[h])
    decreases |run|
  {
    if !leg.ToReply? {
      StaysAnswering(s, run, h);
    } else if run != [] {
      ThreadsStay(s, run[0]);
      OthersLeave(s, run[0], h);
      StaysOff(Apply(s, run[0]), run[1..], h, leg);
    }
  }

  /** Step i is the handler's, ends the leg, and was taken on it. */
  ghost predicate EndsAt(s: State, run: seq<Step>, h: nat, leg: Leg, i: nat)
    requires Valid(s, run)
  {
    && i < |run| && run[i].OfConn? && run[i].h == h && EndsLeg(leg, run[i].c) && Valid(s, run[..i])
    && h < |Ahead(s, run, i).conns| && OnLeg(leg, Ahead(s, run, i).conns[h])
  }

  lemma EndsLater(s: State, run: seq<Step>, h: nat, leg: Leg, i: nat)
    requires run != [] && Valid(s, run) && EndsAt(Apply(s, run[0]), run[1..], h, leg, i)
    ensures EndsAt(s, run, h, leg, i + 1)
  {
    TakesLater(s, run, h, run[1..][i].c, i);
  }

  /** A handler that was on a leg and is now elsewhere has taken the step that ends it,
      or has come off it by a join. */
  lemma {:induction false} LeavesLegByItsStep(s: State, run: seq<Step>, h: nat, leg: Leg)
    requires Valid(s, run) && h < |s.conns| && OnLeg(leg, s.conns[h])
    ensures h < |After(s, run).conns|
    ensures || OnLeg(leg, After(s, run).conns[h]) || OffLeg(leg, After(s, run).conns[h])
            || exists i :: EndsAt(s, run, h, leg, i)
    decreases |run|
  {
    if run != [] {
      var a, s' := run[0], Apply(s, run[0]);
      ThreadsStay(s, a);
      ConnsStayAlong(s', run[1..]);
      if a.OfConn? && a.h == h && EndsLeg(leg, a.c) {
        TakesFirst(s, run, h, a.c);
        assert EndsAt(s, run, h, leg, 0);
      } else {
        if a.OfConn? && a.h == h {
          LegStep(s, h, a.c, leg);
        } else {
          OthersLeave(s, a, h);
        }
        if OffLeg(leg, s'.conns[h]) {
          StaysOff(s', run[1..], h, leg);
        } else {
          LeavesLegByItsStep(s', run[1..], h, leg);
          if i: nat :| EndsAt(s', run[1..], h, leg, i) {
            EndsLater(s, run, h, leg, i);
          }
        }
      }
    }
  }

  /** A run splits at each of its steps. */
  lemma {:induction false} SplitRun(s: State, run: seq<Step>, i: nat)
    requires Valid(s, run) && i < |run|
    ensures Valid(s, run[..i]) && Enabled(After(s, run[..i]), run[i])
    ensures var next := Apply(After(s, run[..i]), run[i]);
            Valid(next, run[i + 1..]) && After(next, run[i + 1..]) == After(s, run)
    decreases i
  {
    if i == 0 {
      assert run[..0] == [];
    } else {
      SplitRun(Apply(s, run[0]), run[1..], i - 1);
      assert run[..i][1..] == run[1..][..i - 1] && run[1..][i..] == run[i + 1..];
    }
  }

  lemma ReachesFurther(s: State, run: seq<Step>)
    requires Reachable(s) && Valid(s, run)
    ensures Reachable(After(s, run))
  {
    var first :| Valid(INIT, first) && After(INIT, first) == s;
    ValidConcat(INIT, first, run);
  }

  lemma CancelledOnce(s: State, a: Step)
    requires Enabled(s, a)
    ensures s.cancelled <= Apply(s, a).cancelled
  {
    match a
    case OfAcceptor(x) => AcceptorFrame(s, x);
    case OfConn(h, c) => ConnFreesNothing(s, h, c);
    case OfTest(_, _) =>
  }

  lemma {:induction false} CancelledForGood(s: State, run: seq<Step>)
    requires Valid(s, run)
    ensures s.cancelled <= After(s, run).cancelled
    decreases |run|
  {
    if run != [] {
      CancelledOnce(s, run[0]);
      CancelledForGood(Apply(s, run[0]), run[1..]);
    }
  }

  lemma LegEnd(s: State, run: seq<Step>, h: nat, leg: Leg) returns (i: nat)
    requires Valid(s, run) && h < |s.conns| && OnLeg(leg, s.conns[h])
    requires h < |After(s, run).conns|
    requires !OnLeg(leg, After(s, run).conns[h]) && !OffLeg(leg, After(s, run).conns[h])
    ensures EndsAt(s, run, h, leg, i)
  {
    LeavesLegByItsStep(s, run, h, leg);
    i :| EndsAt(s, run, h, leg, i);
  }

  // ----------------------------------------------------------------- timeouts

  predicate AfterCancel(t: nat, pc: ConnPc) { pc == CancelDone(t) || pc == FinalJoin(t) }

  /** Step i is the handler's timed join giving up on t. */
  ghost predicate TimesOut(s: State, run: seq<Step>, h: nat, t: nat, i: nat)
    requires Valid(s, run)
  {
    && Takes(s, run, h, JoinTimeout, i)
    && var at := Ahead(s, run, i);
    && h < |at.conns| && at.conns[h] == Joining(t)
  }

  /** Step i is the handler's cancel site for t, under the status mutex: if t is
      registered there, it is cancelled, for good. */
  ghost predicate Cancels(s: State, run: seq<Step>, h: nat, t: nat, i: nat)
    requires Valid(s, run)
  {
    && Takes(s, run, h, Cancel, i)
    && var at := Ahead(s, run, i);
    && h < |at.conns| && at.conns[h] == Cancelling(t) && at.statusLock == Handler(h) && t < |at.tests|
    && (InGroup(at.tests[t]) ==> t in After(s, run).cancelled)
  }

  /** A handler gets as far as requesting a cancellation only if its timed join gave
      up before. */
  lemma OnlyTimeoutsCancel(s: State, run: seq<Step>, h: nat, t: nat)
    requires Valid(s, run) && h < |s.conns| && Waiting(t, s.conns[h])
    ensures h < |After(s, run).conns|
    ensures var pc := After(s, run).conns[h];
            Waiting(t, pc) || Answering(pc) || exists i :: TimesOut(s, run, h, t, i)
  {
    LeavesLegByItsStep(s, run, h, ToTimeout(t));
    var pc := After(s, run).conns[h];
    if !Waiting(t, pc) && !Answering(pc) {
      var i := LegEnd(s, run, h, ToTimeout(t));
      TimesOutThere(s, run, h, t, i);
    }
  }

  lemma TimesOutThere(s: State, run: seq<Step>, h: nat, t: nat, i: nat)
    requires Valid(s, run) && EndsAt(s, run, h, ToTimeout(t), i)
    ensures TimesOut(s, run, h, t, i)
  {
    SplitRun(s, run, i);
  }

  /** And one that comes to its final join has been at the cancel site: a missed
      deadline cancels every test that is registered then. */
  lemma TimeoutCancels(s: State, run: seq<Step>, h: nat, t: nat) returns (i: nat, j: nat)
    requires Reachable(s) && Valid(s, run) && h < |s.conns| && Waiting(t, s.conns[h])
    requires h < |After(s, run).conns| && AfterCancel(t, After(s, run).conns[h])
    ensures TimesOut(s, run, h, t, i) && Cancels(s, run, h, t, j)
  {
    i := LegEnd(s, run, h, ToTimeout(t));
    TimesOutThere(s, run, h, t, i);
    j := LegEnd(s, run, h, ToCancel(t));
    CancelsThere(s, run, h, t, j);
  }

  lemma CancelsThere(s: State, run: seq<Step>, h: nat, t: nat, i: nat)
    requires Reachable(s) && Valid(s, run) && EndsAt(s, run, h, ToCancel(t), i)
    ensures Cancels(s, run, h, t, i)
  {
    SplitRun(s, run, i);
    var at := Ahead(s, run, i);
    ReachesFurther(s, run[..i]);
    StatusHeld(at, h);
    TimeoutCancelsExactlyRegistered(at, h);
    CancelledForGood(Apply(at, run[i]), run[i + 1..]);
  }

  lemma StatusHeld(s: State, h: nat)
    requires Reachable(s) && h < |s.conns| && HoldsStatusLock(s.conns[h])
    ensures s.statusLock == Handler(h)
  {
    ReachableInv(s);
  }

  // -------------------------------------------------------------------- kills

  /** Step i is the handler's kill of group g: if the thread that runs g has its status
      cleanup still ahead, it is cancelled, for good. */
  ghost predicate Kills(s: State, run: seq<Step>, h: nat, g: nat, i: nat)
    requires Valid(s, run)
  {
    && Takes(s, run, h, KillThread, i)
    && var at := Ahead(s, run, i);
    && h < |at.conns| && at.conns[h] == Killing(g) && at.statusLock == Handler(h)
    && g < |at.groups| && at.groups[g].owner < |at.tests|
    && (Owes(at.tests[at.groups[g].owner], g) ==> at.groups[g].owner in After(s, run).cancelled)
  }

  /** A handler that parsed a kill command gets further, and so to its reply, only by
      the kill it was asked for. */
  lemma KillKills(s: State, run: seq<Step>, h: nat, g: nat)
    requires Reachable(s) && Valid(s, run) && run != [] && run[0] == OfConn(h, Parse(Kill(g)))
    ensures h < |After(s, run).conns|
    ensures OnLeg(ToKill(g), After(s, run).conns[h]) || exists i :: Kills(s, run, h, g, i)
  {
    LeavesLegByItsStep(Apply(s, run[0]), run[1..], h, ToKill(g));
    if i: nat :| EndsAt(Apply(s, run[0]), run[1..], h, ToKill(g), i) {
      EndsLater(s, run, h, ToKill(g), i);
      KillsThere(s, run, h, g, i + 1);
    }
  }

  lemma KillsThere(s: State, run: seq<Step>, h: nat, g: nat, i: nat)
    requires Reachable(s) && Valid(s, run) && EndsAt(s, run, h, ToKill(g), i)
    ensures Kills(s, run, h, g, i)
  {
    SplitRun(s, run, i);
    var at := Ahead(s, run, i);
    ReachesFurther(s, run[..i]);
    StatusHeld(at, h);
    KillCancelsExactlyTheOwner(at, h);
    CancelledForGood(Apply(at, run[i]), run[i + 1..]);
  }

  // -------------------------------------------------------------------- replies

  /** No connection is left without an answer, but for one whose read failed. */
  lemma AnswersBeforeLeaving(s: State, run: seq<Step>, h: nat)
    requires Valid(s, run) && h < |s.conns| && s.conns[h].Reading?
    ensures h < |After(s, run).conns|
    ensures var pc := After(s, run).conns[h];
            pc.WantLeave? || pc.Leaving? || pc.Left? || pc.Gone? ==> exists i :: Takes(s, run, h, Reply, i)
  {
    LeavesLegByItsStep(s, run, h, ToReply);
    if i: nat :| EndsAt(s, run, h, ToReply, i) {
      assert Takes(s, run, h, Reply, i);
    }
  }

  // ------------------------------------------------------- tests and utilities

  /** A handler that parsed a test command gets further only by creating a test of its
      own. */
  lemma TestCommandCreates(s: State, run: seq<Step>, h: nat, wait: bool)
    requires Valid(s, run) && run != [] && run[0] == OfConn(h, Parse(RunTest(wait)))
    ensures h < |After(s, run).conns|
    ensures || OnLeg(ToCreation, After(s, run).conns[h])
            || exists i, ok :: Takes(s, run, h, CreateTest(ok), i)
  {
    LeavesLegByItsStep(Apply(s, run[0]), run[1..], h, ToCreation);
    if i: nat :| EndsAt(Apply(s, run[0]), run[1..], h, ToCreation, i) {
      EndsLater(s, run, h, ToCreation, i);
      assert Takes(s, run, h, CreateTest(run[i + 1].c.ok), i + 1);
    }
  }

  /** A handler on its way out does nothing but report, reply and leave. */
  predicate Quiet(c: ConnStep) { c.Report? || c.Reply? || c.LeaveLock? || c.Leave? || c.LeaveUnlock? }

  lemma QuietStep(s: State, h: nat, c: ConnStep)
    requires ConnEnabled(s, h, c) && Answering(s.conns[h])
    ensures Quiet(c)
  {
  }

  lemma AnsweringIsQuiet(s: State, run: seq<Step>, h: nat, i: nat)
    requires Valid(s, run) && h < |s.conns| && Answering(s.conns[h])
    requires i < |run| && run[i].OfConn? && run[i].h == h
    ensures Quiet(run[i].c)
  {
    SplitRun(s, run, i);
    StaysAnswering(s, run[..i], h);
    QuietStep(After(s, run[..i]), h, run[i].c);
  }

  /** A handler that parsed a utility command never touches a gate, a test or a
      cancellation. */
  lemma UtilityIsQuiet(s: State, run: seq<Step>, h: nat, i: nat)
    requires Valid(s, run) && run != [] && run[0] == OfConn(h, Parse(Utility))
    requires 0 < i < |run| && run[i].OfConn? && run[i].h == h
    ensures Quiet(run[i].c) && !run[i].c.Report?
  {
    AnsweringIsQuiet(Apply(s, run[0]), run[1..], h, i - 1);
    assert run[1..][i - 1] == run[i];
    NoReportAhead(Apply(s, run[0]), run[1..], h, i - 1);
  }

  // -------------------------------------------------------------------- reports

  predicate Reported(pc: ConnPc) { Answering(pc) && !pc.Reporting? }

  lemma {:induction false} NoReportAhead(s: State, run: seq<Step>, h: nat, i: nat)
    requires Valid(s, run) && h < |s.conns| && Reported(s.conns[h])
    requires i < |run|
    ensures run[i] != OfConn(h, Report)
    decreases i
  {
    if i > 0 {
      var a := run[0];
      ThreadsStay(s, a);
      if a.OfConn? && a.h == h {
        ReportedStep(s, h, a.c);
      } else {
        OthersLeave(s, a, h);
      }
      NoReportAhead(Apply(s, a), run[1..], h, i - 1);
    }
  }

  lemma ReportedStep(s: State, h: nat, c: ConnStep)
    requires ConnEnabled(s, h, c) && Reported(s.conns[h])
    ensures Reported(ConnApply(s, h, c).conns[h])
  {
  }

  /** A join is over: the handler reports exactly if the test had died. */
  lemma JoinReports(s: State, h: nat, c: ConnStep, t: nat)
    requires Inv(s) && ConnEnabled(s, h, c) && Joins(s, h, t) && !Joins(ConnApply(s, h, c), h, t)
    ensures t < |s.tests| && s.tests[t].Terminated?
    ensures ConnApply(s, h, c).conns[h] == if t in s.died then Reporting(t) else Replying
  {
    GivenUp(s, h, c);
  }

  /** Once the handler of a test is past its report, it has reported the cancellation
      if and only if the test died of one. */
  lemma {:induction false} ReportedExactly(s: State, run: seq<Step>, h: nat, t: nat)
    requires Inv(s) && Valid(s, run) && Joins(s, h, t)
    requires h < |After(s, run).conns| && Reported(After(s, run).conns[h])
    ensures (exists i :: Takes(s, run, h, Report, i)) <==> t in After(s, run).died
    decreases |run|
  {
    var a, s' := run[0], Apply(s, run[0]);
    InvKept(s, a);
    if Joins(s', h, t) {
      ReportedExactly(s', run[1..], h, t);
      ReportsShift(s, run, h);
    } else {
      if a.OfConn? && a.h == h {
        JoinReports(s, h, a.c, t);
      } else {
        OthersLeave(s, a, h);
      }
      FateOfJoined(s', run[1..], h, t);
      ReportsShift(s, run, h);
    }
  }

  lemma ReportsShift(s: State, run: seq<Step>, h: nat)
    requires run != [] && Valid(s, run) && run[0] != OfConn(h, Report)
    ensures (exists i :: Takes(s, run, h, Report, i)) <==>
            exists i :: Takes(Apply(s, run[0]), run[1..], h, Report, i)
  {
    if i :| Takes(s, run, h, Report, i) {
      TakesShift(s, run, h, Report, i);
    }
    if i :| Takes(Apply(s, run[0]), run[1..], h, Report, i) {
      TakesLater(s, run, h, Report, i);
    }
  }

  // After the join: a report is due exactly if t died, and that does not change.
  lemma FateOfJoined(s: State, run: seq<Step>, h: nat, t: nat)
    requires Inv(s) && Valid(s, run) && h < |s.conns| && t < |s.tests| && s.tests[t].Terminated?
    requires s.conns[h] == if t in s.died then Reporting(t) else Replying
    requires h < |After(s, run).conns| && Reported(After(s, run).conns[h])
    ensures (exists i :: Takes(s, run, h, Report, i)) <==> t in After(s, run).died
  {
    if t in s.died {
      CancelledLeak(s, run, t);
      ReportingReports(s, run, h);
    } else {
      FreedStay(s, run, t);
      InvAlong(s, run);
      if i :| Takes(s, run, h, Report, i) {
        NoReportAhead(s, run, h, i);
      }
    }
  }

  lemma {:induction false} ReportingReports(s: State, run: seq<Step>, h: nat)
    requires Valid(s, run) && h < |s.conns| && s.conns[h].Reporting?
    requires h < |After(s, run).conns| && Reported(After(s, run).conns[h])
    ensures exists i :: Takes(s, run, h, Report, i)
    decreases |run|
  {
    var a := run[0];
    ThreadsStay(s, a);
    if a.OfConn? && a.h == h {
      TakesFirst(s, run, h, Report);
    } else {
      OthersLeave(s, a, h);
      ReportingReports(Apply(s, a), run[1..], h);
      ReportsShift(s, run, h);
    }
  }

  // ------------------------------------------------------- both ends do occur

  /** A run in which a test records that it is done and ends so. */
  lemma FinishedRun() returns (s: State)
    ensures Reachable(s) && s.groups == [Group(None, Done, 0)] && s.tests == [Terminated]
    ensures s.testCount == 0 && s.conns == [Replying] && s.died == {}
  {
    s := Waited();
    s := Move(s, OfConn(0, SetDeadline));
    s := Move(s, OfTest(0, Work(Done)));
    s := Move(s, OfTest(0, Finish));
    assert s.tests == [WantSettle(0)] && s.groups == [Group(Some(0), Done, 0)];
    s := Wrapped(s);
    s := Move(s, OfConn(0, Join));
  }

  /** And one in which the handler times out, cancels the test, reports that and goes
      on to reply, leaving the group stopped and the slot free. */
  lemma CancelledRun() returns (s: State)
    ensures Reachable(s) && s.groups == [Group(None, Stopped, 0)] && s.tests == [Terminated]
    ensures s.testCount == 0 && s.conns == [Replying] && s.died == {0}
  {
    s := TimedOut();
    s := Move(s, OfTest(0, Die));
    assert s.tests == [WantSettle(0)];
    s := Wrapped(s);
    s := Move(s, OfConn(0, LastJoin));
    s := Move(s, OfConn(0, Report));
  }

  lemma TimedOut() returns (s: State)
    ensures Reachable(s)
    ensures s == INIT.(connCount := 1, testCount := 1, conns := [FinalJoin(0)], tests := [Running(0)],
                       groups := [Group(Some(0), RunningTest, 0)], cancelled := {0})
  {
    s := Waited();
    s := Move(s, OfConn(0, SetDeadline));
    s := Move(s, OfConn(0, JoinTimeout));
    s := Move(s, OfConn(0, CancelLock));
    assert s.groups[0].thread == Some(0);
    s := Move(s, OfConn(0, Cancel));
    s := Move(s, OfConn(0, CancelUnlock));
    assert s.conns == [FinalJoin(0)] && s.cancelled == {0};
  }

  // One test, running and registered, and its handler ahead of the join.
  lemma Waited() returns (s: State)
    ensures Reachable(s)
    ensures s == INIT.(connCount := 1, testCount := 1, conns := [Timing(0)], tests := [Running(0)],
                       groups := [Group(Some(0), RunningTest, 0)])
  {
    var run: seq<Step> := [];
    run := Connect(INIT, run, true);
    run := Admit(INIT, run, 0);
    run := Extend(INIT, run, OfConn(0, CreateTest(true)));
    run := Extend(INIT, run, OfTest(0, Register(RunningTest)));
    s := After(INIT, run);
    assert s.conns == [Timing(0)] && s.tests == [Running(0)] && s.groups == [Group(Some(0), RunningTest, 0)];
  }

  lemma Move(s: State, a: Step) returns (e: State)
    requires Reachable(s) && Enabled(s, a)
    ensures Reachable(e) && e == Apply(s, a)
  {
    e := Apply(s, a);
    assert Valid(e, []) && [a][1..] == [];
    assert Valid(s, [a]) && After(s, [a]) == e;
    ReachesFurther(s, [a]);
  }

  // The cleanups of a test that has left its body.
  lemma Wrapped(s: State) returns (e: State)
    requires Reachable(s) && s.tests == [WantSettle(0)] && |s.groups| == 1 && !s.acceptor.Exited?
    requires s.statusLock.Nobody? && s.testLock.Nobody? && |s.conns| == 1 && !s.conns[0].Parked?
    ensures Reachable(e)
    ensures e == s.(tests := [Terminated], testCount := s.testCount - 1, groups := [SettledGroup(s.groups[0])])
  {
    e := Move(s, OfTest(0, SettleLock));
    e := Move(e, OfTest(0, Settle));
    e := Move(e, OfTest(0, SettleUnlock));
    assert e.tests == [WantRelease];
    e := Move(e, OfTest(0, ReleaseLock));
    e := Move(e, OfTest(0, Release(None)));
    e := Move(e, OfTest(0, ReleaseUnlock));
    assert e.tests == [Terminated];
  }
}
