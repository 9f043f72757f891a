// The run loops of the case and executable handlers, and what a waited run
// reports.

module RunLoop {
  import opened Optional
  import opened Status

  /** The part of a status group the loop writes. */
  class StatusGroup {
    var action: TestAction

    constructor ()
    {
      action := Idle;
    }
  }

  /** loops may be any int here; the command line only lets positive ones through. */
  datatype Args = Args(wait: bool, loops: int, stopOnFail: bool, executionTime: int)

  datatype Kind = CaseRun | ExecutableRun

  /** What one run meets: what execution k returns, and the clock, read once
      before the loop if the run is timed and once after each execution. */
  datatype World = World(outcome: nat -> int, clock: nat -> int)

  function Deadline(a: Args, w: World): int {
    if a.executionTime != 0 then a.executionTime + w.clock(0) else 0
  }

  predicate Fails(w: World, k: nat) { w.outcome(k) != 0 }

  predicate Over(a: Args, w: World, k: nat) {
    Deadline(a, w) != 0 && w.clock(k + 1) > Deadline(a, w)
  }

  /** The least k below the bound with p, or the bound. */
  function First(p: nat -> bool, bound: nat): (r: nat)
    ensures r <= bound && forall k: nat :: k < r ==> !p(k)
    ensures r < bound ==> p(r)
  {
    if bound == 0 then 0
    else if First(p, bound - 1) < bound - 1 then First(p, bound - 1)
    else if p(bound - 1) then bound - 1
    else bound
  }

  function FirstFailure(w: World, bound: nat): (r: nat)
    ensures r <= bound && forall k: nat :: k < r ==> !Fails(w, k)
    ensures r < bound ==> Fails(w, r)
  {
    var p := (k: nat) => Fails(w, k);
    var r := First(p, bound);
    assert forall k: nat :: Fails(w, k) == p(k);
    r
  }

  function FirstOver(a: Args, w: World, bound: nat): (r: nat)
    ensures r <= bound && forall k: nat :: k < r ==> !Over(a, w, k)
    ensures r < bound ==> Over(a, w, r)
  {
    var p := (k: nat) => Over(a, w, k);
    var r := First(p, bound);
    assert forall k: nat :: Over(a, w, k) == p(k);
    r
  }

  function Min(a: int, b: int): int { if a < b then a else b }

  /** The executions of a run: all loops, cut short after the first failure if it
      stops on failures, and after the first execution past the deadline. */
  function Executions(a: Args, w: World): (n: nat) {
    var loops := if a.loops > 0 then a.loops else 0;
    var byFailure := if a.stopOnFail then FirstFailure(w, loops) + 1 else loops;
    var byTime := FirstOver(a, w, loops) + 1;
    Min(loops, Min(byFailure, byTime))
  }

  ghost predicate AnyFailure(w: World, n: nat) { exists k :: 0 <= k < n && Fails(w, k) }

  /** The loop ends with iteration k. */
  predicate Ends(a: Args, w: World, k: nat) {
    (a.stopOnFail && Fails(w, k)) || Over(a, w, k)
  }

  lemma ExecutionsAre(a: Args, w: World, n: nat)
    requires n <= a.loops && forall k :: 0 <= k < n - 1 ==> !Ends(a, w, k)
    requires n < a.loops ==> n > 0 && Ends(a, w, n - 1)
    ensures Executions(a, w) == n
  {
    var byFailure := FirstFailure(w, a.loops);
    var byTime := FirstOver(a, w, a.loops);
    if a.stopOnFail && byFailure < n - 1 {
      assert Ends(a, w, byFailure);
    }
    if byTime < n - 1 {
      assert Ends(a, w, byTime);
    }
  }

  /** The loop of tb_thread_handler_case and tb_thread_handler_executable, from
      the action set to running on.  The case handler sleeps after every iteration
      that does not end the loop. */
  method RunTests(a: Args, w: World, kind: Kind, group: StatusGroup)
    returns (result: int, executions: nat, sleeps: nat)
    modifies group
    ensures executions == Executions(a, w)
    ensures result == if AnyFailure(w, executions) then -1 else 0
    ensures group.action == if a.stopOnFail && AnyFailure(w, executions) then Stopped else Done
    ensures sleeps == if kind.ExecutableRun? then 0
                      else if executions > 0 && Ends(a, w, executions - 1) then executions - 1
                      else executions
  {
    group.action := RunningTest;
    result, executions, sleeps := 0, 0, 0;
    var deadline := a.executionTime;
    if deadline != 0 {
      deadline := deadline + w.clock(0);
    }
    while executions < a.loops
      invariant executions <= if a.loops > 0 then a.loops else 0
      invariant forall k :: 0 <= k < executions ==> !Ends(a, w, k)
      invariant result == if AnyFailure(w, executions) then -1 else 0
      invariant sleeps == if kind.CaseRun? then executions else 0
    {
      var k := executions;
      executions := executions + 1;
      if w.outcome(k) != 0 {
        result := -1;
        assert Fails(w, k);
      }
      assert AnyFailure(w, executions) <==> AnyFailure(w, k) || Fails(w, k);
      if result != 0 && a.stopOnFail {
        group.action := Stopped;
        StopsAtFirst(a, w, k);
        ExecutionsAre(a, w, executions);
        return;
      }
      if deadline != 0 && w.clock(k + 1) > deadline {
        group.action := Done;
        ExecutionsAre(a, w, executions);
        return;
      }
      if kind.CaseRun? {
        sleeps := sleeps + 1;
      }
    }
    group.action := Done;
    NotStopped(a, w, executions);
    if a.loops > 0 {
      ExecutionsAre(a, w, executions);
    }
  }

  lemma NotStopped(a: Args, w: World, n: nat)
    requires forall k :: 0 <= k < n ==> !Ends(a, w, k)
    ensures a.stopOnFail ==> !AnyFailure(w, n)
  {
    forall k | 0 <= k < n
      ensures a.stopOnFail ==> !Fails(w, k)
    {
      assert !Ends(a, w, k);
    }
  }

  lemma StopsAtFirst(a: Args, w: World, k: nat)
    requires a.stopOnFail && forall j :: 0 <= j < k ==> !Ends(a, w, j)
    requires AnyFailure(w, k + 1)
    ensures Ends(a, w, k)
  {
    var j :| 0 <= j < k + 1 && Fails(w, j);
    assert Ends(a, w, j);
  }

  // ------------------------------------------------------------- what is reported

  datatype Joined = Cancelled | Returned(status: int)

  datatype Report = ErrorText | OkText | FailText | PassText

  /** finalize_thread: a status only if the creator waits for one. */
  function Finalize(result: int, a: Args): Option<int> {
    if a.wait then Some(result) else None
  }

  /** exec_test_thread after its gate: the text it leaves and whether it returns
      TB_OK. */
  function Reply(wait: bool, created: bool, joined: Joined): (Report, bool) {
    if !created then (ErrorText, false)
    else if !wait then (OkText, true)
    else
      match joined
      case Cancelled => (FailText, false)
      case Returned(status) => if status != 0 then (FailText, false) else (PassText, true)
  }

  /** A waited run that is not cancelled reports PASS exactly when every execution
      it made returned 0, and it made at least one. */
  method WaitedRun(a: Args, w: World, kind: Kind) returns (report: Report, ok: bool)
    requires a.wait && a.loops >= 1
    ensures Executions(a, w) >= 1
    ensures report == PassText <==> forall k :: 0 <= k < Executions(a, w) ==> w.outcome(k) == 0
    ensures report == PassText || report == FailText
    ensures ok <==> report == PassText
  {
    var group := new StatusGroup();
    var result, executions, _ := RunTests(a, w, kind, group);
    var response := Finalize(result, a);
    report, ok := Reply(a.wait, true, Returned(response.value)).0, Reply(a.wait, true, Returned(response.value)).1;
    assert AnyFailure(w, executions) <==> !(forall k :: 0 <= k < executions ==> w.outcome(k) == 0) by {
      if k :| 0 <= k < executions && w.outcome(k) != 0 {
        assert Fails(w, k);
      }
    }
  }

  /** How many executions a run makes, from the outcomes and the clock alone: the
      deadline is the time of day before the loop plus the execution time, and a sum
      of 0 counts as none. */
  ghost predicate Makes(a: Args, w: World, n: int) {
    var deadline := w.clock(0) + a.executionTime;
    var timed := a.executionTime != 0 && deadline != 0;
    && 1 <= n <= a.loops
    && (a.stopOnFail ==> forall k: nat :: k < n - 1 ==> w.outcome(k) == 0)
    && (timed ==> forall k: nat :: 1 <= k < n ==> w.clock(k) <= deadline)
    && (n == a.loops || (a.stopOnFail && w.outcome(n - 1) != 0) || (timed && w.clock(n) > deadline))
  }

  lemma MakesIsEnds(a: Args, w: World, n: int)
    ensures Makes(a, w, n) <==>
            && 1 <= n <= a.loops && (forall k :: 0 <= k < n - 1 ==> !Ends(a, w, k))
            && (n == a.loops || Ends(a, w, n - 1))
  {
    if 1 <= n <= a.loops && forall k :: 0 <= k < n - 1 ==> !Ends(a, w, k) {
      forall k: nat | k < n - 1
        ensures a.stopOnFail ==> w.outcome(k) == 0
        ensures !Over(a, w, k)
      {
        assert !Ends(a, w, k);
      }
      forall k: nat | 1 <= k < n
        ensures a.executionTime != 0 && Deadline(a, w) != 0 ==> w.clock(k) <= Deadline(a, w)
      {
        assert !Over(a, w, k - 1);
      }
    }
  }

  lemma ExecutionsExactly(a: Args, w: World, n: int)
    ensures a.loops <= 0 ==> Executions(a, w) == 0
    ensures a.loops > 0 ==> (Executions(a, w) == n <==> Makes(a, w, n))
  {
    if a.loops > 0 {
      MakesIsEnds(a, w, n);
      if Makes(a, w, n) {
        ExecutionsAre(a, w, n);
      }
      var m := Counted(a, w);
      MakesIsEnds(a, w, m);
      ExecutionsAre(a, w, m);
    }
  }

  // The first iteration that ends the loop, and all loops if there is none.
  lemma Counted(a: Args, w: World) returns (n: nat)
    requires a.loops > 0
    ensures 1 <= n <= a.loops && forall k :: 0 <= k < n - 1 ==> !Ends(a, w, k)
    ensures n < a.loops ==> Ends(a, w, n - 1)
  {
    n := 1;
    while n < a.loops && !Ends(a, w, n - 1)
      invariant 1 <= n <= a.loops && forall k :: 0 <= k < n - 1 ==> !Ends(a, w, k)
    {
      n := n + 1;
    }
  }

  /** A timed run that no failure stops goes on exactly as long as the clock allows:
      n executions if and only if the deadline was kept after each but the last, and
      missed after the last unless all loops are done. */
  lemma TimedRun(a: Args, w: World, n: int)
    requires a.loops > 0 && a.executionTime != 0 && w.clock(0) + a.executionTime != 0
    requires a.stopOnFail ==> forall k: nat :: w.outcome(k) == 0
    ensures Executions(a, w) == n <==>
            && 1 <= n <= a.loops
            && (forall k: nat :: 1 <= k < n ==> w.clock(k) <= w.clock(0) + a.executionTime)
            && (n == a.loops || w.clock(n) > w.clock(0) + a.executionTime)
  {
    ExecutionsExactly(a, w, n);
  }

  /** The other reports: a test that could not be created is an error; one nobody waits
      for is fine as soon as it runs; a cancelled one has failed. */
  lemma OtherReports(wait: bool, joined: Joined, status: int)
    ensures Reply(wait, false, joined) == (ErrorText, false)
    ensures Reply(false, true, joined) == (OkText, true)
    ensures Reply(true, true, Cancelled) == (FailText, false)
    ensures Reply(true, true, Returned(status)) == (PassText, true) <==> status == 0
    ensures Reply(true, true, Returned(status)) == (FailText, false) <==> status != 0
  {
  }

  /** When the run is neither timed nor stopped by a failure it makes all its loops. */
  lemma UntimedRunsAllLoops(a: Args, w: World)
    requires a.loops >= 0 && a.executionTime == 0
    requires a.stopOnFail ==> forall k :: 0 <= k < a.loops ==> w.outcome(k) == 0
    ensures Executions(a, w) == a.loops
  {
    ExecutionsAre(a, w, a.loops);
  }
}
