/** What the waiting loop's specification implies about whole runs and their progress lines. */
module LoopProperties {
  import opened Wrappers
  import opened JavaLang
  import opened ExitCodes
  import opened Probe
  import opened WaitingLoop

  ghost predicate NonDecreasing(clock: nat -> int) {
    forall i: nat, j: nat :: i <= j ==> clock(i) <= clock(j)
  }

  // ---------------------------------------------------------------- outcomes

  /** An environment determines its run: it allows at most one. */
  lemma LoopSpecDeterministic(env: Environment, timeoutSec: int32, msg: bool, r1: Run, r2: Run)
    requires LoopSpec(env, timeoutSec, msg, r1) && LoopSpec(env, timeoutSec, msg, r2)
    ensures r1 == r2
  {
  }

  /**
   * The first iteration that ends the run ends it: if the guard lets the loop
   * reach iteration j and j is the first whose attempt or sleep is terminal,
   * the run makes exactly j + 1 attempts and ends with that iteration's outcome.
   */
  lemma RunEndsAtFirstTerminalStep(env: Environment, timeoutSec: int32, msg: bool, r: Run, j: nat, o: Outcome)
    requires LoopSpec(env, timeoutSec, msg, r)
    requires forall i :: 1 <= i <= j + 1 ==> env.clock(i) < WaitUntil(env.clock(0), timeoutSec)
    requires forall i :: 0 <= i < j ==> StepOutcome(env, i) == None
    requires StepOutcome(env, j) == Some(o)
    ensures r.probes == j + 1 && r.outcome == o
  {
  }

  /** The first reachable attempt ends the run with exit code 0 and no further attempt. */
  lemma FirstReachableSucceeds(env: Environment, timeoutSec: int32, msg: bool, r: Run, j: nat)
    requires LoopSpec(env, timeoutSec, msg, r)
    requires forall i :: 1 <= i <= j + 1 ==> env.clock(i) < WaitUntil(env.clock(0), timeoutSec)
    requires forall i :: 0 <= i < j ==> StepOutcome(env, i) == None
    requires env.attempt(j) == Connected
    ensures r.probes == j + 1 && r.outcome == Success && ExitCode(r.outcome) == 0
  {
    RunEndsAtFirstTerminalStep(env, timeoutSec, msg, r, j, Success);
  }

  /**
   * A "No suitable driver found" error ends the run at once with exit code 4,
   * however much of the timeout is left.
   */
  lemma NoSuitableDriverEndsRunAtOnce(env: Environment, timeoutSec: int32, msg: bool, r: Run)
    requires LoopSpec(env, timeoutSec, msg, r)
    requires env.clock(1) < WaitUntil(env.clock(0), timeoutSec)
    requires IsJdbcUrlAccessible(env.attempt(0)) == Fatal
    ensures r.probes == 1 && r.outcome == NoJdbcDriver && ExitCode(r.outcome) == 4
  {
    RunEndsAtFirstTerminalStep(env, timeoutSec, msg, r, 0, NoJdbcDriver);
  }

  /** An interrupted sleep after a retryable attempt ends the run with exit code 3. */
  lemma InterruptedSleepEndsRun(env: Environment, timeoutSec: int32, msg: bool, r: Run, j: nat)
    requires LoopSpec(env, timeoutSec, msg, r)
    requires forall i :: 1 <= i <= j + 1 ==> env.clock(i) < WaitUntil(env.clock(0), timeoutSec)
    requires forall i :: 0 <= i < j ==> StepOutcome(env, i) == None
    requires IsJdbcUrlAccessible(env.attempt(j)) == Retryable && env.sleep(j) == Interrupted
    ensures r.probes == j + 1 && r.outcome == GenericError && ExitCode(r.outcome) == 3
  {
    RunEndsAtFirstTerminalStep(env, timeoutSec, msg, r, j, GenericError);
  }

  /**
   * A timeout is reported only once a guard reading is at or past the
   * deadline, and every attempt before it was retried after a full sleep.
   */
  lemma TimeoutOnlyAtDeadline(env: Environment, timeoutSec: int32, msg: bool, r: Run)
    requires LoopSpec(env, timeoutSec, msg, r)
    requires r.outcome == TimedOut
    ensures env.clock(r.probes + 1) >= WaitUntil(env.clock(0), timeoutSec)
    ensures forall j :: 0 <= j < r.probes ==>
      IsJdbcUrlAccessible(env.attempt(j)) == Retryable && env.sleep(j) == Slept
  {
    forall j | 0 <= j < r.probes
      ensures IsJdbcUrlAccessible(env.attempt(j)) == Retryable && env.sleep(j) == Slept
    {
      assert StepOutcome(env, j) == None;
    }
  }

  /** With a non-decreasing clock, a run times out no earlier than `timeoutSec` seconds after it started. */
  lemma TimeoutNotBeforeTimeoutSeconds(env: Environment, timeoutSec: int32, msg: bool, r: Run)
    requires LoopSpec(env, timeoutSec, msg, r)
    requires NonDecreasing(env.clock)
    requires r.outcome == TimedOut
    requires InInt32Range(timeoutSec as int * 1000)
    ensures forall i :: 1 <= i <= r.probes ==> env.clock(i) - env.clock(0) < timeoutSec as int * 1000
    ensures env.clock(r.probes + 1) - env.clock(0) >= timeoutSec as int * 1000
  {
  }

  /**
   * With a non-decreasing clock and a timeout of zero or less (one whose
   * product with 1000 fits in an `int`), the loop body never runs.
   */
  lemma NonPositiveTimeoutMakesNoAttempt(env: Environment, timeoutSec: int32, msg: bool, r: Run)
    requires LoopSpec(env, timeoutSec, msg, r)
    requires NonDecreasing(env.clock)
    requires timeoutSec <= 0 && InInt32Range(timeoutSec as int * 1000)
    ensures r.probes == 0 && r.reports == [] && r.outcome == TimedOut && ExitCode(r.outcome) == 1
  {
    assert env.clock(0) <= env.clock(1);
    assert WaitUntil(env.clock(0), timeoutSec) <= env.clock(0);
  }

  /**
   * `timeoutSec * 1000` wraps for a timeout of 2147484 seconds (about 24.9
   * days): the deadline lies before the start and, with a non-decreasing
   * clock, the run times out without a single attempt.
   */
  lemma LongTimeoutWrapsToImmediateTimeout(env: Environment, msg: bool, r: Run)
    requires LoopSpec(env, 2147484, msg, r)
    requires NonDecreasing(env.clock)
    ensures WaitUntil(env.clock(0), 2147484) == env.clock(0) - 2147483296
    ensures r.probes == 0 && r.outcome == TimedOut
  {
    assert Wrap32(2147484000) as int == -2147483296 by {
      assert (Wrap32(2147484000) as int - 2147484000) % TwoTo32 == 0;
    }
    assert env.clock(0) <= env.clock(1);
  }

  /** In the other direction a negative timeout can wrap to a deadline almost 25 days ahead. */
  lemma NegativeTimeoutCanWrapToLongWait(millisBefore: int)
    ensures WaitUntil(millisBefore, -2147484) == millisBefore + 2147483296
  {
  }

  /**
   * The guard tests the reading taken before an iteration; the reading taken
   * inside it is not compared with the deadline. Here that reading is 4
   * seconds past a 1-second deadline and the attempt still runs and succeeds.
   */
  lemma AttemptMayRunPastDeadline(r: Run)
    requires LoopSpec(Environment(i => if i < 2 then 0 else 5000, j => Connected, j => Slept), 1, false, r)
    ensures r.probes == 1 && r.outcome == Success
    ensures 5000 >= WaitUntil(0, 1)
  {
    var env := Environment(i => if i < 2 then 0 else 5000, j => Connected, j => Slept);
    RunEndsAtFirstTerminalStep(env, 1, false, r, 0, Success);
  }

  /**
   * Two refused connections followed by an accessible one, one second per
   * iteration and a 60-second timeout: exactly three attempts and exit code 0.
   */
  lemma RetryRetryReachable(r: Run)
    requires LoopSpec(Environment(i => 1000 * i, j => if j < 2 then ReturnedNull else Connected, j => Slept), 60, false, r)
    ensures r.probes == 3 && r.outcome == Success && ExitCode(r.outcome) == 0
  {
    var env := Environment(i => 1000 * i, j => if j < 2 then ReturnedNull else Connected, j => Slept);
    assert StepOutcome(env, 0) == None && StepOutcome(env, 1) == None;
    RunEndsAtFirstTerminalStep(env, 60, false, r, 2, Success);
  }

  // ---------------------------------------------------------- progress lines

  /** Without `-msg` no progress line fires. */
  lemma {:induction false} ReportsDisabled(env: Environment, n: nat)
    ensures Reports(env, false, n) == []
  {
    if n > 0 {
      ReportsDisabled(env, n - 1);
    }
  }

  /** Lines once fired stay fired: the lines of a shorter run are a prefix of a longer one's. */
  lemma {:induction false} ReportsPrefix(env: Environment, msg: bool, n: nat, m: nat)
    requires n <= m
    ensures Reports(env, msg, n) <= Reports(env, msg, m)
    decreases m - n
  {
    if n < m {
      ReportsPrefix(env, msg, n, m - 1);
    }
  }

  /** At most one line per iteration, in iteration order. */
  lemma {:induction false} ReportsOnePerIteration(env: Environment, msg: bool, n: nat)
    ensures forall a, b :: 0 <= a < b < |Reports(env, msg, n)| ==>
      Reports(env, msg, n)[a].iteration < Reports(env, msg, n)[b].iteration
  {
    if n > 0 {
      ReportsOnePerIteration(env, msg, n - 1);
    }
  }

  /**
   * The k-th line (from 0) fires on a reading strictly past the cursor
   * `millisBefore + 5000 * (k + 1)`, and shows the elapsed seconds of that reading.
   */
  lemma {:induction false} ReportThreshold(env: Environment, msg: bool, n: nat, k: nat)
    requires k < |Reports(env, msg, n)|
    ensures var rep := Reports(env, msg, n)[k];
      && env.clock(rep.iteration + 2) > NextMsgMillis(env.clock(0), k)
      && rep.elapsedSeconds == ElapsedSeconds(env.clock(0), env.clock(rep.iteration + 2))
  {
    if k < |Reports(env, msg, n - 1)| {
      ReportThreshold(env, msg, n - 1, k);
    }
  }

  /** Some progress line among `rs` was fired in iteration j. */
  ghost predicate FiresIn(rs: seq<Report>, j: nat) {
    exists k :: 0 <= k < |rs| && rs[k].iteration == j
  }

  /** Appending a line adds exactly its iteration to those that fired. */
  lemma FiresInAppend(rs: seq<Report>, line: Report, j: nat)
    ensures FiresIn(rs + [line], j) <==> FiresIn(rs, j) || line.iteration == j
  {
    if FiresIn(rs + [line], j) {
      var k :| 0 <= k < |rs + [line]| && (rs + [line])[k].iteration == j;
      if k < |rs| {
        assert rs[k] == (rs + [line])[k];
      }
    }
    if FiresIn(rs, j) {
      var k :| 0 <= k < |rs| && rs[k].iteration == j;
      assert (rs + [line])[k] == rs[k];
    }
    if line.iteration == j {
      assert (rs + [line])[|rs|] == line;
    }
  }

  /** No line among lines of earlier iterations fired in iteration j. */
  lemma NotFiresInLater(rs: seq<Report>, j: nat)
    requires forall k :: 0 <= k < |rs| ==> rs[k].iteration < j
    ensures !FiresIn(rs, j)
  {
  }

  /**
   * A line fires in iteration j exactly when `-msg` is set and that
   * iteration's reading is strictly past the cursor left by the lines
   * of the earlier iterations.
   */
  lemma {:induction false} ReportFiresWhenDue(env: Environment, msg: bool, n: nat, j: nat)
    requires j < n
    ensures FiresIn(Reports(env, msg, n), j) <==>
      msg && env.clock(j + 2) > NextMsgMillis(env.clock(0), |Reports(env, msg, j)|)
  {
    var prior := Reports(env, msg, n - 1);
    var line := Report(n - 1, ElapsedSeconds(env.clock(0), env.clock(n + 1)));
    var fired := msg && env.clock(n + 1) > NextMsgMillis(env.clock(0), |prior|);
    assert Reports(env, msg, n) == if fired then prior + [line] else prior;
    FiresInAppend(prior, line, j);
    if j < n - 1 {
      ReportFiresWhenDue(env, msg, n - 1, j);
    } else {
      NotFiresInLater(prior, j);
    }
  }

  /** So the k-th line shows at least 5 * (k + 1) seconds, while the elapsed time fits the display. */
  lemma ReportElapsedAtLeast(env: Environment, msg: bool, n: nat, k: nat)
    requires k < |Reports(env, msg, n)|
    requires env.clock(Reports(env, msg, n)[k].iteration + 2) - env.clock(0) < 0x8000_0000 * 1000
    ensures Reports(env, msg, n)[k].elapsedSeconds as int >= 5 * (k + 1)
  {
  }

  /**
   * No more than one line per 5-second window: with a non-decreasing clock,
   * the lines of iterations 0 .. n-1 number fewer than the 5-second periods
   * elapsed at reading n + 1.
   */
  lemma ReportCountBound(env: Environment, msg: bool, n: nat)
    requires NonDecreasing(env.clock)
    requires |Reports(env, msg, n)| > 0
    ensures MsgIncrementMillis * |Reports(env, msg, n)| < env.clock(n + 1) - env.clock(0)
  {
  }

  /**
   * A 12-second timeout with `-msg`, one reading per second and no attempt
   * ever succeeding: eleven attempts, a timeout, and two progress lines, at 6
   * and at 11 seconds, never one per poll.
   */
  lemma TwelveSecondTimeoutReports(r: Run)
    requires LoopSpec(Environment(i => 1000 * i, j => ReturnedNull, j => Slept), 12, true, r)
    ensures r.outcome == TimedOut && r.probes == 11
    ensures r.reports == [Report(4, 6), Report(9, 11)]
  {
    var env := Environment(i => 1000 * i, j => ReturnedNull, j => Slept);
    if r.probes > 0 {
      assert StepOutcome(env, r.probes - 1) == None;
    }
    var twelve: nat := 12;
    assert r.probes > 11 ==> env.clock(twelve) < 12000;
    assert Reports(env, true, 4) == [];
    assert Reports(env, true, 5) == [Report(4, 6)];
    assert Reports(env, true, 9) == [Report(4, 6)];
    assert Reports(env, true, 10) == [Report(4, 6), Report(9, 11)];
    assert Reports(env, true, 11) == [Report(4, 6), Report(9, 11)];
  }
}
