/**
 * `executeWaitingLoop`: poll the JDBC url until it is accessible, a fatal
 * error or an interrupted sleep ends the run, or the deadline passes.
 *
 * The loop's surroundings are an `Environment`: the i-th reading of
 * `System.currentTimeMillis()`, the j-th connection attempt and the j-th
 * `Thread.sleep`. Reading 0 is `millisBefore`, reading 1 the value the loop
 * guard first tests, and reading j + 2 the one taken at the top of
 * iteration j, which is also what the guard tests before iteration j + 1.
 */
module WaitingLoop {
  import opened Wrappers
  import opened JavaLang
  import opened ExitCodes
  import opened Probe

  /** `MSG_EVERY_SEC * 1000`: a progress line at most every 5 seconds. */
  const MsgIncrementMillis: int := 5000

  datatype SleepResult = Slept | Interrupted

  datatype Environment = Environment(
    clock: nat -> int,
    attempt: nat -> Attempt,
    sleep: nat -> SleepResult)

  /** A "[elapsed/timeout sec] still waiting ..." line, fired in `iteration`. */
  datatype Report = Report(iteration: nat, elapsedSeconds: int32)

  /** How a run of the loop ended, after how many connection attempts, with which progress lines. */
  datatype Run = Run(outcome: Outcome, probes: nat, reports: seq<Report>)

  /** `waitUntil`: the product `timeoutSec * 1000` is computed in 32-bit `int` and may wrap. */
  function WaitUntil(millisBefore: int, timeoutSec: int32): (deadline: int)
    ensures InInt32Range(deadline - millisBefore)
    ensures InInt32Range(timeoutSec as int * 1000) ==> deadline == millisBefore + timeoutSec as int * 1000
  {
    millisBefore + Wrap32(timeoutSec as int * 1000) as int
  }

  /** The elapsed value a progress line shows: whole seconds since `millisBefore`. */
  function ElapsedSeconds(millisBefore: int, currentMillis: int): (s: int32)
    ensures 0 <= currentMillis - millisBefore < 0x8000_0000 * 1000 ==>
      0 <= 1000 * s as int <= currentMillis - millisBefore < 1000 * s as int + 1000
  {
    Wrap32(DivTrunc1000(currentMillis - millisBefore))
  }

  /** Where the report cursor `nextMsgMillis` stands after `fired` progress lines. */
  function NextMsgMillis(millisBefore: int, fired: nat): int {
    millisBefore + MsgIncrementMillis * (fired + 1)
  }

  /** The progress lines fired in iterations 0 .. n-1. */
  function Reports(env: Environment, outputTimePassedMsg: bool, n: nat): (rs: seq<Report>)
    ensures |rs| <= n
    ensures forall k :: 0 <= k < |rs| ==> rs[k].iteration < n
    decreases n
  {
    if n == 0 then []
    else
      var prior := Reports(env, outputTimePassedMsg, n - 1);
      var currentMillis := env.clock(n + 1);
      if outputTimePassedMsg && currentMillis > NextMsgMillis(env.clock(0), |prior|) then
        prior + [Report(n - 1, ElapsedSeconds(env.clock(0), currentMillis))]
      else
        prior
  }

  /** How iteration j ends, if it ends the run: by the attempt's result, then by the sleep. */
  function StepOutcome(env: Environment, j: nat): (o: Option<Outcome>)
    ensures o != Some(TimedOut) && o != Some(IllegalParams)
    ensures o == Some(Success) <==> env.attempt(j) == Connected
    ensures o == Some(NoJdbcDriver) <==>
      env.attempt(j).Threw? && env.attempt(j).message.Some?
      && Contains(env.attempt(j).message.value, NoSuitableDriverFound)
    ensures o == Some(GenericError) ==> env.sleep(j) == Interrupted
    ensures o == None ==> env.sleep(j).Slept?
    ensures env.attempt(j) == ReturnedNull ==> (o == None <==> env.sleep(j).Slept?)
  {
    match IsJdbcUrlAccessible(env.attempt(j))
    case Reachable => Some(Success)
    case Fatal => Some(NoJdbcDriver)
    case Retryable => if env.sleep(j) == Interrupted then Some(GenericError) else None
  }

  /**
   * The loop cannot run forever: for some k, the guard reading before
   * iteration k reaches the deadline or iteration k ends the run.
   */
  ghost predicate EventuallyEnds(env: Environment, timeoutSec: int32) {
    exists k: nat :: EndsAt(env, timeoutSec, k)
  }

  /** The guard reading before iteration k reaches the deadline, or iteration k ends the run. */
  ghost predicate EndsAt(env: Environment, timeoutSec: int32, k: nat) {
    env.clock(k + 1) >= WaitUntil(env.clock(0), timeoutSec) || StepOutcome(env, k).Some?
  }

  /**
   * The runs the loop may produce: every attempt was preceded by a guard
   * reading before the deadline; every attempt but the last let the loop go
   * on; the outcome is the last iteration's, or a timeout on a guard reading
   * at or past the deadline; the progress lines are those `Reports` gives.
   */
  ghost predicate LoopSpec(env: Environment, timeoutSec: int32, outputTimePassedMsg: bool, r: Run): (b: bool)
    ensures b ==> r.outcome != IllegalParams
    ensures b ==> r.outcome == TimedOut || r.probes > 0
    ensures b ==> |r.reports| <= r.probes
  {
    var deadline := WaitUntil(env.clock(0), timeoutSec);
    && (forall i :: 1 <= i <= r.probes ==> env.clock(i) < deadline)
    && (forall j :: 0 <= j < r.probes - 1 ==> StepOutcome(env, j) == None)
    && (if r.probes > 0 && StepOutcome(env, r.probes - 1).Some? then
          r.outcome == StepOutcome(env, r.probes - 1).value
        else
          r.outcome == TimedOut && env.clock(r.probes + 1) >= deadline)
    && r.reports == Reports(env, outputTimePassedMsg, r.probes)
  }

  /** `LoopSpec` for a run that ends in its last iteration with that iteration's outcome. */
  lemma EndsInIteration(env: Environment, timeoutSec: int32, msg: bool, n: nat, reports: seq<Report>)
    requires n > 0
    requires forall i :: 1 <= i <= n ==> env.clock(i) < WaitUntil(env.clock(0), timeoutSec)
    requires forall j :: 0 <= j < n - 1 ==> StepOutcome(env, j) == None
    requires StepOutcome(env, n - 1).Some?
    requires reports == Reports(env, msg, n)
    ensures LoopSpec(env, timeoutSec, msg, Run(StepOutcome(env, n - 1).value, n, reports))
  {
  }

  /** `LoopSpec` for a run that ends when the guard reading reaches the deadline. */
  lemma EndsByTimeout(env: Environment, timeoutSec: int32, msg: bool, n: nat, reports: seq<Report>)
    requires forall i :: 1 <= i <= n ==> env.clock(i) < WaitUntil(env.clock(0), timeoutSec)
    requires forall j :: 0 <= j < n ==> StepOutcome(env, j) == None
    requires env.clock(n + 1) >= WaitUntil(env.clock(0), timeoutSec)
    requires reports == Reports(env, msg, n)
    ensures LoopSpec(env, timeoutSec, msg, Run(TimedOut, n, reports))
  {
  }

  /** A step that neither ends the run nor follows an expired guard lies before any step that does. */
  lemma WitnessNotReached(env: Environment, timeoutSec: int32, j: nat, last: nat)
    requires j <= last
    requires env.clock(j + 1) < WaitUntil(env.clock(0), timeoutSec)
    requires StepOutcome(env, j) == None
    requires EndsAt(env, timeoutSec, last)
    ensures j < last
  {
  }

  method ExecuteWaitingLoop(env: Environment, timeoutSec: int32, outputTimePassedMsg: bool) returns (r: Run)
    requires EventuallyEnds(env, timeoutSec)
    ensures LoopSpec(env, timeoutSec, outputTimePassedMsg, r)
  {
    var millisBefore := env.clock(0);
    var waitUntil := WaitUntil(millisBefore, timeoutSec);
    var nextMsgMillis := millisBefore + MsgIncrementMillis;
    var currentMillis := env.clock(1);
    var probes: nat := 0;
    var reports: seq<Report> := [];
    ghost var last: nat :| EndsAt(env, timeoutSec, last);
    while currentMillis < waitUntil
      invariant currentMillis == env.clock(probes + 1)
      invariant forall i :: 1 <= i <= probes ==> env.clock(i) < waitUntil
      invariant forall j :: 0 <= j < probes ==> StepOutcome(env, j) == None
      invariant reports == Reports(env, outputTimePassedMsg, probes)
      invariant nextMsgMillis == NextMsgMillis(millisBefore, |reports|)
      invariant probes <= last
      decreases last - probes
    {
      var n := probes;
      assert env.clock(n + 1) < waitUntil;
      currentMillis := env.clock(n + 2);
      if outputTimePassedMsg && currentMillis > nextMsgMillis {
        nextMsgMillis := nextMsgMillis + MsgIncrementMillis;
        reports := reports + [Report(n, ElapsedSeconds(millisBefore, currentMillis))];
      }
      var result := IsJdbcUrlAccessible(env.attempt(n));
      probes := n + 1;
      ghost var step := StepOutcome(env, n);
      assert step ==
        if result == Reachable then Some(Success)
        else if result == Fatal then Some(NoJdbcDriver)
        else if env.sleep(n) == Interrupted then Some(GenericError)
        else None;
      if step.Some? {
        EndsInIteration(env, timeoutSec, outputTimePassedMsg, probes, reports);
      }
      if result == Fatal {
        return Run(NoJdbcDriver, probes, reports);
      }
      if result == Reachable {
        return Run(Success, probes, reports);
      }
      if env.sleep(n) == Interrupted {
        return Run(GenericError, probes, reports);
      }
      WitnessNotReached(env, timeoutSec, n, last);
    }
    EndsByTimeout(env, timeoutSec, outputTimePassedMsg, probes, reports);
    return Run(TimedOut, probes, reports);
  }
}
