/** The process exit codes of the tool and the outcomes they report. */
module ExitCodes {
  import opened Wrappers

  const ErrorCodeNoError: int := 0
  const ErrorCodeWaitTimeout: int := 1
  const ErrorCodeIllegalParams: int := 2
  const ErrorCodeGenericError: int := 3
  const ErrorCodeNoJdbcDriver: int := 4

  /** How a run ends when it ends through `System.exit`. */
  datatype Outcome =
    | Success        // the JDBC url became accessible
    | TimedOut       // the deadline passed first
    | IllegalParams  // a required option value was blank
    | GenericError   // the sleep between attempts was interrupted
    | NoJdbcDriver   // the driver class or a suitable driver is missing

  function ExitCode(o: Outcome): (code: int)
    ensures ErrorCodeNoError <= code <= ErrorCodeNoJdbcDriver
    ensures OutcomeOfExitCode(code) == Some(o)
  {
    match o
    case Success => ErrorCodeNoError
    case TimedOut => ErrorCodeWaitTimeout
    case IllegalParams => ErrorCodeIllegalParams
    case GenericError => ErrorCodeGenericError
    case NoJdbcDriver => ErrorCodeNoJdbcDriver
  }

  /** What a calling script learns from the exit code. */
  function OutcomeOfExitCode(code: int): (o: Option<Outcome>)
    ensures o.None? <==> !(ErrorCodeNoError <= code <= ErrorCodeNoJdbcDriver)
  {
    if code == ErrorCodeNoError then Some(Success)
    else if code == ErrorCodeWaitTimeout then Some(TimedOut)
    else if code == ErrorCodeIllegalParams then Some(IllegalParams)
    else if code == ErrorCodeGenericError then Some(GenericError)
    else if code == ErrorCodeNoJdbcDriver then Some(NoJdbcDriver)
    else None
  }

  /** Distinct outcomes have distinct exit codes, and every code in 0..4 names one. */
  lemma ExitCodesDistinct(a: Outcome, b: Outcome)
    ensures ExitCode(a) == ExitCode(b) <==> a == b
  {
  }

  lemma ExitCodeRoundTrip(code: int)
    requires ErrorCodeNoError <= code <= ErrorCodeNoJdbcDriver
    ensures OutcomeOfExitCode(code).Some? && ExitCode(OutcomeOfExitCode(code).value) == code
  {
  }
}
