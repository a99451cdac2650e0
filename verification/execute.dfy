/**
 * `execute`: turn the parsed command line into help, an early exit, or a run
 * of the waiting loop. Library calls enter as their results: the parsed
 * command line, `Integer.valueOf`, `CliConstants.DEFAULT_TIMEOUT` and
 * whether `Class.forName` finds the driver class.
 */
module Execute {
  import opened Wrappers
  import opened JavaLang
  import opened ExitCodes
  import opened WaitingLoop

  /** The options whose values are required, named after their `CliOptions` fields. */
  datatype CliOption = JdbcUrl | JdbcUser | JdbcPassword | JdbcDriver

  /** What commons-cli reports of the parsed arguments (`null` for a missing value). */
  datatype CommandLine = CommandLine(
    optionCount: nat,
    help: bool,
    jdbcUrl: Option<string>,
    user: Option<string>,
    password: Option<string>,
    timeoutStr: Option<string>,
    driverClassName: Option<string>,
    outputTimePassedMsg: bool)

  datatype ParseResult = ParseFailed | Parsed(line: CommandLine)

  /** The arguments `execute` hands to `executeWaitingLoop`. */
  datatype WaitConfig = WaitConfig(
    jdbcUrl: string,
    user: string,
    password: string,
    timeoutSec: int32,
    outputTimePassedMsg: bool)

  /** What `execute` does before the waiting loop. */
  datatype Decision =
    | PrintHelp                    // usage printed, `execute` returns
    | MissingValue(option: CliOption)  // `exitMissingValue`: exit code 2
    | DriverClassNotFound          // `Class.forName` failed: exit code 4
    | StartLoop(config: WaitConfig)

  /** The order in which `execute` checks the required values. */
  const RequiredInOrder: seq<CliOption> := [JdbcUrl, JdbcUser, JdbcPassword, JdbcDriver]

  function ValueOf(line: CommandLine, o: CliOption): Option<string> {
    match o
    case JdbcUrl => line.jdbcUrl
    case JdbcUser => line.user
    case JdbcPassword => line.password
    case JdbcDriver => line.driverClassName
  }

  /** The first option of `options` whose value is blank. */
  function FirstBlank(line: CommandLine, options: seq<CliOption>): (r: Option<CliOption>)
    ensures r.None? <==> forall k :: 0 <= k < |options| ==> !IsBlank(ValueOf(line, options[k]))
    ensures r.Some? ==> exists i :: (
      && 0 <= i < |options| && options[i] == r.value
      && IsBlank(ValueOf(line, options[i]))
      && forall k :: 0 <= k < i ==> !IsBlank(ValueOf(line, options[k])))
  {
    if options == [] then None
    else if IsBlank(ValueOf(line, options[0])) then Some(options[0])
    else
      var rest := FirstBlank(line, options[1..]);
      assert forall k :: 1 <= k < |options| ==> options[k] == options[1..][k - 1];
      rest
  }

  /** The required values are checked url, user, password, driver. */
  lemma RequiredCheckOrder(line: CommandLine)
    ensures FirstBlank(line, RequiredInOrder) ==
      if IsBlank(line.jdbcUrl) then Some(JdbcUrl)
      else if IsBlank(line.user) then Some(JdbcUser)
      else if IsBlank(line.password) then Some(JdbcPassword)
      else if IsBlank(line.driverClassName) then Some(JdbcDriver)
      else None
  {
    var tail3 := [JdbcUser, JdbcPassword, JdbcDriver];
    var tail2 := [JdbcPassword, JdbcDriver];
    assert RequiredInOrder[1..] == tail3 && tail3[1..] == tail2 && tail2[1..] == [JdbcDriver];
    assert FirstBlank(line, [JdbcDriver]) ==
      if IsBlank(line.driverClassName) then Some(JdbcDriver) else FirstBlank(line, []);
    assert FirstBlank(line, tail2) ==
      if IsBlank(line.password) then Some(JdbcPassword) else FirstBlank(line, [JdbcDriver]);
    assert FirstBlank(line, tail3) ==
      if IsBlank(line.user) then Some(JdbcUser) else FirstBlank(line, tail2);
  }

  /** No options at all, the help option, or arguments commons-cli could not parse. */
  predicate PrintsHelp(p: ParseResult) {
    p.ParseFailed? || p.line.optionCount == 0 || p.line.help
  }

  /** The timeout `execute` uses: the parsed `-t` value, or the default when it is blank. */
  function TimeoutSec(line: CommandLine, valueOf: string -> int32, defaultTimeout: int32): (t: int32)
    ensures IsBlank(line.timeoutStr) ==> t == defaultTimeout
    ensures !IsBlank(line.timeoutStr) ==> t == valueOf(line.timeoutStr.value)
  {
    if !IsBlank(line.timeoutStr) then valueOf(line.timeoutStr.value) else defaultTimeout
  }

  /** The checks of `execute` before the waiting loop, in their order. */
  function Validate(p: ParseResult, valueOf: string -> int32, defaultTimeout: int32, driverLoadable: string -> bool): (d: Decision)
    ensures d.PrintHelp? <==> PrintsHelp(p)
    ensures d.MissingValue? <==> !PrintsHelp(p) && FirstBlank(p.line, RequiredInOrder).Some?
    ensures d.MissingValue? ==> FirstBlank(p.line, RequiredInOrder) == Some(d.option)
    ensures d.DriverClassNotFound? <==>
      && !PrintsHelp(p)
      && FirstBlank(p.line, RequiredInOrder).None?
      && p.line.driverClassName.Some? && !driverLoadable(p.line.driverClassName.value)
    ensures d.StartLoop? ==>
      && !IsBlank(p.line.jdbcUrl) && d.config.jdbcUrl == p.line.jdbcUrl.value
      && !IsBlank(p.line.user) && d.config.user == p.line.user.value
      && !IsBlank(p.line.password) && d.config.password == p.line.password.value
      && !IsBlank(p.line.driverClassName) && driverLoadable(p.line.driverClassName.value)
      && d.config.timeoutSec == TimeoutSec(p.line, valueOf, defaultTimeout)
      && d.config.outputTimePassedMsg == p.line.outputTimePassedMsg
  {
    match p
    case ParseFailed => PrintHelp
    case Parsed(line) =>
      RequiredCheckOrder(line);
      if line.optionCount == 0 || line.help then PrintHelp
      else if IsBlank(line.jdbcUrl) then MissingValue(JdbcUrl)
      else if IsBlank(line.user) then MissingValue(JdbcUser)
      else if IsBlank(line.password) then MissingValue(JdbcPassword)
      else
        var timeoutSec := TimeoutSec(line, valueOf, defaultTimeout);
        if IsBlank(line.driverClassName) then MissingValue(JdbcDriver)
        else if !driverLoadable(line.driverClassName.value) then DriverClassNotFound
        else StartLoop(WaitConfig(line.jdbcUrl.value, line.user.value, line.password.value,
                                  timeoutSec, line.outputTimePassedMsg))
  }

  /** How the process ends: `execute` returns after printing help, or `System.exit` ends a run. */
  datatype Termination = HelpPrinted | Exited(run: Run)

  function ExitStatus(t: Termination): int {
    match t
    case HelpPrinted => 0
    case Exited(run) => ExitCode(run.outcome)
  }

  /** A loop run is reached only by a command line that passed every check. */
  ghost predicate LoopTerminates(p: ParseResult, valueOf: string -> int32, defaultTimeout: int32,
                                 driverLoadable: string -> bool, env: Environment) {
    var d := Validate(p, valueOf, defaultTimeout, driverLoadable);
    d.StartLoop? ==> EventuallyEnds(env, d.config.timeoutSec)
  }

  method Execute(p: ParseResult, valueOf: string -> int32, defaultTimeout: int32,
                 driverLoadable: string -> bool, env: Environment) returns (t: Termination)
    requires LoopTerminates(p, valueOf, defaultTimeout, driverLoadable, env)
    ensures t.HelpPrinted? <==> PrintsHelp(p)
    ensures ExitStatus(t) == ErrorCodeIllegalParams <==> !PrintsHelp(p) && FirstBlank(p.line, RequiredInOrder).Some?
    ensures ExitStatus(t) == ErrorCodeIllegalParams ==> t.run.probes == 0 && t.run.reports == []
    ensures Validate(p, valueOf, defaultTimeout, driverLoadable).DriverClassNotFound? ==>
      t == Exited(Run(NoJdbcDriver, 0, []))
    ensures var d := Validate(p, valueOf, defaultTimeout, driverLoadable);
      d.StartLoop? ==> t.Exited? && LoopSpec(env, d.config.timeoutSec, d.config.outputTimePassedMsg, t.run)
  {
    var d := Validate(p, valueOf, defaultTimeout, driverLoadable);
    match d
    case PrintHelp =>
      t := HelpPrinted;
    case MissingValue(_) =>
      t := Exited(Run(IllegalParams, 0, []));
    case DriverClassNotFound =>
      t := Exited(Run(NoJdbcDriver, 0, []));
    case StartLoop(config) =>
      var run := ExecuteWaitingLoop(env, config.timeoutSec, config.outputTimePassedMsg);
      t := Exited(run);
  }
}
