# jdbc-avail-wait: a Dafny model of the waiting loop

jdbc-avail-wait is a command-line tool. It blocks until a JDBC url accepts a
connection, then ends the process with an exit code that tells a deployment
script what happened. This project models the tool's decision logic in the
class `JdbcAvailWait`:

- the checks `execute` makes before it starts waiting;
- the waiting loop `executeWaitingLoop`, with its deadline and its progress-line cursor;
- the classification of one connection attempt in `isJdbcUrlAccessible`;
- the five exit codes.

It then proves what a caller of the tool can rely on.

The loop's surroundings become an `Environment`:

- the i-th reading of `System.currentTimeMillis()`;
- the j-th result of `DriverManager.getConnection`: a connection, `null`, or an `SQLException` with its message;
- the j-th `Thread.sleep`: it completed or it was interrupted.

Every `System.exit` becomes a returned `Outcome`. A run is a `Run`: its
outcome, the number of connection attempts, and the progress lines fired
(each with its iteration and the elapsed seconds it shows). `LoopSpec` says
which runs an environment allows. `ExecuteWaitingLoop` is the loop itself, a
`while` loop over `currentMillis` and the `nextMsgMillis` cursor, and it is
proved to produce such a run. The lemmas in `LoopProperties` then derive the
tool's behaviour from `LoopSpec`. `LoopSpecDeterministic` shows that `LoopSpec`
allows at most one run per environment. `ExecuteWaitingLoop` shows that a run
exists whenever the loop ends at all (`EventuallyEnds`).

Points the model reproduces as the code has them:

- The loop guard tests the reading taken before an iteration. The reading taken inside the iteration is compared only with the report cursor, never with the deadline. So an attempt can run on a reading already past the deadline (`AttemptMayRunPastDeadline`).
- `timeoutSec * 1000` is computed in 32-bit `int` arithmetic and wraps (`WaitUntil`, `Wrap32`). A timeout of 2147484 seconds therefore gives a deadline before the start, and the run times out at once. Some negative timeouts give a deadline almost 25 days ahead.
- The elapsed value on a progress line is a `long` difference divided by 1000 with truncation toward zero, then cast to `int`.
- A progress line fires only on a reading strictly past the cursor. Each line moves the cursor 5000 ms forward, whatever the reading was.
- User and password are required values (JdbcAvailWait.java:71-76). An absent or blank one exits with code 2.
- The process exits 0 after printing help. That happens for no options, for the help option, and for arguments commons-cli cannot parse, because `execute` simply returns.
- The connection classifier tests "message not blank and contains `No suitable driver found`". The first half never decides anything, because the phrase is not blank (`MessageWithPhraseIsNotBlank`).

## Model

| member | source | states |
|---|---|---|
| `ExitCodes.ExitCode` | src/main/java/net/brdloush/jdbcavailwait/JdbcAvailWait.java:24-28 | each outcome has a code in 0..4 from which the outcome is recovered |
| `ExitCodes.OutcomeOfExitCode` | src/main/java/net/brdloush/jdbcavailwait/JdbcAvailWait.java:24-28 | a code names an outcome exactly when it is in 0..4 |
| `ExitCodes.ExitCodesDistinct` | src/main/java/net/brdloush/jdbcavailwait/JdbcAvailWait.java:24-28 | two outcomes share a code only if they are the same outcome |
| `ExitCodes.ExitCodeRoundTrip` | src/main/java/net/brdloush/jdbcavailwait/JdbcAvailWait.java:24-28 | every code 0..4 is the code of the outcome it names |
| `JavaLang.Wrap32` | src/main/java/net/brdloush/jdbcavailwait/JdbcAvailWait.java:113 | an `int` result is the 32-bit value congruent to the exact result modulo 2^32, equal to it when it fits |
| `JavaLang.DivTrunc1000` | src/main/java/net/brdloush/jdbcavailwait/JdbcAvailWait.java:124 | `long` division by 1000 truncates toward zero: the quotient times 1000 is within 1000 of the dividend, on its side of zero |
| `JavaLang.ContainsHasOccurrence` | src/main/java/net/brdloush/jdbcavailwait/JdbcAvailWait.java:175 | when `contains` holds, the phrase occurs at some position |
| `JavaLang.OccurrenceIsContained` | src/main/java/net/brdloush/jdbcavailwait/JdbcAvailWait.java:175 | an occurrence at any position makes `contains` hold |
| `JavaLang.ContainsInfix` | src/main/java/net/brdloush/jdbcavailwait/JdbcAvailWait.java:175 | a string contains any phrase embedded in it, whatever surrounds it |
| `JavaLang.IsWhitespace` | src/main/java/net/brdloush/jdbcavailwait/JdbcAvailWait.java:68 | `Character.isWhitespace`, as `isBlank` uses it: space, tab, newline and carriage return are whitespace; the non-breaking spaces U+00A0, U+2007 and U+202F and every visible ASCII character are not |
| `JavaLang.IsBlank` | src/main/java/net/brdloush/jdbcavailwait/JdbcAvailWait.java:68-82 | `StringUtils.isBlank`: an absent (null) and an empty value are blank; a value holding any visible ASCII character is not |
| `JavaLang.Contains` | src/main/java/net/brdloush/jdbcavailwait/JdbcAvailWait.java:175 | `String.contains`: every string contains the empty string and itself, and never a longer string |
| `Probe.IsNoSuitableDriver` | src/main/java/net/brdloush/jdbcavailwait/JdbcAvailWait.java:174-175 | the fatal-error test holds exactly when there is a message and it contains "No suitable driver found"; its `isNotBlank` half is implied |
| `Probe.MessageWithPhraseIsNotBlank` | src/main/java/net/brdloush/jdbcavailwait/JdbcAvailWait.java:175 | a message containing "No suitable driver found" is never blank, so the `isNotBlank` test is implied |
| `Probe.IsJdbcUrlAccessible` | src/main/java/net/brdloush/jdbcavailwait/JdbcAvailWait.java:157-191 | an attempt is reachable exactly when a non-null connection came back; fatal exactly when an SQLException message contains "No suitable driver found"; retryable otherwise (null connection, other or null message) |
| `Probe.NoSuitableDriverAnywhereIsFatal` | src/main/java/net/brdloush/jdbcavailwait/JdbcAvailWait.java:170-178 | an SQLException whose message embeds the phrase anywhere is fatal |
| `WaitingLoop.WaitUntil` | src/main/java/net/brdloush/jdbcavailwait/JdbcAvailWait.java:112-113 | the deadline is the start reading plus an `int` offset, equal to start + timeoutSec*1000 whenever that product fits in an `int` |
| `WaitingLoop.ElapsedSeconds` | src/main/java/net/brdloush/jdbcavailwait/JdbcAvailWait.java:124 | the displayed elapsed value is the whole seconds since the start, while that fits in an `int` |
| `WaitingLoop.Reports` | src/main/java/net/brdloush/jdbcavailwait/JdbcAvailWait.java:114-126 | the progress lines of n iterations number at most n and all belong to those iterations |
| `WaitingLoop.StepOutcome` | src/main/java/net/brdloush/jdbcavailwait/JdbcAvailWait.java:128-140 | an iteration ends the run with exit 0 exactly when the connection was made, with exit 4 exactly when the SQLException message contains the phrase, with exit 3 only after an interrupted sleep; it goes on only after a completed sleep, and never ends it with exit 1 or 2 |
| `WaitingLoop.LoopSpec` | src/main/java/net/brdloush/jdbcavailwait/JdbcAvailWait.java:110-146 | an allowed run never ends with exit 2, ends with a timeout unless it made at least one attempt, and has at most one progress line per attempt |
| `WaitingLoop.ExecuteWaitingLoop` | src/main/java/net/brdloush/jdbcavailwait/JdbcAvailWait.java:110-146 | whenever some guard reading reaches the deadline or some iteration's attempt or sleep ends the run (`EventuallyEnds`), the loop terminates, and its run satisfies `LoopSpec`. Every attempt follows a guard reading before the fixed deadline. Every attempt but the last was retryable with a completed sleep. The outcome is the last iteration's (0 reachable, 4 fatal, 3 interrupted), or otherwise a timeout on a guard reading at or past the deadline. The progress lines are those of `Reports` |
| `LoopProperties.LoopSpecDeterministic` | src/main/java/net/brdloush/jdbcavailwait/JdbcAvailWait.java:118-145 | an environment allows at most one run: two runs it allows agree on outcome, attempt count and progress lines |
| `LoopProperties.RunEndsAtFirstTerminalStep` | src/main/java/net/brdloush/jdbcavailwait/JdbcAvailWait.java:119-140 | if the guard admits iteration j and j is the first iteration whose attempt or sleep is terminal, the run makes exactly j+1 attempts and ends with that iteration's outcome |
| `LoopProperties.FirstReachableSucceeds` | src/main/java/net/brdloush/jdbcavailwait/JdbcAvailWait.java:128-133 | the first reachable attempt ends the run with exit code 0, and no later attempt is made |
| `LoopProperties.NoSuitableDriverEndsRunAtOnce` | src/main/java/net/brdloush/jdbcavailwait/JdbcAvailWait.java:170-178 | a fatal first attempt ends the run after one attempt with exit code 4, whatever the remaining timeout |
| `LoopProperties.InterruptedSleepEndsRun` | src/main/java/net/brdloush/jdbcavailwait/JdbcAvailWait.java:135-140 | an interrupted sleep after a retryable attempt ends the run with exit code 3 after that attempt |
| `LoopProperties.TimeoutOnlyAtDeadline` | src/main/java/net/brdloush/jdbcavailwait/JdbcAvailWait.java:119 | a timeout happens only on a guard reading at or past the deadline, and only after attempts that were all retryable with completed sleeps |
| `LoopProperties.TimeoutNotBeforeTimeoutSeconds` | src/main/java/net/brdloush/jdbcavailwait/JdbcAvailWait.java:112-119 | with a non-decreasing clock and no wrap, every guard reading that let an attempt run came less than timeoutSec*1000 ms after the start, and the reading that timed out at least that long after it |
| `LoopProperties.NonPositiveTimeoutMakesNoAttempt` | src/main/java/net/brdloush/jdbcavailwait/JdbcAvailWait.java:113-119 | with a non-decreasing clock and a timeout of zero or less (no wrap) the body never runs: no attempt, no progress line, exit code 1 |
| `LoopProperties.LongTimeoutWrapsToImmediateTimeout` | src/main/java/net/brdloush/jdbcavailwait/JdbcAvailWait.java:113 | a timeout of 2147484 s wraps to a deadline 2147483296 ms before the start, so a non-decreasing clock times out with no attempt |
| `LoopProperties.NegativeTimeoutCanWrapToLongWait` | src/main/java/net/brdloush/jdbcavailwait/JdbcAvailWait.java:113 | a timeout of -2147484 s wraps to a deadline 2147483296 ms after the start |
| `LoopProperties.AttemptMayRunPastDeadline` | src/main/java/net/brdloush/jdbcavailwait/JdbcAvailWait.java:119-128 | a reading inside an iteration is not checked against the deadline: an attempt on a reading 4 s past a 1-s deadline still runs and succeeds |
| `LoopProperties.RetryRetryReachable` | src/main/java/net/brdloush/jdbcavailwait/JdbcAvailWait.java:128-140 | two retryable attempts and then a reachable one, with a 60-s timeout: exactly three attempts and exit code 0 |
| `LoopProperties.ReportsDisabled` | src/main/java/net/brdloush/jdbcavailwait/JdbcAvailWait.java:122 | without the progress option no line fires |
| `LoopProperties.ReportsPrefix` | src/main/java/net/brdloush/jdbcavailwait/JdbcAvailWait.java:122-126 | the lines of fewer iterations are a prefix of the lines of more: lines are never revised |
| `LoopProperties.ReportsOnePerIteration` | src/main/java/net/brdloush/jdbcavailwait/JdbcAvailWait.java:122-126 | lines come in strictly increasing iteration order, at most one per iteration |
| `LoopProperties.ReportFiresWhenDue` | src/main/java/net/brdloush/jdbcavailwait/JdbcAvailWait.java:122-126 | a progress line fires in iteration j exactly when `-msg` is set and that iteration's reading is strictly past the cursor left by the earlier iterations' lines |
| `LoopProperties.ReportThreshold` | src/main/java/net/brdloush/jdbcavailwait/JdbcAvailWait.java:114-124 | the k-th line fires on a reading strictly past start + 5000*(k+1), so the cursor moves exactly 5000 per line, and the line shows that reading's elapsed seconds |
| `LoopProperties.ReportElapsedAtLeast` | src/main/java/net/brdloush/jdbcavailwait/JdbcAvailWait.java:122-125 | the k-th line shows at least 5*(k+1) seconds |
| `LoopProperties.ReportCountBound` | src/main/java/net/brdloush/jdbcavailwait/JdbcAvailWait.java:114-123 | with a non-decreasing clock, the lines so far times 5000 stay below the elapsed milliseconds: at most one line per 5-second window |
| `LoopProperties.TwelveSecondTimeoutReports` | src/main/java/net/brdloush/jdbcavailwait/JdbcAvailWait.java:118-145 | a 12-s timeout with progress lines, one reading per second and no success: eleven attempts, a timeout, and exactly two lines, at 6 s and 11 s |
| `Execute.FirstBlank` | src/main/java/net/brdloush/jdbcavailwait/JdbcAvailWait.java:68-83 | finds a blank option exactly when one exists, and every option before the one it finds is non-blank |
| `Execute.RequiredCheckOrder` | src/main/java/net/brdloush/jdbcavailwait/JdbcAvailWait.java:68-83 | required values are checked in the order url, user, password, driver class |
| `Execute.TimeoutSec` | src/main/java/net/brdloush/jdbcavailwait/JdbcAvailWait.java:77-80 | the timeout is the default when `-t` is absent or blank, and the parsed `-t` value otherwise |
| `Execute.Validate` | src/main/java/net/brdloush/jdbcavailwait/JdbcAvailWait.java:54-98 | help comes first, also after a parse failure. A missing value is reported exactly when some required value is blank, and the first blank one is named. A driver class that cannot be loaded is reported only when all four values are present. The loop starts only with all four present and the driver loadable, with the default timeout when `-t` is blank |
| `Execute.Execute` | src/main/java/net/brdloush/jdbcavailwait/JdbcAvailWait.java:49-100 | help ends without a run. Exit code 2 happens exactly when a required value is blank, and then with zero attempts. A driver class that cannot be loaded gives exit 4 with zero attempts. A validated command line runs the loop as `LoopSpec` says |

## Left out

- Command-line parsing by commons-cli is taken as its result, a `ParseResult`. So are `Integer.valueOf` (a function argument, so its unhandled `NumberFormatException` is not modelled), `CliConstants.DEFAULT_TIMEOUT` (an argument; CliConstants is not part of this model) and `Class.forName` (a predicate on the class name).
- The real JDBC connection and `conn.close()` in the `finally` block are not modelled. Closing has no observable effect. A runtime exception other than `SQLException` from `getConnection` would escape uncaught; the model does not represent it.
- Wall-clock time and `Thread.sleep` durations are not modelled. The clock is an arbitrary function of the read index. Lemmas that need a non-decreasing clock say so.
- The clock reading taken for the timeout message is not modelled. Log4j messages and the help text are not modelled either, apart from the fact that a progress line fired and the elapsed value it shows.
- ExecuteWaitingLoop: requires `EventuallyEnds`: some guard reading reaches the deadline, or some iteration's attempt or sleep ends the run. The environments it excludes are exactly those on which the Java loop never ends: every guard reading stays before the deadline and every attempt is retryable with a completed sleep.
- WaitUntil: 64-bit `long` overflow of `millisBefore + offset` and of the other `long` sums is not modelled. Values of `System.currentTimeMillis()` are far from 2^63.
- `Character.isWhitespace` is modelled for the Unicode space separators of current Java versions. The Mongolian vowel separator, which older Java versions also count, is left out.
- The option declarations in `CliOptions.java` and `CliParserOptionsProviderImpl.java` are not modelled. They are constant tables. `CliOptions.VERBOSE`, which the provider refers to, is declared nowhere, and nothing in the loop uses verbose logging.
