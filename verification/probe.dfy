/**
 * One connection attempt (`isJdbcUrlAccessible`) and how its result is
 * classified. The JDBC call itself is abstracted to what it returned.
 */
module Probe {
  import opened Wrappers
  import opened JavaLang

  const NoSuitableDriverFound: string := "No suitable driver found"

  /** What one `DriverManager.getConnection` call did. */
  datatype Attempt =
    | Connected                        // returned a non-null connection
    | ReturnedNull                     // returned null
    | Threw(message: Option<string>)   // threw an SQLException with this getMessage()

  /** How the waiting loop reacts to an attempt. */
  datatype ProbeResult =
    | Reachable   // `isJdbcUrlAccessible` returns true
    | Retryable   // it returns false
    | Fatal       // it exits the process with the "no JDBC driver" code

  /** The exception test of `isJdbcUrlAccessible`. */
  predicate IsNoSuitableDriver(message: Option<string>): (b: bool)
    ensures b <==> message.Some? && Contains(message.value, NoSuitableDriverFound)
  {
    var hasPhrase := message.Some? && Contains(message.value, NoSuitableDriverFound);
    assert hasPhrase ==> !IsBlank(message) by {
      if hasPhrase {
        MessageWithPhraseIsNotBlank(message.value);
      }
    }
    !IsBlank(message) && Contains(message.value, NoSuitableDriverFound)
  }

  /** The "not blank" half of the test never decides anything: the phrase is not blank. */
  lemma MessageWithPhraseIsNotBlank(m: string)
    requires Contains(m, NoSuitableDriverFound)
    ensures !IsBlank(Some(m))
  {
    ContainsHasOccurrence(m, NoSuitableDriverFound);
    var i :| OccursAt(m, NoSuitableDriverFound, i);
    assert m[i] == m[i..i + |NoSuitableDriverFound|][0] == 'N';
  }

  function IsJdbcUrlAccessible(a: Attempt): (r: ProbeResult)
    ensures r == Reachable <==> a == Connected
    ensures r == Fatal <==> a.Threw? && a.message.Some? && Contains(a.message.value, NoSuitableDriverFound)
  {
    match a
    case Connected => Reachable
    case ReturnedNull => Retryable
    case Threw(message) =>
      if IsNoSuitableDriver(message) then Fatal else Retryable
  }

  /** A driver error is fatal wherever the phrase appears in the message. */
  lemma NoSuitableDriverAnywhereIsFatal(prefix: string, suffix: string)
    ensures IsJdbcUrlAccessible(Threw(Some(prefix + NoSuitableDriverFound + suffix))) == Fatal
  {
    ContainsInfix(prefix, NoSuitableDriverFound, suffix);
  }
}
