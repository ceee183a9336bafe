/** Classification of the non-blocking connect a relay task makes to the
    remote server: an immediate failure, an immediate success, or an
    in-progress connect that is waited on (for at most five seconds) and then
    asked for its pending socket error. */
module Connect {
  import opened Common

  /** Seconds the task waits for an in-progress connect. Only recorded: the
      wait itself is the oracle's `waitResult`. */
  const ConnectTimeout: nat := 5

  /** What the socket calls of a connect attempt report: `connect`'s return
      value and errno, the readiness wait's return value, `getsockopt`'s
      return value and the `SO_ERROR` value it fetched. Fields the attempt
      never reaches are ignored. */
  datatype ConnectIo = ConnectIo(
    result: int,
    errno: int,
    waitResult: int,
    queryResult: int,
    soError: int)

  /** How a connect attempt ended; `deferred` tells an error reported by
      `SO_ERROR` after the wait from one `connect` returned at once. */
  datatype ConnectOutcome =
    | Connected
    | ConnectError(errno: int, deferred: bool)
    | Timeout
    | SelectError
    | GetsockoptError

  /** The outcome, and which of the follow-up calls the attempt made. */
  datatype Attempt = Attempt(outcome: ConnectOutcome, waited: bool, queried: bool)

  /** The connect attempt. A failure other than EINPROGRESS fails at once; a
      synchronous success skips the wait; otherwise a wait returning -1 is an
      error and 0 a timeout, a failing `getsockopt` is an error, a nonzero
      `SO_ERROR` is a connect failure carrying that value, and anything else
      is a connection. */
  function Classify(io: ConnectIo): (a: Attempt)
    ensures a.waited <==> io.result != 0 && io.errno == EINPROGRESS
    ensures a.queried <==> a.waited && io.waitResult != -1 && io.waitResult != 0
    ensures a.outcome.Connected? <==>
              io.result == 0 || (a.queried && io.queryResult == 0 && io.soError == 0)
    ensures a.outcome == ConnectError(io.errno, false) <==> io.result != 0 && io.errno != EINPROGRESS
    ensures a.outcome.ConnectError? && a.outcome.deferred <==>
              a.queried && io.queryResult == 0 && io.soError != 0
    ensures a.outcome.ConnectError? && a.outcome.deferred ==> a.outcome.errno == io.soError
    ensures a.outcome.SelectError? <==> a.waited && io.waitResult == -1
    ensures a.outcome.Timeout? <==> a.waited && io.waitResult == 0
    ensures a.outcome.GetsockoptError? <==> a.queried && io.queryResult != 0
  {
    if io.result != 0 && io.errno != EINPROGRESS then
      Attempt(ConnectError(io.errno, false), false, false)
    else if io.result == 0 then
      Attempt(Connected, false, false)
    else if io.waitResult == -1 then
      Attempt(SelectError, true, false)
    else if io.waitResult == 0 then
      Attempt(Timeout, true, false)
    else if io.queryResult != 0 then
      Attempt(GetsockoptError, true, true)
    else if io.soError != 0 then
      Attempt(ConnectError(io.soError, true), true, true)
    else
      Attempt(Connected, true, true)
  }

  /** The same decision made the way the task makes it: as a sequence of
      checks, each of which may leave early. */
  method ConnectSteps(io: ConnectIo) returns (outcome: ConnectOutcome, waited: bool, queried: bool)
    ensures Attempt(outcome, waited, queried) == Classify(io)
  {
    waited := false;
    queried := false;
    if io.result != 0 && io.errno != EINPROGRESS {
      return ConnectError(io.errno, false), waited, queried;
    }
    if io.result != 0 {
      waited := true;
      if io.waitResult == -1 {
        return SelectError, waited, queried;
      } else if io.waitResult == 0 {
        return Timeout, waited, queried;
      }
      queried := true;
      if io.queryResult != 0 {
        return GetsockoptError, waited, queried;
      }
      if io.soError != 0 {
        return ConnectError(io.soError, true), waited, queried;
      }
    }
    outcome := Connected;
  }
}
