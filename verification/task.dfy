/** One relay task from start to finish: create and configure the remote
    socket, connect, run the relay loop, and close what was opened. */
module Task {
  import opened Common
  import opened Buffer
  import opened RelayLoop
  import opened Connect

  /** What the set-up calls report: whether the remote socket could be
      created, whether reading and setting the non-blocking flag succeeded on
      each socket, and what the connect attempt reports. */
  datatype SetupIo = SetupIo(
    socketOk: bool,
    remoteGetFlagsOk: bool,
    remoteSetFlagsOk: bool,
    clientGetFlagsOk: bool,
    clientSetFlagsOk: bool,
    connect: ConnectIo)

  /** The set-up step that failed. */
  datatype SetupStep =
    | RemoteGetFlags | RemoteSetFlags | ClientGetFlags | ClientSetFlags

  /** How a task ends, or that it is still relaying. */
  datatype TaskEnd =
    | NoSocket
    | SetupFailed(step: SetupStep)
    | NotConnected(outcome: ConnectOutcome)
    | RelayEnded(reason: EndReason, relay: Relay)
    | Relaying(relay: Relay)

  /** The end of a task and the sockets it closed, in order. */
  datatype TaskResult = TaskResult(end: TaskEnd, closed: seq<Side>)

  /** The outcome of the set-up checks, made in order: the first failing
      one ends the task. */
  datatype SetupResult = SetupOk | SetupError(step: SetupStep)

  /** The four non-blocking set-up calls, remote socket first. */
  function Setup(io: SetupIo): (s: SetupResult)
    ensures s.SetupOk? <==>
              io.remoteGetFlagsOk && io.remoteSetFlagsOk && io.clientGetFlagsOk && io.clientSetFlagsOk
    ensures s == SetupError(RemoteGetFlags) <==> !io.remoteGetFlagsOk
    ensures s == SetupError(RemoteSetFlags) <==> io.remoteGetFlagsOk && !io.remoteSetFlagsOk
    ensures s == SetupError(ClientGetFlags) <==>
              io.remoteGetFlagsOk && io.remoteSetFlagsOk && !io.clientGetFlagsOk
    ensures s == SetupError(ClientSetFlags) <==>
              io.remoteGetFlagsOk && io.remoteSetFlagsOk && io.clientGetFlagsOk && !io.clientSetFlagsOk
  {
    if !io.remoteGetFlagsOk then SetupError(RemoteGetFlags)
    else if !io.remoteSetFlagsOk then SetupError(RemoteSetFlags)
    else if !io.clientGetFlagsOk then SetupError(ClientGetFlags)
    else if !io.clientSetFlagsOk then SetupError(ClientSetFlags)
    else SetupOk
  }

  /** The sockets closed on the way out: the remote socket first when it was
      created, then the client socket. */
  function Cleanup(remoteCreated: bool): (closed: seq<Side>)
    ensures |closed| > 0 && closed[|closed| - 1] == Client
    ensures Remote in closed <==> remoteCreated
    ensures forall i, j :: 0 <= i < j < |closed| ==> closed[i] != closed[j]
  {
    if remoteCreated then [Remote, Client] else [Client]
  }

  /** A whole task: the relay loop runs only after the set-up succeeded and
      the connect attempt reported a connection; whatever ends the task, the
      client socket is closed exactly once, the remote socket is closed
      exactly once if and only if it was created, and nothing is closed while
      the task is still relaying. */
  function RunTask(io: SetupIo, rounds: seq<RoundIo>): (t: TaskResult)
    requires Feasible(Start(), rounds)
    ensures t.end.Relaying? <==> t.closed == []
    ensures !t.end.Relaying? ==>
              && Client in t.closed
              && (Remote in t.closed <==> io.socketOk)
              && (forall i, j :: 0 <= i < j < |t.closed| ==> t.closed[i] != t.closed[j])
    ensures (t.end.RelayEnded? || t.end.Relaying?) ==>
              io.socketOk && Setup(io).SetupOk? && Classify(io.connect).outcome.Connected?
    ensures t.end.RelayEnded? ==> !t.end.reason.BothShutDown?
    ensures t.end.NoSocket? <==> !io.socketOk
    ensures t.end.SetupFailed? <==> io.socketOk && Setup(io).SetupError?
    ensures t.end.SetupFailed? ==> Setup(io) == SetupError(t.end.step)
    ensures t.end.NotConnected? <==>
              io.socketOk && Setup(io).SetupOk? && !Classify(io.connect).outcome.Connected?
    ensures t.end.NotConnected? ==> t.end.outcome == Classify(io.connect).outcome
    ensures io.socketOk && Setup(io).SetupOk? && Classify(io.connect).outcome.Connected? ==>
              && (t.end.RelayEnded? || t.end.Relaying?)
              && (t.end.RelayEnded? <==> Run(Start(), rounds).Ended?)
              && t.end.relay == Run(Start(), rounds).relay
              && (t.end.RelayEnded? ==> t.end.reason == Run(Start(), rounds).reason)
  {
    if !io.socketOk then
      TaskResult(NoSocket, Cleanup(false))
    else
      match Setup(io)
      case SetupError(step) => TaskResult(SetupFailed(step), Cleanup(true))
      case SetupOk =>
        var attempt := Classify(io.connect);
        if !attempt.outcome.Connected? then
          TaskResult(NotConnected(attempt.outcome), Cleanup(true))
        else
          match Run(Start(), rounds)
          case Ended(why, r) => TaskResult(RelayEnded(why, r), Cleanup(true))
          case Looping(r) => TaskResult(Relaying(r), [])
  }
}
