/** The duplex relay loop of one task: each round reads into whichever
    buffers are empty, waits for readiness, then drains the buffers whose
    peer socket is writable. Socket calls are replaced by the answers an
    oracle supplies for the round. */
module RelayLoop {
  import opened Common
  import opened Buffer

  /** Both directions of one relay task: `fromClient` is received from the
      client and sent to the remote, `fromRemote` the other way round. */
  datatype Relay = Relay(fromClient: Direction, fromRemote: Direction)

  /** The state at the top of every round that the loop reaches: both
      directions valid, and neither source has reported end of stream. */
  predicate Live(r: Relay)
  {
    && Valid(r.fromClient) && Valid(r.fromRemote)
    && !r.fromClient.shutdown && !r.fromRemote.shutdown
  }

  /** The relay right after the remote connection is established: both
      buffers empty, both shutdown flags clear. */
  function Start(): (r: Relay)
    ensures Live(r)
    ensures r.fromClient.len == 0 && r.fromRemote.len == 0
    ensures r.fromClient.received == [] && r.fromRemote.received == []
  {
    Relay(Idle(), Idle())
  }

  /** The direction whose bytes come from `source`. */
  function From(r: Relay, source: Side): Direction
  {
    match source
    case Client => r.fromClient
    case Remote => r.fromRemote
  }

  /** Why the loop ended. `EndOfStream` records which source closed, whose
      write side was shut down in response, and whether that shutdown call
      succeeded. */
  datatype EndReason =
    | EndOfStream(source: Side, halfClosed: Side, shutdownOk: bool)
    | RecvFailed(source: Side, errno: int)
    | WriteFailed(target: Side, errno: int)
    | WaitFailed(errno: int)
    | BothShutDown

  /** The read half of a round for one direction: either it goes on, having
      registered write interest on the peer (`wantWrite`) or read interest on
      the source, or it ends the task. */
  datatype ReadStep =
    | Proceed(dir: Direction, wantWrite: bool)
    | Stopped(reason: EndReason, dir: Direction)

  /** Whether the source of `d` is read this round. */
  predicate Eligible(d: Direction)
  {
    d.len == 0 && !d.shutdown
  }

  /** Whether the read half of `d` ends the task: its source is read and
      reports end of stream or an error other than EAGAIN. */
  predicate Ends(d: Direction, rr: RecvResult)
  {
    Eligible(d) && (rr.RecvEof? || (rr.RecvError? && rr.errno != EAGAIN))
  }

  /** The bytes the read half of `d` takes in: what `recv` returned, when the
      source is read and returns data, and nothing otherwise. */
  function Taken(d: Direction, rr: RecvResult): seq<byte>
  {
    if Eligible(d) && rr.RecvData? then rr.data else []
  }

  /** Bytes left to send in a direction after its read half, given what its
      source's `recv` would report. */
  function Backlog(d: Direction, rr: RecvResult): nat
  {
    if Eligible(d) then (if rr.RecvData? then |rr.data| else 0) else Unsent(d)
  }

  /** The direction after a read half that does not end the task: the bytes
      taken in fill the buffer, and the backlog is what is left to send. */
  function AfterRead(d: Direction, rr: RecvResult): (a: Direction)
    requires Valid(d) && RecvFits(rr)
    ensures Valid(a) && a.delivered == d.delivered && a.shutdown == d.shutdown
    ensures a.received == d.received + Taken(d, rr)
    ensures Unsent(a) == Backlog(d, rr)
    ensures !d.shutdown ==> (a.len > 0 <==> !Eligible(d) || rr.RecvData?)
  {
    if Eligible(d) && rr.RecvData? then Fill(d, rr.data)
    else
      assert d.received + Taken(d, rr) == d.received;
      d
  }

  /** The read half of a round for the direction fed by `source`. The source
      is read only when the buffer is empty and it has not reported end of
      stream; otherwise the peer is registered for writing. End of stream
      sets the flag, shuts down the write side of the opposite socket and
      ends the task; an error other than EAGAIN ends the task; EAGAIN
      registers read interest; data fills the buffer and registers write
      interest on the peer. */
  function ReadPhase(d: Direction, source: Side, rr: RecvResult, shutdownOk: bool): (s: ReadStep)
    requires Valid(d) && RecvFits(rr)
    ensures Valid(s.dir) && s.dir.delivered == d.delivered
    ensures !Eligible(d) ==> s == Proceed(d, true)
    ensures s.Proceed? && !d.shutdown ==> (s.wantWrite <==> s.dir.len > 0)
    ensures s.Proceed? ==> (s.dir.shutdown <==> d.shutdown)
    ensures s.dir.received != d.received ==>
              && Eligible(d) && rr.RecvData? && s.Proceed?
              && s.dir.received == d.received + rr.data
              && s.dir.start == 0 && s.dir.len == |rr.data|
    ensures s.Stopped? <==> Ends(d, rr)
    ensures s.Proceed? ==> s.dir == AfterRead(d, rr)
    ensures Eligible(d) && rr.RecvData? ==>
              s.Proceed? && s.wantWrite && s.dir.received == d.received + rr.data && Pending(s.dir) == rr.data
    ensures Eligible(d) && rr.RecvError? && rr.errno == EAGAIN ==> s == Proceed(d, false)
    ensures s.Stopped? ==> s.dir.received == d.received && s.dir.delivered == s.dir.received
    ensures s.Stopped? && rr.RecvEof? ==>
              s.reason == EndOfStream(source, Opposite(source), shutdownOk) && s.dir.shutdown
    ensures s.Stopped? && rr.RecvError? ==> s.reason == RecvFailed(source, rr.errno)
  {
    if Eligible(d) then
      match rr
      case RecvEof => Stopped(EndOfStream(source, Opposite(source), shutdownOk), d.(shutdown := true))
      case RecvError(e) => if e != EAGAIN then Stopped(RecvFailed(source, e), d) else Proceed(d, false)
      case RecvData(data) => Proceed(Fill(d, data), true)
    else
      Proceed(d, true)
  }

  /** The send half of a round for one direction. */
  datatype SendStep =
    | Sending(dir: Direction)
    | Failed(reason: EndReason, dir: Direction)

  /** The send half of a round: when the peer socket was registered for
      writing and the readiness wait reported it writable (`selected`), run
      the send loop toward `target`; a send error other than EAGAIN ends the
      task. */
  function SendPhase(d: Direction, selected: bool, target: Side, answers: seq<SendResult>): (p: SendStep)
    requires Valid(d) && Adequate(answers, Unsent(d))
    ensures Valid(p.dir) && p.dir.received == d.received && p.dir.shutdown == d.shutdown
    ensures d.delivered <= p.dir.delivered
    ensures !selected ==> p == Sending(d)
    ensures selected ==>
              && p.dir == Flush(d, answers).dir
              && (p.Failed? <==> Flush(d, answers).status.SendFailed?)
    ensures p.Failed? ==> selected && p.reason == WriteFailed(target, Flush(d, answers).status.errno)
  {
    if !selected then Sending(d)
    else
      FlushConserves(d, answers);
      FlushDelivers(d, answers);
      var f := Flush(d, answers);
      if f.status.SendFailed? then Failed(WriteFailed(target, f.status.errno), f.dir)
      else Sending(f.dir)
  }

  /** Whether the send half runs the send loop on `d`: the peer was
      registered for writing, which happens exactly when the buffer holds
      bytes, and the readiness wait reported it writable. */
  predicate Selected(d: Direction, writable: bool)
  {
    d.len > 0 && writable
  }

  /** Whether the send half of `d` ends the task with a send error. */
  predicate SendFails(d: Direction, writable: bool, answers: seq<SendResult>)
    requires Bounded(d) && Adequate(answers, Unsent(d))
  {
    Selected(d, writable) && Flush(d, answers).status.SendFailed?
  }

  /** The direction after its send half. */
  function AfterSend(d: Direction, writable: bool, answers: seq<SendResult>): Direction
    requires Bounded(d) && Adequate(answers, Unsent(d))
  {
    if Selected(d, writable) then Flush(d, answers).dir else d
  }

  /** The bytes the send half of `d` hands to the peer: the buffer bytes
      from `start` up to where the send loop stopped, when it runs. */
  function Sends(d: Direction, writable: bool, answers: seq<SendResult>): seq<byte>
    requires Bounded(d) && Adequate(answers, Unsent(d))
  {
    if Selected(d, writable) then d.buf[d.start..Flush(d, answers).dir.start] else []
  }

  /** What the readiness wait reported: an error, or which of the two
      sockets are writable. */
  datatype Wait =
    | WaitError(errno: int)
    | Ready(remoteWritable: bool, clientWritable: bool)

  /** Everything the sockets report during one round: the two receives and
      the result of the half-close each end of stream would trigger, the
      readiness wait, and the answers to the sends toward each socket. */
  datatype RoundIo = RoundIo(
    remoteRecv: RecvResult,
    clientShutdownOk: bool,
    clientRecv: RecvResult,
    remoteShutdownOk: bool,
    wait: Wait,
    remoteSends: seq<SendResult>,
    clientSends: seq<SendResult>)

  /** The round's answers are ones the kernel could give in state `r`. */
  predicate RoundFits(r: Relay, io: RoundIo)
  {
    && RecvFits(io.remoteRecv) && RecvFits(io.clientRecv)
    && Adequate(io.remoteSends, Backlog(r.fromClient, io.clientRecv))
    && Adequate(io.clientSends, Backlog(r.fromRemote, io.remoteRecv))
  }

  /** The relay after a round, and why the loop ended if it did. */
  datatype StepResult =
    | Continue(relay: Relay)
    | Stop(reason: EndReason, relay: Relay)

  /** The bytes a round takes in from `source`. The remote is read first; the
      client is read only when the remote read half did not end the task. */
  function Intake(r: Relay, io: RoundIo, source: Side): seq<byte>
  {
    match source
    case Remote => Taken(r.fromRemote, io.remoteRecv)
    case Client => if Ends(r.fromRemote, io.remoteRecv) then [] else Taken(r.fromClient, io.clientRecv)
  }

  /** The two read halves of a round, remote first. When both go on, the
      write interest each registered is exactly "its buffer holds bytes",
      which is what the send half tests. */
  function ReadHalf(r: Relay, io: RoundIo): (s: StepResult)
    requires Live(r) && RecvFits(io.remoteRecv) && RecvFits(io.clientRecv)
    ensures Valid(s.relay.fromClient) && Valid(s.relay.fromRemote)
    ensures s.relay.fromClient.delivered == r.fromClient.delivered
    ensures s.relay.fromRemote.delivered == r.fromRemote.delivered
    ensures s.relay.fromClient.received == r.fromClient.received + Intake(r, io, Client)
    ensures s.relay.fromRemote.received == r.fromRemote.received + Intake(r, io, Remote)
    ensures s.Continue? <==> !Ends(r.fromRemote, io.remoteRecv) && !Ends(r.fromClient, io.clientRecv)
    ensures s.Continue? ==>
              && s.relay == Relay(AfterRead(r.fromClient, io.clientRecv), AfterRead(r.fromRemote, io.remoteRecv))
              && Live(s.relay)
              && Unsent(s.relay.fromClient) == Backlog(r.fromClient, io.clientRecv)
              && Unsent(s.relay.fromRemote) == Backlog(r.fromRemote, io.remoteRecv)
    ensures s.Stop? ==> s.reason.EndOfStream? || s.reason.RecvFailed?
    ensures s.Stop? && s.reason.EndOfStream? ==>
              && s.reason.halfClosed == Opposite(s.reason.source)
              && From(s.relay, s.reason.source).delivered == From(s.relay, s.reason.source).received
    ensures Ends(r.fromRemote, io.remoteRecv) && io.remoteRecv.RecvError? ==>
              s == Stop(RecvFailed(Remote, io.remoteRecv.errno), s.relay)
    ensures !Ends(r.fromRemote, io.remoteRecv) && Ends(r.fromClient, io.clientRecv) ==>
              && s.Stop? && (s.reason.EndOfStream? || s.reason.RecvFailed?) && s.reason.source == Client
              && (io.clientRecv.RecvError? ==> s.reason == RecvFailed(Client, io.clientRecv.errno))
              && (io.clientRecv.RecvEof? ==> s.reason == EndOfStream(Client, Remote, io.remoteShutdownOk))
    ensures io.remoteRecv.RecvEof? && r.fromRemote.len == 0 ==>
              s == Stop(EndOfStream(Remote, Client, io.clientShutdownOk), s.relay) && s.relay.fromClient == r.fromClient
    ensures io.clientRecv.RecvEof? && r.fromClient.len == 0 ==>
              && s.Stop? && (s.reason.EndOfStream? || s.reason.RecvFailed?)
              && (s.reason.source == Client ==> s.reason == EndOfStream(Client, Remote, io.remoteShutdownOk))
              && s.relay.fromRemote.delivered == r.fromRemote.delivered
  {
    match ReadPhase(r.fromRemote, Remote, io.remoteRecv, io.clientShutdownOk)
    case Stopped(why, m1) =>
      assert r.fromClient.received + Intake(r, io, Client) == r.fromClient.received;
      Stop(why, Relay(r.fromClient, m1))
    case Proceed(m1, _) =>
      match ReadPhase(r.fromClient, Client, io.clientRecv, io.remoteShutdownOk)
      case Stopped(why, c1) => Stop(why, Relay(c1, m1))
      case Proceed(c1, _) => Continue(Relay(c1, m1))
  }

  /** The readiness wait and the two send halves of a round, toward the
      remote first. A direction is sent only when its buffer holds bytes (the
      peer was registered for writing) and the wait reported the peer
      writable. A failed wait ends the task, and so does a send error other
      than EAGAIN, after which the other direction is not sent. */
  function SendHalf(mid: Relay, io: RoundIo): (s: StepResult)
    requires Live(mid)
    requires Adequate(io.remoteSends, Unsent(mid.fromClient))
    requires Adequate(io.clientSends, Unsent(mid.fromRemote))
    ensures Valid(s.relay.fromClient) && Valid(s.relay.fromRemote)
    ensures s.Continue? ==> Live(s.relay)
    ensures s.Stop? ==> s.reason.WaitFailed? || s.reason.WriteFailed?
    ensures s.relay.fromClient.received == mid.fromClient.received
    ensures s.relay.fromRemote.received == mid.fromRemote.received
    ensures mid.fromClient.delivered <= s.relay.fromClient.delivered
    ensures mid.fromRemote.delivered <= s.relay.fromRemote.delivered
    ensures !(io.wait.Ready? && io.wait.remoteWritable) ==> s.relay.fromClient.delivered == mid.fromClient.delivered
    ensures !(io.wait.Ready? && io.wait.clientWritable) ==> s.relay.fromRemote.delivered == mid.fromRemote.delivered
    ensures io.wait.WaitError? ==> s == Stop(WaitFailed(io.wait.errno), mid)
    ensures io.wait.Ready? ==>
              s.relay.fromClient == AfterSend(mid.fromClient, io.wait.remoteWritable, io.remoteSends)
    ensures io.wait.Ready? && SendFails(mid.fromClient, io.wait.remoteWritable, io.remoteSends) ==>
              s == Stop(WriteFailed(Remote, Flush(mid.fromClient, io.remoteSends).status.errno),
                        Relay(s.relay.fromClient, mid.fromRemote))
    ensures io.wait.Ready? && !SendFails(mid.fromClient, io.wait.remoteWritable, io.remoteSends) ==>
              && s.relay.fromRemote == AfterSend(mid.fromRemote, io.wait.clientWritable, io.clientSends)
              && (s.Stop? <==> SendFails(mid.fromRemote, io.wait.clientWritable, io.clientSends))
              && (s.Stop? ==> s.reason == WriteFailed(Client, Flush(mid.fromRemote, io.clientSends).status.errno))
  {
    match io.wait
    case WaitError(e) => Stop(WaitFailed(e), mid)
    case Ready(remoteWritable, clientWritable) =>
      match SendPhase(mid.fromClient, mid.fromClient.len > 0 && remoteWritable, Remote, io.remoteSends)
      case Failed(why, c2) => Stop(why, Relay(c2, mid.fromRemote))
      case Sending(c2) =>
        match SendPhase(mid.fromRemote, mid.fromRemote.len > 0 && clientWritable, Client, io.clientSends)
        case Failed(why, m2) => Stop(why, Relay(c2, m2))
        case Sending(m2) => Continue(Relay(c2, m2))
  }

  /** One round of the relay loop: the "both drained and both shut down" exit
      test, the read halves, the readiness wait, then the send halves. Each
      direction takes in exactly what its read half read; how the round ends
      is stated by `StepFate`. */
  function Step(r: Relay, io: RoundIo): (s: StepResult)
    requires Live(r) && RoundFits(r, io)
    ensures Valid(s.relay.fromClient) && Valid(s.relay.fromRemote)
    ensures s.Continue? ==> Live(s.relay)
    ensures s.Stop? ==> !s.reason.BothShutDown?
    ensures r.fromClient.delivered <= s.relay.fromClient.delivered
    ensures r.fromRemote.delivered <= s.relay.fromRemote.delivered
    ensures s.relay.fromClient.received == r.fromClient.received + Intake(r, io, Client)
    ensures s.relay.fromRemote.received == r.fromRemote.received + Intake(r, io, Remote)
    ensures s.Stop? && s.reason.EndOfStream? ==>
              && s.reason.halfClosed == Opposite(s.reason.source)
              && From(s.relay, s.reason.source).delivered == From(s.relay, s.reason.source).received
    ensures !(io.wait.Ready? && io.wait.remoteWritable) ==> s.relay.fromClient.delivered == r.fromClient.delivered
    ensures !(io.wait.Ready? && io.wait.clientWritable) ==> s.relay.fromRemote.delivered == r.fromRemote.delivered
  {
    var c := r.fromClient;
    var m := r.fromRemote;
    if m.len == 0 && c.len == 0 && m.shutdown && c.shutdown then
      Stop(BothShutDown, r)
    else
      match ReadHalf(r, io)
      case Stop(why, r1) => Stop(why, r1)
      case Continue(mid) => SendHalf(mid, io)
  }

  /** What decides how a round ends. A remote read half that ends the task
      stops the round with its reason; otherwise a client read half that ends
      the task does. Once both read halves go on, the readiness wait and the
      two send loops decide: a failed wait stops with the buffers as read,
      the direction toward the remote ends where its send loop left it, the
      direction toward the client is sent only when the first send loop did
      not fail, and the round goes on exactly when the wait succeeded and
      neither send loop failed. */
  lemma StepFate(r: Relay, io: RoundIo)
    requires Live(r) && RoundFits(r, io)
    ensures var s := Step(r, io);
            io.remoteRecv.RecvEof? && r.fromRemote.len == 0 ==>
              s == Stop(EndOfStream(Remote, Client, io.clientShutdownOk), s.relay) && s.relay.fromClient == r.fromClient
    ensures var s := Step(r, io);
            io.clientRecv.RecvEof? && r.fromClient.len == 0 ==>
              && s.Stop? && (s.reason.EndOfStream? || s.reason.RecvFailed?)
              && (s.reason.source == Client ==> s.reason == EndOfStream(Client, Remote, io.remoteShutdownOk))
              && s.relay.fromRemote.delivered == r.fromRemote.delivered
    ensures var s := Step(r, io);
            Ends(r.fromRemote, io.remoteRecv) && io.remoteRecv.RecvError? ==>
              s == Stop(RecvFailed(Remote, io.remoteRecv.errno), s.relay)
    ensures var s := Step(r, io);
            !Ends(r.fromRemote, io.remoteRecv) && Ends(r.fromClient, io.clientRecv) ==>
              && s.Stop? && (s.reason.EndOfStream? || s.reason.RecvFailed?) && s.reason.source == Client
              && (io.clientRecv.RecvError? ==> s.reason == RecvFailed(Client, io.clientRecv.errno))
              && (io.clientRecv.RecvEof? ==> s.reason == EndOfStream(Client, Remote, io.remoteShutdownOk))
    ensures var c1 := AfterRead(r.fromClient, io.clientRecv);
            var m1 := AfterRead(r.fromRemote, io.remoteRecv);
            var s := Step(r, io);
            && (s.Continue? <==>
                  && !Ends(r.fromRemote, io.remoteRecv) && !Ends(r.fromClient, io.clientRecv)
                  && io.wait.Ready?
                  && !SendFails(c1, io.wait.remoteWritable, io.remoteSends)
                  && !SendFails(m1, io.wait.clientWritable, io.clientSends))
            && (!Ends(r.fromRemote, io.remoteRecv) && !Ends(r.fromClient, io.clientRecv) ==>
                  && (io.wait.WaitError? ==> s == Stop(WaitFailed(io.wait.errno), Relay(c1, m1)))
                  && (io.wait.Ready? ==>
                        && s.relay.fromClient == AfterSend(c1, io.wait.remoteWritable, io.remoteSends)
                        && (SendFails(c1, io.wait.remoteWritable, io.remoteSends) ==>
                              s == Stop(WriteFailed(Remote, Flush(c1, io.remoteSends).status.errno),
                                        Relay(s.relay.fromClient, m1)))
                        && (!SendFails(c1, io.wait.remoteWritable, io.remoteSends) ==>
                              && s.relay.fromRemote == AfterSend(m1, io.wait.clientWritable, io.clientSends)
                              && (s.Stop? ==>
                                    s.reason == WriteFailed(Client, Flush(m1, io.clientSends).status.errno)))))
  {
  }

  /** The bytes a round delivers in the direction fed by `source`: nothing
      unless both read halves go on and the wait succeeds; then what the
      send loop toward the remote hands over, and toward the client only
      when the send loop toward the remote did not fail. */
  function Output(r: Relay, io: RoundIo, source: Side): seq<byte>
    requires Live(r) && RoundFits(r, io)
  {
    if Ends(r.fromRemote, io.remoteRecv) || Ends(r.fromClient, io.clientRecv) || io.wait.WaitError? then []
    else
      var c1 := AfterRead(r.fromClient, io.clientRecv);
      var m1 := AfterRead(r.fromRemote, io.remoteRecv);
      match source
      case Client => Sends(c1, io.wait.remoteWritable, io.remoteSends)
      case Remote =>
        if SendFails(c1, io.wait.remoteWritable, io.remoteSends) then []
        else Sends(m1, io.wait.clientWritable, io.clientSends)
  }

  /** Each direction delivers in a round exactly what the round's send loop
      for it hands over, and nothing else. */
  lemma StepOutput(r: Relay, io: RoundIo)
    requires Live(r) && RoundFits(r, io)
    ensures Step(r, io).relay.fromClient.delivered == r.fromClient.delivered + Output(r, io, Client)
    ensures Step(r, io).relay.fromRemote.delivered == r.fromRemote.delivered + Output(r, io, Remote)
  {
    StepFate(r, io);
    if Ends(r.fromRemote, io.remoteRecv) || Ends(r.fromClient, io.clientRecv) || io.wait.WaitError? {
      assert r.fromClient.delivered + [] == r.fromClient.delivered;
      assert r.fromRemote.delivered + [] == r.fromRemote.delivered;
    } else {
      var c1 := AfterRead(r.fromClient, io.clientRecv);
      var m1 := AfterRead(r.fromRemote, io.remoteRecv);
      FlushDelivers(c1, io.remoteSends);
      FlushDelivers(m1, io.clientSends);
      assert r.fromClient.delivered + [] == r.fromClient.delivered;
      assert r.fromRemote.delivered + [] == r.fromRemote.delivered;
    }
  }

  /** Every round's answers fit the state that round starts in, up to the
      round that ends the task. */
  predicate Feasible(r: Relay, rounds: seq<RoundIo>)
    requires Live(r)
    decreases |rounds|
  {
    || |rounds| == 0
    || (&& RoundFits(r, rounds[0])
        && (Step(r, rounds[0]).Continue? ==> Feasible(Step(r, rounds[0]).relay, rounds[1..])))
  }

  /** The relay loop either still running after the given rounds or ended
      by one of them. */
  datatype Outcome =
    | Looping(relay: Relay)
    | Ended(reason: EndReason, relay: Relay)

  /** How a relay may change over rounds: in each direction the received
      and the delivered bytes only grow, and the delivered bytes stay a
      prefix of the received ones: no gap, duplicate or reordering. Bytes
      still buffered when the task ends are never delivered. */
  predicate Extends(before: Relay, after: Relay)
  {
    && before.fromClient.received <= after.fromClient.received
    && before.fromRemote.received <= after.fromRemote.received
    && before.fromClient.delivered <= after.fromClient.delivered
    && before.fromRemote.delivered <= after.fromRemote.delivered
    && after.fromClient.delivered <= after.fromClient.received
    && after.fromRemote.delivered <= after.fromRemote.received
  }

  /** Extending twice is extending. */
  lemma ExtendsTrans(a: Relay, b: Relay, c: Relay)
    requires Extends(a, b) && Extends(b, c)
    ensures Extends(a, c)
  {
  }

  /** One round extends the relay. */
  lemma StepExtends(r: Relay, io: RoundIo)
    requires Live(r) && RoundFits(r, io)
    ensures Extends(r, Step(r, io).relay)
  {
  }

  /** The bytes `source` sends into the relay over the given rounds: what
      each round takes in from it, up to and including the round that ends
      the task. */
  function Reads(r: Relay, rounds: seq<RoundIo>, source: Side): seq<byte>
    requires Live(r) && Feasible(r, rounds)
    decreases |rounds|
  {
    if |rounds| == 0 then []
    else
      match Step(r, rounds[0])
      case Stop(_, _) => Intake(r, rounds[0], source)
      case Continue(r1) => Intake(r, rounds[0], source) + Reads(r1, rounds[1..], source)
  }

  /** The bytes delivered in the direction fed by `source` over the given
      rounds: what each round's send loop for it hands over, up to and
      including the round that ends the task. */
  function Writes(r: Relay, rounds: seq<RoundIo>, source: Side): seq<byte>
    requires Live(r) && Feasible(r, rounds)
    decreases |rounds|
  {
    if |rounds| == 0 then []
    else
      match Step(r, rounds[0])
      case Stop(_, _) => Output(r, rounds[0], source)
      case Continue(r1) => Output(r, rounds[0], source) + Writes(r1, rounds[1..], source)
  }

  /** Whether one of the given rounds ends the task. */
  predicate Stops(r: Relay, rounds: seq<RoundIo>)
    requires Live(r) && Feasible(r, rounds)
    decreases |rounds|
  {
    && |rounds| > 0
    && match Step(r, rounds[0])
       case Stop(_, _) => true
       case Continue(r1) => Stops(r1, rounds[1..])
  }

  /** The reason the first round that ends the task gives. */
  function Halt(r: Relay, rounds: seq<RoundIo>): EndReason
    requires Live(r) && Feasible(r, rounds) && Stops(r, rounds)
    decreases |rounds|
  {
    match Step(r, rounds[0])
    case Stop(why, _) => why
    case Continue(r1) => Halt(r1, rounds[1..])
  }

  /** Runs the relay loop for the given rounds, stopping at the first round
      that ends the task. Whatever happens the relay only extends: each
      direction has delivered a prefix of what it received, in order and
      without duplicates. The loop never leaves through the "both shut
      down" exit, and a source that reported end of stream has had
      everything it sent delivered. */
  function Run(r: Relay, rounds: seq<RoundIo>): (o: Outcome)
    requires Live(r) && Feasible(r, rounds)
    ensures Valid(o.relay.fromClient) && Valid(o.relay.fromRemote)
    ensures o.Looping? ==> Live(o.relay)
    ensures o.Ended? ==> !o.reason.BothShutDown?
    ensures o.Ended? && o.reason.EndOfStream? ==>
              From(o.relay, o.reason.source).delivered == From(o.relay, o.reason.source).received
    ensures Extends(r, o.relay)
    ensures o.relay.fromClient.received == r.fromClient.received + Reads(r, rounds, Client)
    ensures o.relay.fromRemote.received == r.fromRemote.received + Reads(r, rounds, Remote)
    ensures o.Ended? ==> |rounds| > 0
    ensures o.relay.fromClient.delivered == r.fromClient.delivered + Writes(r, rounds, Client)
    ensures o.relay.fromRemote.delivered == r.fromRemote.delivered + Writes(r, rounds, Remote)
    ensures o.Ended? <==> Stops(r, rounds)
    ensures o.Ended? ==> o.reason == Halt(r, rounds)
    decreases |rounds|
  {
    if |rounds| == 0 then
      DeliveredPrefix(r.fromClient);
      DeliveredPrefix(r.fromRemote);
      assert r.fromClient.received + [] == r.fromClient.received;
      assert r.fromRemote.received + [] == r.fromRemote.received;
      assert r.fromClient.delivered + [] == r.fromClient.delivered;
      assert r.fromRemote.delivered + [] == r.fromRemote.delivered;
      Looping(r)
    else
      StepExtends(r, rounds[0]);
      StepOutput(r, rounds[0]);
      match Step(r, rounds[0])
      case Stop(why, r1) => Ended(why, r1)
      case Continue(r1) =>
        var o := Run(r1, rounds[1..]);
        ExtendsTrans(r, r1, o.relay);
        AppendAssociates(r.fromClient.delivered, Output(r, rounds[0], Client), Writes(r1, rounds[1..], Client));
        AppendAssociates(r.fromRemote.delivered, Output(r, rounds[0], Remote), Writes(r1, rounds[1..], Remote));
        AppendAssociates(r.fromClient.received, Intake(r, rounds[0], Client), Reads(r1, rounds[1..], Client));
        AppendAssociates(r.fromRemote.received, Intake(r, rounds[0], Remote), Reads(r1, rounds[1..], Remote));
        o
  }

  /** Appending is associative. */
  lemma AppendAssociates(a: seq<byte>, b: seq<byte>, c: seq<byte>)
    ensures (a + b) + c == a + (b + c)
  {
  }

  /** Ending the task drops what the other direction still buffers: the
      remote's byte is read into its buffer, then the client's end of stream
      ends the task before that byte is sent to the client. */
  lemma EndDropsBuffered()
    ensures var io := RoundIo(RecvData([7]), true, RecvEof, true, Ready(true, true), [], [Sent(1)]);
            && RoundFits(Start(), io)
            && Step(Start(), io) == Stop(EndOfStream(Client, Remote, true), Step(Start(), io).relay)
            && Step(Start(), io).relay.fromRemote.received == [7]
            && Step(Start(), io).relay.fromRemote.delivered == []
  {
  }

  /** Running the first `n` rounds and then the rest from where they left
      off is running all the rounds; a loop that ended in the first `n`
      rounds stays ended. */
  lemma {:induction false} RunSplit(r: Relay, rounds: seq<RoundIo>, n: nat)
    requires Live(r) && Feasible(r, rounds) && n <= |rounds|
    ensures Feasible(r, rounds[..n])
    ensures Run(r, rounds[..n]).Looping? ==>
              && Feasible(Run(r, rounds[..n]).relay, rounds[n..])
              && Run(r, rounds) == Run(Run(r, rounds[..n]).relay, rounds[n..])
    ensures Run(r, rounds[..n]).Ended? ==> Run(r, rounds) == Run(r, rounds[..n])
    decreases n
  {
    if n > 0 {
      assert rounds[..n][0] == rounds[0];
      assert rounds[..n][1..] == rounds[1..][..n - 1];
      assert rounds[n..] == rounds[1..][n - 1..];
      match Step(r, rounds[0])
      case Stop(_, _) =>
      case Continue(r1) =>
        RunSplit(r1, rounds[1..], n - 1);
    } else {
      assert rounds[n..] == rounds;
    }
  }
}
