/** The listener: which clients get a relay task, and what becomes of the
    socket of each accepted connection. */
module Access {

  newtype Ipv4 = x: int | 0 <= x < 0x1_0000_0000

  /** The optional fifth command-line argument: when given, only clients
      from that one IPv4 address are served. */
  datatype Restriction = Anyone | OnlyFrom(address: Ipv4)

  /** The result of resolving the client host argument. */
  datatype Lookup = NotFound | Found(address: Ipv4)

  /** What the command line leads to. */
  datatype Config = Usage | BadHost | Configured(restriction: Restriction)

  /** How the command line configures the listener: too few or too many
      arguments print the usage text, a client host that does not resolve is
      rejected, and otherwise the restriction is set by whether the fifth
      argument is present. Name resolution is not modelled: `clientHost` is
      its result. */
  function Configure(argc: int, clientHost: Lookup): (c: Config)
    ensures c.Usage? <==> argc < 4 || argc > 5
    ensures c.BadHost? <==> argc == 5 && clientHost.NotFound?
    ensures c.Configured? && c.restriction.OnlyFrom? <==> argc == 5 && clientHost.Found?
    ensures c.Configured? && c.restriction.OnlyFrom? ==> c.restriction.address == clientHost.address
    ensures c == Configured(Anyone) <==> argc == 4
  {
    if argc < 4 then Usage
    else if argc > 4 then
      if argc != 5 then Usage
      else if clientHost.NotFound? then BadHost
      else Configured(OnlyFrom(clientHost.address))
    else Configured(Anyone)
  }

  /** A client is served when no restriction is configured, or when its
      address equals the restriction address. */
  predicate Admits(r: Restriction, client: Ipv4)
  {
    r.Anyone? || (r.OnlyFrom? && client == r.address)
  }

  /** An accepted connection: the client's address, and whether a relay
      thread could be started for it. */
  datatype Connection = Connection(address: Ipv4, spawnOk: bool)

  /** What becomes of an accepted socket: handed to a relay task (which
      closes it when it ends), closed by the listener, or left open with no
      owner. */
  datatype Fate = Relayed | Closed | Stranded

  /** The dispatch as the listener performs it: a client the restriction
      rejects is closed; an admitted one is handed to a new relay thread, but
      when the thread cannot be started the failure is only reported and the
      socket stays open with nothing left to close it. */
  function DispatchAsWritten(r: Restriction, c: Connection): (f: Fate)
    ensures f.Relayed? <==> Admits(r, c.address) && c.spawnOk
    ensures f.Closed? <==> !Admits(r, c.address)
    ensures f.Stranded? <==> Admits(r, c.address) && !c.spawnOk
  {
    if Admits(r, c.address) then
      if c.spawnOk then Relayed else Stranded
    else
      Closed
  }

  /** An unrestricted listener whose thread creation fails strands the
      client socket. */
  lemma AsWrittenStrands()
    ensures DispatchAsWritten(Anyone, Connection(0, false)) == Stranded
    ensures exists r, c :: DispatchAsWritten(r, c) == Stranded
  {
    assert DispatchAsWritten(Anyone, Connection(0, false)) == Stranded;
  }

  /** The dispatch with the socket closed when the thread cannot be started:
      every accepted socket ends up either owned by a relay task or closed,
      and it is owned by a task exactly when the client is admitted and the
      thread started. */
  function Dispatch(r: Restriction, c: Connection): (f: Fate)
    ensures !f.Stranded?
    ensures f.Relayed? <==> Admits(r, c.address) && c.spawnOk
    ensures f.Closed? <==> !Admits(r, c.address) || !c.spawnOk
    ensures f.Relayed? ==> DispatchAsWritten(r, c).Relayed?
  {
    if Admits(r, c.address) && c.spawnOk then Relayed else Closed
  }

  /** What one `accept` call returns. */
  datatype Accept = AcceptFailed | Accepted(conn: Connection)

  /** The accept loop: dispatch each accepted connection until `accept`
      fails, which makes the listener exit. Every socket it accepted is then
      owned by a relay task or closed, and under a restriction every relayed
      client came from the restriction address. */
  method Serve(r: Restriction, accepts: seq<Accept>) returns (fates: seq<Fate>, exited: bool)
    ensures |fates| <= |accepts|
    ensures exited <==> |fates| < |accepts|
    ensures exited ==> accepts[|fates|].AcceptFailed?
    ensures forall i :: 0 <= i < |fates| ==> accepts[i].Accepted? && fates[i] == Dispatch(r, accepts[i].conn)
    ensures forall i :: 0 <= i < |fates| ==> !fates[i].Stranded?
    ensures forall i :: 0 <= i < |fates| && fates[i].Relayed? ==> Admits(r, accepts[i].conn.address)
    ensures r.OnlyFrom? ==>
              forall i :: 0 <= i < |fates| && fates[i].Relayed? ==> accepts[i].conn.address == r.address
  {
    fates := [];
    exited := false;
    var n := 0;
    while n < |accepts|
      invariant n == |fates| <= |accepts|
      invariant forall i :: 0 <= i < n ==> accepts[i].Accepted? && fates[i] == Dispatch(r, accepts[i].conn)
      decreases |accepts| - n
    {
      match accepts[n]
      case AcceptFailed =>
        exited := true;
        return;
      case Accepted(conn) =>
        fates := fates + [Dispatch(r, conn)];
        n := n + 1;
    }
  }
}
