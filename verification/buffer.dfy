/** One direction of the relay (client to remote, or remote to client): the
    fixed buffer, its offsets and end-of-stream flag, the receive that fills it
    and the send loop that drains it. */
module Buffer {
  import opened Common

  /** The state of one direction.
      - `buf` is the whole fixed-size buffer; bytes past `len` are stale.
      - `len` is the END offset of the bytes last received, not a length.
      - `start` is the offset of the first byte not yet sent. It is left as it
        was when the buffer drains, so it is meaningful only while `len > 0`.
      - `shutdown` records that the source reported end of stream.
      - `received` and `delivered` are observations: every byte received from
        the source and every byte the peer's send accepted, in order. */
  datatype Direction = Direction(
    buf: seq<byte>,
    start: nat,
    len: nat,
    shutdown: bool,
    received: seq<byte>,
    delivered: seq<byte>)

  /** The unsent region `buf[start..len)`; nothing when the buffer is empty. */
  function Pending(d: Direction): seq<byte>
  {
    if 0 < d.len <= |d.buf| && d.start < d.len then d.buf[d.start..d.len] else []
  }

  /** Offsets inside the buffer, and `start` not past a non-zero `len`. */
  predicate Bounded(d: Direction)
  {
    && |d.buf| == Capacity
    && d.len <= Capacity
    && d.start <= Capacity
    && (d.len > 0 ==> d.start <= d.len)
  }

  /** Every byte received from the source has been delivered or is pending,
      in order: nothing lost, duplicated or reordered. */
  predicate Conserved(d: Direction)
  {
    d.received == d.delivered + Pending(d)
  }

  /** What holds at the top of every relay round: the offsets are in range,
      bytes are conserved, and a non-empty buffer still holds at least one
      unsent byte. */
  predicate Valid(d: Direction)
  {
    Bounded(d) && Conserved(d) && (d.len > 0 ==> d.start < d.len)
  }

  /** In a valid direction the delivered bytes are a prefix of the received
      ones, and all of them once the buffer is empty. */
  lemma DeliveredPrefix(d: Direction)
    requires Valid(d)
    ensures d.delivered <= d.received
    ensures d.len == 0 ==> d.delivered == d.received
  {
  }

  /** A direction before its first receive. */
  function Idle(): (d: Direction)
    ensures Valid(d) && d.len == 0 && !d.shutdown
    ensures d.received == [] && d.delivered == []
  {
    Direction(seq(Capacity, _ => 0 as byte), 0, 0, false, [], [])
  }

  /** What one non-blocking `recv` reported. */
  datatype RecvResult =
    | RecvEof
    | RecvError(errno: int)
    | RecvData(data: seq<byte>)

  /** `recv` is asked for at most the buffer size, and returns 0 for end of
      stream, so data it returns is between 1 and `Capacity` bytes. */
  predicate RecvFits(rr: RecvResult)
  {
    rr.RecvData? ==> 1 <= |rr.data| <= Capacity
  }

  /** A receive of `data` into an empty buffer: the buffer becomes
      `[0, |data|)` and the bytes are appended to what the source sent. */
  function Fill(d: Direction, data: seq<byte>): (d': Direction)
    requires Valid(d) && d.len == 0
    requires 1 <= |data| <= Capacity
    ensures Valid(d')
    ensures d'.start == 0 && d'.len == |data| <= Capacity
    ensures Pending(d') == data
    ensures d'.received == d.received + data
    ensures d'.delivered == d.delivered && d'.shutdown == d.shutdown
  {
    var d' := d.(buf := data + d.buf[|data|..], start := 0, len := |data|,
                 received := d.received + data);
    assert d'.buf[0..d'.len] == data;
    d'
  }

  /** What one non-blocking `send` reported: an error, or the count of bytes
      the kernel accepted. */
  datatype SendResult =
    | SendError(errno: int)
    | Sent(count: nat)

  /** The send oracle answers every call the send loop makes while `remaining`
      bytes are unsent, and a successful send accepts between one byte and
      all of the bytes it was asked to send. */
  predicate Adequate(answers: seq<SendResult>, remaining: nat)
    decreases |answers|
  {
    || remaining == 0
    || (&& |answers| > 0
        && match answers[0]
           case SendError(_) => true
           case Sent(k) => 1 <= k <= remaining && Adequate(answers[1..], remaining - k))
  }

  /** Bytes between `start` and a non-zero `len`. */
  function Unsent(d: Direction): nat
  {
    if d.start < d.len then d.len - d.start else 0
  }

  /** How a send loop ended: the buffer drained, a send would have blocked,
      or a send failed. */
  datatype FlushStatus = Drained | Blocked | SendFailed(errno: int)

  /** The arguments of one `send` call: the offset it sends from and the
      count it asks for. */
  datatype SendCall = SendCall(offset: nat, count: nat)

  /** The outcome of a send loop: the direction afterwards, how the loop
      ended, and the send calls it issued, in order. */
  datatype Flushed = Flushed(dir: Direction, status: FlushStatus, calls: seq<SendCall>)

  /** A slice splits at any index between its ends. */
  lemma SplitSlice(s: seq<byte>, i: nat, j: nat, k: nat)
    requires i <= j <= k <= |s|
    ensures s[i..k] == s[i..j] + s[j..k]
  {
  }

  /** A send that accepted `k` of the unsent bytes: they join what was
      delivered and `start` moves past them. */
  function Advance(d: Direction, k: nat): (d': Direction)
    requires Bounded(d) && 1 <= k <= Unsent(d)
    ensures Bounded(d') && d'.len == d.len && d'.start == d.start + k
    ensures d'.buf == d.buf && d'.received == d.received && d'.shutdown == d.shutdown
    ensures Unsent(d') == Unsent(d) - k
    ensures d'.delivered == d.delivered + d.buf[d.start..d.start + k]
  {
    d.(start := d.start + k, delivered := d.delivered + d.buf[d.start..d.start + k])
  }

  /** The send loop as a function: keep sending `buf[start..len)` until it is
      all accepted, a send would block, or a send fails. Every call asks for
      the whole unsent rest. The buffer is emptied only once `start` has
      reached `len`; otherwise it keeps its end and at least one unsent byte. */
  function Flush(d: Direction, answers: seq<SendResult>): (f: Flushed)
    requires Bounded(d) && Adequate(answers, Unsent(d))
    ensures Bounded(f.dir)
    ensures f.dir.buf == d.buf && f.dir.received == d.received && f.dir.shutdown == d.shutdown
    ensures f.status.Drained? <==> f.dir.len == 0
    ensures f.status.Drained? ==> f.dir.start == (if d.len > 0 then d.len else d.start)
    ensures !f.status.Drained? ==> f.dir.len == d.len && d.start <= f.dir.start < d.len
    ensures f.status.SendFailed? ==> f.status.errno != EAGAIN
    decreases |answers|
  {
    if d.start >= d.len then
      Flushed(d.(len := 0), Drained, [])
    else
      var call := SendCall(d.start, d.len - d.start);
      match answers[0]
      case SendError(e) =>
        Flushed(d, if e == EAGAIN then Blocked else SendFailed(e), [call])
      case Sent(k) =>
        var f := Flush(Advance(d, k), answers[1..]);
        f.(calls := [call] + f.calls)
  }

  /** Unfolding `Flush` once, when the next send fails or would block. */
  lemma FlushStops(d: Direction, answers: seq<SendResult>)
    requires Bounded(d) && Adequate(answers, Unsent(d)) && d.start < d.len
    ensures |answers| > 0
    ensures answers[0].SendError? ==>
              Flush(d, answers) ==
              Flushed(d, if answers[0].errno == EAGAIN then Blocked else SendFailed(answers[0].errno),
                      [SendCall(d.start, d.len - d.start)])
  {
  }

  /** Unfolding `Flush` once, when the next send accepts `k` bytes. */
  lemma FlushSends(d: Direction, answers: seq<SendResult>, k: nat)
    requires Bounded(d) && Adequate(answers, Unsent(d)) && d.start < d.len
    requires |answers| > 0 && answers[0] == Sent(k)
    ensures 1 <= k <= Unsent(d)
    ensures Adequate(answers[1..], Unsent(Advance(d, k)))
    ensures Flush(d, answers).dir == Flush(Advance(d, k), answers[1..]).dir
    ensures Flush(d, answers).status == Flush(Advance(d, k), answers[1..]).status
    ensures Flush(d, answers).calls == [SendCall(d.start, d.len - d.start)] + Flush(Advance(d, k), answers[1..]).calls
  {
  }

  /** The bytes a send loop delivers are exactly the buffer bytes from
      `start` up to where it stopped, in buffer order. */
  lemma {:induction false} FlushDelivers(d: Direction, answers: seq<SendResult>)
    requires Bounded(d) && Adequate(answers, Unsent(d))
    ensures Flush(d, answers).dir.delivered == d.delivered + d.buf[d.start..Flush(d, answers).dir.start]
    decreases |answers|
  {
    if d.start < d.len {
      assert |answers| > 0;
      match answers[0]
      case SendError(_) =>
        FlushStops(d, answers);
      case Sent(k) =>
        FlushSends(d, answers, k);
        var d1 := Advance(d, k);
        var f := Flush(d1, answers[1..]);
        FlushDelivers(d1, answers[1..]);
        SplitSlice(d.buf, d.start, d1.start, f.dir.start);
        assert f.dir.delivered == d.delivered + (d.buf[d.start..d1.start] + d.buf[d1.start..f.dir.start]);
    }
  }

  /** A send loop neither loses, duplicates nor reorders bytes: if every
      received byte was delivered or pending before, the same holds after,
      and a drained loop has delivered every byte ever received. */
  lemma FlushConserves(d: Direction, answers: seq<SendResult>)
    requires Bounded(d) && Conserved(d) && Adequate(answers, Unsent(d))
    ensures Valid(Flush(d, answers).dir)
    ensures Flush(d, answers).status.Drained? ==> Flush(d, answers).dir.delivered == d.received
  {
    var f := Flush(d, answers);
    FlushDelivers(d, answers);
    if f.status.Drained? {
      assert Pending(f.dir) == [];
      if d.len > 0 {
        assert f.dir.delivered == d.delivered + Pending(d);
      } else {
        assert d.buf[d.start..f.dir.start] == [];
      }
    } else {
      SplitSlice(d.buf, d.start, f.dir.start, d.len);
      assert Pending(d) == d.buf[d.start..f.dir.start] + Pending(f.dir);
    }
  }

  /** Every send the loop issues asks for the whole unsent rest
      `[offset, len)`; the first starts at `start`; every call but the last
      was answered by a successful send, and the next call starts exactly
      that many bytes further on; there is at most one call per oracle
      answer. */
  lemma {:induction false} FlushCalls(d: Direction, answers: seq<SendResult>)
    requires Bounded(d) && Adequate(answers, Unsent(d))
    ensures var calls := Flush(d, answers).calls;
      && |calls| <= |answers|
      && (|calls| > 0 ==> calls[0].offset == d.start)
      && (forall i :: 0 <= i < |calls| ==>
            d.start <= calls[i].offset < d.len && calls[i].offset + calls[i].count == d.len)
      && (forall i :: 0 <= i < |calls| - 1 ==>
            answers[i].Sent? && calls[i + 1].offset == calls[i].offset + answers[i].count)
    decreases |answers|
  {
    if d.start < d.len {
      assert |answers| > 0;
      match answers[0]
      case SendError(_) =>
        FlushStops(d, answers);
      case Sent(k) =>
        FlushSends(d, answers, k);
        var d1 := Advance(d, k);
        FlushCalls(d1, answers[1..]);
        var rest := Flush(d1, answers[1..]).calls;
        var calls := Flush(d, answers).calls;
        assert calls == [SendCall(d.start, d.len - d.start)] + rest;
        forall i | 0 <= i < |calls| - 1
          ensures answers[i].Sent? && calls[i + 1].offset == calls[i].offset + answers[i].count
        {
          if i > 0 {
            assert answers[1..][i - 1] == answers[i];
            assert calls[i] == rest[i - 1] && calls[i + 1] == rest[i];
          } else if |rest| > 0 {
            assert calls[1] == rest[0];
          }
        }
    }
  }

  /** Why the send loop stopped. It goes on after every successful send that
      leaves bytes unsent, so a drained loop had every send succeed; otherwise
      its last call failed, and the loop reports `Blocked` exactly when that
      failure was EAGAIN and passes any other errno on. */
  lemma {:induction false} FlushExit(d: Direction, answers: seq<SendResult>)
    requires Bounded(d) && Adequate(answers, Unsent(d))
    ensures var f := Flush(d, answers);
      && |f.calls| <= |answers|
      && (f.status.Drained? ==> forall i :: 0 <= i < |f.calls| ==> answers[i].Sent?)
      && (f.status.Drained? && 0 < |f.calls| ==>
            && answers[|f.calls| - 1].Sent?
            && f.calls[|f.calls| - 1].offset + answers[|f.calls| - 1].count == d.len)
      && (!f.status.Drained? ==>
            && 0 < |f.calls|
            && answers[|f.calls| - 1].SendError?
            && (f.status.Blocked? <==> answers[|f.calls| - 1].errno == EAGAIN)
            && (f.status.SendFailed? ==> f.status.errno == answers[|f.calls| - 1].errno))
    decreases |answers|
  {
    if d.start < d.len {
      assert |answers| > 0;
      match answers[0]
      case SendError(_) =>
        FlushStops(d, answers);
      case Sent(k) =>
        FlushSends(d, answers, k);
        var d1 := Advance(d, k);
        FlushExit(d1, answers[1..]);
        var rest := Flush(d1, answers[1..]);
        var f := Flush(d, answers);
        assert |f.calls| == 1 + |rest.calls|;
        if f.status.Drained? {
          if |rest.calls| == 0 {
            assert f.calls[0] == SendCall(d.start, d.len - d.start);
          } else {
            assert answers[1..][|rest.calls| - 1] == answers[|f.calls| - 1];
            assert f.calls[|f.calls| - 1] == rest.calls[|rest.calls| - 1];
          }
          forall i | 0 <= i < |f.calls|
            ensures answers[i].Sent?
          {
            if i > 0 {
              assert answers[1..][i - 1] == answers[i];
            }
          }
        } else {
          assert answers[1..][|rest.calls| - 1] == answers[|f.calls| - 1];
        }
    }
  }

  /** The send loop as the relay writes it. `sentTotal` starts at `start`
      and both advance together by what each send accepted. It ends in
      exactly the direction state and status that `Flush` describes. */
  method SendLoop(d: Direction, answers: seq<SendResult>)
    returns (d': Direction, status: FlushStatus)
    requires Bounded(d) && Adequate(answers, Unsent(d))
    ensures d' == Flush(d, answers).dir && status == Flush(d, answers).status
    ensures d'.delivered == d.delivered + d.buf[d.start..d'.start]
    ensures status.Drained? ==> d'.len == 0
    ensures !status.Drained? ==> d'.len == d.len && d.start <= d'.start < d.len
  {
    var tosend: int := d.len;
    var sentTotal: int := d.start;
    var i := 0;
    d' := d;
    status := Drained;
    while sentTotal < tosend
      invariant d.len > 0 ==> d.start <= sentTotal <= tosend
      invariant d.len == 0 ==> sentTotal == d.start
      invariant d'.start == sentTotal && d'.len == d.len && d'.buf == d.buf
      invariant Bounded(d')
      invariant i <= |answers| && Adequate(answers[i..], Unsent(d'))
      invariant Flush(d', answers[i..]).dir == Flush(d, answers).dir
      invariant Flush(d', answers[i..]).status == Flush(d, answers).status
      decreases tosend - sentTotal
    {
      FlushStops(d', answers[i..]);
      assert answers[i..][0] == answers[i] && answers[i..][1..] == answers[i + 1..];
      var answer := answers[i];
      if answer.SendError? {
        status := if answer.errno == EAGAIN then Blocked else SendFailed(answer.errno);
        break;
      }
      FlushSends(d', answers[i..], answer.count);
      d' := Advance(d', answer.count);
      sentTotal := sentTotal + answer.count;
      i := i + 1;
    }
    if sentTotal >= tosend {
      d' := d'.(len := 0);
    }
    FlushDelivers(d, answers);
  }
}
