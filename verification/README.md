# jap relay model

A Dafny model of jap ("Just Another Portmapper"), a TCP port mapper that
accepts clients on a local port and relays every connection to a fixed
remote host and port, one thread per connection. The model covers the
logic of a relay task and of the listener:

- **Buffer** (`buffer.dfy`): one relay direction. It has a 15000-byte
  buffer, an end offset `len` (an end index, not a length), a sent-so-far
  offset `start` and a shutdown flag. Two observation logs are kept
  alongside: the bytes received from the source and the bytes delivered
  to the peer. The module holds the receive into an empty buffer (`Fill`)
  and the send loop (`Flush`). `SendLoop` restates the send loop as a
  loop over `tosend` and `sent_total`, as the C code writes it, and is
  proved to end exactly where `Flush` does. The relay rounds use `Flush`.
- **RelayLoop** (`relay.dfy`): one round of the relay loop and any number
  of rounds. A round is:
  1. the "both drained and both shut down" exit test;
  2. the remote read half, then the client read half;
  3. the readiness wait;
  4. the send loop toward the remote, then the send loop toward the client.
- **Connect** (`connect.dfy`): how the non-blocking connect to the remote
  server is classified.
- **Task** (`task.dfy`): a whole relay task. It covers socket creation, the
  non-blocking set-up, connect, the relay loop, and which sockets are
  closed on the way out.
- **Access** (`access.dfy`): the command-line restriction, the client
  filter, and the accept loop's dispatch of accepted sockets.
- **Common** (`common.dfy`): bytes, the two sides of a task, the buffer
  capacity and the errno values the code compares against (Linux
  numbering).

Every socket call is replaced by an oracle answer passed in as data. The
answers cover `recv`, `send`, `shutdown`, the readiness wait, `connect`,
`getsockopt`, `fcntl`, `socket`, `accept` and `pthread_create`. The
answers must be ones a kernel can give: `recv` returns 1 to 15000 bytes,
and each `send` accepts between one byte and what it was asked to send.
These conditions are the predicates `RecvFits`, `Adequate`, `RoundFits`
and `Feasible`.

## Model

| member | source | states |
|---|---|---|
| Buffer.Idle | jap.c:196-199 | A direction starts with an empty buffer of 15000 bytes, the shutdown flag clear and nothing received or delivered. |
| Buffer.Fill | jap.c:211-233 | A read of n bytes (1 ≤ n ≤ 15000) into an empty buffer makes the buffered region exactly `[0, n)` holding those bytes. It appends them to the received bytes and delivers nothing. |
| Buffer.DeliveredPrefix | jap.c:196-331 | In a valid direction the delivered bytes are a prefix of the received bytes, and all of them once the buffer is empty. |
| Buffer.Advance | jap.c:295-296 | A send that accepted k bytes moves `start` by exactly k. It appends exactly `buf[start..start+k)` to the delivered bytes and leaves the end offset alone. |
| Buffer.Flush | jap.c:279-300 | The send loop leaves the end offset alone unless it drains. It empties the buffer exactly when `start` has reached the end. Otherwise it keeps at least one unsent byte in `[start, len)`. A failure it reports is never EAGAIN. |
| Buffer.FlushExit | jap.c:281-300 | Why the send loop stopped. It drains only when every send it made succeeded. Otherwise its last send failed: the loop is blocked exactly when that failure was EAGAIN, and a reported failure carries that send's errno. It makes at most one send per answer. |
| Buffer.FlushDelivers | jap.c:279-297 | The bytes one send loop delivers are exactly the buffer bytes from the old `start` to the new one, in buffer order. |
| Buffer.FlushConserves | jap.c:279-300 | After a send loop every received byte is still either delivered or pending, with none duplicated or reordered. A drained loop has delivered everything received. |
| Buffer.FlushCalls | jap.c:281-296 | Each send asks for the whole unsent rest `[offset, len)`, and the first starts at `start`. Every call but the last was answered by a successful send, and the next call starts exactly that many bytes further on. |
| Buffer.SendLoop | jap.c:279-300 | The loop over `tosend` and `sent_total`, as written in C, is proved to end in the same state and status as `Flush`. It delivers `buf[start..new start)` and clears the end offset only when everything was sent. |
| RelayLoop.Start | jap.c:196-199 | The loop starts live, with both buffers empty and nothing received. |
| RelayLoop.AfterRead | jap.c:211-235 | A read half that goes on appends exactly the bytes `recv` returned (nothing unless the source was read and returned data) and delivers nothing. What is left to send afterwards is the backlog: the new bytes after a read, the old unsent rest when the source was not read. |
| RelayLoop.ReadPhase | jap.c:211-264 | The source is read only when its buffer is empty and its shutdown flag is clear; otherwise the peer is registered for writing. The read half ends the task exactly when the source is read and reports end of stream or an error other than EAGAIN. End of stream sets the flag and records the half-close of the opposite socket, with everything received already delivered. An error ends the task with its errno. EAGAIN leaves the direction alone and registers read interest only. Data fills the buffer and registers write interest. A read half that goes on leaves the direction as `AfterRead` does. |
| RelayLoop.SendPhase | jap.c:274-330 | The send loop runs only when the peer was registered and reported writable. When it runs, the direction ends exactly where `Flush` leaves it, and the task ends exactly when `Flush` reports a send failure: a write failure toward that target carrying that errno. It never loses received bytes, and delivered bytes only grow. |
| RelayLoop.ReadHalf | jap.c:211-264 | The remote read comes first, and the client is read only when the remote read half goes on. Each direction takes in exactly its `Intake`. The round goes on exactly when neither read half ends the task, and then both directions are as `AfterRead` leaves them. A remote receive error stops with that errno. A client end of stream or receive error, after the remote half went on, stops with the client as source. A remote end of stream on an empty remote buffer leaves the client-to-remote direction untouched, even when it holds unsent bytes. Reads deliver nothing. |
| RelayLoop.SendHalf | jap.c:266-330 | A failed wait ends the task with its errno and changes nothing. After a successful wait the client-to-remote direction ends where its send loop left it (`AfterSend`). A send failure there ends the task with that errno, and the client is then not sent to. Otherwise the remote-to-client direction ends where its send loop left it, and the task ends exactly when that send loop fails. Nothing is sent toward a socket the wait did not report writable. Sends never change what was received. |
| RelayLoop.Step | jap.c:201-331 | A round keeps both directions valid and a continuing loop live. Each direction's received bytes grow by exactly what the round read from its source (`Intake`), and delivered bytes only grow. Nothing is delivered toward a socket the wait did not report writable. End of stream half-closes the opposite side after everything from that source was delivered. The "both shut down" exit at 205-209 is never taken. |
| RelayLoop.StepFate | jap.c:201-331 | How a round ends. A remote end of stream on an empty remote buffer, or a remote receive error, stops the round with that reason. Otherwise a client end of stream or receive error does. Once both read halves go on, a failed wait stops with the buffers as read. Otherwise the direction toward the remote ends where its send loop left it, and the direction toward the client is sent only when that send loop did not fail. The round goes on exactly when no read half ends the task, the wait succeeds and neither send loop fails. |
| RelayLoop.StepOutput | jap.c:266-330 | Each direction delivers in a round exactly the buffer bytes its send loop hands over (`Output`). Nothing is delivered when a read half ends the task or the wait fails. The direction toward the client delivers nothing after the send loop toward the remote failed. |
| RelayLoop.Run | jap.c:201-331 | Over any number of rounds both directions stay valid, and a loop still running is live. Each direction's received bytes grow by exactly what the rounds read from its source (`Reads`). Its delivered bytes grow by exactly what the rounds' send loops handed over (`Writes`), round by round up to the one that ends the task. The loop has ended exactly when some round ends the task (`Stops`), and then with that first round's reason (`Halt`). Delivered bytes stay a prefix of the received ones: no gap, duplication or reordering. Bytes still buffered in the other direction when a round ends the task are never delivered (see `EndDropsBuffered`). The "both shut down" exit is never taken, and an end-of-stream source has had all its bytes delivered. |
| RelayLoop.EndDropsBuffered | jap.c:229-249 | A round that ends the task drops what the other direction still buffers. From the start, the remote's byte is read into its buffer, then the client's end of stream ends the task. The remote-to-client direction has received that byte and delivered nothing. |
| RelayLoop.RunSplit | jap.c:201-331 | Running the first n rounds and then the rest from where they stopped is the same as running all the rounds. A loop that ended within the first n rounds stays ended. |
| Connect.Classify | jap.c:151-192 | A failure other than EINPROGRESS fails at once, and a synchronous success skips the wait. In the wait, -1 is a select error and 0 a timeout. A failing `getsockopt` is its own error, and a nonzero `SO_ERROR` is a connect error carrying that value. Only the remaining cases connect. |
| Connect.ConnectSteps | jap.c:151-192 | The early-exit sequence of checks reaches the same outcome, and makes the same waits and queries, as `Classify`. |
| Task.Setup | jap.c:121-142 | The set-up succeeds iff all four flag reads and writes succeed. The failing step reported is the first one that failed. |
| Task.Cleanup | jap.c:333-336 | The client socket is always closed, and closed last. The remote socket is closed iff it was created. No socket is closed twice. |
| Task.RunTask | jap.c:116-336 | A task ends without a socket exactly when socket creation fails. It ends in set-up exactly when creation succeeded and a set-up step failed, reporting the first failing step. It ends unconnected exactly when set-up succeeded and the connect attempt did not connect, with that attempt's outcome. The relay runs exactly when all three succeeded, and then the task's state and end reason are those of `Run`. Every end of the task closes the client socket, and closes the remote socket exactly when it was created, each once. Nothing is closed while the task is still relaying. |
| Access.Configure | jap.c:357-375 | `argc` counts the program name. `argc` < 4 or `argc` > 5 gives the usage text. With `argc` == 5 (the optional client host given), an unresolvable client host is rejected and a resolvable one becomes the restriction. With `argc` == 4 anyone is served. |
| Access.DispatchAsWritten | jap.c:433-452 | A client is relayed iff it is admitted and the thread starts, and closed iff it is rejected. An admitted client whose thread fails to start is left open with no owner. |
| Access.AsWrittenStrands | jap.c:443-446 | An unrestricted listener whose `pthread_create` fails strands the client socket. |
| Access.Dispatch | jap.c:433-452 | With the socket closed on thread failure, no accepted socket is stranded. A socket is relayed iff the client is admitted (no restriction, or the restriction address) and its thread started, and it is closed otherwise. |
| Access.Serve | jap.c:414-452 | The accept loop dispatches every connection until `accept` fails, which ends the listener. It uses the corrected `Dispatch`, which closes the socket when the thread cannot start. The C code strands that socket instead (see Findings), so "no socket is stranded" holds for the corrected loop only. Every relayed client passed the filter. Under a restriction, every relayed client came from the restriction address. |

## Left out

- Socket system calls, `select` readiness and `shutdown` are oracle answers, not OS behaviour. `recv` returning 1 to 15000 bytes and `send` accepting 1 to the requested count are preconditions. A `send` that accepts 0 bytes, on which the loop would spin, is not modelled.
- Threads: one task is modelled at a time. Tasks share no state. `pthread_detach` is not modelled.
- `set_address` (jap.c:50-85): host and service resolution is libc behaviour. `Access.Configure` takes the lookup result as a parameter. The destination and local-service lookups and `socket`/`bind`/`listen` on the listening socket are not modelled.
- `TCP_NODELAY` and `SO_REUSEADDR`: their failures are only logged and change no control flow.
- The 5-second connect timeout is only the `Timeout` outcome of the wait. `Connect.ConnectTimeout` records the constant.
- `malloc`/`free` of the thread arguments, `print_usage`, and all `perror`/`fprintf` logging.
- The initial buffer contents and `start` are uninitialised in C. Here the buffer starts as 15000 zero bytes and `start` as 0. Neither is read before the first receive overwrites the buffer prefix and sets `start`. Bytes beyond `len` are never sent.
- Buffer.SendLoop: the `ssize_t` arithmetic of `sent_total` is unbounded here. With a 15000-byte buffer it cannot overflow.

## Findings

| source | as written | input that shows it | evidently intended | confidence | as-written member | corrected member |
|---|---|---|---|---|---|---|
| jap.c:443-446 | When `pthread_create` fails, the listener only reports the error. The accepted client socket is neither handed to a task nor closed, and the thread arguments are not freed. | An admitted client (no restriction) for which `pthread_create` fails, e.g. at the thread limit. | Close the client socket, as the rejected branch at jap.c:450 does. | likely; not executed | Access.DispatchAsWritten, Access.AsWrittenStrands | Access.Dispatch, Access.Serve |
