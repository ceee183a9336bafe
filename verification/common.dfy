/** Vocabulary shared by every part of the port mapper model: bytes, the two
    sockets of a relay task, the relay buffer capacity and the errno values the
    relay tells apart. */
module Common {

  newtype byte = x: int | 0 <= x < 256

  /** Size in bytes of each of the two per-direction relay buffers. */
  const Capacity: nat := 15000

  /** errno values (Linux numbering) that the code compares against. */
  const EAGAIN: int := 11
  const EINPROGRESS: int := 115

  /** The two sockets a relay task owns. */
  datatype Side = Client | Remote

  /** The socket at the other end of a relay task. */
  function Opposite(s: Side): Side
  {
    match s
    case Client => Remote
    case Remote => Client
  }
}
