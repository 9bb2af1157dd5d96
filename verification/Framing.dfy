/** What the sending and the receiving half of a transport share. */
module Framing {
  import opened Bytes
  import opened Wire

  /** Progress counters kept for the message being sent or received. */
  datatype Message = Message(
    frames: Frames,
    numFrames: uint32,
    numFramesFilled: uint32,
    frameInd: uint32,
    frameFilled: uint32,
    frameSz: uint32,
    frameSzFilled: uint32)

  /** Outcome of one system call: a count (0 when it would block), or an error that closes the socket. */
  datatype Io = Moved(count: nat) | Failed

  /** Outcome of `recv`: bytes from the front of the stream (none when it would block), or an
      error or end of file, which closes the socket. */
  datatype Recv = Arrived(chunk: seq<byte>) | Lost
}
