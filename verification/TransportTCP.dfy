/** The TransportTCP class: the two halves of the framing code in one object, tied to its entry in
    the PollSet. Each method is proved to be the step that Sender or Receiver specifies, and to keep
    the poll entry in step with the queue. */
module TransportTCP {
  import opened Bytes
  import opened Wire
  import opened Framing
  import opened PollModel
  import opened PollSets
  import S = Sender
  import R = Receiver

  /** What a step of either half needs from the transport, and what it leaves. */
  lemma ReadStays(r: R.ReceiverState, recv: Recv)
    requires R.ReceiverInv(r) && !r.closed
    ensures var res := R.ReadMessage(r, recv);
            && res.Received? && (!res.state.closed ==> R.ReceiverInv(res.state))
            && |res.state.delivered| <= |r.delivered| + 1
  {
    R.ReadExact(r, recv);
    R.DeliversAtMostOne(r, recv);
    hide R.ReadMessage, R.ReceiverInv;
  }

  lemma WriteStays(s: S.SenderState, io: Io)
    requires S.SenderInv(s) && !s.closed && s.expectingWrite
    ensures var res := S.WriteMessage(s, io);
            res.Sent? && (!res.state.closed ==> S.SenderInv(res.state))
  {
    S.WriteExact(s, io);
    hide S.WriteMessage;
  }

  class Transport {
    const pollSet: PollSet
    var sock: int
    var closed: bool
    var expectingRead: bool
    var expectingWrite: bool
    var messages: bool
    var reading: bool
    var readMsg: Message
    var sendMsgs: seq<Message>
    var msgCounter: nat
    var filter: pos
    var hasDisconnectCb: bool
    var disconnects: nat         // calls made to the disconnect callback
    var delivered: seq<Frames>   // calls made to the message callback

    /** The sending half. */
    ghost function Snd(): S.SenderState
      reads this
    {
      S.SenderState(closed, sendMsgs, expectingWrite, msgCounter, filter)
    }

    /** The receiving half. */
    ghost function Rcv(): R.ReceiverState
      reads this
    {
      R.ReceiverState(closed, reading, readMsg, delivered)
    }

    /** The poll entry of an open transport asks for exactly what the transport expects. */
    ghost predicate Registered()
      reads this, pollSet
    {
      && pollSet.Valid()
      && (!closed ==>
            && sock >= 0 && sock in pollSet.socketInfo
            && (PollIn in pollSet.socketInfo[sock].events <==> expectingRead)
            && (PollOut in pollSet.socketInfo[sock].events <==> expectingWrite))
    }

    /** What holds at every release of the message lock of a connected transport. */
    ghost predicate Valid()
      reads this, pollSet
    {
      && Registered()
      && (!closed ==> S.SenderInv(Snd()) && R.ReceiverInv(Rcv()))
    }

    /** No other socket's poll entry changed. */
    twostate predicate OthersUntouched(fd: int)
      reads pollSet
    {
      pollSet.socketInfo - {fd} == old(pollSet.socketInfo) - {fd}
    }

    /** A connected socket, registered for no event yet. */
    constructor (pollSet: PollSet, sock: int)
      requires pollSet.Valid() && sock >= 0 && sock !in pollSet.socketInfo
      modifies pollSet
      ensures Valid() && !closed && Snd() == S.INITIAL && Rcv() == R.INITIAL
      ensures this.pollSet == pollSet && this.sock == sock && !messages && disconnects == 0 && !hasDisconnectCb
      ensures pollSet.socketInfo - {sock} == old(pollSet.socketInfo)
    {
      this.pollSet := pollSet;
      this.sock := sock;
      closed, expectingRead, expectingWrite, messages, reading := false, false, false, false, false;
      readMsg := R.INITIAL.msg;
      sendMsgs := [];
      msgCounter, filter := 0, 1;
      hasDisconnectCb, disconnects, delivered := false, 0, [];
      new;
      var _ := pollSet.AddSocket(sock);
    }

    method EnableMessagePass()
      modifies `messages
      ensures messages
    {
      messages := true;
    }

    method SetDisconnectCallback()
      modifies `hasDisconnectCb
      ensures hasDisconnectCb
    {
      hasDisconnectCb := true;
    }

    /** Idempotent: only the first call removes the socket and fires the callback. */
    method Close()
      requires pollSet.Valid()
      modifies this, pollSet
      ensures closed && pollSet.Valid()
      ensures old(closed) ==> unchanged(this) && unchanged(pollSet)
      ensures !old(closed) ==>
        && disconnects == old(disconnects) + (if old(hasDisconnectCb) then 1 else 0) && !hasDisconnectCb
        && pollSet.socketInfo ==
           (if old(sock) >= 0 then old(pollSet.socketInfo) - {old(sock)} else old(pollSet.socketInfo))
      ensures Snd() == old(Snd()).(closed := true) && Rcv() == old(Rcv()).(closed := true)
      ensures messages == old(messages) && OthersUntouched(old(sock))
    {
      if !closed {
        closed := true;
        var fd := sock;
        var _ := pollSet.DelSocket(sock);
        sock := -1;
        var fire := hasDisconnectCb;
        hasDisconnectCb := false;
        if fire {
          disconnects := disconnects + 1;
        }
      }
    }

    method EnableRead()
      requires Registered()
      modifies `expectingRead, pollSet
      ensures Registered() && expectingRead == (if closed then old(expectingRead) else true)
      ensures OthersUntouched(sock)
    {
      if closed {
        return;
      }
      if !expectingRead {
        var _ := pollSet.AddEvents(sock, {PollIn});
        expectingRead := true;
      }
    }

    method DisableRead()
      requires Registered()
      modifies `expectingRead, pollSet
      ensures Registered() && expectingRead == (if closed then old(expectingRead) else false)
      ensures OthersUntouched(sock)
    {
      if closed {
        return;
      }
      if expectingRead {
        var _ := pollSet.DelEvents(sock, {PollIn});
        expectingRead := false;
      }
    }

    method EnableWrite()
      requires Registered()
      modifies `expectingWrite, pollSet
      ensures Registered() && Snd() == S.EnableWrite(old(Snd()))
      ensures OthersUntouched(sock)
    {
      if closed {
        return;
      }
      if !expectingWrite {
        var _ := pollSet.AddEvents(sock, {PollOut});
        expectingWrite := true;
      }
    }

    method DisableWrite()
      requires Registered()
      modifies `expectingWrite, pollSet
      ensures Registered() && Snd() == S.DisableWrite(old(Snd()))
      ensures OthersUntouched(sock) && (closed ==> unchanged(pollSet))
    {
      if closed {
        return;
      }
      if expectingWrite {
        var _ := pollSet.DelEvents(sock, {PollOut});
        expectingWrite := false;
      }
    }

    method Write(buf: seq<byte>, io: Io) returns (wrote: int, out: seq<byte>)
      requires pollSet.Valid() && |buf| > 0
      modifies this, pollSet
      ensures (closed, wrote, out) == S.Write(old(closed), buf, io)
      ensures pollSet.Valid() && OthersUntouched(old(sock)) && messages == old(messages)
      ensures Snd() == old(Snd()).(closed := closed) && Rcv() == old(Rcv()).(closed := closed)
      ensures !closed ==> unchanged(this) && unchanged(pollSet)
    {
      if closed {
        return -1, [];
      }
      match io {
        case Moved(n) =>
          wrote := Min(n, Min(|buf|, INT_MAX));
          out := buf[..wrote];
        case Failed =>
          Close();
          return -1, [];
      }
    }

    method Read(want: nat, io: Recv) returns (count: int, chunk: seq<byte>)
      requires pollSet.Valid() && want > 0
      modifies this, pollSet
      ensures (closed, count, chunk) == R.Read(old(closed), want, io)
      ensures pollSet.Valid() && OthersUntouched(old(sock)) && messages == old(messages)
      ensures Snd() == old(Snd()).(closed := closed) && Rcv() == old(Rcv()).(closed := closed)
      ensures !closed ==> unchanged(this) && unchanged(pollSet)
    {
      if closed {
        return -1, [];
      }
      match io {
        case Arrived(bytes) =>
          var k := Min(|bytes|, Min(want, INT_MAX));
          count, chunk := k, bytes[..k];
        case Lost =>
          Close();
          return -1, [];
      }
    }

    /** The check after every write: is the frame, or the whole message, done? */
    method FinishFrame()
      requires Registered() && sendMsgs != [] && sendMsgs[0].frameInd < |sendMsgs[0].frames|
      modifies `sendMsgs, `expectingWrite, pollSet
      ensures Registered() && Snd() == S.FinishFrame(old(Snd()))
      ensures OthersUntouched(sock) && (closed ==> unchanged(pollSet))
    {
      var msg := sendMsgs[0];
      if msg.frameFilled == msg.frames[msg.frameInd].size {
        msg := msg.(frameInd := (msg.frameInd + 1) % TWO_TO_32);
        if msg.frameInd < |msg.frames| {
          msg := msg.(frameFilled := 0, frameSz := msg.frames[msg.frameInd].size, frameSzFilled := 0);
          sendMsgs := [msg] + sendMsgs[1..];
        } else {
          sendMsgs := sendMsgs[1..];
          if |sendMsgs| == 0 {
            DisableWrite();
          }
        }
      }
    }

    method WriteMessage(io: Io) returns (ok: bool, out: seq<byte>)
      requires Registered()
      modifies this, pollSet
      ensures ok <==> S.WriteMessage(old(Snd()), io).Sent?
      ensures ok ==> S.Sent(Snd(), out) == S.WriteMessage(old(Snd()), io)
      ensures Registered() && OthersUntouched(old(sock)) && messages == old(messages)
      ensures !closed ==> sock == old(sock)
      ensures Rcv() == old(Rcv()).(closed := closed)
    {
      hide S.WriteFrame, S.Write, Le32;
      ok, out := true, [];
      if |sendMsgs| == 0 {
        return false, [];
      }
      var msg := sendMsgs[0];
      if msg.numFramesFilled < 4 {
        var wrote;
        wrote, out := Write(Le32(msg.numFrames)[msg.numFramesFilled..], io);
        if wrote >= 0 {
          sendMsgs := [msg.(numFramesFilled := msg.numFramesFilled + wrote)] + sendMsgs[1..];
        } else {
          Close();
        }
      } else {
        ok, out := WriteFrame(io);
      }
    }

    method WriteFrame(io: Io) returns (ok: bool, out: seq<byte>)
      requires Registered() && sendMsgs != []
      modifies this, pollSet
      ensures ok <==> S.WriteFrame(old(Snd()), io).Sent?
      ensures ok ==> S.Sent(Snd(), out) == S.WriteFrame(old(Snd()), io)
      ensures Registered() && OthersUntouched(old(sock)) && messages == old(messages)
      ensures !closed ==> sock == old(sock)
      ensures Rcv() == old(Rcv()).(closed := closed)
    {
      hide S.WriteSizePart, S.WritePayloadPart;
      if sendMsgs[0].frameInd >= |sendMsgs[0].frames| {
        return false, [];
      }
      if sendMsgs[0].frameSzFilled < 4 {
        ok := true;
        out := WriteFrameSize(io);
      } else {
        ok, out := WritePayload(io);
      }
    }

    method WriteFrameSize(io: Io) returns (out: seq<byte>)
      requires Registered() && sendMsgs != []
      requires sendMsgs[0].frameInd < |sendMsgs[0].frames| && sendMsgs[0].frameSzFilled < 4
      modifies this, pollSet
      ensures S.Sent(Snd(), out) == S.WriteSizePart(old(Snd()), io)
      ensures Registered() && OthersUntouched(old(sock)) && messages == old(messages)
      ensures !closed ==> sock == old(sock)
      ensures Rcv() == old(Rcv()).(closed := closed)
    {
      hide S.FinishFrame, S.Write, Le32;
      var msg := sendMsgs[0];
      var wrote;
      wrote, out := Write(Le32(msg.frameSz)[msg.frameSzFilled..], io);
      if wrote >= 0 {
        sendMsgs := [msg.(frameSzFilled := msg.frameSzFilled + wrote)] + sendMsgs[1..];
        FinishFrame();
      } else {
        Close();
      }
    }

    method WritePayload(io: Io) returns (ok: bool, out: seq<byte>)
      requires Registered() && sendMsgs != []
      requires sendMsgs[0].frameInd < |sendMsgs[0].frames| && sendMsgs[0].frameSzFilled >= 4
      modifies this, pollSet
      ensures ok <==> S.WritePayloadPart(old(Snd()), io).Sent?
      ensures ok ==> S.Sent(Snd(), out) == S.WritePayloadPart(old(Snd()), io)
      ensures Registered() && OthersUntouched(old(sock)) && messages == old(messages)
      ensures !closed ==> sock == old(sock)
      ensures Rcv() == old(Rcv()).(closed := closed)
    {
      hide S.FinishFrame, S.Write, Le32, Zeros;
      ok, out := true, [];
      var msg := sendMsgs[0];
      var frame := msg.frames[msg.frameInd];
      var left := (frame.size - msg.frameFilled) % TWO_TO_32;
      if left > 0 {
        if !closed && msg.frameFilled + left > |frame.data| {
          return false, [];
        }
        var payload := if closed then Zeros(left) else frame.data[msg.frameFilled..msg.frameFilled + left];
        var wrote;
        wrote, out := Write(payload, io);
        msg := msg.(frameFilled := (msg.frameFilled + wrote) % TWO_TO_32);
        sendMsgs := [msg] + sendMsgs[1..];
        assert Snd() == S.SetFront(old(Snd()), msg).(closed := closed);
      }
      FinishFrame();
    }

    method ReadMessage(io: Recv) returns (ok: bool, taken: seq<byte>)
      requires Registered()
      modifies this, pollSet
      ensures ok <==> messages && R.ReadMessage(old(Rcv()), io).Received?
      ensures ok ==> R.Received(Rcv(), taken) == R.ReadMessage(old(Rcv()), io)
      ensures Registered() && OthersUntouched(old(sock)) && messages == old(messages)
      ensures !closed ==> sock == old(sock)
      ensures Snd() == old(Snd()).(closed := closed)
    {
      hide R.ReadFrame, R.Overwrite, R.Read, R.Resize, Splice, Le32;
      ok, taken := true, [];
      if !messages {
        return false, [];
      }
      if !reading {
        readMsg := readMsg.(frames := [], numFramesFilled := 0, frameInd := 0, frameFilled := 0, frameSzFilled := 0);
        reading := true;
      }
      if readMsg.numFramesFilled < 4 {
        var count;
        count, taken := Read(4 - readMsg.numFramesFilled, io);
        if count < 0 {
          return;
        }
        readMsg := readMsg.(numFrames := R.Overwrite(readMsg.numFrames, readMsg.numFramesFilled, taken),
                            numFramesFilled := readMsg.numFramesFilled + count);
        if readMsg.numFramesFilled == 4 {
          if readMsg.numFrames == 0 {
            Close();
          }
          readMsg := readMsg.(frames := R.Resize(readMsg.frames, readMsg.numFrames));
        }
      } else {
        ok, taken := ReadFrame(io);
      }
    }

    method ReadFrame(io: Recv) returns (ok: bool, taken: seq<byte>)
      requires Registered()
      modifies this, pollSet
      ensures ok <==> R.ReadFrame(old(Rcv()), io).Received?
      ensures ok ==> R.Received(Rcv(), taken) == R.ReadFrame(old(Rcv()), io)
      ensures Registered() && OthersUntouched(old(sock)) && messages == old(messages)
      ensures !closed ==> sock == old(sock)
      ensures Snd() == old(Snd()).(closed := closed)
    {
      hide R.ReadSizePart, R.ReadPayloadPart;
      if readMsg.frameInd >= |readMsg.frames| {
        return false, [];
      }
      if readMsg.frameSzFilled < 4 {
        ok := true;
        taken := ReadFrameSize(io);
      } else {
        ok, taken := ReadPayload(io);
      }
    }

    method ReadFrameSize(io: Recv) returns (taken: seq<byte>)
      requires Registered() && readMsg.frameInd < |readMsg.frames| && readMsg.frameSzFilled < 4
      modifies this, pollSet
      ensures R.Received(Rcv(), taken) == R.ReadSizePart(old(Rcv()), io)
      ensures Registered() && OthersUntouched(old(sock)) && messages == old(messages)
      ensures !closed ==> sock == old(sock)
      ensures Snd() == old(Snd()).(closed := closed)
    {
      hide R.EndFrame, R.Overwrite, R.Read, Le32;
      var ind := readMsg.frameInd;
      var frame := readMsg.frames[ind];
      var count;
      count, taken := Read(4 - readMsg.frameSzFilled, io);
      if count < 0 {
        return;
      }
      frame := frame.(size := R.Overwrite(frame.size, readMsg.frameSzFilled, taken));
      if readMsg.frameSzFilled + count == 4 {
        frame := frame.(data := Zeros(frame.size));
      }
      readMsg := readMsg.(frames := readMsg.frames[ind := frame], frameSzFilled := readMsg.frameSzFilled + count);
      EndFrame();
    }

    method ReadPayload(io: Recv) returns (ok: bool, taken: seq<byte>)
      requires Registered() && readMsg.frameInd < |readMsg.frames| && readMsg.frameSzFilled >= 4
      modifies this, pollSet
      ensures ok <==> R.ReadPayloadPart(old(Rcv()), io).Received?
      ensures ok ==> R.Received(Rcv(), taken) == R.ReadPayloadPart(old(Rcv()), io)
      ensures Registered() && OthersUntouched(old(sock)) && messages == old(messages)
      ensures !closed ==> sock == old(sock)
      ensures Snd() == old(Snd()).(closed := closed)
    {
      hide R.EndFrame, R.Read, Splice, Zeros;
      ok, taken := true, [];
      var ind := readMsg.frameInd;
      var frame := readMsg.frames[ind];
      var want := (frame.size - readMsg.frameFilled) % TWO_TO_32;
      if want > 0 {
        if readMsg.frameFilled + want > |frame.data| {
          return false, [];
        }
        var count;
        count, taken := Read(want, io);
        if count < 0 {
          return;
        }
        frame := frame.(data := Splice(frame.data, readMsg.frameFilled, taken));
        readMsg := readMsg.(frames := readMsg.frames[ind := frame],
                            frameFilled := (readMsg.frameFilled + count) % TWO_TO_32);
      }
      EndFrame();
    }

    /** The check after every read: is the frame, or the whole message, done? */
    method EndFrame()
      requires readMsg.frameInd < |readMsg.frames|
      modifies `readMsg, `delivered, `reading
      ensures Rcv() == R.EndFrame(old(Rcv()))
    {
      if readMsg.frameFilled == readMsg.frames[readMsg.frameInd].size {
        readMsg := readMsg.(frameInd := (readMsg.frameInd + 1) % TWO_TO_32, frameFilled := 0, frameSzFilled := 0);
        if readMsg.frameInd == |readMsg.frames| {
          delivered := delivered + [readMsg.frames];
          reading := false;
        }
      }
    }

    method SetFilter(n: pos)
      modifies `filter, `msgCounter
      ensures Snd() == S.SetFilter(old(Snd()), n)
    {
      filter := n;
      msgCounter := n - 1;
    }

    method SendFrames(frames: Frames) returns (ok: bool)
      requires Registered()
      modifies `msgCounter, `sendMsgs, `expectingWrite, pollSet
      ensures ok <==> messages && S.SendFrames(old(Snd()), frames).Sent?
      ensures ok ==> Snd() == S.SendFrames(old(Snd()), frames).state
      ensures Registered() && OthersUntouched(sock)
      ensures old(Valid()) && messages && (ValidMessage(frames) || !S.Passes(old(Snd()))) ==> ok && Valid()
    {
      if ValidMessage(frames) || !S.Passes(Snd()) {
        S.SendKeeps(Snd(), frames);
      }
      if !messages {
        return false;
      }
      msgCounter := msgCounter + 1;
      msgCounter := msgCounter % filter;
      if msgCounter != 0 {
        return true;
      }
      if frames == [] {
        return false;
      }
      var msg := Message(frames, |frames| % TWO_TO_32, 0, 0, 0, frames[0].size, 0);
      if sendMsgs == [] {
        EnableWrite();
      }
      sendMsgs := sendMsgs + [msg];
      return true;
    }

    method SendMessage(buffer: seq<byte>) returns (ok: bool)
      requires Valid() && messages && |buffer| < TWO_TO_32
      modifies `msgCounter, `sendMsgs, `expectingWrite, pollSet
      ensures ok && Valid() && Snd() == S.SendFrames(old(Snd()), [Frame(|buffer|, buffer)]).state
      ensures OthersUntouched(sock)
    {
      S.SendKeeps(Snd(), [Frame(|buffer|, buffer)]);
      ok := SendFrames([Frame(|buffer|, buffer)]);
    }

    /** Whether an event makes the poll thread read, and whether, the transport still being open then, it makes
        it write. The callbacks are set by enableMessagePass and cleared by close. */
    predicate ReadsOn(events: set<Flag>)
      reads this
    {
      !closed && PollIn in events && expectingRead && messages
    }

    predicate WritesOn(events: set<Flag>)
      reads this
    {
      !closed && PollOut in events && expectingWrite && messages
    }

    /** Called by the poll thread. On a valid transport no call can abort the process, whatever the
        system calls return: writeMessage is only reached with something queued. A readable event is exactly one
        receiver's step, a writable one exactly one sender's step, in this order, and an error closes. */
    method SocketUpdate(events: set<Flag>, recv: Recv, io: Io)
      returns (ok: bool, taken: seq<byte>, out: seq<byte>)
      requires Valid()
      modifies this, pollSet
      ensures ok && Valid() && OthersUntouched(old(sock))
      ensures old(closed) ==> unchanged(this) && unchanged(pollSet)
      ensures old(ReadsOn(events)) ==>
        var r := R.ReadMessage(old(Rcv()), recv);
        r.Received? && Rcv() == r.state.(closed := closed) && taken == r.taken
      ensures !old(ReadsOn(events)) ==> Rcv() == old(Rcv()).(closed := closed) && taken == []
      ensures var reading, r := old(ReadsOn(events)), R.ReadMessage(old(Rcv()), recv);
        var writing, w := old(WritesOn(events)) && !(reading && r.state.closed), S.WriteMessage(old(Snd()), io);
        && (reading ==> r.Received?)
        && (writing ==> w.Sent? && Snd() == w.state.(closed := closed) && out == w.out)
        && (!writing ==> Snd() == old(Snd()).(closed := closed) && out == [])
        && (closed <==> old(closed) || (reading && r.state.closed) || (writing && w.state.closed)
                        || events * ERRORS != {})
      ensures |delivered| <= |old(delivered)| + 1
    {
      hide R.ReadMessage, S.WriteMessage, S.SenderInv, R.ReceiverInv;
      ok, taken, out := true, [], [];
      if closed {
        return;
      }
      if PollIn in events && expectingRead && messages {
        ReadStays(Rcv(), recv);
        ok, taken := ReadMessage(recv);
      }
      if PollOut in events && expectingWrite && messages && !closed {
        WriteStays(Snd(), io);
        ok, out := WriteMessage(io);
      }
      if events * ERRORS != {} {
        Close();
      }
    }
  }
}
