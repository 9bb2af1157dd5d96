/** One direction of a connection: a sender, the bytes in flight, and a receiver, under every
    interleaving of sends, short writes, short reads and failures. */
module Channel {
  import opened Bytes
  import opened Wire
  import opened Framing
  import S = Sender
  import R = Receiver

  /** `enqueued`, `emitted` and `consumed` are histories: messages accepted by `sendFrames`,
      bytes ever written, bytes ever read. */
  datatype System = System(
    snd: S.SenderState,
    wire: seq<byte>,
    rcv: R.ReceiverState,
    enqueued: seq<Frames>,
    emitted: seq<byte>,
    consumed: seq<byte>,
    aborted: bool)

  datatype Action =
    | Send(frames: Frames)
    | SetFilter(every: nat)
    | Writable(io: Io)
    | Readable(count: nat)
    | ReadFails
    | SenderCloses
    | ReceiverCloses

  const INITIAL: System := System(S.INITIAL, [], R.INITIAL, [], [], [], false)

  function Step(s: System, a: Action): System
  {
    if s.aborted then s else
    match a
    case Send(frames) =>
      (match S.SendFrames(s.snd, frames)
       case Aborted => s.(aborted := true)
       case Sent(snd, _) => s.(snd := snd, enqueued := s.enqueued + if S.Passes(s.snd) then [frames] else []))
    case SetFilter(n) => if n == 0 then s.(aborted := true) else s.(snd := S.SetFilter(s.snd, n))
    case Writable(io) =>
      // socketUpdate calls writeMessage only on an open transport that expects to write
      if s.snd.closed || !s.snd.expectingWrite then s else
      (match S.WriteMessage(s.snd, io)
       case Aborted => s.(aborted := true)
       case Sent(snd, out) => s.(snd := snd, wire := s.wire + out, emitted := s.emitted + out))
    case Readable(n) =>
      if s.rcv.closed then s else Read(s, Arrived(s.wire[..Min(n, |s.wire|)]))
    case ReadFails => if s.rcv.closed then s else Read(s, Lost)
    case SenderCloses => s.(snd := s.snd.(closed := true))
    case ReceiverCloses => s.(rcv := s.rcv.(closed := true))
  }

  function Read(s: System, io: Recv): System
    requires io.Arrived? ==> io.chunk <= s.wire
  {
    match R.ReadMessage(s.rcv, io)
    case Aborted => s.(aborted := true)
    case Received(rcv, taken) =>
      s.(rcv := rcv, consumed := s.consumed + taken, wire := if |taken| <= |s.wire| then s.wire[|taken|..] else [])
  }

  // ---------------------------------------------------------------- good schedules

  function Offered(s: System, n: nat): Recv {
    Arrived(s.wire[..Min(n, |s.wire|)])
  }

  /** What the system above and below must respect: valid messages, and no system call that
      stops inside a size field where the framing code cannot tell that the field is unfinished. */
  ghost predicate Good(s: System, a: Action)
  {
    match a
    case Send(frames) => S.Passes(s.snd) ==> ValidMessage(frames)
    case SetFilter(n) => n > 0
    case Writable(io) => !s.snd.closed && s.snd.expectingWrite ==> S.GoodWrite(s.snd, io)
    case Readable(n) => !s.rcv.closed ==> R.GoodRead(s.rcv, Offered(s, n))
    case _ => true
  }

  /** Bytes written and bytes still to be written together encode everything enqueued. */
  ghost predicate SenderOk(snd: S.SenderState, emitted: seq<byte>, enqueued: seq<Frames>)
    requires ValidStream(enqueued)
  {
    && emitted <= EncodeStream(enqueued)
    && (!snd.closed ==>
          S.SenderInv(snd) && EncodeStream(enqueued) == emitted + S.RemainingAll(snd.queue))
  }

  /** Bytes read are the messages delivered and the part held of the next one. */
  ghost predicate ReceiverOk(rcv: R.ReceiverState, consumed: seq<byte>) {
    && ValidStream(rcv.delivered)
    && EncodeStream(rcv.delivered) <= consumed
    && (!rcv.closed ==> R.ReceiverInv(rcv) && consumed == R.Account(rcv))
  }

  ghost predicate Inv(s: System) {
    && !s.aborted
    && ValidStream(s.enqueued)
    && s.emitted == s.consumed + s.wire
    && SenderOk(s.snd, s.emitted, s.enqueued)
    && ReceiverOk(s.rcv, s.consumed)
  }

  lemma InitialInv()
    ensures Inv(INITIAL)
  {
  }

  lemma SendKeeps(s: System, frames: Frames)
    requires Inv(s) && Good(s, Send(frames))
    ensures Inv(Step(s, Send(frames)))
  {
    if S.Passes(s.snd) {
      EncodeStreamSnoc(s.enqueued, frames);
      assert !s.snd.closed ==> S.SenderInv(s.snd);
      if !s.snd.closed {
        S.SendKeeps(s.snd, frames);
        S.FreshRemaining(frames);
        S.RemainingAppend(s.snd.queue, S.Fresh(frames));
        ConcatAssociative(s.emitted, S.RemainingAll(s.snd.queue), EncodeMessage(frames));
      }
      hide S.SenderInv, S.Remaining, S.Shape, S.InProgress, ReceiverOk, EncodeMessage, ValidMessage;
    } else {
      assert s.enqueued + [] == s.enqueued;
    }
  }

  lemma WriteConserves(s: System, io: Io)
    requires Inv(s) && !s.snd.closed && s.snd.expectingWrite
    requires S.GoodWrite(s.snd, io)
    ensures Inv(Step(s, Writable(io)))
  {
    S.WriteExact(s.snd, io);
    var res := S.WriteMessage(s.snd, io);
    hide S.WriteMessage, S.GoodWrite, S.SenderInv, ReceiverOk;
    ConcatAssociative(s.consumed, s.wire, res.out);
    if io.Moved? {
      ConcatAssociative(s.emitted, res.out, S.RemainingAll(res.state.queue));
    }
  }

  lemma WriteLoses(s: System, io: Io)
    requires Inv(s) && !s.snd.closed && s.snd.expectingWrite
    requires !S.GoodWrite(s.snd, io)
    ensures !Inv(Step(s, Writable(io)))
  {
    S.WriteExact(s.snd, io);
    var res := S.WriteMessage(s.snd, io);
    var rest := S.RemainingAll(s.snd.queue);
    hide S.WriteMessage, S.SenderInv, ReceiverOk;
    if Inv(Step(s, Writable(io))) {
      var rest' := S.RemainingAll(res.state.queue);
      ConcatAssociative(s.emitted, res.out, rest');
      assert s.emitted + rest == s.emitted + (res.out + rest');
      SameTail(s.emitted, rest, res.out + rest');
      assert false;
    }
  }

  lemma SameTail(a: seq<byte>, x: seq<byte>, y: seq<byte>)
    requires a + x == a + y
    ensures x == y
  {
    assert x == (a + x)[|a|..];
    assert y == (a + y)[|a|..];
  }

  /** A write keeps the account if and only if it is good. */
  lemma WriteKeeps(s: System, io: Io)
    requires Inv(s)
    ensures Inv(Step(s, Writable(io))) <==> Good(s, Writable(io))
  {
    if !s.snd.closed && s.snd.expectingWrite {
      if S.GoodWrite(s.snd, io) {
        WriteConserves(s, io);
      } else {
        WriteLoses(s, io);
      }
    }
  }

  lemma AccountGrows(s: System, io: Recv)
    requires Inv(s) && !s.rcv.closed && io.Arrived? && io.chunk <= s.wire
    requires R.Conforms(s.rcv, R.ReadMessage(s.rcv, io))
    requires R.Steps(s.rcv, io, R.ReadMessage(s.rcv, io))
    requires !R.ReadMessage(s.rcv, io).state.closed
    ensures Inv(Read(s, io))
  {
    var res := R.ReadMessage(s.rcv, io);
    hide R.ReadMessage;
    assert res.taken <= s.wire;
    assert s.consumed + s.wire == s.consumed + res.taken + s.wire[|res.taken|..];
  }

  lemma ReaderCloses(s: System, io: Recv)
    requires Inv(s) && !s.rcv.closed && (io.Arrived? ==> io.chunk <= s.wire)
    requires R.Steps(s.rcv, io, R.ReadMessage(s.rcv, io))
    requires R.ReadMessage(s.rcv, io).state.closed
    ensures Inv(Read(s, io))
  {
    var res := R.ReadMessage(s.rcv, io);
    hide R.ReadMessage;
    assert res.taken <= s.wire;
    assert s.consumed <= s.consumed + res.taken;
    assert s.consumed + s.wire == s.consumed + res.taken + s.wire[|res.taken|..];
  }

  /** A read keeps the account if and only if it is good. */
  lemma ReadKeeps(s: System, n: nat)
    requires Inv(s)
    ensures Inv(Step(s, Readable(n))) <==> Good(s, Readable(n))
  {
    if !s.rcv.closed {
      var io := Offered(s, n);
      R.ReadExact(s.rcv, io);
      var res := R.ReadMessage(s.rcv, io);
      if res.state.closed {
        ReaderCloses(s, io);
      } else if R.GoodRead(s.rcv, io) {
        AccountGrows(s, io);
      }
    }
  }

  lemma StepKeeps(s: System, a: Action)
    requires Inv(s) && Good(s, a)
    ensures Inv(Step(s, a))
  {
    match a
    case Send(frames) => SendKeeps(s, frames);
    case Writable(io) => WriteKeeps(s, io);
    case Readable(n) => ReadKeeps(s, n);
    case ReadFails =>
      if !s.rcv.closed {
        R.ReadExact(s.rcv, Lost);
        ReaderCloses(s, Lost);
      }
    case _ =>
  }

  lemma ReadableIs(s: System, n: nat)
    requires !s.aborted && !s.rcv.closed
    requires R.ReadMessage(s.rcv, Offered(s, n)).Received?
    requires R.ReadMessage(s.rcv, Offered(s, n)).taken <= s.wire
    ensures var r := R.ReadMessage(s.rcv, Offered(s, n));
            Step(s, Readable(n)) == s.(rcv := r.state, consumed := s.consumed + r.taken, wire := s.wire[|r.taken|..])
  {
  }

  // ---------------------------------------------------------------- whole runs

  function Run(s: System, run: seq<Action>): System
    decreases |run|
  {
    if run == [] then s else Run(Step(s, run[0]), run[1..])
  }

  ghost predicate GoodRun(s: System, run: seq<Action>)
    decreases |run|
  {
    run != [] ==> Good(s, run[0]) && GoodRun(Step(s, run[0]), run[1..])
  }

  lemma {:induction false} RunKeeps(s: System, run: seq<Action>)
    requires Inv(s) && GoodRun(s, run)
    ensures Inv(Run(s, run))
    decreases |run|
  {
    hide Step, Good, Inv;
    if run != [] {
      StepKeeps(s, run[0]);
      RunKeeps(Step(s, run[0]), run[1..]);
    }
  }

  /** What the invariant means to the two ends: messages delivered are a prefix of those accepted. */
  lemma InvPrefix(s: System)
    requires Inv(s)
    ensures s.rcv.delivered <= s.enqueued
    ensures !s.snd.closed && !s.rcv.closed && s.snd.queue == [] && s.wire == [] ==>
              s.rcv.delivered == s.enqueued && R.Held(s.rcv) == []
  {
    assert s.consumed <= s.emitted;
    StreamPrefix(s.rcv.delivered, s.enqueued);
    if !s.snd.closed && !s.rcv.closed && s.snd.queue == [] && s.wire == [] {
      assert EncodeStream(s.enqueued) == R.Account(s.rcv);
      R.HeldIncomplete(s.rcv);
      DecodeEncodeStream(s.rcv.delivered, R.Held(s.rcv));
      DecodeEncodeStream(s.enqueued, []);
      assert EncodeStream(s.enqueued) + [] == EncodeStream(s.enqueued);
    }
  }

  /** End to end: on every good schedule the process never aborts, the messages handed to the
      callback are at every moment a prefix of the messages enqueued, frame for frame, and all of
      them once the queue and the wire are empty on an open connection. */
  lemma EndToEnd(run: seq<Action>)
    requires GoodRun(INITIAL, run)
    ensures var s := Run(INITIAL, run);
            && Inv(s) && !s.aborted
            && s.rcv.delivered <= s.enqueued
            && (!s.snd.closed && !s.rcv.closed && s.snd.queue == [] && s.wire == [] ==>
                  s.rcv.delivered == s.enqueued && R.Held(s.rcv) == [])
  {
    InitialInv();
    RunKeeps(INITIAL, run);
    InvPrefix(Run(INITIAL, run));
  }

  // ---------------------------------------------------------------- closing is final

  lemma ClosedStep(s: System, a: Action)
    ensures s.snd.closed ==> Step(s, a).snd.closed && Step(s, a).emitted == s.emitted
    ensures s.rcv.closed ==> Step(s, a).rcv.closed && Step(s, a).rcv.delivered == s.rcv.delivered &&
                             Step(s, a).consumed == s.consumed
    ensures !s.aborted && a == SenderCloses ==> Step(s, a).snd.closed && Step(s, a).wire == s.wire
    ensures !s.aborted && a == ReceiverCloses ==> Step(s, a).rcv.closed
  {
    hide R.ReadMessage, S.WriteMessage;
  }

  /** A failed read closes the receiver, without delivering anything. */
  lemma FailedReadCloses(s: System)
    requires Inv(s)
    ensures Step(s, ReadFails).rcv.closed && Step(s, ReadFails).rcv.delivered == s.rcv.delivered
  {
    if !s.rcv.closed {
      R.ReadExact(s.rcv, Lost);
      hide R.ReadMessage, R.ReceiverInv;
    }
  }

  /** After a close nothing more is written, or nothing more read and delivered, whatever happens. */
  lemma {:induction false} ClosedIsFinal(s: System, run: seq<Action>)
    ensures s.snd.closed ==> Run(s, run).snd.closed && Run(s, run).emitted == s.emitted
    ensures s.rcv.closed ==> Run(s, run).rcv.closed && Run(s, run).rcv.delivered == s.rcv.delivered &&
                             Run(s, run).consumed == s.consumed
    decreases |run|
  {
    if run != [] {
      ClosedStep(s, run[0]);
      hide Step;
      ClosedIsFinal(Step(s, run[0]), run[1..]);
    }
  }
}
