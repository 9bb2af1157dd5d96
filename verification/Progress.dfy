/** Completion: on an open connection every non-empty good step brings delivery closer by exactly
    the bytes it moves, and such a step exists until everything enqueued has been delivered. */
module Progress {
  import opened Bytes
  import opened Wire
  import opened Framing
  import opened Channel
  import opened Schedule
  import S = Sender
  import R = Receiver

  ghost predicate Open(s: System) {
    Inv(s) && !s.snd.closed && !s.rcv.closed
  }

  /** Each byte has to be written once and read once. */
  ghost function Distance(s: System): nat
    requires Open(s)
  {
    2 * |S.RemainingAll(s.snd.queue)| + |s.wire|
  }

  /** A system call that moves at least one byte. */
  ghost predicate Moves(s: System, a: Action) {
    match a
    case Writable(io) => io.Moved? && io.count > 0 && s.snd.queue != []
    case Readable(n) => n > 0 && s.wire != []
    case _ => false
  }

  lemma NoZeroCount(s: System, taken: seq<byte>)
    requires Open(s) && taken <= s.wire
    ensures R.Held(s.rcv) + taken != Le32(0)
  {
    if R.Held(s.rcv) + taken == Le32(0) {
      NextBytes(s);
      var d := |s.rcv.delivered|;
      var whole := EncodeStream(s.enqueued[d..]);
      hide Open, R.Held, Le32, EncodeFrames, R.ReceiverInv;
      assert Le32(0) <= R.Held(s.rcv) + s.wire <= whole;
      assert whole != [];
      StreamSplits(s.enqueued, d);
      assert Le32(0) + [] == Le32(0);
      HeadsAgree(0, [], |s.enqueued[d]|, EncodeFrames(s.enqueued[d]) + EncodeStream(s.enqueued[d + 1..]));
      assert false;
    }
  }

  lemma ReaderStaysOpen(s: System, io: Recv)
    requires Open(s) && io.Arrived? && io.chunk <= s.wire
    ensures R.ReadMessage(s.rcv, io).Received? && !R.ReadMessage(s.rcv, io).state.closed
    ensures R.ReadMessage(s.rcv, io).taken <= s.wire
  {
    R.ReadExact(s.rcv, io);
    hide R.ReadMessage, R.ReceiverInv, Le32, R.Held, SenderOk;
    var res := R.ReadMessage(s.rcv, io);
    if res.state.closed {
      R.ClosesOnZeroCount(s.rcv, io);
      NoZeroCount(s, res.taken);
    }
  }

  lemma StaysOpen(s: System, n: nat)
    requires Open(s)
    ensures !Step(s, Readable(n)).rcv.closed
  {
    ReaderStaysOpen(s, Offered(s, n));
    ReadableIs(s, n);
    hide R.ReadMessage, Step, Inv;
  }

  lemma WriteMoves(s: System, io: Io)
    requires Open(s) && Moves(s, Writable(io)) && Good(s, Writable(io))
    ensures var s' := Step(s, Writable(io));
            && Open(s') && s'.enqueued == s.enqueued && |s'.emitted| > |s.emitted|
            && Distance(s') == Distance(s) - (|s'.emitted| - |s.emitted|)
  {
    WriteKeeps(s, io);
    S.WriteExact(s.snd, io);
    hide S.WriteMessage, S.GoodWrite, S.SenderInv, R.ReceiverInv;
  }

  lemma ReadMoves(s: System, n: nat)
    requires Open(s) && Moves(s, Readable(n)) && Good(s, Readable(n))
    ensures var s' := Step(s, Readable(n));
            && Open(s') && s'.enqueued == s.enqueued && |s'.consumed| > |s.consumed|
            && Distance(s') == Distance(s) - (|s'.consumed| - |s.consumed|)
  {
    ReadKeeps(s, n);
    StaysOpen(s, n);
    R.ReadExact(s.rcv, Offered(s, n));
    hide R.ReadMessage, R.GoodRead, R.ReceiverInv;
  }

  /** A full read of what is in flight is good once the sender has nothing left to write. */
  lemma FullReadGood(s: System)
    requires Open(s) && s.snd.queue == []
    ensures Good(s, Readable(|s.wire|))
  {
    if R.InSizeField(s.rcv) {
      var d, m := |s.rcv.delivered|, s.rcv.msg;
      NextBytes(s);
      InFlight(s);
      StreamSplits(s.enqueued, d);
      HeldSplits(s.rcv, s.wire);
      var next := s.enqueued[d];
      assert next == next[..m.frameInd] + next[m.frameInd..];
      EncodeFramesAppend(next[..m.frameInd], next[m.frameInd..]);
      SizeFirst(next[m.frameInd..], []);
      hide R.PartialFrame;
      assert SizeBytes(s, |s.wire|) == 4;
      SizeCondition(s, |s.wire|);
    }
  }

  /** Until the distance is zero some non-empty good step is possible. */
  function NextAction(s: System): Action {
    if s.snd.queue != [] then Writable(Moved(INT_MAX)) else Readable(|s.wire|)
  }

  lemma NextActionMoves(s: System)
    requires Open(s) && Distance(s) > 0
    ensures Good(s, NextAction(s)) && Moves(s, NextAction(s))
  {
    if s.snd.queue == [] {
      FullReadGood(s);
    }
  }

  /** Every message enqueued can be delivered: some good schedule empties queue and wire. */
  lemma {:induction false} Drain(s: System) returns (run: seq<Action>)
    requires Open(s)
    ensures GoodRun(s, run) && |run| <= Distance(s)
    ensures Open(Run(s, run)) && Run(s, run).rcv.delivered == s.enqueued == Run(s, run).enqueued
    decreases Distance(s)
  {
    if Distance(s) == 0 {
      run := [];
      if s.snd.queue != [] {
        S.RemainingNonempty(s.snd.queue);
      }
      InvPrefix(s);
    } else {
      var a := NextAction(s);
      NextActionMoves(s);
      if a.Writable? { WriteMoves(s, a.io); } else { ReadMoves(s, a.count); }
      var rest := Drain(Step(s, a));
      run := [a] + rest;
      assert run[1..] == rest;
    }
  }

  ghost predicate MovingRun(s: System, run: seq<Action>)
    decreases |run|
  {
    run != [] ==> Moves(s, run[0]) && MovingRun(Step(s, run[0]), run[1..])
  }

  /** No good schedule of non-empty steps can go on for longer than the distance, and one that
      lasts that long has delivered everything. */
  lemma {:induction false} RunBound(s: System, run: seq<Action>)
    requires Open(s) && GoodRun(s, run) && MovingRun(s, run)
    ensures Open(Run(s, run)) && |run| + Distance(Run(s, run)) <= Distance(s)
    ensures Run(s, run).enqueued == s.enqueued
    ensures Distance(Run(s, run)) == 0 ==> Run(s, run).rcv.delivered == s.enqueued
    decreases |run|
  {
    if run == [] {
      if s.snd.queue != [] {
        S.RemainingNonempty(s.snd.queue);
      }
      InvPrefix(s);
    } else {
      var a := run[0];
      if a.Writable? { WriteMoves(s, a.io); } else { ReadMoves(s, a.count); }
      hide Step, Good, Moves;
      RunBound(Step(s, a), run[1..]);
    }
  }
}
