/** Concrete schedules on which the framing code goes wrong, one for each end. */
module Pitfalls {
  import opened Bytes
  import opened Wire
  import opened Framing
  import opened Channel
  import S = Sender
  import R = Receiver

  const BIG: Frames := [Frame(256, Zeros(256))]

  lemma BigOnTheWire()
    ensures var s := Step(Step(Step(INITIAL, Send(BIG)), Writable(Moved(4))), Writable(Moved(4)));
            !s.aborted && s.rcv == R.INITIAL && s.enqueued == [BIG] && s.wire == [1, 0, 0, 0, 0, 1, 0, 0]
  {
    var m0 := Message(BIG, 1, 0, 0, 0, 256, 0);
    var s1 := Step(INITIAL, Send(BIG));
    assert s1.snd.queue == [m0] && s1.snd.expectingWrite && s1.enqueued == [BIG];
    var s2 := Step(s1, Writable(Moved(4)));
    assert Le32(1)[0..][..4] == [1, 0, 0, 0];
    assert s2.snd.queue == [m0.(numFramesFilled := 4)] && s2.wire == [1, 0, 0, 0];
    assert Le32(256)[0..][..4] == [0, 1, 0, 0];
  }

  lemma ReadCount()
    ensures var r := R.ReadMessage(R.INITIAL, Arrived([1, 0, 0, 0]));
            r == R.Received(R.ReceiverState(false, true, Message([R.EMPTY_FRAME], 1, 4, 0, 0, 0, 0), []), [1, 0, 0, 0])
  {
    assert [1, 0, 0, 0][..4] == [1, 0, 0, 0];
    assert Splice(Le32(0), 0, [1, 0, 0, 0]) == [1, 0, 0, 0];
    assert R.Overwrite(0, 0, [1, 0, 0, 0]) == 1;
    assert R.Resize([], 1) == [R.EMPTY_FRAME];
  }

  lemma ReadOneByte(r: R.ReceiverState)
    requires r == R.ReceiverState(false, true, Message([R.EMPTY_FRAME], 1, 4, 0, 0, 0, 0), [])
    ensures R.ReadMessage(r, Arrived([0])).Received?
    ensures R.ReadMessage(r, Arrived([0])).state.delivered == [[Frame(0, [])]]
  {
    assert [0][..1] == [0];
    assert Splice(Le32(0), 0, [0]) == [0, 0, 0, 0];
    assert R.Overwrite(0, 0, [0]) == 0;
    assert [R.EMPTY_FRAME][0 := R.EMPTY_FRAME.(size := 0)] == [R.EMPTY_FRAME];
    assert R.ReadMessage(r, Arrived([0]))
      == R.Received(R.EndFrame(r.(msg := r.msg.(frames := [R.EMPTY_FRAME], frameSzFilled := 1))), [0]);
  }

  /** One byte of the size 256 looks like a finished size 0: an empty frame is delivered. */
  lemma EarlyCloseDelivers()
    ensures var run := [Send(BIG), Writable(Moved(4)), Writable(Moved(4)), Readable(4), Readable(1)];
            var s := Run(INITIAL, run);
            !s.aborted && s.rcv.delivered == [[Frame(0, [])]] && s.enqueued == [BIG] && !(s.rcv.delivered <= s.enqueued)
  {
    BigOnTheWire();
    RunFive(INITIAL, Send(BIG), Writable(Moved(4)), Writable(Moved(4)), Readable(4), Readable(1));
    var s := Step(Step(Step(INITIAL, Send(BIG)), Writable(Moved(4))), Writable(Moved(4)));
    hide Step, Run, R.ReadMessage;
    assert s.wire[..4] == [1, 0, 0, 0] && s.wire[4..][..1] == [0];
    ReadCount();
    ReadableIs(s, 4);
    var t := Step(s, Readable(4));
    ReadOneByte(t.rcv);
    ReadableIs(t, 1);
    assert [[Frame(0, [])]][0][0].size == 0 && BIG[0].size == 256;
  }

  /** A short write of an empty frame's size field: the queue is empty, three bytes never went out. */
  lemma ShortWriteLoses()
    ensures var run := [Send([Frame(0, [])]), Writable(Moved(4)), Writable(Moved(1))];
            var s := Run(INITIAL, run);
            !s.aborted && s.snd.queue == [] && s.emitted == [1, 0, 0, 0, 0] &&
            EncodeMessage([Frame(0, [])]) == [1, 0, 0, 0, 0, 0, 0, 0]
  {
    var frames := [Frame(0, [])];
    var m0 := Message(frames, 1, 0, 0, 0, 0, 0);
    var s1 := Step(INITIAL, Send(frames));
    assert s1.snd == S.SenderState(false, [m0], true, 0, 1) && !s1.aborted;
    WriteTwice(s1.snd, m0);
    RunThree(INITIAL, Send(frames), Writable(Moved(4)), Writable(Moved(1)));
    assert EncodeFrames(frames) == EncodeFrame(frames[0]) + EncodeFrames([]);
    hide Run, S.WriteMessage;
  }

  lemma WriteTwice(s: S.SenderState, m: Message)
    requires m == Message([Frame(0, [])], 1, 0, 0, 0, 0, 0)
    requires s == S.SenderState(false, [m], true, 0, 1)
    ensures var r := S.WriteMessage(s, Moved(4));
            && r == S.Sent(s.(queue := [m.(numFramesFilled := 4)]), [1, 0, 0, 0])
            && S.WriteMessage(r.state, Moved(1)) == S.Sent(s.(queue := [], expectingWrite := false), [0])
  {
    assert Le32(1)[0..][..4] == [1, 0, 0, 0];
    assert Le32(0)[0..][..1] == [0];
  }

  lemma RunThree(s: System, a: Action, b: Action, c: Action)
    ensures Run(s, [a, b, c]) == Step(Step(Step(s, a), b), c)
  {
    hide Step;
    assert [a, b, c][1..] == [b, c] && [b, c][1..] == [c] && [c][1..] == [];
    assert Run(Step(s, a), [b, c]) == Run(Step(Step(s, a), b), [c]);
  }

  lemma RunFive(s: System, a: Action, b: Action, c: Action, d: Action, e: Action)
    ensures Run(s, [a, b, c, d, e]) == Step(Step(Step(Step(Step(s, a), b), c), d), e)
  {
    hide Step;
    assert [a, b, c, d, e][1..] == [b, c, d, e] && [b, c, d, e][1..] == [c, d, e];
    RunThree(Step(Step(s, a), b), c, d, e);
  }
}
