/** The good-schedule condition in terms of what the sender enqueued, and what follows from it:
    which connections need no condition at all, and that every good run can be completed. */
module Schedule {
  import opened Bytes
  import opened Wire
  import opened Framing
  import opened Channel
  import S = Sender
  import R = Receiver

  /** Two encodings of which one starts the other begin with the same frame. */
  lemma FirstFrame(f: Frame, x: seq<byte>, g: Frame, y: seq<byte>)
    requires ValidFrame(f) && ValidFrame(g) && EncodeFrame(f) + x <= EncodeFrame(g) + y
    ensures f == g && x <= y
  {
    var z := (EncodeFrame(g) + y)[|EncodeFrame(f) + x|..];
    ConcatAssociative(EncodeFrame(f), x, z);
    assert EncodeFrame(g) + y == EncodeFrame(f) + (x + z);
    DecodeEncodeFrame(f, x + z);
    DecodeEncodeFrame(g, y);
  }

  lemma {:induction false} FramesPrefix(a: Frames, part: seq<byte>, fs: Frames, tail: seq<byte>)
    requires ValidFrames(a) && ValidFrames(fs) && |a| <= |fs|
    requires EncodeFrames(a) + part <= EncodeFrames(fs) + tail
    ensures a == fs[..|a|]
    ensures part <= EncodeFrames(fs[|a|..]) + tail
  {
    if a == [] {
      assert EncodeFrames(a) + part == part && fs[0..] == fs;
    } else {
      ConcatAssociative(EncodeFrame(a[0]), EncodeFrames(a[1..]), part);
      ConcatAssociative(EncodeFrame(fs[0]), EncodeFrames(fs[1..]), tail);
      FirstFrame(a[0], EncodeFrames(a[1..]) + part, fs[0], EncodeFrames(fs[1..]) + tail);
      FramesPrefix(a[1..], part, fs[1..], tail);
      hide EncodeFrame, EncodeFrames;
      assert fs[1..][|a| - 1..] == fs[|a|..];
      assert a == [a[0]] + a[1..] && fs[..|a|] == [fs[0]] + fs[1..][..|a| - 1];
    }
  }

  /** The part held and the bytes in flight are the front of what is still to be delivered. */
  lemma NextBytes(s: System)
    requires Inv(s) && !s.rcv.closed
    ensures |s.rcv.delivered| <= |s.enqueued| && ValidStream(s.enqueued[|s.rcv.delivered|..])
    ensures R.Held(s.rcv) + s.wire <= EncodeStream(s.enqueued[|s.rcv.delivered|..])
    ensures !s.snd.closed && s.snd.queue == [] ==>
              R.Held(s.rcv) + s.wire == EncodeStream(s.enqueued[|s.rcv.delivered|..])
  {
    InvPrefix(s);
    var d, held := |s.rcv.delivered|, R.Held(s.rcv);
    assert s.enqueued == s.rcv.delivered + s.enqueued[d..];
    EncodeStreamAppend(s.rcv.delivered, s.enqueued[d..]);
    var e, rest := EncodeStream(s.rcv.delivered), EncodeStream(s.enqueued[d..]);
    hide R.ReceiverInv, R.Held, EncodeStream, S.SenderInv;
    ConcatAssociative(e, held, s.wire);
    PrefixTail(e, held + s.wire, rest);
  }

  lemma PrefixTail(a: seq<byte>, x: seq<byte>, y: seq<byte>)
    requires a + x <= a + y
    ensures x <= y
  {
    assert x == (a + x)[|a|..];
    assert y == (a + y)[|a|..];
  }

  lemma HeldSplits(r: R.ReceiverState, wire: seq<byte>)
    requires R.ReceiverInv(r) && r.reading && r.msg.numFramesFilled == 4
    ensures var m := r.msg;
            R.Held(r) + wire ==
            Le32(m.numFrames)
            + (EncodeFrames(m.frames[..m.frameInd])
               + (R.PartialFrame(m.frames[m.frameInd], m.frameSzFilled, m.frameFilled) + wire))
  {
    var m := r.msg;
    var done := EncodeFrames(m.frames[..m.frameInd]);
    var part := R.PartialFrame(m.frames[m.frameInd], m.frameSzFilled, m.frameFilled);
    ConcatAssociative(Le32(m.numFrames), done + part, wire);
    ConcatAssociative(done, part, wire);
  }

  lemma StreamSplits(ms: seq<Frames>, d: nat)
    requires ValidStream(ms) && d < |ms| && ValidStream(ms[d..]) && ValidStream(ms[d + 1..])
    ensures EncodeStream(ms[d..]) == Le32(|ms[d]|) + (EncodeFrames(ms[d]) + EncodeStream(ms[d + 1..]))
  {
    assert ms[d..][1..] == ms[d + 1..];
    ConcatAssociative(Le32(|ms[d]|), EncodeFrames(ms[d]), EncodeStream(ms[d + 1..]));
  }

  /** The message being read is the next one enqueued: same frame count, same frames so far. */
  lemma InFlight(s: System)
    requires Inv(s) && !s.rcv.closed && s.rcv.reading && s.rcv.msg.numFramesFilled == 4
    ensures var d, m := |s.rcv.delivered|, s.rcv.msg;
            && d < |s.enqueued| && ValidStream(s.enqueued[d + 1..])
            && |m.frames| == |s.enqueued[d]|
            && m.frames[..m.frameInd] == s.enqueued[d][..m.frameInd]
            && R.PartialFrame(m.frames[m.frameInd], m.frameSzFilled, m.frameFilled) + s.wire
               <= EncodeFrames(s.enqueued[d][m.frameInd..]) + EncodeStream(s.enqueued[d + 1..])
  {
    var d, m := |s.rcv.delivered|, s.rcv.msg;
    NextBytes(s);
    HeldSplits(s.rcv, s.wire);
    assert EncodeStream(s.enqueued[d..]) != [];
    StreamSplits(s.enqueued, d);
    var done, part := m.frames[..m.frameInd], R.PartialFrame(m.frames[m.frameInd], m.frameSzFilled, m.frameFilled);
    var next, later := s.enqueued[d], EncodeStream(s.enqueued[d + 1..]);
    HeadsAgree(m.numFrames, EncodeFrames(done) + (part + s.wire), |next|, EncodeFrames(next) + later);
    FramesPrefix(done, part + s.wire, next, later);
  }

  lemma HeadsAgree(a: uint32, x: seq<byte>, b: uint32, y: seq<byte>)
    requires Le32(a) + x <= Le32(b) + y
    ensures a == b && x <= y
  {
    assert Le32(a) == (Le32(a) + x)[..4] && Le32(b) == (Le32(b) + y)[..4];
    Le32Injective(a, b);
    PrefixTail(Le32(a), x, y);
  }

  /** Size of the frame being read, as its sender enqueued it. */
  ghost function SizeInFlight(s: System): uint32
    requires Inv(s) && !s.rcv.closed && R.InSizeField(s.rcv)
  {
    InFlight(s);
    s.enqueued[|s.rcv.delivered|][s.rcv.msg.frameInd].size
  }

  /** Bytes of the current size field present after reading what `count` allows. */
  ghost function SizeBytes(s: System, count: nat): nat
    requires R.InSizeField(s.rcv)
  {
    s.rcv.msg.frameSzFilled + Min(Min(count, |s.wire|), 4 - s.rcv.msg.frameSzFilled)
  }

  lemma SizeFirst(fs: Frames, tail: seq<byte>)
    requires fs != []
    ensures |EncodeFrames(fs) + tail| >= 4 && (EncodeFrames(fs) + tail)[..4] == Le32(fs[0].size)
  {
  }

  /** A zeroed field in which the first bytes of n stand. */
  lemma FieldValue(f: uint32, j: nat, chunk: seq<byte>, wire: seq<byte>, b: seq<byte>, n: uint32)
    requires j + |chunk| <= 4 && chunk <= wire && Le32(f)[j..] == Zeros(4 - j)
    requires Le32(f)[..j] + wire <= b && |b| >= 4 && b[..4] == Le32(n)
    ensures R.Overwrite(f, j, chunk) == n % Pow256(j + |chunk|)
  {
    var k := j + |chunk|;
    hide Le32, FromLe32, Pow256;
    assert Le32(f)[..j] + chunk == (Le32(f)[..j] + wire)[..k] == b[..k] == Le32(n)[..k];
    assert Le32(f)[k..] == Le32(f)[j..][k - j..] == Zeros(4 - k);
    assert Splice(Le32(f), j, chunk) == Le32(n)[..k] + Zeros(4 - k);
    PartialSize(n, k);
  }

  ghost function Upcoming(s: System): seq<byte>
    requires Inv(s) && !s.rcv.closed && R.InSizeField(s.rcv)
  {
    InFlight(s);
    var d := |s.rcv.delivered|;
    EncodeFrames(s.enqueued[d][s.rcv.msg.frameInd..]) + EncodeStream(s.enqueued[d + 1..])
  }

  /** The bytes of the size field held and those in flight are the front of what is to come. */
  lemma FieldInFlight(s: System)
    requires Inv(s) && !s.rcv.closed && R.InSizeField(s.rcv)
    ensures var f, j, b := s.rcv.msg.frames[s.rcv.msg.frameInd], s.rcv.msg.frameSzFilled, Upcoming(s);
            && Le32(f.size)[..j] + s.wire <= b
            && |b| >= 4 && b[..4] == Le32(SizeInFlight(s))
  {
    var d, m := |s.rcv.delivered|, s.rcv.msg;
    InFlight(s);
    SizeFirst(s.enqueued[d][m.frameInd..], EncodeStream(s.enqueued[d + 1..]));
    hide Inv, Le32, EncodeFrames, EncodeStream;
    var f := m.frames[m.frameInd];
    assert R.PartialFrame(f, m.frameSzFilled, m.frameFilled) == Le32(f.size)[..m.frameSzFilled];
  }

  lemma FieldZeroed(s: System)
    requires Inv(s) && !s.rcv.closed && R.InSizeField(s.rcv)
    ensures var f, j := s.rcv.msg.frames[s.rcv.msg.frameInd], s.rcv.msg.frameSzFilled;
            Le32(f.size)[j..] == Zeros(4 - j)
  {
  }

  /** What stands in the size field after k of the n's bytes arrived is n mod 256^k. */
  lemma SizeFieldValue(s: System, count: nat)
    requires Inv(s) && !s.rcv.closed && R.InSizeField(s.rcv)
    ensures var m, k := s.rcv.msg, SizeBytes(s, count);
            R.Overwrite(m.frames[m.frameInd].size, m.frameSzFilled, s.wire[..k - m.frameSzFilled])
            == SizeInFlight(s) % Pow256(k)
  {
    FieldInFlight(s);
    FieldZeroed(s);
    hide Inv, Le32, Upcoming, R.Overwrite, Pow256, SizeInFlight, Zeros;
    var m, k := s.rcv.msg, SizeBytes(s, count);
    FieldValue(m.frames[m.frameInd].size, m.frameSzFilled, s.wire[..k - m.frameSzFilled], s.wire,
               Upcoming(s), SizeInFlight(s));
  }

  /** The reader closes the frame being read after k of its n's size bytes exactly when n is a
      multiple of 256^k, so the read is good exactly when k is 4 or n is no such multiple. */
  lemma SizeCondition(s: System, count: nat)
    requires Inv(s) && !s.rcv.closed && R.InSizeField(s.rcv)
    ensures var k, n := SizeBytes(s, count), SizeInFlight(s);
            && (Good(s, Readable(count)) <==> k == 4 || n % Pow256(k) != 0)
            && (Step(s, Readable(count)).rcv.msg.frameInd == s.rcv.msg.frameInd + 1 <==> n % Pow256(k) == 0)
  {
    hide R.Overwrite, SizeInFlight, R.EndFrame, Pow256, SenderOk;
    SizeFieldValue(s, count);
    var io, k := Offered(s, count), SizeBytes(s, count);
    R.ReadSizeIs(s.rcv, io);
    hide R.ReadMessage, Inv;
    assert io.chunk[..Min(|io.chunk|, 4 - s.rcv.msg.frameSzFilled)] == s.wire[..k - s.rcv.msg.frameSzFilled];
  }

  // ---------------------------------------------------------------- connections that need no condition

  lemma ResidueStays(n: nat, k: nat)
    requires n % 256 != 0 && k > 0
    ensures n % Pow256(k) != 0
  {
    var p := Pow256(k - 1);
    var q, r := n / Pow256(k), n % Pow256(k);
    assert n == 256 * (p * q) + r;
  }

  /** At the start of a size field every non-empty read is good exactly when 256 does not divide
      the size: otherwise reading its first byte alone closes the frame. */
  lemma EveryReadGood(s: System)
    requires Inv(s) && !s.rcv.closed && R.InSizeField(s.rcv)
    requires s.rcv.msg.frameSzFilled == 0 && s.wire != []
    ensures (forall count: pos :: Good(s, Readable(count))) <==> SizeInFlight(s) % 256 != 0
  {
    hide Inv, Good, SizeInFlight, R.ReadMessage, Step;
    var n := SizeInFlight(s);
    assert Pow256(1) == 256;
    SizeCondition(s, 1);
    forall count: pos | n % 256 != 0 ensures Good(s, Readable(count)) {
      SizeCondition(s, count);
      ResidueStays(n, SizeBytes(s, count));
    }
  }

  ghost predicate PlainSystem(s: System) {
    && Inv(s)
    && (forall i | 0 <= i < |s.enqueued| :: S.Plain(s.enqueued[i]))
    && S.PlainQueue(s.snd.queue)
  }

  /** Any schedule at all, as long as `recv` is only called when bytes are there. */
  ghost predicate Unrestricted(s: System, a: Action) {
    match a
    case Send(frames) => S.Passes(s.snd) ==> ValidMessage(frames) && S.Plain(frames)
    case SetFilter(n) => n > 0
    case Readable(n) => n > 0 && s.wire != []
    case _ => true
  }

  lemma PlainRead(s: System, n: nat)
    requires PlainSystem(s) && Unrestricted(s, Readable(n))
    ensures Good(s, Readable(n))
  {
    if !s.rcv.closed && R.InSizeField(s.rcv) {
      SizeCondition(s, n);
      InFlight(s);
      assert S.Plain(s.enqueued[|s.rcv.delivered|]);
      ResidueStays(SizeInFlight(s), SizeBytes(s, n));
    }
  }

  lemma PlainWrite(s: System, io: Io)
    requires PlainSystem(s)
    ensures Good(s, Writable(io)) && S.PlainQueue(Step(s, Writable(io)).snd.queue)
  {
    hide S.WriteMessage;
    if !s.snd.closed && s.snd.expectingWrite {
      S.WriteExact(s.snd, io);
      S.PlainKept(s.snd, io);
    }
  }

  lemma PlainSend(s: System, frames: Frames)
    requires PlainSystem(s) && Unrestricted(s, Send(frames))
    ensures Good(s, Send(frames)) && PlainSystem(Step(s, Send(frames)))
  {
    Channel.SendKeeps(s, frames);
    hide Inv, S.Plain;
  }

  lemma PlainOther(s: System, a: Action)
    requires PlainSystem(s) && Unrestricted(s, a) && !a.Send?
    ensures Good(s, a) && PlainSystem(Step(s, a))
  {
    match a {
      case Readable(n) => PlainRead(s, n);
      case Writable(io) => PlainWrite(s, io);
      case _ =>
    }
    StepKeeps(s, a);
    hide Inv, S.Plain, S.WriteMessage, R.ReadMessage, Good;
  }

  lemma PlainStep(s: System, a: Action)
    requires PlainSystem(s) && Unrestricted(s, a)
    ensures Good(s, a) && PlainSystem(Step(s, a))
  {
    hide PlainSystem, Good, Step, Unrestricted;
    match a
    case Send(frames) => PlainSend(s, frames);
    case _ => PlainOther(s, a);
  }

  ghost predicate UnrestrictedRun(s: System, run: seq<Action>)
    decreases |run|
  {
    run != [] ==> Unrestricted(s, run[0]) && UnrestrictedRun(Step(s, run[0]), run[1..])
  }

  /** Without multiples of 256 among the frame sizes, short reads and short writes are harmless. */
  lemma {:induction false} PlainRun(s: System, run: seq<Action>)
    requires PlainSystem(s) && UnrestrictedRun(s, run)
    ensures GoodRun(s, run) && PlainSystem(Run(s, run))
    decreases |run|
  {
    if run != [] {
      PlainStep(s, run[0]);
      hide Step, Good, Unrestricted, PlainSystem;
      PlainRun(Step(s, run[0]), run[1..]);
    }
  }

  // ---------------------------------------------------------------- exactness over runs

  /** The part of the condition that is the callers' own: valid messages, a positive filter. */
  ghost predicate CallersOk(s: System, run: seq<Action>)
    decreases |run|
  {
    run != [] ==>
      (run[0].Send? || run[0].SetFilter? ==> Good(s, run[0])) && CallersOk(Step(s, run[0]), run[1..])
  }

  ghost predicate AccountKept(s: System, run: seq<Action>)
    decreases |run|
  {
    Inv(s) && (run != [] ==> AccountKept(Step(s, run[0]), run[1..]))
  }

  /** Over whole runs the condition is necessary as well as sufficient: the two ends keep account
      of every byte in every state if and only if the schedule is good. */
  lemma {:induction false} GoodRunExact(s: System, run: seq<Action>)
    requires Inv(s) && CallersOk(s, run)
    ensures AccountKept(s, run) <==> GoodRun(s, run)
    decreases |run|
  {
    if run != [] {
      var a, s' := run[0], Step(s, run[0]);
      assert Inv(s') <==> Good(s, a) by {
        match a
        case Writable(io) => WriteKeeps(s, io);
        case Readable(n) => ReadKeeps(s, n);
        case _ => StepKeeps(s, a);
      }
      hide Step, Good, Inv;
      if Inv(s') {
        GoodRunExact(s', run[1..]);
      }
    }
  }

  /** Chunking is invisible: two receivers that took in the same bytes delivered the same messages. */
  lemma ChunkingInvisible(s: System, t: System)
    requires Inv(s) && Inv(t) && !s.rcv.closed && !t.rcv.closed
    requires s.consumed == t.consumed
    ensures s.rcv.delivered == t.rcv.delivered && R.Held(s.rcv) == R.Held(t.rcv)
    ensures (s.rcv.delivered, R.Held(s.rcv)) == DecodeStream(s.consumed)
  {
    R.RefinesDecoder(s.rcv);
    R.RefinesDecoder(t.rcv);
  }
}
