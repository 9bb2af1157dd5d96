/** The receiving half of TransportTCP as a function of its state: what each call to
    `readMessage` makes of the bytes that `recv` returns, however they are cut up. */
module Receiver {
  import opened Bytes
  import opened Wire
  import opened Framing

  /** `delivered` is the log of the calls to the message callback. */
  datatype ReceiverState = ReceiverState(closed: bool, reading: bool, msg: Message, delivered: seq<Frames>)

  datatype ReadResult = Received(state: ReceiverState, taken: seq<byte>) | Aborted

  const INITIAL: ReceiverState := ReceiverState(false, false, Message([], 0, 0, 0, 0, 0, 0), [])

  /** `read`: whether the transport is closed afterwards, the count returned, and the bytes moved. */
  function Read(closed: bool, want: nat, io: Recv): (r: (bool, int, seq<byte>))
    requires want > 0
    ensures (r.1 == -1 && r.0 && r.2 == []) ||
            (0 <= r.1 == |r.2| <= want && !r.0 && !closed && io.Arrived? && r.2 <= io.chunk)
    ensures r.1 <= INT_MAX
  {
    if closed then (true, -1, []) else
    match io
    case Lost => (true, -1, [])
    case Arrived(chunk) => var k := Min(|chunk|, Min(want, INT_MAX)); (false, k, chunk[..k])
  }

  const EMPTY_FRAME: Frame := Frame(0, [])

  /** std::vector::resize with value-initialised new elements. */
  function Resize(fs: Frames, n: nat): (r: Frames)
    ensures |r| == n
  {
    if n <= |fs| then fs[..n] else fs + seq(n - |fs|, _ => EMPTY_FRAME)
  }

  /** The word at an address after some of its bytes were overwritten in place. */
  function Overwrite(n: uint32, off: nat, chunk: seq<byte>): uint32
    requires off + |chunk| <= 4
  {
    FromLe32(Splice(Le32(n), off, chunk))
  }

  function StartReading(r: ReceiverState): ReceiverState {
    if r.reading then r else
    r.(reading := true,
       msg := r.msg.(frames := [], numFramesFilled := 0, frameInd := 0, frameFilled := 0, frameSzFilled := 0))
  }

  function ReadMessage(r0: ReceiverState, io: Recv): ReadResult {
    var r := StartReading(r0);
    var m := r.msg;
    if m.numFramesFilled < 4 then
      var (closed, count, chunk) := Read(r.closed, 4 - m.numFramesFilled, io);
      if count < 0 then Received(r.(closed := true), []) else
      var m' := m.(numFrames := Overwrite(m.numFrames, m.numFramesFilled, chunk),
                   numFramesFilled := m.numFramesFilled + count);
      if m'.numFramesFilled < 4 then Received(r.(msg := m'), chunk) else
      Received(r.(closed := m'.numFrames == 0, msg := m'.(frames := Resize(m'.frames, m'.numFrames))), chunk)
    else
      ReadFrame(r, io)
  }

  function ReadFrame(r: ReceiverState, io: Recv): ReadResult {
    if r.msg.frameInd >= |r.msg.frames| then Aborted else
    if r.msg.frameSzFilled < 4 then ReadSizePart(r, io) else ReadPayloadPart(r, io)
  }

  function ReadSizePart(r: ReceiverState, io: Recv): ReadResult
    requires r.msg.frameInd < |r.msg.frames| && r.msg.frameSzFilled < 4
  {
    var m := r.msg;
    var frame := m.frames[m.frameInd];
    var (closed, count, chunk) := Read(r.closed, 4 - m.frameSzFilled, io);
    if count < 0 then Received(r.(closed := true), []) else
    var size := Overwrite(frame.size, m.frameSzFilled, chunk);
    var filled := m.frameSzFilled + count;
    // a new buffer's bytes are unspecified; zeros stand for them
    var frame' := if filled == 4 then Frame(size, Zeros(size)) else frame.(size := size);
    Received(EndFrame(r.(msg := m.(frames := m.frames[m.frameInd := frame'], frameSzFilled := filled))), chunk)
  }

  function ReadPayloadPart(r: ReceiverState, io: Recv): ReadResult
    requires r.msg.frameInd < |r.msg.frames|
  {
    var m := r.msg;
    var frame := m.frames[m.frameInd];
    var want := (frame.size - m.frameFilled) % TWO_TO_32;
    if want == 0 then Received(EndFrame(r), []) else
    if m.frameFilled + want > |frame.data| then Aborted else
    var (closed, count, chunk) := Read(r.closed, want, io);
    if count < 0 then Received(r.(closed := true), []) else
    var frame' := frame.(data := Splice(frame.data, m.frameFilled, chunk));
    Received(EndFrame(r.(msg := m.(frames := m.frames[m.frameInd := frame'],
                                   frameFilled := (m.frameFilled + count) % TWO_TO_32))), chunk)
  }

  function EndFrame(r: ReceiverState): ReceiverState
    requires r.msg.frameInd < |r.msg.frames|
  {
    var m := r.msg;
    if m.frameFilled != m.frames[m.frameInd].size then r else
    var m' := m.(frameInd := (m.frameInd + 1) % TWO_TO_32, frameFilled := 0, frameSzFilled := 0);
    if m'.frameInd == |m'.frames| then
      r.(msg := m', delivered := r.delivered + [m'.frames], reading := false)
    else
      r.(msg := m')
  }

  // ---------------------------------------------------------------- what has been taken in

  ghost predicate Untouched(fs: Frames) {
    forall i | 0 <= i < |fs| :: fs[i] == EMPTY_FRAME
  }

  /** Shape of the current frame while it is being filled. */
  ghost predicate FrameShape(f: Frame, szFilled: nat, filled: nat) {
    && szFilled <= 4
    && filled <= f.size
    && (szFilled < 4 ==> filled == 0 && f.data == [] && Le32(f.size)[szFilled..] == Zeros(4 - szFilled))
    && (szFilled == 4 ==> |f.data| == f.size)
  }

  ghost predicate Shape(m: Message) {
    if m.numFramesFilled < 4 then
      m.frames == [] && m.frameInd == 0 && m.frameSzFilled == 0 && m.frameFilled == 0
    else
      && m.numFramesFilled == 4
      && m.frameInd < |m.frames| == m.numFrames
      && ValidFrames(m.frames[..m.frameInd])
      && Untouched(m.frames[m.frameInd + 1..])
      && FrameShape(m.frames[m.frameInd], m.frameSzFilled, m.frameFilled)
  }

  /** Between calls the current frame is never finished. */
  ghost predicate InProgress(m: Message) {
    && Shape(m)
    && (m.numFramesFilled == 4 && m.frameSzFilled == 4 ==> m.frameFilled < m.frames[m.frameInd].size)
  }

  ghost predicate ReceiverInv(r: ReceiverState) {
    && ValidStream(r.delivered)
    && (r.reading ==> InProgress(r.msg))
  }

  ghost function PartialFrame(f: Frame, szFilled: nat, filled: nat): seq<byte>
    requires FrameShape(f, szFilled, filled)
  {
    Le32(f.size)[..szFilled] + f.data[..filled]
  }

  /** The bytes of the message being read that have arrived so far. */
  ghost function Partial(m: Message): seq<byte>
    requires Shape(m)
  {
    if m.numFramesFilled < 4 then Le32(m.numFrames)[..m.numFramesFilled] else
    Le32(m.numFrames)
    + (EncodeFrames(m.frames[..m.frameInd])
       + PartialFrame(m.frames[m.frameInd], m.frameSzFilled, m.frameFilled))
  }

  ghost function Held(r: ReceiverState): seq<byte>
    requires r.reading ==> Shape(r.msg)
  {
    if r.reading then Partial(r.msg) else []
  }

  /** Everything the reader can account for: whole messages delivered, and the part it holds. */
  ghost function Account(r: ReceiverState): seq<byte>
    requires ValidStream(r.delivered) && (r.reading ==> Shape(r.msg))
  {
    EncodeStream(r.delivered) + Held(r)
  }

  /** The bytes of the size field that a frame closed now would claim without having read them. */
  ghost function Unread(m: Message): seq<byte>
    requires Shape(m) && m.numFramesFilled == 4
  {
    var f := m.frames[m.frameInd];
    if m.frameFilled == f.size then Le32(f.size)[m.frameSzFilled..] else []
  }

  lemma NextFramePartial(m: Message)
    requires Shape(m) && m.numFramesFilled == 4
    requires m.frameFilled == m.frames[m.frameInd].size
    ensures ValidFrames(m.frames[..m.frameInd + 1])
    ensures Le32(m.numFrames) + EncodeFrames(m.frames[..m.frameInd + 1]) == Partial(m) + Unread(m)
  {
    var f := m.frames[m.frameInd];
    var done := m.frames[..m.frameInd];
    assert m.frames[..m.frameInd + 1] == done + [f];
    EncodeFramesAppend(done, [f]);
    assert EncodeFrames([f]) == EncodeFrame(f) + [];
    hide Le32, EncodeFrames;
    assert f.data[..m.frameFilled] == f.data;
    assert EncodeFrame(f) == PartialFrame(f, m.frameSzFilled, m.frameFilled) + Unread(m);
  }

  ghost predicate AtFrame(r: ReceiverState) {
    && ValidStream(r.delivered) && r.reading && Shape(r.msg) && r.msg.numFramesFilled == 4
  }

  function NextFrame(m: Message): Message
    requires m.frameInd + 1 < TWO_TO_32
  {
    m.(frameInd := m.frameInd + 1, frameFilled := 0, frameSzFilled := 0)
  }

  lemma NextFrameShape(m: Message)
    requires Shape(m) && m.numFramesFilled == 4
    requires m.frameFilled == m.frames[m.frameInd].size && m.frameInd + 1 < |m.frames|
    ensures InProgress(NextFrame(m)) && Partial(NextFrame(m)) == Partial(m) + Unread(m)
  {
    var m' := NextFrame(m);
    NextFramePartial(m);
    assert m.frames[m'.frameInd] == m.frames[m.frameInd + 1..][0] == EMPTY_FRAME;
    assert m.frames[m'.frameInd + 1..] == m.frames[m.frameInd + 1..][1..];
    ZeroSize();
    hide Le32, EncodeFrames, FrameShape, Unread, ValidFrames;
    assert InProgress(m');
    assert PartialFrame(EMPTY_FRAME, 0, 0) == [];
    assert EncodeFrames(m.frames[..m'.frameInd]) + [] == EncodeFrames(m.frames[..m'.frameInd]);
  }

  lemma EndFrameMoves(r: ReceiverState)
    requires AtFrame(r) && r.msg.frameFilled == r.msg.frames[r.msg.frameInd].size
    ensures r.msg.frameInd + 1 < |r.msg.frames| ==> EndFrame(r) == r.(msg := NextFrame(r.msg))
    ensures r.msg.frameInd + 1 == |r.msg.frames| ==>
              && EndFrame(r).delivered == r.delivered + [r.msg.frames]
              && !EndFrame(r).reading && EndFrame(r).closed == r.closed
  {
  }

  lemma LastFrameDelivered(r: ReceiverState)
    requires AtFrame(r) && r.msg.frameFilled == r.msg.frames[r.msg.frameInd].size
    requires r.msg.frameInd + 1 == |r.msg.frames|
    ensures ReceiverInv(EndFrame(r)) && Account(EndFrame(r)) == Account(r) + Unread(r.msg)
  {
    var m := r.msg;
    EndFrameMoves(r);
    NextFramePartial(m);
    assert m.frames[..m.frameInd + 1] == m.frames;
    EncodeStreamSnoc(r.delivered, m.frames);
    ConcatAssociative(EncodeStream(r.delivered), Partial(m), Unread(m));
  }

  /** Closing a frame is exact once its size field was read in full; closing it earlier claims
      bytes that were never read. */
  lemma EndFrameEffect(r: ReceiverState)
    requires AtFrame(r)
    ensures ReceiverInv(EndFrame(r)) && EndFrame(r).closed == r.closed
    ensures Account(EndFrame(r)) == Account(r) + Unread(r.msg)
  {
    var m := r.msg;
    if m.frameFilled != m.frames[m.frameInd].size {
      assert EndFrame(r) == r;
    } else if m.frameInd + 1 < |m.frames| {
      EndFrameMoves(r);
      NextFrameShape(m);
      ConcatAssociative(EncodeStream(r.delivered), Partial(m), Unread(m));
    } else {
      LastFrameDelivered(r);
      EndFrameMoves(r);
    }
  }

  // ---------------------------------------------------------------- one call of readMessage

  lemma OverwriteBytes(n: uint32, off: nat, chunk: seq<byte>)
    requires off + |chunk| <= 4
    ensures Le32(Overwrite(n, off, chunk)) == Splice(Le32(n), off, chunk)
  {
    EncodeDecode32(Splice(Le32(n), off, chunk));
  }

  /** The count field after `chunk`; the frame vector appears once the field is complete. */
  function CountArrived(m: Message, chunk: seq<byte>): Message
    requires m.numFramesFilled + |chunk| <= 4
  {
    var m' := m.(numFrames := Overwrite(m.numFrames, m.numFramesFilled, chunk),
                 numFramesFilled := m.numFramesFilled + |chunk|);
    if m'.numFramesFilled < 4 then m' else m'.(frames := Resize(m'.frames, m'.numFrames))
  }

  lemma CountArrives(m: Message, chunk: seq<byte>)
    requires Shape(m) && m.numFramesFilled + |chunk| <= 4 && m.numFramesFilled < 4
    requires CountArrived(m, chunk).numFrames > 0 || m.numFramesFilled + |chunk| < 4
    ensures InProgress(CountArrived(m, chunk))
    ensures Partial(CountArrived(m, chunk)) == Partial(m) + chunk
  {
    var m' := CountArrived(m, chunk);
    OverwriteBytes(m.numFrames, m.numFramesFilled, chunk);
    hide Le32, Overwrite;
    assert Le32(m'.numFrames)[..m'.numFramesFilled] == Le32(m.numFrames)[..m.numFramesFilled] + chunk;
    if m'.numFramesFilled == 4 {
      assert m'.frames[..0] == [];
      ZeroSize();
      assert PartialFrame(m'.frames[0], 0, 0) == [];
      assert Le32(m'.numFrames)[..4] == Le32(m'.numFrames);
    }
  }

  lemma ZeroSize()
    ensures FrameShape(EMPTY_FRAME, 0, 0)
  {
    assert Le32(0)[0..] == Zeros(4);
  }

  /** The current frame after `chunk` arrived in its size field. */
  function SizeArrived(m: Message, chunk: seq<byte>): Message
    requires m.frameInd < |m.frames| && m.frameSzFilled + |chunk| <= 4
  {
    var f := m.frames[m.frameInd];
    var size := Overwrite(f.size, m.frameSzFilled, chunk);
    var filled := m.frameSzFilled + |chunk|;
    m.(frames := m.frames[m.frameInd := if filled == 4 then Frame(size, Zeros(size)) else f.(size := size)],
       frameSzFilled := filled)
  }

  lemma FrameReplaced(m: Message, m': Message, chunk: seq<byte>)
    requires Shape(m) && m.numFramesFilled == 4
    requires m' == m.(frames := m'.frames, frameSzFilled := m'.frameSzFilled, frameFilled := m'.frameFilled)
    requires |m'.frames| == |m.frames| && m'.frames == m.frames[m.frameInd := m'.frames[m.frameInd]]
    requires FrameShape(m'.frames[m.frameInd], m'.frameSzFilled, m'.frameFilled)
    requires PartialFrame(m'.frames[m.frameInd], m'.frameSzFilled, m'.frameFilled)
             == PartialFrame(m.frames[m.frameInd], m.frameSzFilled, m.frameFilled) + chunk
    ensures Shape(m') && Partial(m') == Partial(m) + chunk
  {
    assert m'.frames[..m.frameInd] == m.frames[..m.frameInd];
    assert m'.frames[m.frameInd + 1..] == m.frames[m.frameInd + 1..];
    var part := PartialFrame(m.frames[m.frameInd], m.frameSzFilled, m.frameFilled);
    var done := EncodeFrames(m.frames[..m.frameInd]);
    ConcatAssociative(done, part, chunk);
    ConcatAssociative(Le32(m.numFrames), done + part, chunk);
  }

  lemma SizeArrives(m: Message, chunk: seq<byte>)
    requires Shape(m) && m.numFramesFilled == 4 && m.frameSzFilled < 4 && m.frameSzFilled + |chunk| <= 4
    ensures Shape(SizeArrived(m, chunk))
    ensures Partial(SizeArrived(m, chunk)) == Partial(m) + chunk
  {
    var m' := SizeArrived(m, chunk);
    var f, f' := m.frames[m.frameInd], m'.frames[m.frameInd];
    OverwriteBytes(f.size, m.frameSzFilled, chunk);
    assert f'.size == Overwrite(f.size, m.frameSzFilled, chunk);
    assert Le32(f'.size)[m'.frameSzFilled..] == Le32(f.size)[m.frameSzFilled..][|chunk|..];
    assert Zeros(4 - m'.frameSzFilled) == Zeros(4 - m.frameSzFilled)[|chunk|..];
    hide Le32, Overwrite;
    assert Le32(f'.size)[..m'.frameSzFilled] == Le32(f.size)[..m.frameSzFilled] + chunk;
    FrameReplaced(m, m', chunk);
  }

  /** The current frame after `chunk` arrived in its payload. */
  function PayloadArrived(m: Message, chunk: seq<byte>): Message
    requires m.frameInd < |m.frames| && m.frameFilled + |chunk| <= |m.frames[m.frameInd].data|
  {
    var f := m.frames[m.frameInd];
    m.(frames := m.frames[m.frameInd := f.(data := Splice(f.data, m.frameFilled, chunk))],
       frameFilled := (m.frameFilled + |chunk|) % TWO_TO_32)
  }

  lemma PayloadArrives(m: Message, chunk: seq<byte>)
    requires Shape(m) && m.numFramesFilled == 4 && m.frameSzFilled == 4
    requires m.frameFilled + |chunk| <= |m.frames[m.frameInd].data|
    ensures Shape(PayloadArrived(m, chunk))
    ensures Partial(PayloadArrived(m, chunk)) == Partial(m) + chunk
  {
    var m' := PayloadArrived(m, chunk);
    var f, f' := m.frames[m.frameInd], m'.frames[m.frameInd];
    assert m'.frameFilled == m.frameFilled + |chunk|;
    assert f'.data[..m'.frameFilled] == f.data[..m.frameFilled] + chunk;
    ConcatAssociative(Le32(f.size)[..4], f.data[..m.frameFilled], chunk);
    FrameReplaced(m, m', chunk);
  }

  // ---------------------------------------------------------------- exactness of one step

  ghost predicate InSizeField(r: ReceiverState) {
    r.reading && r.msg.numFramesFilled == 4 && r.msg.frameInd < |r.msg.frames| && r.msg.frameSzFilled < 4
  }

  /** A read is bad when it stops inside a size field and every size byte so far is zero. */
  ghost predicate GoodRead(r: ReceiverState, io: Recv) {
    io.Arrived? && InSizeField(r) ==>
      var k := Min(|io.chunk|, 4 - r.msg.frameSzFilled);
      r.msg.frameSzFilled + k == 4 ||
      Overwrite(r.msg.frames[r.msg.frameInd].size, r.msg.frameSzFilled, io.chunk[..k]) != 0
  }

  ghost predicate Conforms(r: ReceiverState, res: ReadResult)
    requires ReceiverInv(r)
  {
    res.Received? && ReceiverInv(res.state) && Account(res.state) == Account(r) + res.taken
  }

  ghost predicate Steps(r: ReceiverState, io: Recv, res: ReadResult) {
    && res.Received?
    && (io.Lost? ==> res.state.closed && res.taken == [])
    && (io.Arrived? ==> res.taken <= io.chunk && (io.chunk != [] ==> res.taken != []))
    && (res.state.closed ==> res.state.delivered == r.delivered)
    && (!res.state.closed ==> ReceiverInv(res.state))
  }

  lemma ReadCountIs(r: ReceiverState, io: Recv)
    requires !r.closed && r.reading && r.msg.numFramesFilled < 4 && io.Arrived?
    ensures var chunk := io.chunk[..Min(|io.chunk|, 4 - r.msg.numFramesFilled)];
            var m' := CountArrived(r.msg, chunk);
            ReadMessage(r, io) == Received(r.(msg := m', closed := m'.numFramesFilled == 4 && m'.numFrames == 0), chunk)
  {
    hide Overwrite, Resize;
  }

  lemma ReadCount(r: ReceiverState, io: Recv)
    requires ReceiverInv(r) && !r.closed && r.reading && r.msg.numFramesFilled < 4
    ensures Steps(r, io, ReadMessage(r, io))
    ensures !ReadMessage(r, io).state.closed ==> Conforms(r, ReadMessage(r, io))
  {
    if io.Arrived? {
      ReadCountIs(r, io);
      var chunk := io.chunk[..Min(|io.chunk|, 4 - r.msg.numFramesFilled)];
      var m' := CountArrived(r.msg, chunk);
      if m'.numFramesFilled < 4 || m'.numFrames > 0 {
        CountArrives(r.msg, chunk);
        ConcatAssociative(EncodeStream(r.delivered), Partial(r.msg), chunk);
      }
      hide ReadMessage, Partial, InProgress, EncodeStream;
    }
  }

  lemma AfterFrame(r: ReceiverState, m': Message, chunk: seq<byte>)
    requires ReceiverInv(r) && r.reading && Shape(m') && m'.numFramesFilled == 4
    requires Partial(m') == Partial(r.msg) + chunk
    ensures var res := Received(EndFrame(r.(msg := m')), chunk);
            && ReceiverInv(res.state) && res.state.closed == r.closed
            && (Conforms(r, res) <==> |Unread(m')| == 0)
  {
    var r' := r.(msg := m');
    ConcatAssociative(EncodeStream(r.delivered), Partial(r.msg), chunk);
    EndFrameEffect(r');
    assert |Account(EndFrame(r'))| == |Account(r)| + |chunk| + |Unread(m')|;
  }

  lemma ReadSizeIs(r: ReceiverState, io: Recv)
    requires ReceiverInv(r) && !r.closed && InSizeField(r) && io.Arrived?
    ensures var chunk := io.chunk[..Min(|io.chunk|, 4 - r.msg.frameSzFilled)];
            && ReadMessage(r, io) == Received(EndFrame(r.(msg := SizeArrived(r.msg, chunk))), chunk)
            && (ReadMessage(r, io).state.msg.frameInd == r.msg.frameInd + 1 <==>
                  Overwrite(r.msg.frames[r.msg.frameInd].size, r.msg.frameSzFilled, chunk) == 0)
  {
  }

  lemma ReadSize(r: ReceiverState, io: Recv)
    requires ReceiverInv(r) && !r.closed && InSizeField(r)
    ensures Steps(r, io, ReadMessage(r, io))
    ensures io.Arrived? ==> !ReadMessage(r, io).state.closed
    ensures io.Arrived? ==> (GoodRead(r, io) <==> Conforms(r, ReadMessage(r, io)))
  {
    if io.Arrived? {
      var k := Min(|io.chunk|, 4 - r.msg.frameSzFilled);
      var m' := SizeArrived(r.msg, io.chunk[..k]);
      ReadSizeIs(r, io);
      SizeArrives(r.msg, io.chunk[..k]);
      AfterFrame(r, m', io.chunk[..k]);
      assert |Unread(m')| == 0 <==> GoodRead(r, io);
      hide ReadMessage, EndFrame, Conforms, Overwrite, Unread, Shape, ReceiverInv;
    }
  }

  lemma ReadPayload(r: ReceiverState, io: Recv)
    requires ReceiverInv(r) && !r.closed && r.reading
    requires r.msg.numFramesFilled == 4 && r.msg.frameSzFilled == 4
    ensures Steps(r, io, ReadMessage(r, io))
    ensures io.Arrived? ==> !ReadMessage(r, io).state.closed && Conforms(r, ReadMessage(r, io))
  {
    if io.Arrived? {
      var want := r.msg.frames[r.msg.frameInd].size - r.msg.frameFilled;
      assert want % TWO_TO_32 == want;
      var k := Min(|io.chunk|, Min(want, INT_MAX));
      var m' := PayloadArrived(r.msg, io.chunk[..k]);
      assert ReadMessage(r, io) == Received(EndFrame(r.(msg := m')), io.chunk[..k]);
      PayloadArrives(r.msg, io.chunk[..k]);
      AfterFrame(r, m', io.chunk[..k]);
      assert |Unread(m')| == 0;
      hide ReadMessage, EndFrame, Conforms, Overwrite, Unread, Shape, ReceiverInv;
    }
  }

  /** The reader accounts for exactly the bytes it has taken in if and only if the read is good:
      the only way to lose step is to stop inside a size field that is still all zeros. */
  lemma ReadExact(r: ReceiverState, io: Recv)
    requires ReceiverInv(r) && !r.closed
    ensures Steps(r, io, ReadMessage(r, io))
    ensures io.Arrived? && !ReadMessage(r, io).state.closed ==>
              (GoodRead(r, io) <==> Conforms(r, ReadMessage(r, io)))
    ensures InSizeField(r) && io.Arrived? ==> !ReadMessage(r, io).state.closed
  {
    var s := StartReading(r);
    assert ReadMessage(r, io) == ReadMessage(s, io);
    if s.msg.numFramesFilled < 4 {
      assert Account(s) == Account(r);
      ReadCount(s, io);
    } else if s.msg.frameSzFilled < 4 {
      ReadSize(r, io);
    } else {
      ReadPayload(r, io);
    }
  }

  /** The reader closes the connection by itself only on a zero frame count. */
  lemma ClosesOnZeroCount(r: ReceiverState, io: Recv)
    requires ReceiverInv(r) && !r.closed && io.Arrived?
    requires ReadMessage(r, io).Received? && ReadMessage(r, io).state.closed
    ensures Held(r) + ReadMessage(r, io).taken == Le32(0)
  {
    ReadExact(r, io);
    var m := StartReading(r).msg;
    assert m.numFramesFilled < 4 by {
      if m.numFramesFilled == 4 && m.frameSzFilled == 4 { ReadPayload(r, io); }
    }
    var chunk := io.chunk[..Min(|io.chunk|, 4 - m.numFramesFilled)];
    assert Overwrite(m.numFrames, m.numFramesFilled, chunk) == 0 && m.numFramesFilled + |chunk| == 4;
    OverwriteBytes(m.numFrames, m.numFramesFilled, chunk);
    hide Le32, Overwrite;
    assert Splice(Le32(m.numFrames), m.numFramesFilled, chunk) == Le32(m.numFrames)[..m.numFramesFilled] + chunk;
    assert Held(r) == Le32(m.numFrames)[..m.numFramesFilled];
  }

  // ---------------------------------------------------------------- refinement of the decoder

  lemma HeldParts(r: ReceiverState)
    requires ReceiverInv(r) && r.reading && r.msg.numFramesFilled == 4
    ensures var m := r.msg;
            && Held(r)[..4] == Le32(m.numFrames)
            && Held(r)[4..] == EncodeFrames(m.frames[..m.frameInd])
                               + PartialFrame(m.frames[m.frameInd], m.frameSzFilled, m.frameFilled)
  {
    hide EncodeFrames, PartialFrame, ValidFrames;
  }

  lemma CountIncomplete(r: ReceiverState)
    requires ReceiverInv(r) && !(r.reading && r.msg.numFramesFilled == 4)
    ensures DecodeMessage(Held(r)).NeedMore?
  {
    assert |Held(r)| < 4;
  }

  lemma BodyIncomplete(held: seq<byte>, n: uint32)
    requires |held| >= 4 && held[..4] == Le32(n) && n > 0 && DecodeFrames(n, held[4..]).NeedMore?
    ensures DecodeMessage(held).NeedMore?
  {
    DecodeEncode32(n);
    hide DecodeFrames, Le32, FromLe32;
  }

  lemma HeldIncomplete(r: ReceiverState)
    requires ReceiverInv(r)
    ensures DecodeMessage(Held(r)).NeedMore?
  {
    var m := r.msg;
    if r.reading && m.numFramesFilled == 4 {
      var done, part := m.frames[..m.frameInd], PartialFrame(m.frames[m.frameInd], m.frameSzFilled, m.frameFilled);
      HeldParts(r);
      PartialFrameIncomplete(m.frames[m.frameInd], m.frameSzFilled, m.frameFilled);
      FramesIncomplete(done, |m.frames| - m.frameInd, part);
      assert |Held(r)| >= 4 && m.numFrames == |done| + (|m.frames| - m.frameInd) > 0;
      hide DecodeMessage, DecodeFrames, Le32, Held, PartialFrame, EncodeFrames;
      BodyIncomplete(Held(r), m.numFrames);
    } else {
      CountIncomplete(r);
    }
  }

  lemma FramesIncomplete(done: Frames, more: pos, part: seq<byte>)
    requires ValidFrames(done) && DecodeFrame(part).NeedMore?
    ensures DecodeFrames(|done| + more, EncodeFrames(done) + part).NeedMore?
  {
    hide DecodeFrame;
    DecodeEncodeFrames(done, more, part);
  }

  lemma PartialFrameIncomplete(f: Frame, szFilled: nat, filled: nat)
    requires FrameShape(f, szFilled, filled) && (szFilled == 4 ==> filled < f.size)
    ensures DecodeFrame(PartialFrame(f, szFilled, filled)).NeedMore?
  {
    if szFilled == 4 {
      assert PartialFrame(f, 4, filled)[..4] == Le32(f.size);
      DecodeEncode32(f.size);
    }
  }

  /** The incremental reader is the whole-stream decoder: what it has delivered depends only on the
      bytes taken in, not on how they were cut up. */
  lemma RefinesDecoder(r: ReceiverState)
    requires ReceiverInv(r)
    ensures DecodeStream(Account(r)) == (r.delivered, Held(r))
  {
    HeldIncomplete(r);
    DecodeEncodeStream(r.delivered, Held(r));
  }

  /** One call hands over at most one message. */
  lemma DeliversAtMostOne(r: ReceiverState, io: Recv)
    requires ReadMessage(r, io).Received?
    ensures var d := ReadMessage(r, io).state.delivered;
            r.delivered <= d && |d| <= |r.delivered| + 1
  {
    hide Overwrite, Splice, Resize, Zeros, Read;
  }
}
