/** The sending half of TransportTCP as a function of its state: which bytes each call to
    `writeMessage` puts on the wire, for every outcome of the system's `send`. */
module Sender {
  import opened Bytes
  import opened Wire
  import opened Framing

  datatype SenderState = SenderState(
    closed: bool,
    queue: seq<Message>,
    expectingWrite: bool,
    msgCounter: nat,
    filter: pos)

  /** The next state and the bytes written, or a process abort. */
  datatype SendResult = Sent(state: SenderState, out: seq<byte>) | Aborted

  const INITIAL: SenderState := SenderState(false, [], false, 0, 1)

  /** `write`: whether the transport is closed afterwards, the count returned, and the bytes moved. */
  function Write(closed: bool, buf: seq<byte>, io: Io): (r: (bool, int, seq<byte>))
    requires |buf| > 0
    ensures (r.1 == -1 && r.0 && r.2 == []) || (0 <= r.1 <= |buf| && r.2 == buf[..r.1] && !r.0 && !closed)
    ensures r.1 <= INT_MAX
  {
    if closed then (true, -1, []) else
    match io
    case Failed => (true, -1, [])
    case Moved(n) => var k := Min(n, Min(|buf|, INT_MAX)); (false, k, buf[..k])
  }

  function SetFront(s: SenderState, m: Message): SenderState
    requires s.queue != []
  {
    s.(queue := [m] + s.queue[1..])
  }

  function WriteMessage(s: SenderState, io: Io): SendResult {
    if s.queue == [] then Aborted else
    var m := s.queue[0];
    if m.numFramesFilled < 4 then
      var (closed, wrote, out) := Write(s.closed, Le32(m.numFrames)[m.numFramesFilled..], io);
      if wrote >= 0 then
        Sent(SetFront(s, m.(numFramesFilled := m.numFramesFilled + wrote)), out)
      else
        Sent(s.(closed := true), [])
    else
      WriteFrame(s, io)
  }

  function WriteFrame(s: SenderState, io: Io): SendResult
    requires s.queue != []
  {
    var m := s.queue[0];
    if m.frameInd >= |m.frames| then Aborted else
    if m.frameSzFilled < 4 then WriteSizePart(s, io) else WritePayloadPart(s, io)
  }

  function WriteSizePart(s: SenderState, io: Io): SendResult
    requires s.queue != [] && s.queue[0].frameInd < |s.queue[0].frames| && s.queue[0].frameSzFilled < 4
  {
    var m := s.queue[0];
    var (closed, wrote, out) := Write(s.closed, Le32(m.frameSz)[m.frameSzFilled..], io);
    if wrote >= 0 then
      Sent(FinishFrame(SetFront(s, m.(frameSzFilled := m.frameSzFilled + wrote))), out)
    else
      Sent(s.(closed := true), [])
  }

  function WritePayloadPart(s: SenderState, io: Io): SendResult
    requires s.queue != [] && s.queue[0].frameInd < |s.queue[0].frames|
  {
    var m := s.queue[0];
    var frame := m.frames[m.frameInd];
    var left := (frame.size - m.frameFilled) % TWO_TO_32;
    if left == 0 then Sent(FinishFrame(s), []) else
    if !s.closed && m.frameFilled + left > |frame.data| then Aborted else
    var payload := if s.closed then Zeros(left) else frame.data[m.frameFilled..m.frameFilled + left];
    var (closed, wrote, out) := Write(s.closed, payload, io);
    // the count lands in an unsigned variable, so -1 is added as 2^32 - 1
    var filled := (m.frameFilled + wrote) % TWO_TO_32;
    Sent(FinishFrame(SetFront(s, m.(frameFilled := filled)).(closed := closed)), out)
  }

  function FinishFrame(s: SenderState): SenderState
    requires s.queue != [] && s.queue[0].frameInd < |s.queue[0].frames|
  {
    var m := s.queue[0];
    if m.frameFilled != m.frames[m.frameInd].size then s else
    var next := (m.frameInd + 1) % TWO_TO_32;
    if next < |m.frames| then
      SetFront(s, m.(frameInd := next, frameFilled := 0, frameSz := m.frames[next].size, frameSzFilled := 0))
    else
      var s' := s.(queue := s.queue[1..]);
      if s'.queue == [] then DisableWrite(s') else s'
  }

  function DisableWrite(s: SenderState): SenderState {
    if s.closed then s else s.(expectingWrite := false)
  }

  function EnableWrite(s: SenderState): SenderState {
    if s.closed then s else s.(expectingWrite := true)
  }

  function Fresh(frames: Frames): Message
    requires frames != []
  {
    Message(frames, |frames| % TWO_TO_32, 0, 0, 0, frames[0].size, 0)
  }

  predicate Passes(s: SenderState) {
    (s.msgCounter + 1) % s.filter == 0
  }

  function SendFrames(s: SenderState, frames: Frames): SendResult {
    var s' := s.(msgCounter := (s.msgCounter + 1) % s.filter);
    if s'.msgCounter != 0 then Sent(s', []) else
    if frames == [] then Aborted else
    var s'' := if s'.queue == [] then EnableWrite(s') else s';
    Sent(s''.(queue := s''.queue + [Fresh(frames)]), [])
  }

  function SetFilter(s: SenderState, n: pos): SenderState {
    s.(filter := n, msgCounter := n - 1)
  }

  // ---------------------------------------------------------------- what is still to be sent

  ghost predicate Shape(m: Message) {
    && ValidMessage(m.frames)
    && m.numFrames == |m.frames|
    && m.frameInd < |m.frames|
    && m.numFramesFilled <= 4
    && m.frameSzFilled <= 4
    && m.frameSz == m.frames[m.frameInd].size
    && m.frameFilled <= m.frameSz
    && (m.numFramesFilled < 4 ==> m.frameInd == 0 && m.frameSzFilled == 0)
    && (m.frameSzFilled < 4 ==> m.frameFilled == 0)
  }

  /** Between calls the current frame is never finished. */
  ghost predicate InProgress(m: Message) {
    && Shape(m)
    && (m.frameSzFilled == 4 ==> m.frameFilled < m.frameSz)
    && (m.frameSz == 0 ==> m.frameSzFilled == 0)
  }

  /** The encoding of the part of a message that its counters say is unsent. */
  ghost function Remaining(m: Message): seq<byte>
    requires Shape(m)
  {
    Le32(m.numFrames)[m.numFramesFilled..]
    + (Le32(m.frameSz)[m.frameSzFilled..]
       + (m.frames[m.frameInd].data[m.frameFilled..]
          + EncodeFrames(m.frames[m.frameInd + 1..])))
  }

  ghost predicate AllShaped(q: seq<Message>) {
    forall i | 0 <= i < |q| :: Shape(q[i])
  }

  ghost predicate AllInProgress(q: seq<Message>) {
    forall i | 0 <= i < |q| :: InProgress(q[i])
  }

  ghost function RemainingAll(q: seq<Message>): seq<byte>
    requires AllShaped(q)
  {
    if q == [] then [] else Remaining(q[0]) + RemainingAll(q[1..])
  }

  /** The transport is registered for writing exactly while something is queued. */
  ghost predicate Interested(s: SenderState) {
    s.expectingWrite <==> s.queue != []
  }

  ghost predicate SenderInv(s: SenderState) {
    AllInProgress(s.queue) && Interested(s)
  }

  /** A write is bad when it leaves the size field of an empty frame unfinished. */
  ghost predicate GoodWrite(s: SenderState, io: Io) {
    s.queue != [] && io.Moved? ==>
      var m := s.queue[0];
      m.numFramesFilled == 4 && m.frameSz == 0 ==> m.frameSzFilled + io.count >= 4
  }

  lemma {:induction false} RemainingAppend(q: seq<Message>, m: Message)
    requires AllShaped(q) && Shape(m)
    ensures AllShaped(q + [m])
    ensures RemainingAll(q + [m]) == RemainingAll(q) + Remaining(m)
  {
    hide Remaining;
    if q == [] {
      assert q + [m] == [m];
      assert RemainingAll([m]) == Remaining(m) + RemainingAll([]);
    } else {
      assert (q + [m])[1..] == q[1..] + [m];
      RemainingAppend(q[1..], m);
    }
  }

  lemma RemainingNonempty(q: seq<Message>)
    requires AllInProgress(q) && q != []
    ensures AllShaped(q) && RemainingAll(q) != []
  {
    var m := q[0];
    if m.frameSzFilled == 4 {
      assert |m.frames[m.frameInd].data[m.frameFilled..]| > 0;
    }
  }

  lemma FreshInProgress(frames: Frames)
    requires ValidMessage(frames)
    ensures InProgress(Fresh(frames)) && Fresh(frames).numFrames == |frames|
  {
  }

  lemma FreshRemaining(frames: Frames)
    requires ValidMessage(frames)
    ensures InProgress(Fresh(frames)) && Remaining(Fresh(frames)) == EncodeMessage(frames)
  {
    FreshInProgress(frames);
    var m := Fresh(frames);
    hide Le32, Shape, InProgress, ValidFrames;
    assert Le32(m.numFrames)[0..] == Le32(|frames|);
    assert Le32(m.frameSz)[0..] == Le32(frames[0].size);
    assert m.frames[0].data[0..] == frames[0].data;
    ConcatAssociative(Le32(frames[0].size), frames[0].data, EncodeFrames(frames[1..]));
  }

  function NextFrame(m: Message): Message
    requires m.frameInd + 1 < |m.frames| < TWO_TO_32
  {
    m.(frameInd := m.frameInd + 1, frameFilled := 0, frameSz := m.frames[m.frameInd + 1].size, frameSzFilled := 0)
  }

  lemma NextFrameRemaining(m: Message)
    requires Shape(m) && m.numFramesFilled == 4 && m.frameFilled == m.frameSz
    requires m.frameInd + 1 < |m.frames|
    ensures InProgress(NextFrame(m))
    ensures Remaining(m) == Le32(m.frameSz)[m.frameSzFilled..] + Remaining(NextFrame(m))
  {
    var m' := NextFrame(m);
    var rest := m.frames[m.frameInd + 1..];
    hide Le32;
    assert m.frames[m'.frameInd + 1..] == rest[1..];
    assert Le32(m'.numFrames)[4..] == [] && Le32(m'.frameSz)[0..] == Le32(rest[0].size);
    assert EncodeFrames(rest) == (Le32(rest[0].size) + rest[0].data) + EncodeFrames(rest[1..]);
    assert m'.frames[m'.frameInd].data[0..] == rest[0].data;
    assert Remaining(m') == EncodeFrames(rest);
    assert m.frames[m.frameInd].data[m.frameFilled..] == [];
    assert Le32(m.numFrames)[4..] == [];
  }

  lemma LastFrameRemaining(m: Message)
    requires Shape(m) && m.numFramesFilled == 4 && m.frameFilled == m.frameSz
    requires m.frameInd + 1 == |m.frames|
    ensures Remaining(m) == Le32(m.frameSz)[m.frameSzFilled..]
  {
    assert m.frames[m.frameInd + 1..] == [];
    assert m.frames[m.frameInd].data[m.frameFilled..] == [];
    assert Le32(m.numFrames)[4..] == [];
  }

  lemma FrontShaped(s: SenderState)
    requires s.queue != [] && Shape(s.queue[0]) && AllInProgress(s.queue[1..])
    ensures AllShaped(s.queue)
    ensures RemainingAll(s.queue) == Remaining(s.queue[0]) + RemainingAll(s.queue[1..])
    ensures InProgress(s.queue[0]) ==> AllInProgress(s.queue)
  {
    hide Shape;
    assert s.queue == [s.queue[0]] + s.queue[1..];
    forall i | 0 <= i < |s.queue| ensures Shape(s.queue[i]) {
      if i > 0 { assert s.queue[i] == s.queue[1..][i - 1]; }
    }
  }

  /** The bytes of the size field that go missing if the current frame is closed now. */
  ghost function Unsent(m: Message): seq<byte>
    requires Shape(m)
  {
    if m.frameFilled == m.frameSz then Le32(m.frameSz)[m.frameSzFilled..] else []
  }

  ghost predicate AtFrame(s: SenderState) {
    && s.queue != [] && s.expectingWrite && !s.closed
    && Shape(s.queue[0]) && AllInProgress(s.queue[1..])
    && s.queue[0].numFramesFilled == 4
  }

  lemma FinishFrameMoves(s: SenderState)
    requires AtFrame(s)
    requires s.queue[0].frameFilled == s.queue[0].frameSz && s.queue[0].frameInd + 1 < |s.queue[0].frames|
    ensures FinishFrame(s) == SetFront(s, NextFrame(s.queue[0]))
  {
  }

  lemma FinishNextFrame(s: SenderState)
    requires AtFrame(s)
    requires s.queue[0].frameFilled == s.queue[0].frameSz && s.queue[0].frameInd + 1 < |s.queue[0].frames|
    ensures SenderInv(FinishFrame(s)) && AllShaped(s.queue)
    ensures RemainingAll(s.queue) == Unsent(s.queue[0]) + RemainingAll(FinishFrame(s).queue)
  {
    var m, s' := s.queue[0], FinishFrame(s);
    FrontShaped(s);
    FinishFrameMoves(s);
    NextFrameRemaining(m);
    hide FinishFrame, NextFrame, Le32, Remaining;
    assert s'.queue[1..] == s.queue[1..];
    FrontShaped(s');
    ConcatAssociative(Unsent(m), Remaining(NextFrame(m)), RemainingAll(s.queue[1..]));
  }

  lemma FinishLastFrame(s: SenderState)
    requires AtFrame(s)
    requires s.queue[0].frameFilled != s.queue[0].frameSz || s.queue[0].frameInd + 1 == |s.queue[0].frames|
    ensures SenderInv(FinishFrame(s)) && AllShaped(s.queue)
    ensures RemainingAll(s.queue) == Unsent(s.queue[0]) + RemainingAll(FinishFrame(s).queue)
  {
    var m, s' := s.queue[0], FinishFrame(s);
    FrontShaped(s);
    if m.frameFilled != m.frameSz {
      assert s' == s && [] + RemainingAll(s.queue) == RemainingAll(s.queue);
    } else {
      LastFrameRemaining(m);
      assert s'.queue == s.queue[1..];
    }
  }

  /** Closing a frame costs nothing once its size field went out in full; closing it earlier
      loses the rest of the size field. */
  lemma FinishFrameEffect(s: SenderState)
    requires AtFrame(s)
    ensures SenderInv(FinishFrame(s)) && !FinishFrame(s).closed && AllShaped(s.queue)
    ensures RemainingAll(s.queue) == Unsent(s.queue[0]) + RemainingAll(FinishFrame(s).queue)
  {
    var m := s.queue[0];
    if m.frameFilled == m.frameSz && m.frameInd + 1 < |m.frames| {
      FinishNextFrame(s);
    } else {
      FinishLastFrame(s);
    }
  }

  // ---------------------------------------------------------------- one call of writeMessage

  /** Taking k more bytes of a field off the front of what is left. */
  lemma TakeMore(w: seq<byte>, off: nat, k: nat, tail: seq<byte>)
    requires off + k <= |w|
    ensures w[off..] + tail == w[off..][..k] + (w[off + k..] + tail)
  {
    assert w[off..] == w[off..][..k] + w[off + k..];
    ConcatAssociative(w[off..][..k], w[off + k..], tail);
  }

  lemma CountAdvances(m: Message, k: nat)
    requires InProgress(m) && m.numFramesFilled < 4 && k <= 4 - m.numFramesFilled
    ensures var m' := m.(numFramesFilled := m.numFramesFilled + k);
            InProgress(m') && Remaining(m) == Le32(m.numFrames)[m.numFramesFilled..][..k] + Remaining(m')
  {
    assert InProgress(m.(numFramesFilled := m.numFramesFilled + k));
    hide Le32, ValidMessage, EncodeFrames, Shape, InProgress;
    TakeMore(Le32(m.numFrames), m.numFramesFilled, k, Le32(m.frameSz)[m.frameSzFilled..]
             + (m.frames[m.frameInd].data[m.frameFilled..] + EncodeFrames(m.frames[m.frameInd + 1..])));
  }

  lemma DataSize(m: Message)
    requires Shape(m)
    ensures |m.frames[m.frameInd].data| == m.frameSz
  {
    assert ValidFrame(m.frames[m.frameInd]);
  }

  lemma NothingLeft(w: seq<byte>, x: seq<byte>)
    requires |w| == 4
    ensures w[4..] + x == x
  {
  }

  /** What is left once the count has been sent, and once the size has been sent too. */
  lemma AfterCount(m: Message)
    requires Shape(m) && m.numFramesFilled == 4
    ensures Remaining(m) == Le32(m.frameSz)[m.frameSzFilled..]
              + (m.frames[m.frameInd].data[m.frameFilled..] + EncodeFrames(m.frames[m.frameInd + 1..]))
    ensures m.frameSzFilled == 4 ==>
              Remaining(m) == m.frames[m.frameInd].data[m.frameFilled..] + EncodeFrames(m.frames[m.frameInd + 1..])
  {
    DataSize(m);
    hide Le32, ValidMessage, EncodeFrames;
    var tail := m.frames[m.frameInd].data[m.frameFilled..] + EncodeFrames(m.frames[m.frameInd + 1..]);
    NothingLeft(Le32(m.numFrames), Le32(m.frameSz)[m.frameSzFilled..] + tail);
    NothingLeft(Le32(m.frameSz), tail);
  }

  lemma SizeAdvances(m: Message, k: nat)
    requires InProgress(m) && m.numFramesFilled == 4 && m.frameSzFilled < 4 && k <= 4 - m.frameSzFilled
    ensures var m' := m.(frameSzFilled := m.frameSzFilled + k);
            Shape(m') && Remaining(m) == Le32(m.frameSz)[m.frameSzFilled..][..k] + Remaining(m')
  {
    hide Le32, ValidMessage, EncodeFrames, Remaining;
    var m' := m.(frameSzFilled := m.frameSzFilled + k);
    assert Shape(m');
    AfterCount(m);
    AfterCount(m');
    TakeMore(Le32(m.frameSz), m.frameSzFilled, k,
             m.frames[m.frameInd].data[m.frameFilled..] + EncodeFrames(m.frames[m.frameInd + 1..]));
  }

  lemma PayloadAdvances(m: Message, k: nat)
    requires InProgress(m) && m.numFramesFilled == 4 && m.frameSzFilled == 4 && k <= m.frameSz - m.frameFilled
    ensures var m' := m.(frameFilled := m.frameFilled + k);
            Shape(m') && Remaining(m) == m.frames[m.frameInd].data[m.frameFilled..][..k] + Remaining(m')
  {
    hide Le32, ValidMessage, EncodeFrames, Remaining;
    var m' := m.(frameFilled := m.frameFilled + k);
    DataSize(m);
    assert Shape(m');
    AfterCount(m);
    AfterCount(m');
    TakeMore(m.frames[m.frameInd].data, m.frameFilled, k, EncodeFrames(m.frames[m.frameInd + 1..]));
  }

  lemma FrontAdvances(s: SenderState, m': Message, out: seq<byte>)
    requires SenderInv(s) && s.queue != [] && Shape(m')
    requires Remaining(s.queue[0]) == out + Remaining(m')
    ensures AllInProgress(SetFront(s, m').queue[1..]) && AllShaped(SetFront(s, m').queue)
    ensures RemainingAll(s.queue) == out + RemainingAll(SetFront(s, m').queue)
  {
    assert SetFront(s, m').queue[1..] == s.queue[1..];
    FrontShaped(s);
    FrontShaped(SetFront(s, m'));
    ConcatAssociative(out, Remaining(m'), RemainingAll(s.queue[1..]));
  }

  /** What one call of writeMessage achieves: it moves `out` and leaves the rest. */
  ghost predicate Conserves(s: SenderState, r: SendResult)
    requires AllShaped(s.queue)
  {
    r.Sent? && AllShaped(r.state.queue) && RemainingAll(s.queue) == r.out + RemainingAll(r.state.queue)
  }

  lemma Conserved(s: SenderState, r: SendResult, mid: seq<Message>, lost: seq<byte>)
    requires AllShaped(s.queue) && AllShaped(mid) && r.Sent? && AllShaped(r.state.queue)
    requires RemainingAll(s.queue) == r.out + RemainingAll(mid)
    requires RemainingAll(mid) == lost + RemainingAll(r.state.queue)
    ensures Conserves(s, r) <==> |lost| == 0
  {
    hide RemainingAll;
    assert |RemainingAll(s.queue)| == |r.out| + |lost| + |RemainingAll(r.state.queue)|;
  }

  lemma FinishAfter(s: SenderState, m': Message, out: seq<byte>)
    requires SenderInv(s) && s.queue != [] && !s.closed
    requires Shape(m') && m'.numFramesFilled == 4
    requires Remaining(s.queue[0]) == out + Remaining(m')
    ensures var r := Sent(FinishFrame(SetFront(s, m')), out);
            SenderInv(r.state) && !r.state.closed && (Conserves(s, r) <==> |Unsent(m')| == 0)
  {
    FrontAdvances(s, m', out);
    FinishFrameEffect(SetFront(s, m'));
    Conserved(s, Sent(FinishFrame(SetFront(s, m')), out), SetFront(s, m').queue, Unsent(m'));
  }

  ghost predicate Steps(s: SenderState, io: Io, r: SendResult) {
    && r.Sent?
    && (io.Failed? ==> r.state.closed && r.out == [])
    && (io.Moved? ==> !r.state.closed && SenderInv(r.state) && |r.out| <= io.count)
    && (io.Moved? && io.count > 0 ==> r.out != [])
  }

  lemma WriteCountIs(s: SenderState, k: nat, io: Io)
    requires SenderInv(s) && !s.closed && s.queue != [] && s.queue[0].numFramesFilled < 4
    requires io.Moved? && k == Min(io.count, 4 - s.queue[0].numFramesFilled)
    ensures var m := s.queue[0];
            WriteMessage(s, io) == Sent(SetFront(s, m.(numFramesFilled := m.numFramesFilled + k)),
                                        Le32(m.numFrames)[m.numFramesFilled..][..k])
  {
  }

  lemma WriteSizeIs(s: SenderState, k: nat, io: Io)
    requires SenderInv(s) && !s.closed && s.queue != []
    requires s.queue[0].numFramesFilled == 4 && s.queue[0].frameSzFilled < 4
    requires io.Moved? && k == Min(io.count, 4 - s.queue[0].frameSzFilled)
    ensures var m := s.queue[0];
            WriteMessage(s, io) == Sent(FinishFrame(SetFront(s, m.(frameSzFilled := m.frameSzFilled + k))),
                                        Le32(m.frameSz)[m.frameSzFilled..][..k])
  {
    hide FinishFrame, Le32, ValidFrames;
  }

  lemma WritePayloadIs(s: SenderState, k: nat, io: Io)
    requires SenderInv(s) && !s.closed && s.queue != []
    requires s.queue[0].numFramesFilled == 4 && s.queue[0].frameSzFilled == 4
    requires io.Moved? && k == Min(io.count, Min(s.queue[0].frameSz - s.queue[0].frameFilled, INT_MAX))
    ensures var m := s.queue[0];
            WriteMessage(s, io) == Sent(FinishFrame(SetFront(s, m.(frameFilled := m.frameFilled + k))),
                                        m.frames[m.frameInd].data[m.frameFilled..][..k])
  {
    var m := s.queue[0];
    var data, left := m.frames[m.frameInd].data, m.frameSz - m.frameFilled;
    assert left % TWO_TO_32 == left && (m.frameFilled + k) % TWO_TO_32 == m.frameFilled + k;
    assert InProgress(m) && |data| == m.frameSz;
    assert data[m.frameFilled..m.frameFilled + left] == data[m.frameFilled..];
    hide FinishFrame, SetFront, SenderInv, ValidMessage, Le32, Zeros;
  }

  lemma WriteCount(s: SenderState, io: Io)
    requires SenderInv(s) && !s.closed && s.queue != [] && s.queue[0].numFramesFilled < 4
    ensures Steps(s, io, WriteMessage(s, io))
    ensures io.Moved? ==> Conserves(s, WriteMessage(s, io))
  {
    var m := s.queue[0];
    if io.Moved? {
      var k := Min(io.count, 4 - m.numFramesFilled);
      var m' := m.(numFramesFilled := m.numFramesFilled + k);
      WriteCountIs(s, k, io);
      CountAdvances(m, k);
      FrontAdvances(s, m', Le32(m.numFrames)[m.numFramesFilled..][..k]);
      FrontShaped(SetFront(s, m'));
      hide WriteMessage, Le32, Shape, Remaining, RemainingAll;
    }
  }

  lemma WriteSize(s: SenderState, io: Io)
    requires SenderInv(s) && !s.closed && s.queue != []
    requires s.queue[0].numFramesFilled == 4 && s.queue[0].frameSzFilled < 4
    ensures Steps(s, io, WriteMessage(s, io))
    ensures io.Moved? ==> (GoodWrite(s, io) <==> Conserves(s, WriteMessage(s, io)))
  {
    var m := s.queue[0];
    if io.Moved? {
      var k := Min(io.count, 4 - m.frameSzFilled);
      var m' := m.(frameSzFilled := m.frameSzFilled + k);
      WriteSizeIs(s, k, io);
      SizeAdvances(m, k);
      FinishAfter(s, m', Le32(m.frameSz)[m.frameSzFilled..][..k]);
      assert |Unsent(m')| == 0 <==> GoodWrite(s, io);
      hide WriteMessage, FinishFrame, Conserves, Le32, Unsent;
    }
  }

  lemma PayloadStep(s: SenderState, k: nat)
    requires SenderInv(s) && !s.closed && s.queue != []
    requires s.queue[0].numFramesFilled == 4 && s.queue[0].frameSzFilled == 4
    requires k <= s.queue[0].frameSz - s.queue[0].frameFilled
    ensures var m := s.queue[0];
            var r := Sent(FinishFrame(SetFront(s, m.(frameFilled := m.frameFilled + k))),
                          m.frames[m.frameInd].data[m.frameFilled..][..k]);
            SenderInv(r.state) && !r.state.closed && Conserves(s, r) && |r.out| == k
  {
    var m := s.queue[0];
    var m' := m.(frameFilled := m.frameFilled + k);
    PayloadAdvances(m, k);
    assert Unsent(m') == [];
    hide FinishFrame, Conserves, Le32, Remaining;
    FinishAfter(s, m', m.frames[m.frameInd].data[m.frameFilled..][..k]);
  }

  lemma WritePayload(s: SenderState, io: Io)
    requires SenderInv(s) && !s.closed && s.queue != []
    requires s.queue[0].numFramesFilled == 4 && s.queue[0].frameSzFilled == 4
    ensures Steps(s, io, WriteMessage(s, io))
    ensures io.Moved? ==> Conserves(s, WriteMessage(s, io))
  {
    var m := s.queue[0];
    if io.Moved? {
      assert m.frameSz - m.frameFilled > 0;
      var k := Min(io.count, Min(m.frameSz - m.frameFilled, INT_MAX));
      WritePayloadIs(s, k, io);
      PayloadStep(s, k);
      hide WriteMessage, FinishFrame, Conserves, Le32, InProgress, SenderInv;
    }
  }

  /** Bytes written and bytes left together stay the same if and only if the write is good:
      the only way to lose bytes is a short write inside the size field of an empty frame. */
  lemma WriteExact(s: SenderState, io: Io)
    requires SenderInv(s) && !s.closed && s.queue != []
    ensures Steps(s, io, WriteMessage(s, io))
    ensures io.Moved? ==> (GoodWrite(s, io) <==> Conserves(s, WriteMessage(s, io)))
  {
    var m := s.queue[0];
    if m.numFramesFilled < 4 {
      WriteCount(s, io);
    } else if m.frameSzFilled < 4 {
      WriteSize(s, io);
    } else {
      WritePayload(s, io);
    }
  }

  /** Queueing a message keeps the queue well-formed and the interest in writing exact. */
  lemma SendKeeps(s: SenderState, frames: Frames)
    requires ValidMessage(frames) || !Passes(s)
    ensures SendFrames(s, frames).Sent?
    ensures SenderInv(s) && !s.closed ==> SenderInv(SendFrames(s, frames).state)
  {
    if Passes(s) {
      FreshRemaining(frames);
    }
  }

  /** A failed payload write closes, and its -1 is added to the counter as 2^32 - 1. */
  lemma FailedPayloadWrite(s: SenderState)
    requires SenderInv(s) && !s.closed && s.queue != []
    requires s.queue[0].numFramesFilled == 4 && s.queue[0].frameSzFilled == 4
    requires s.queue[0].frameSz < TWO_TO_32 - 1
    ensures var m, r := s.queue[0], WriteMessage(s, Failed);
            && r.Sent? && r.state.closed && r.out == [] && r.state.queue != []
            && r.state.queue[0] == m.(frameFilled := if m.frameFilled == 0 then TWO_TO_32 - 1 else m.frameFilled - 1)
            && r.state.queue[1..] == s.queue[1..]
  {
    var m := s.queue[0];
    assert (m.frameSz - m.frameFilled) % TWO_TO_32 == m.frameSz - m.frameFilled;
    assert (m.frameFilled - 1) % TWO_TO_32 == if m.frameFilled == 0 then TWO_TO_32 - 1 else m.frameFilled - 1;
    hide Zeros, Le32, ValidMessage;
  }

  /** No frame size is a multiple of 256; in particular no frame is empty. */
  ghost predicate Plain(frames: Frames) {
    forall i | 0 <= i < |frames| :: frames[i].size % 256 != 0
  }

  ghost predicate PlainQueue(q: seq<Message>) {
    forall i | 0 <= i < |q| :: Plain(q[i].frames)
  }

  lemma PlainFinish(s: SenderState)
    requires s.queue != [] && PlainQueue(s.queue) && s.queue[0].frameInd < |s.queue[0].frames|
    ensures PlainQueue(FinishFrame(s).queue)
  {
    hide Plain;
  }

  lemma PlainKept(s: SenderState, io: Io)
    requires PlainQueue(s.queue) && WriteMessage(s, io).Sent?
    ensures PlainQueue(WriteMessage(s, io).state.queue)
  {
    hide Le32, Plain, FinishFrame;
    var m := s.queue[0];
    if m.numFramesFilled >= 4 && m.frameInd < |m.frames| {
      forall t: SenderState | t.queue != [] && PlainQueue(t.queue) && t.queue[0].frameInd < |t.queue[0].frames|
        ensures PlainQueue(FinishFrame(t).queue)
      {
        PlainFinish(t);
      }
    }
  }
}
