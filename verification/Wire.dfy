/** The wire format: a 4-byte frame count, then for each frame a 4-byte size and its payload.
    `Decode...` is a reference decoder that sees the whole stream at once. */
module Wire {
  import opened Bytes

  datatype Frame = Frame(size: uint32, data: seq<byte>)

  type Frames = seq<Frame>

  predicate ValidFrame(f: Frame) {
    |f.data| == f.size
  }

  predicate ValidFrames(fs: Frames) {
    forall i | 0 <= i < |fs| :: ValidFrame(fs[i])
  }

  /** What `sendFrames` expects of its caller: at least one frame, and sizes that are the buffer lengths. */
  predicate ValidMessage(m: Frames) {
    1 <= |m| < TWO_TO_32 && ValidFrames(m)
  }

  function EncodeFrame(f: Frame): seq<byte> {
    Le32(f.size) + f.data
  }

  function EncodeFrames(fs: Frames): seq<byte> {
    if fs == [] then [] else EncodeFrame(fs[0]) + EncodeFrames(fs[1..])
  }

  function EncodeMessage(m: Frames): seq<byte>
    requires |m| < TWO_TO_32
  {
    Le32(|m|) + EncodeFrames(m)
  }

  predicate ValidStream(ms: seq<Frames>) {
    forall i | 0 <= i < |ms| :: ValidMessage(ms[i])
  }

  function EncodeStream(ms: seq<Frames>): seq<byte>
    requires ValidStream(ms)
  {
    if ms == [] then [] else EncodeMessage(ms[0]) + EncodeStream(ms[1..])
  }

  lemma {:induction false} EncodeFramesAppend(a: Frames, b: Frames)
    ensures EncodeFrames(a + b) == EncodeFrames(a) + EncodeFrames(b)
  {
    if a == [] {
      assert a + b == b;
    } else {
      assert (a + b)[1..] == a[1..] + b;
      EncodeFramesAppend(a[1..], b);
    }
  }

  lemma {:induction false} EncodeStreamAppend(a: seq<Frames>, b: seq<Frames>)
    requires ValidStream(a) && ValidStream(b)
    ensures ValidStream(a + b)
    ensures EncodeStream(a + b) == EncodeStream(a) + EncodeStream(b)
  {
    hide EncodeMessage;
    if a == [] {
      assert a + b == b;
    } else {
      assert (a + b)[1..] == a[1..] + b;
      EncodeStreamAppend(a[1..], b);
    }
  }

  lemma EncodeStreamSnoc(a: seq<Frames>, m: Frames)
    requires ValidStream(a) && ValidMessage(m)
    ensures ValidStream(a + [m])
    ensures EncodeStream(a + [m]) == EncodeStream(a) + EncodeMessage(m)
  {
    EncodeStreamAppend(a, [m]);
    assert EncodeStream([m]) == EncodeMessage(m) + EncodeStream([]);
  }

  // ---------------------------------------------------------------- reference decoder

  datatype Decoded<+T> = Got(value: T, rest: seq<byte>) | NeedMore | Malformed

  function DecodeFrame(b: seq<byte>): Decoded<Frame> {
    if |b| < 4 then NeedMore else
    var n := FromLe32(b[..4]);
    if |b| < 4 + n then NeedMore else Got(Frame(n, b[4..4 + n]), b[4 + n..])
  }

  function DecodeFrames(count: nat, b: seq<byte>): (r: Decoded<Frames>)
    ensures !r.Malformed?
  {
    if count == 0 then Got([], b) else
    match DecodeFrame(b)
    case Got(f, rest) =>
      (match DecodeFrames(count - 1, rest)
       case Got(fs, rest') => Got([f] + fs, rest')
       case _ => NeedMore)
    case _ => NeedMore
  }

  function DecodeMessage(b: seq<byte>): Decoded<Frames> {
    if |b| < 4 then NeedMore else
    var count := FromLe32(b[..4]);
    if count == 0 then Malformed else DecodeFrames(count, b[4..])
  }

  /** All complete messages at the front of the stream, and the bytes after them. */
  function DecodeStream(b: seq<byte>): (seq<Frames>, seq<byte>)
    decreases |b|
  {
    match DecodeMessage(b)
    case Got(m, rest) =>
      if |rest| < |b| then
        var (ms, left) := DecodeStream(rest);
        ([m] + ms, left)
      else
        ([m], rest)
    case _ => ([], b)
  }

  lemma DecodeEncodeFrame(f: Frame, rest: seq<byte>)
    requires ValidFrame(f)
    ensures DecodeFrame(EncodeFrame(f) + rest) == Got(f, rest)
  {
    var b := EncodeFrame(f) + rest;
    assert b[..4] == Le32(f.size);
    DecodeEncode32(f.size);
    assert b[4..4 + f.size] == f.data;
    assert b[4 + f.size..] == rest;
  }

  lemma DecodeFramesCons(count: nat, b: seq<byte>, f: Frame, rest: seq<byte>)
    requires count > 0 && DecodeFrame(b) == Got(f, rest)
    ensures DecodeFrames(count, b) ==
            match DecodeFrames(count - 1, rest)
            case Got(fs, left) => Got([f] + fs, left)
            case _ => NeedMore
  {
  }

  lemma {:induction false} DecodeEncodeFrames(fs: Frames, more: nat, rest: seq<byte>)
    requires ValidFrames(fs)
    ensures DecodeFrames(|fs| + more, EncodeFrames(fs) + rest) ==
            match DecodeFrames(more, rest)
            case Got(gs, left) => Got(fs + gs, left)
            case _ => NeedMore
  {
    hide DecodeFrame, DecodeFrames, Le32;
    if fs == [] {
      assert EncodeFrames(fs) + rest == rest;
      match DecodeFrames(more, rest)
      case Got(gs, left) => assert fs + gs == gs;
      case _ =>
    } else {
      var tail := EncodeFrames(fs[1..]) + rest;
      assert EncodeFrames(fs) + rest == EncodeFrame(fs[0]) + tail;
      DecodeEncodeFrame(fs[0], tail);
      DecodeFramesCons(|fs| + more, EncodeFrames(fs) + rest, fs[0], tail);
      DecodeEncodeFrames(fs[1..], more, rest);
      match DecodeFrames(more, rest)
      case Got(gs, left) => assert [fs[0]] + (fs[1..] + gs) == fs + gs;
      case _ =>
    }
  }

  /** Decoding undoes encoding and leaves whatever followed. */
  lemma DecodeEncodeMessage(m: Frames, rest: seq<byte>)
    requires ValidMessage(m)
    ensures DecodeMessage(EncodeMessage(m) + rest) == Got(m, rest)
  {
    var b := EncodeMessage(m) + rest;
    assert b[..4] == Le32(|m|);
    DecodeEncode32(|m|);
    assert b[4..] == EncodeFrames(m) + rest;
    DecodeEncodeFrames(m, 0, rest);
    assert m + [] == m;
  }

  lemma DecodeFrameSound(b: seq<byte>)
    requires DecodeFrame(b).Got?
    ensures var g := DecodeFrame(b);
            ValidFrame(g.value) && b == EncodeFrame(g.value) + g.rest && |g.rest| < |b|
  {
    EncodeDecode32(b[..4]);
    assert b == b[..4] + b[4..4 + FromLe32(b[..4])] + b[4 + FromLe32(b[..4])..];
  }

  lemma {:induction false} DecodeFramesSound(count: nat, b: seq<byte>)
    requires DecodeFrames(count, b).Got?
    ensures var g := DecodeFrames(count, b);
            |g.value| == count && ValidFrames(g.value) && b == EncodeFrames(g.value) + g.rest
  {
    hide DecodeFrame, EncodeFrame, ValidFrame;
    if count > 0 {
      var f := DecodeFrame(b);
      DecodeFrameSound(b);
      DecodeFramesSound(count - 1, f.rest);
      var g, h := DecodeFrames(count, b), DecodeFrames(count - 1, f.rest);
      assert g.value == [f.value] + h.value && g.value[1..] == h.value;
      ConcatAssociative(EncodeFrame(f.value), EncodeFrames(h.value), h.rest);
    }
  }

  /** Encoding undoes decoding: what the decoder reports is what the bytes say. */
  lemma DecodeMessageSound(b: seq<byte>)
    requires DecodeMessage(b).Got?
    ensures var g := DecodeMessage(b);
            ValidMessage(g.value) && b == EncodeMessage(g.value) + g.rest && |g.rest| < |b|
  {
    var count, g := FromLe32(b[..4]), DecodeMessage(b);
    EncodeDecode32(b[..4]);
    DecodeFramesSound(count, b[4..]);
    hide DecodeFrames, Le32, FromLe32;
    assert b == b[..4] + b[4..];
    ConcatAssociative(Le32(count), EncodeFrames(g.value), g.rest);
  }

  /** A stream of whole messages followed by an undecodable rest decodes to exactly those. */
  lemma {:induction false} DecodeEncodeStream(ms: seq<Frames>, rest: seq<byte>)
    requires ValidStream(ms)
    requires !DecodeMessage(rest).Got?
    ensures DecodeStream(EncodeStream(ms) + rest) == (ms, rest)
  {
    if ms == [] {
      assert EncodeStream(ms) + rest == rest;
    } else {
      var tail := EncodeStream(ms[1..]) + rest;
      assert EncodeStream(ms) + rest == EncodeMessage(ms[0]) + tail;
      DecodeEncodeMessage(ms[0], tail);
      DecodeEncodeStream(ms[1..], rest);
      assert [ms[0]] + ms[1..] == ms;
    }
  }

  /** The code is prefix free: a byte-level prefix is a message-level prefix. */
  lemma {:induction false} StreamPrefix(d: seq<Frames>, e: seq<Frames>)
    requires ValidStream(d) && ValidStream(e)
    requires EncodeStream(d) <= EncodeStream(e)
    ensures d <= e
  {
    if d != [] {
      var b := EncodeStream(e);
      var x := b[|EncodeStream(d)|..];
      assert b == EncodeStream(d) + x;
      var y := EncodeStream(d[1..]) + x;
      assert b == EncodeMessage(d[0]) + y;
      DecodeEncodeMessage(d[0], y);
      assert e != [];
      DecodeEncodeMessage(e[0], EncodeStream(e[1..]));
      StreamPrefix(d[1..], e[1..]);
      assert d == [d[0]] + d[1..] && e == [e[0]] + e[1..];
    }
  }
}
