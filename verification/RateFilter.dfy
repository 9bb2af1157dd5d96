/** The per-connection rate filter of `sendFrames`. */
module RateFilter {
  import opened Bytes
  import opened Wire
  import opened Framing
  import opened Sender
  import C = Channel

  /** State after offering the messages in turn. */
  function SendAll(s: SenderState, offered: seq<Frames>): SendResult
    decreases |offered|
  {
    if offered == [] then Sent(s, []) else
    match SendFrames(s, offered[0])
    case Aborted => Aborted
    case Sent(s', _) => SendAll(s', offered[1..])
  }

  /** The messages whose position, counted from `at`, is a multiple of `every`. */
  function Sampled(offered: seq<Frames>, every: pos, at: nat): seq<Frames> {
    if offered == [] then [] else
    (if at % every == 0 then [offered[0]] else []) + Sampled(offered[1..], every, at + 1)
  }

  function Queued(frames: seq<Frames>): seq<Message>
    requires forall i | 0 <= i < |frames| :: frames[i] != []
  {
    if frames == [] then [] else [Fresh(frames[0])] + Queued(frames[1..])
  }

  lemma {:induction false} SampledNonempty(offered: seq<Frames>, every: pos, at: nat)
    requires forall i | 0 <= i < |offered| :: offered[i] != []
    ensures forall i | 0 <= i < |Sampled(offered, every, at)| :: Sampled(offered, every, at)[i] != []
  {
    if offered != [] {
      SampledNonempty(offered[1..], every, at + 1);
    }
  }

  /** One call: the counter stays congruent to the number of calls, and the message is queued every time
      the filter divides that number. */
  lemma OfferedOne(s: SenderState, frames: Frames, at: nat)
    requires s.msgCounter == (at + s.filter - 1) % s.filter && frames != []
    ensures var r := SendFrames(s, frames);
            && r.Sent? && r.state.filter == s.filter
            && r.state.msgCounter == (at + 1 + s.filter - 1) % s.filter
            && r.state.queue == s.queue + if at % s.filter == 0 then [Fresh(frames)] else []
  {
    NextCount(at, s.filter);
    AddModulus(at, s.filter);
    assert at + 1 + s.filter - 1 == at + s.filter;
    hide Fresh;
  }

  /** The counter before call number `at` is congruent to at - 1. */
  lemma {:induction false} SendAllSamples(s: SenderState, offered: seq<Frames>, at: nat)
    requires s.msgCounter == (at + s.filter - 1) % s.filter
    requires forall i | 0 <= i < |offered| :: offered[i] != []
    ensures forall i | 0 <= i < |Sampled(offered, s.filter, at)| :: Sampled(offered, s.filter, at)[i] != []
    ensures SendAll(s, offered).Sent?
    ensures SendAll(s, offered).state.queue == s.queue + Queued(Sampled(offered, s.filter, at))
    decreases |offered|
  {
    SampledNonempty(offered, s.filter, at);
    if offered != [] {
      OfferedOne(s, offered[0], at);
      hide SendFrames, Fresh;
      SendAllSamples(SendFrames(s, offered[0]).state, offered[1..], at + 1);
      var rest := Sampled(offered[1..], s.filter, at + 1);
      if at % s.filter == 0 {
        assert Sampled(offered, s.filter, at)[1..] == rest;
        ConcatAssociative(s.queue, [Fresh(offered[0])], Queued(rest));
      } else {
        assert Sampled(offered, s.filter, at) == rest;
      }
    }
  }

  lemma AddModulus(a: nat, m: pos)
    ensures (a + m) % m == a % m
  {
    var q, r := a / m, a % m;
    assert a + m == (q + 1) * m + r;
    QuotientUnique(a + m, m, q + 1, r);
  }

  lemma QuotientUnique(n: nat, m: pos, q: nat, r: nat)
    requires n == q * m + r && r < m
    ensures n / m == q && n % m == r
  {
    var d: int := n / m - q;
    assert n == (n / m) * m + n % m;
    assert d * m == r - n % m;
    MultipleBound(d, m);
  }

  lemma MultipleBound(d: int, m: pos)
    ensures d > 0 ==> d * m >= m
    ensures d < 0 ==> d * m <= -(m as int)
  {
  }

  lemma NextModulus(n: nat, m: pos)
    ensures (n + 1) % m == if n % m + 1 < m then n % m + 1 else 0
  {
    var q, r := n / m, n % m;
    assert n == q * m + r;
    if r + 1 < m {
      QuotientUnique(n + 1, m, q, r + 1);
    } else {
      assert (q + 1) * m == q * m + m;
      QuotientUnique(n + 1, m, q + 1, 0);
    }
  }

  lemma NextCount(at: nat, m: pos)
    ensures ((at + m - 1) % m + 1) % m == at % m
  {
    var n := at + m - 1;
    NextModulus(n, m);
    AddModulus(at, m);
    NextModulus(n % m, m);
    SmallModulus(n % m, m);
  }

  lemma SmallModulus(r: nat, m: pos)
    requires r < m
    ensures r % m == r
  {
  }

  /** After setFilter(k), call number i (from 0) enqueues exactly when k divides i, in order. */
  lemma FilterSamples(s: SenderState, k: pos, offered: seq<Frames>)
    requires forall i | 0 <= i < |offered| :: offered[i] != []
    ensures var r := SendAll(SetFilter(s, k), offered);
            && (forall i | 0 <= i < |Sampled(offered, k, 0)| :: Sampled(offered, k, 0)[i] != [])
            && r.Sent? && r.state.queue == s.queue + Queued(Sampled(offered, k, 0))
  {
    assert k - 1 == (0 + k - 1) % k;
    SendAllSamples(SetFilter(s, k), offered, 0);
  }

  function CeilDiv(n: nat, k: pos): nat {
    (n + k - 1) / k
  }

  lemma {:induction false} SampledCount(offered: seq<Frames>, k: pos, at: nat)
    ensures |Sampled(offered, k, at)| == CeilDiv(at + |offered|, k) - CeilDiv(at, k)
    decreases |offered|
  {
    if offered != [] {
      SampledCount(offered[1..], k, at + 1);
      CeilStep(at, k);
    }
  }

  lemma CeilStep(at: nat, k: pos)
    ensures CeilDiv(at + 1, k) == CeilDiv(at, k) + if at % k == 0 then 1 else 0
  {
    var q, r := at / k, at % k;
    if r == 0 {
      assert at + k - 1 == q * k + (k - 1);
      QuotientUnique(at + k - 1, k, q, k - 1);
      assert at + k == (q + 1) * k + 0;
      QuotientUnique(at + k, k, q + 1, 0);
    } else {
      assert at + k - 1 == (q + 1) * k + (r - 1);
      QuotientUnique(at + k - 1, k, q + 1, r - 1);
      assert at + k == (q + 1) * k + r;
      QuotientUnique(at + k, k, q + 1, r);
    }
  }

  lemma {:induction false} QueuedLength(frames: seq<Frames>)
    requires forall i | 0 <= i < |frames| :: frames[i] != []
    ensures |Queued(frames)| == |frames|
  {
    if frames != [] {
      QueuedLength(frames[1..]);
    }
  }

  /** n calls enqueue exactly ceil(n / k) messages. */
  lemma FilterCount(s: SenderState, k: pos, offered: seq<Frames>)
    requires forall i | 0 <= i < |offered| :: offered[i] != []
    ensures SendAll(SetFilter(s, k), offered).Sent?
    ensures |SendAll(SetFilter(s, k), offered).state.queue| == |s.queue| + CeilDiv(|offered|, k)
  {
    FilterSamples(s, k, offered);
    QueuedLength(Sampled(offered, k, 0));
    SampledCount(offered, k, 0);
    QuotientUnique(k - 1, k, 0, k - 1);
  }

  /** Until a filter is set every message is enqueued. */
  lemma UnfilteredSends(offered: seq<Frames>)
    requires forall i | 0 <= i < |offered| :: offered[i] != []
    ensures SendAll(INITIAL, offered).Sent? && SendAll(INITIAL, offered).state.queue == Queued(offered)
  {
    SendAllSamples(INITIAL, offered, 0);
    SampledAll(offered, 0);
    assert [] + Queued(offered) == Queued(offered);
  }

  lemma {:induction false} SampledAll(offered: seq<Frames>, at: nat)
    ensures Sampled(offered, 1, at) == offered
  {
    if offered != [] {
      SampledAll(offered[1..], at + 1);
      assert offered == [offered[0]] + offered[1..];
    }
  }

  // ---------------------------------------------------------------- what the channel accepts

  function Sends(offered: seq<Frames>): seq<C.Action> {
    if offered == [] then [] else [C.Send(offered[0])] + Sends(offered[1..])
  }

  /** In a channel, too, the messages accepted are the sampled ones, and each is queued. */
  lemma {:induction false} AcceptsSamples(s: C.System, offered: seq<Frames>, at: nat)
    requires !s.aborted && s.snd.msgCounter == (at + s.snd.filter - 1) % s.snd.filter
    requires forall i | 0 <= i < |offered| :: offered[i] != []
    ensures var t := C.Run(s, Sends(offered));
            && !t.aborted && t.enqueued == s.enqueued + Sampled(offered, s.snd.filter, at)
            && t.wire == s.wire && t.rcv == s.rcv
    decreases |offered|
  {
    if offered == [] {
      assert s.enqueued + [] == s.enqueued;
    } else {
      OfferedOne(s.snd, offered[0], at);
      AcceptsOne(s, offered[0], at);
      hide C.Step, SendFrames, Fresh;
      var u := C.Step(s, C.Send(offered[0]));
      assert Sends(offered)[1..] == Sends(offered[1..]);
      AcceptsSamples(u, offered[1..], at + 1);
      var first := if at % s.snd.filter == 0 then [offered[0]] else [];
      ConcatAssociative(s.enqueued, first, Sampled(offered[1..], s.snd.filter, at + 1));
    }
  }

  lemma AcceptsOne(s: C.System, frames: Frames, at: nat)
    requires !s.aborted && s.snd.msgCounter == (at + s.snd.filter - 1) % s.snd.filter && frames != []
    ensures var u := C.Step(s, C.Send(frames));
            && !u.aborted && SendFrames(s.snd, frames) == Sent(u.snd, [])
            && u.enqueued == s.enqueued + (if at % s.snd.filter == 0 then [frames] else [])
            && u.wire == s.wire && u.rcv == s.rcv
  {
    NextCount(at, s.snd.filter);
    hide Fresh;
  }

  /** A connection that sets a filter accepts every k-th message from then on, starting with the first. */
  lemma FilteredRun(s: C.System, k: pos, offered: seq<Frames>)
    requires !s.aborted && forall i | 0 <= i < |offered| :: offered[i] != []
    ensures var t := C.Run(s, [C.SetFilter(k)] + Sends(offered));
            !t.aborted && t.enqueued == s.enqueued + Sampled(offered, k, 0)
  {
    assert ([C.SetFilter(k)] + Sends(offered))[1..] == Sends(offered);
    assert k - 1 == (0 + k - 1) % k;
    AcceptsSamples(C.Step(s, C.SetFilter(k)), offered, 0);
  }
}
