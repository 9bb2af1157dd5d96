/** TransportTCP::close, called any number of times from any number of threads and callbacks. */
module CloseOnce {
  import opened Bytes

  /** Where one call to close() is: before the unlocked test, before the locked section, about to look at
      the callback it took, inside that callback, or back. */
  datatype Stage = AtTest | AtSection | AtFire(callback: bool) | InCallback | Returned

  /** `calls` holds every call ever begun. Nothing restricts the order in which they move, so calls nested
      in a callback and calls of different threads are all among the runs. `removed` and `fired` count the
      effects, and `winner` is the call whose locked section found the transport open. */
  datatype State = State(
    closed: bool,
    callback: bool,
    calls: seq<Stage>,
    removed: nat,
    fired: nat,
    winner: Option<nat>,
    taken: bool)

  function Initial(): State {
    State(false, false, [], 0, 0, None, false)
  }

  /** setDisconnectCallback, a new call to close(), or the next move of a call. */
  datatype Action = SetCallback | Begin | Advance(call: nat)

  function Step(s: State, a: Action): State {
    match a
    case SetCallback => s.(callback := true)
    case Begin => s.(calls := s.calls + [AtTest])
    case Advance(i) =>
      if i >= |s.calls| then s else
      match s.calls[i]
      case AtTest => s.(calls := s.calls[i := if s.closed then AtFire(false) else AtSection])
      case AtSection =>
        if s.closed then s.(calls := s.calls[i := AtFire(false)]) else
        s.(closed := true, removed := s.removed + 1, calls := s.calls[i := AtFire(s.callback)], callback := false,
           winner := Some(i), taken := s.callback)
      case AtFire(callback) =>
        if callback then s.(fired := s.fired + 1, calls := s.calls[i := InCallback])
        else s.(calls := s.calls[i := Returned])
      case InCallback => s.(calls := s.calls[i := Returned])
      case Returned => s
  }

  function Run(s: State, actions: seq<Action>): State
    decreases |actions|
  {
    if actions == [] then s else Run(Step(s, actions[0]), actions[1..])
  }

  ghost predicate Inv(s: State) {
    && (s.closed <==> s.winner.Some?)
    && s.removed == (if s.closed then 1 else 0)
    && (s.taken ==> s.closed)
    && (s.winner.Some? ==>
          && s.winner.value < |s.calls|
          && s.calls[s.winner.value] in {AtFire(s.taken), InCallback, Returned}
          && (s.calls[s.winner.value] == InCallback ==> s.taken))
    && s.fired == (if s.taken && s.calls[s.winner.value] in {InCallback, Returned} then 1 else 0)
    && (forall i | 0 <= i < |s.calls| ::
          && (s.calls[i] in {AtFire(true), InCallback} ==> s.winner == Some(i))
          && (s.calls[i] !in {AtTest, AtSection} ==> s.closed))
  }

  lemma StepKeeps(s: State, a: Action)
    requires Inv(s)
    ensures Inv(Step(s, a))
  {
  }

  lemma {:induction false} RunKeeps(s: State, actions: seq<Action>)
    requires Inv(s)
    ensures Inv(Run(s, actions))
    decreases |actions|
  {
    if actions != [] {
      StepKeeps(s, actions[0]);
      RunKeeps(Step(s, actions[0]), actions[1..]);
    }
  }

  /** Over every run the socket leaves the poll set at most once, and the disconnect callback fires at most
      once; once some call has returned the socket is gone, and once all have the callback, if one was set in
      time, has fired. */
  lemma ClosesOnce(actions: seq<Action>)
    ensures var s := Run(Initial(), actions);
            && s.removed <= 1 && s.fired <= 1
            && (Returned in s.calls ==> s.closed && s.removed == 1)
            && (s.calls != [] && (forall i | 0 <= i < |s.calls| :: s.calls[i] == Returned) ==>
                  s.fired == if s.taken then 1 else 0)
  {
    RunKeeps(Initial(), actions);
  }

  /** Closing is final: nothing after the first locked section removes, takes or opens anything again. */
  lemma {:induction false} ClosedStays(s: State, actions: seq<Action>)
    requires Inv(s) && s.closed
    ensures var t := Run(s, actions);
            t.closed && t.removed == s.removed && t.winner == s.winner && t.taken == s.taken && s.fired <= t.fired
    decreases |actions|
  {
    if actions != [] {
      StepKeeps(s, actions[0]);
      ClosedStays(Step(s, actions[0]), actions[1..]);
    }
  }

  // ---------------------------------------------------------------- the callback, from what was set

  /** Until the transport is closed the callback is there iff it was ever set. */
  lemma {:induction false} CallbackIsSet(s: State, actions: seq<Action>)
    requires Inv(s) && !Run(s, actions).closed
    ensures !s.closed && (Run(s, actions).callback <==> s.callback || SetCallback in actions)
    decreases |actions|
  {
    if actions != [] {
      StepKeeps(s, actions[0]);
      CallbackIsSet(Step(s, actions[0]), actions[1..]);
      assert actions == [actions[0]] + actions[1..];
      if s.closed {
        ClosedStays(s, actions);
      }
    }
  }

  lemma {:induction false} RunAppend(s: State, a: seq<Action>, b: seq<Action>)
    ensures Run(s, a + b) == Run(Run(s, a), b)
    decreases |a|
  {
    hide Step;
    if a == [] {
      assert a + b == b;
    } else {
      assert (a + b)[1..] == a[1..] + b;
      RunAppend(Step(s, a[0]), a[1..], b);
    }
  }

  /** Over every run in which some step closes the transport: when all calls are back, the disconnect callback
      has fired once if it had been set before that step, and not at all otherwise. */
  lemma FiresIffSet(before: seq<Action>, a: Action, after: seq<Action>)
    requires var s := Run(Initial(), before); !s.closed && Step(s, a).closed
    ensures var t := Run(Initial(), before + [a] + after);
            && t.closed && t.removed == 1
            && (t.taken <==> SetCallback in before)
            && ((forall i | 0 <= i < |t.calls| :: t.calls[i] == Returned) ==>
                  t.fired == if SetCallback in before then 1 else 0)
  {
    var s := Run(Initial(), before);
    RunAppend(Initial(), before + [a], after);
    RunAppend(Initial(), before, [a]);
    assert [a][1..] == [];
    RunKeeps(Initial(), before);
    CallbackIsSet(Initial(), before);
    StepKeeps(s, a);
    ClosedStays(Step(s, a), after);
    RunKeeps(Step(s, a), after);
    ClosingTakes(s, a);
    hide Step, Run;
  }

  lemma ClosingTakes(s: State, a: Action)
    requires !s.closed && Step(s, a).closed
    ensures Step(s, a).taken == s.callback
  {
  }

  // ---------------------------------------------------------------- every call comes back

  /** Moves a call still has to make, at most. */
  function Left(stage: Stage): nat {
    match stage
    case AtTest => 4
    case AtSection => 3
    case AtFire(_) => 2
    case InCallback => 1
    case Returned => 0
  }

  function Moves(actions: seq<Action>, i: nat): nat {
    if actions == [] then 0 else (if actions[0] == Advance(i) then 1 else 0) + Moves(actions[1..], i)
  }

  lemma StepLowers(s: State, a: Action, i: nat)
    requires i < |s.calls|
    ensures i < |Step(s, a).calls|
    ensures a != Advance(i) ==> Step(s, a).calls[i] == s.calls[i]
    ensures a == Advance(i) ==> Left(Step(s, a).calls[i]) < Left(s.calls[i]) || Step(s, a).calls[i] == Returned
  {
  }

  /** Four moves of its own bring a call back, whatever the others do in between. */
  lemma {:induction false} Returns(s: State, actions: seq<Action>, i: nat)
    requires i < |s.calls|
    ensures i < |Run(s, actions).calls|
    ensures Moves(actions, i) >= Left(s.calls[i]) ==> Run(s, actions).calls[i] == Returned
    decreases |actions|
  {
    if actions != [] {
      StepLowers(s, actions[0], i);
      hide Step;
      Returns(Step(s, actions[0]), actions[1..], i);
    }
  }

  // ---------------------------------------------------------------- one call on its own

  const ONE_CALL: seq<Action> := [SetCallback, Begin, Advance(0), Advance(0), Advance(0), Advance(0)]

  /** A single call closes, removes the socket, and calls back if something was set. */
  lemma OneCall()
    ensures Run(Initial(), ONE_CALL) == State(true, false, [Returned], 1, 1, Some(0), true)
    ensures Run(Initial(), ONE_CALL[1..]) == State(true, false, [Returned], 1, 0, Some(0), false)
  {
    RunSix(Initial(), ONE_CALL);
    var s := Initial();
    assert ONE_CALL[1..] == [Begin, Advance(0), Advance(0), Advance(0), Advance(0)];
    RunSix(s, [Advance(7)] + ONE_CALL[1..]);
    assert Step(s, Advance(7)) == s;
    assert ([Advance(7)] + ONE_CALL[1..])[1..] == ONE_CALL[1..];
  }

  lemma RunSix(s: State, a: seq<Action>)
    requires |a| == 6
    ensures Run(s, a) == Step(Step(Step(Step(Step(Step(s, a[0]), a[1]), a[2]), a[3]), a[4]), a[5])
  {
    hide Step;
    assert a == a[..5] + [a[5]] && a[..5] == a[..4] + [a[4]] && a[..4] == a[..3] + [a[3]];
    assert a[..3] == a[..2] + [a[2]] && a[..2] == a[..1] + [a[1]] && a[..1] == [] + [a[0]];
    RunSnoc(s, [], a[0]);
    RunSnoc(s, a[..1], a[1]);
    RunSnoc(s, a[..2], a[2]);
    RunSnoc(s, a[..3], a[3]);
    RunSnoc(s, a[..4], a[4]);
    RunSnoc(s, a[..5], a[5]);
  }

  lemma RunSnoc(s: State, run: seq<Action>, a: Action)
    ensures Run(s, run + [a]) == Step(Run(s, run), a)
  {
    hide Step;
    RunAppend(s, run, [a]);
    assert [a][1..] == [];
  }
}
