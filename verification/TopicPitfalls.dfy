/** Concrete runs of a TopicManager, from its start, on which a refresh or a subscription goes wrong. */
module TopicPitfalls {
  import opened Bytes
  import opened Ordering
  import opened Topics
  import opened Refreshing
  import opened TopicRuns

  const A: Str := [97]
  const B: Str := [98]
  const C: Str := [99]

  // ---------------------------------------------------------------- small maps of one-letter names

  lemma RemapLetter(remaps: map<Str, Str>, name: Str)
    requires |name| == 1 && [] !in remaps
    ensures Remap(remaps, name) == if name in remaps then remaps[name] else name
  {
    assert name[..0] == [] && name[..1] == name && name[1..] == [];
    assert ShortestRule(remaps, name, 0) == ShortestRule(remaps, name, 1);
    if name in remaps {
      assert remaps[name] + [] == remaps[name];
    }
  }

  lemma SortedOne(a: Str)
    ensures Sorted({a}) == [a]
  {
    SortedFirst({a}, a);
    assert {a} - {a} == {};
    SortedEmpty();
  }

  lemma NamesOfTwo(m: map<Str, Str>)
    requires m.Keys == {A, B}
    ensures Names(m) == [A, B]
  {
    assert LexLess(A, B);
    SortedFirst({A, B}, A);
    assert {A, B} - {A} == {B};
    SortedOne(B);
    NamesIs(m);
  }

  lemma EmptyRefresh(b: Build, s: State)
    requires s.pubs.names == map[] && s.subs.names == map[]
    ensures Refresh(b, s) == Done(s)
  {
    SortedEmpty();
    assert s.pubs.names.Keys == {} && s.subs.names.Keys == {};
  }

  // ---------------------------------------------------------------- runs step by step

  lemma RunStep(b: Build, s: State, op: Op, ops: seq<Op>)
    ensures var r := Apply(b, s, op);
            Run(b, s, [op] + ops) == if r.Done? then Run(b, r.state, ops) else r
  {
    hide Apply;
    assert ([op] + ops)[1..] == ops;
  }

  lemma RunTwo(b: Build, s: State, op0: Op, op1: Op)
    requires Apply(b, s, op0).Done?
    ensures Run(b, s, [op0, op1]) == Apply(b, Apply(b, s, op0).state, op1)
  {
    hide Apply;
    RunStep(b, s, op0, [op1]);
    assert [op0, op1] == [op0] + [op1] && [op1] == [op1] + [];
    RunStep(b, Apply(b, s, op0).state, op1, []);
  }

  lemma RunThree(b: Build, s: State, op0: Op, op1: Op, op2: Op)
    requires Apply(b, s, op0).Done? && Apply(b, Apply(b, s, op0).state, op1).Done?
    ensures Run(b, s, [op0, op1, op2]) == Apply(b, Apply(b, Apply(b, s, op0).state, op1).state, op2)
  {
    hide Apply;
    assert [op0, op1, op2] == [op0] + [op1, op2];
    RunStep(b, s, op0, [op1, op2]);
    RunTwo(b, Apply(b, s, op0).state, op1, op2);
  }

  lemma RunFour(b: Build, s: State, op0: Op, op1: Op, op2: Op, op3: Op)
    requires Run(b, s, [op0, op1, op2]).Done?
    requires Apply(b, s, op0).Done? && Apply(b, Apply(b, s, op0).state, op1).Done?
    ensures Run(b, s, [op0, op1, op2, op3]) == Apply(b, Run(b, s, [op0, op1, op2]).state, op3)
  {
    hide Apply, Run;
    RunThree(b, s, op0, op1, op2);
    assert [op0, op1, op2, op3] == [op0] + [op1, op2, op3];
    RunStep(b, s, op0, [op1, op2, op3]);
    RunThree(b, Apply(b, s, op0).state, op1, op2, op3);
  }

  // ---------------------------------------------------------------- one changed publication

  /** A manager that publishes under A alone. */
  function PublishingA(uri: Str): State {
    Enter(Initial(uri), Publisher, A, Endpoint(A, None))
  }

  lemma RegisterA(b: Build, uri: Str)
    requires uri != []
    ensures Apply(b, Initial(uri), RegisterName(A)) == Done(PublishingA(uri))
  {
    RemapLetter(map[], A);
    hide Remap;
  }

  lemma RefreshA(uri: Str)
    requires uri != []
    ensures RefreshSide(Debug, PublishingA(uri).(remaps := map[A := B]), Publisher) == Stopped(StaleCopy)
  {
    var s := PublishingA(uri).(remaps := map[A := B]);
    RemapLetter(s.remaps, A);
    hide Remap;
    assert s.pubs.names == map[A := A] && s.pubs.names.Keys == {A};
    SortedOne(A);
    assert Move(Debug, s, Publisher, A, A) == Stopped(StaleCopy);
  }

  /** Registering a name and then a rule that changes its topic stops the process when assertions are compiled
      in: the loop's own check compares the new topic with the copied map. */
  lemma ChangedPublicationStops(uri: Str)
    requires uri != []
    ensures Run(Debug, Initial(uri), [RegisterName(A), AddRule(A, B)]) == Stopped(StaleCopy)
  {
    RegisterA(Debug, uri);
    RefreshA(uri);
    RunTwo(Debug, Initial(uri), RegisterName(A), AddRule(A, B));
    assert PublishingA(uri).remaps[A := B] == map[A := B];
    hide RefreshSide, Run;
  }

  // ---------------------------------------------------------------- two exchanged publications

  function PublishingBoth(uri: Str): State {
    Enter(PublishingA(uri), Publisher, B, Endpoint(B, None))
  }

  const SWAP: Op := SetRules([A, B], [B, A])

  lemma RegisterB(uri: Str)
    requires uri != []
    ensures Apply(Release, PublishingA(uri), RegisterName(B)) == Done(PublishingBoth(uri))
  {
    RemapLetter(map[], B);
    hide Remap;
  }

  lemma SwapRules()
    ensures RuleMap([A, B], [B, A]) == map[A := B, B := A]
  {
    assert [A, B][..1] == [A] && [A][..0] == [];
    assert RuleMap([A], [B, A]) == map[A := B];
  }

  lemma BothConsistent(uri: Str)
    requires uri != []
    ensures Inv(PublishingBoth(uri)) && PublishingBoth(uri).pubs.names == map[A := A, B := B]
    ensures PublishingBoth(uri).subs.names == map[]
  {
    var s0, s1 := Initial(uri), PublishingA(uri);
    InitialInv(uri);
    RemapLetter(map[], A);
    RemapLetter(map[], B);
    hide Remap, Inv;
    EnterExact(s0, Publisher, A, Endpoint(A, None));
    EnterExact(s1, Publisher, B, Endpoint(B, None));
  }

  /** The state in which the exchange begins, and the one in which it ends. */
  function Swapping(uri: Str): State {
    PublishingBoth(uri).(remaps := map[A := B, B := A])
  }

  ghost function Swapped(uri: Str): State {
    Refreshed(Swapping(uri), Publisher)
  }

  lemma SwappingIs(uri: Str)
    requires uri != []
    ensures var s := Swapping(uri);
            && Consistent(s.At(Publisher)) && s.At(Publisher).names == map[A := A, B := B]
            && s.At(Subscriber).names == map[]
            && Remap(s.remaps, A) == B && Remap(s.remaps, B) == A
  {
    BothConsistent(uri);
    RemapLetter(Swapping(uri).remaps, A);
    RemapLetter(Swapping(uri).remaps, B);
    hide Remap, Logged, Current;
  }

  lemma SwappedNames(uri: Str)
    requires uri != []
    ensures RefreshSide(Release, Swapping(uri), Publisher) == Done(Swapped(uri))
    ensures Swapped(uri).pubs.names == map[A := B, B := A]
    ensures Swapped(uri).subs.names == map[]
  {
    var s := Swapping(uri);
    SwappingIs(uri);
    hide Remap, Consistent, Logged, Refreshed, RefreshSide, Swapping;
    ReleaseFinishes(s, Publisher);
    ExchangedMap(s.remaps, s.At(Publisher).names);
    assert Swapped(uri).At(Publisher).names == map[A := B, B := A];
  }

  lemma ExchangedMap(remaps: map<Str, Str>, m: map<Str, Str>)
    requires m.Keys == {A, B} && Remap(remaps, A) == B && Remap(remaps, B) == A
    ensures (map n | n in m :: Remap(remaps, n)) == map[A := B, B := A]
  {
    hide Remap;
  }

  lemma SwappedLoses(uri: Str)
    requires uri != []
    ensures B !in Swapped(uri).pubs.live
  {
    var s := Swapping(uri);
    SwappingIs(uri);
    NamesOfTwo(s.At(Publisher).names);
    hide Remap, Consistent, Refreshed, Names, Swapping;
    assert A != B;
    LostTopic(s, Publisher, 1);
    assert Swapped(uri).At(Publisher) == Swapped(uri).pubs;
  }

  lemma SwapApplied(uri: Str)
    requires uri != []
    ensures Apply(Release, PublishingBoth(uri), SWAP) == Done(Swapped(uri))
  {
    SwapRules();
    SwappedNames(uri);
    hide Remap, Swapped, PublishingBoth, RefreshNames;
    RefreshNothing(Swapped(uri));
    hide RefreshSide;
  }

  lemma RefreshNothing(s: State)
    requires s.subs.names == map[]
    ensures RefreshSide(Release, s, Subscriber) == Done(s)
  {
    SortedEmpty();
    assert s.subs.names.Keys == {};
  }

  /** Without assertions the exchange of two publications' topics finishes with maps out of step. */
  lemma SwapBreaks(uri: Str)
    requires uri != []
    ensures var r := Run(Release, Initial(uri), [RegisterName(A), RegisterName(B), SWAP]);
            r == Done(Swapped(uri)) && !Inv(r.state)
  {
    RegisterA(Release, uri);
    RegisterB(uri);
    SwapApplied(uri);
    SwappedNames(uri);
    SwappedLoses(uri);
    RunThree(Release, Initial(uri), RegisterName(A), RegisterName(B), SWAP);
    hide Run, Swapped, PublishingA, PublishingBoth, Refresh, Logged, Current;
    assert Swapped(uri).pubs.names[A] !in Swapped(uri).pubs.live;
    assert !Consistent(Swapped(uri).pubs);
  }

  /** The next message published under the first name finds its topic gone: a null pointer is used. */
  lemma SwapLosesTopic(uri: Str, msg: nat)
    requires uri != []
    ensures Run(Release, Initial(uri), [RegisterName(A), RegisterName(B), SWAP, PublishTo(A, msg)]) ==
            Stopped(UnknownTopic)
  {
    RegisterA(Release, uri);
    RegisterB(uri);
    SwapBreaks(uri);
    SwappedNames(uri);
    SwappedLoses(uri);
    hide Run, Swapped, PublishingA, PublishingBoth, Refresh, Inv;
    RunFour(Release, Initial(uri), RegisterName(A), RegisterName(B), SWAP, PublishTo(A, msg));
  }

  /** Nor can it be unregistered. */
  lemma SwapStopsUnregister(uri: Str)
    requires uri != []
    ensures Run(Release, Initial(uri), [RegisterName(A), RegisterName(B), SWAP, UnregisterName(Publisher, A)]) ==
            Stopped(UnknownTopic)
  {
    RegisterA(Release, uri);
    RegisterB(uri);
    SwapBreaks(uri);
    SwappedNames(uri);
    SwappedLoses(uri);
    hide Run, Swapped, PublishingA, PublishingBoth, Refresh, Inv;
    RunFour(Release, Initial(uri), RegisterName(A), RegisterName(B), SWAP, UnregisterName(Publisher, A));
  }

  // ---------------------------------------------------------------- the check against the unmapped names

  const CHAIN: Op := SetRules([A, B], [C, A])

  lemma ChainRules()
    ensures RuleMap([A, B], [C, A]) == map[A := C, B := A]
  {
    assert [A, B][..1] == [A] && [A][..0] == [];
    assert RuleMap([A], [C, A]) == map[A := C];
  }

  /** A manager with the two rules that subscribes under A. */
  function SubscribedA(uri: Str): State {
    Enter(Initial(uri).(remaps := map[A := C, B := A]), Subscriber, A, Endpoint(C, None))
  }

  lemma ReachSubscribedA(uri: Str)
    requires uri != []
    ensures var s := Initial(uri).(remaps := map[A := C, B := A]);
            && Apply(Debug, Initial(uri), CHAIN) == Done(s)
            && Apply(Debug, s, SubscribeName(A, None)) == Done(SubscribedA(uri))
  {
    var s := Initial(uri).(remaps := map[A := C, B := A]);
    ChainRules();
    EmptyRefresh(Debug, s);
    RemapLetter(s.remaps, A);
    hide Remap, Refresh;
  }

  /** A subscription whose remapped topic nobody uses still stops, because another subscribed name is spelled
      like that topic. */
  lemma NameTakenNeedlessly(uri: Str)
    requires uri != []
    ensures var r := Run(Debug, Initial(uri), [CHAIN, SubscribeName(A, None)]);
            r.Done? && Remap(r.state.remaps, B) !in r.state.subs.live
    ensures Run(Debug, Initial(uri), [CHAIN, SubscribeName(A, None), SubscribeName(B, None)]) == Stopped(NameTaken)
  {
    ReachSubscribedA(uri);
    RunTwo(Debug, Initial(uri), CHAIN, SubscribeName(A, None));
    RunThree(Debug, Initial(uri), CHAIN, SubscribeName(A, None), SubscribeName(B, None));
    RemapLetter(SubscribedA(uri).remaps, B);
    hide Remap, Run;
  }
}
