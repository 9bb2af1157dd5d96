/** Whole runs of a TopicManager: what every operation keeps, exactly when it does, and what shutdown does. */
module TopicRuns {
  import opened Bytes
  import opened Ordering
  import opened Topics
  import opened Refreshing

  datatype Op =
    | RegisterName(name: Str)
    | UnregisterName(role: Role, name: Str)
    | SubscribeName(name: Str, callback: Option<nat>)
    | PublishTo(name: Str, msg: nat)
    | AddRule(find: Str, replace: Str)
    | SetRules(from: seq<Str>, to: seq<Str>)
    | ShutDown

  ghost function Apply(b: Build, s: State, op: Op): Result {
    match op
    case RegisterName(name) => RegisterPublication(b, s, name)
    case UnregisterName(role, name) => Unregister(s, role, name)
    case SubscribeName(name, callback) => Subscribe(b, s, name, callback)
    case PublishTo(name, msg) => Publish(b, s, name, msg)
    case AddRule(find, replace) => SetRemap(b, s, find, replace)
    case SetRules(from, to) => SetRemappings(b, s, from, to)
    case ShutDown => Shutdown(s)
  }

  // ---------------------------------------------------------------- the guards

  /** A new set of rules does no harm: with assertions no publication may change at all. */
  ghost predicate RulesOk(b: Build, s: State, remaps: map<Str, Str>) {
    if b.Debug? then Current(remaps, s.pubs) && PassesFrom(remaps, s.subs.names, 0)
    else Clean(remaps, s.pubs.names) && Clean(remaps, s.subs.names)
  }

  /** What a caller could check before the call. Without assertions, registering a name again is harmless. */
  ghost predicate Guard(b: Build, s: State, op: Op) {
    match op
    case RegisterName(name) =>
      s.uri != [] && (Remap(s.remaps, name) !in s.pubs.live || (b.Release? && name in s.pubs.names))
    case UnregisterName(role, name) => name in s.At(role).names
    case SubscribeName(name, _) =>
      s.uri != [] &&
      if b.Debug? then Remap(s.remaps, name) !in s.subs.live && Remap(s.remaps, name) !in s.subs.names
      else Remap(s.remaps, name) !in s.subs.live || name in s.subs.names
    case PublishTo(name, _) => name in s.pubs.names || (s.uri != [] && Remap(s.remaps, name) !in s.pubs.live)
    case AddRule(find, replace) => RulesOk(b, s, s.remaps[find := replace])
    case SetRules(from, to) =>
      |from| <= |to| && (b.Debug? ==> |from| == |to|) && RulesOk(b, s, RuleMap(from, to))
    case ShutDown => true
  }

  // ---------------------------------------------------------------- entering and leaving

  lemma EnterSide(side: Side, name: Str, e: Endpoint)
    requires Consistent(side)
    requires name in side.names ==> side.names[name] == e.topic
    ensures Consistent(Side(side.names[name := e.topic], side.live[e.topic := e])) <==>
            (e.topic !in side.live || name in side.names)
  {
    var side' := Side(side.names[name := e.topic], side.live[e.topic := e]);
    if e.topic in side.live && name !in side.names {
      var n :| n in side.names && side.names[n] == e.topic;
      assert side'.names[n] == side'.names[name];
    } else {
      forall t | t in side'.live ensures exists n :: n in side'.names && side'.names[n] == t {
        if t == e.topic {
          assert side'.names[name] == t;
        } else {
          var n :| n in side.names && side.names[n] == t;
          assert side'.names[n] == t;
        }
      }
    }
  }

  lemma EnterConsistent(s: State, role: Role, name: Str, e: Endpoint)
    requires Consistent(s.At(role))
    requires name in s.At(role).names ==> s.At(role).names[name] == e.topic
    ensures Consistent(Enter(s, role, name, e).At(role)) <==> (e.topic !in s.At(role).live || name in s.At(role).names)
    ensures SameElse(s, Enter(s, role, name, e), role)
    ensures Logged(s) ==> Logged(Enter(s, role, name, e))
  {
    hide Logged, Consistent;
    EnterSide(s.At(role), name, e);
    if Logged(s) {
      UpdateLogged(s, role, Enter(s, role, name, e).At(role), e.topic, true);
    }
  }

  lemma LeaveConsistent(s: State, role: Role, name: Str)
    requires Consistent(s.At(role)) && name in s.At(role).names
    ensures Consistent(Leave(s, role, name).At(role))
    ensures SameElse(s, Leave(s, role, name), role)
    ensures Logged(s) ==> Logged(Leave(s, role, name))
  {
    var side, side' := s.At(role), Leave(s, role, name).At(role);
    if Logged(s) {
      UpdateLogged(s, role, side', side.names[name], false);
    }
    hide Logged;
    forall t | t in side'.live ensures exists n :: n in side'.names && side'.names[n] == t {
      var n :| n in side.names && side.names[n] == t;
      assert side'.names[n] == t;
    }
  }

  /** The invariant, role by role. */
  lemma InvParts(s: State)
    ensures Inv(s) <==> Logged(s) && forall role: Role :: Ready(s, role) && Current(s.remaps, s.At(role))
  {
    hide Logged, Consistent, Current, Addressed;
    if Logged(s) && (forall role: Role :: Ready(s, role) && Current(s.remaps, s.At(role))) {
      assert Ready(s, Publisher) && Current(s.remaps, s.At(Publisher));
      assert Ready(s, Subscriber) && Current(s.remaps, s.At(Subscriber));
    }
  }

  /** Changing one role only leaves the other one in step. */
  lemma InvOneRole(s: State, t: State, role: Role)
    requires Inv(s) && SameElse(s, t, role) && Logged(t) && Current(s.remaps, t.At(role)) && Addressed(t, role)
    ensures Inv(t) <==> Consistent(t.At(role))
  {
    hide Logged, Consistent, Current;
  }

  // ---------------------------------------------------------------- one operation

  lemma EnterExact(s: State, role: Role, name: Str, e: Endpoint)
    requires Inv(s) && e.topic == Remap(s.remaps, name) && s.uri != []
    ensures Inv(Enter(s, role, name, e)) <==> (e.topic !in s.At(role).live || name in s.At(role).names)
  {
    hide Remap;
    InvParts(s);
    EnterConsistent(s, role, name, e);
    hide Consistent, Logged;
    assert Current(s.remaps, Enter(s, role, name, e).At(role));
    InvOneRole(s, Enter(s, role, name, e), role);
  }

  lemma LeaveKeeps(s: State, role: Role, name: Str)
    requires Inv(s) && name in s.At(role).names
    ensures Inv(Leave(s, role, name))
  {
    hide Remap;
    InvParts(s);
    LeaveConsistent(s, role, name);
    hide Consistent, Logged;
    assert Current(s.remaps, Leave(s, role, name).At(role));
    InvOneRole(s, Leave(s, role, name), role);
  }

  /** Only one name and one topic of one role changed, and the master got one call about that topic. */
  ghost predicate Touches(s: State, t: State, role: Role, name: Str, topic: Str, add: bool) {
    && SameElse(s, t, role) && t.log == s.log + [Request(s.uri, topic, role, add)]
    && (forall n | n != name :: n in t.At(role).names <==> n in s.At(role).names)
    && (forall n | n != name && n in s.At(role).names :: t.At(role).names[n] == s.At(role).names[n])
    && (forall u | u != topic :: u in t.At(role).live <==> u in s.At(role).live)
    && (forall u | u != topic && u in s.At(role).live :: t.At(role).live[u] == s.At(role).live[u])
  }

  ghost predicate Recorded(t: State, role: Role, name: Str, e: Endpoint) {
    && name in t.At(role).names && t.At(role).names[name] == e.topic
    && e.topic in t.At(role).live && t.At(role).live[e.topic] == e
  }

  lemma EnterTouches(s: State, role: Role, name: Str, e: Endpoint)
    ensures Touches(s, Enter(s, role, name, e), role, name, e.topic, true)
    ensures Recorded(Enter(s, role, name, e), role, name, e)
  {
  }

  /** Registering succeeds and keeps the invariant iff its guard holds; it records the remapped topic. */
  lemma RegisterExact(b: Build, s: State, name: Str)
    requires Inv(s)
    ensures var r := RegisterPublication(b, s, name);
            && (r.Done? && Inv(r.state) <==> Guard(b, s, RegisterName(name)))
            && (b.Debug? ==> (r.Done? <==> Guard(b, s, RegisterName(name))))
    ensures RegisterPublication(b, s, name) == Stopped(TopicTaken) <==> b.Debug? && Remap(s.remaps, name) in s.pubs.live
    ensures var r, topic := RegisterPublication(b, s, name), Remap(s.remaps, name);
            r.Done? ==> Touches(s, r.state, Publisher, name, topic, true) &&
                        Recorded(r.state, Publisher, name, Endpoint(topic, None))
  {
    hide Remap, Inv;
    EnterTouches(s, Publisher, name, Endpoint(Remap(s.remaps, name), None));
    if s.uri != [] {
      EnterExact(s, Publisher, name, Endpoint(Remap(s.remaps, name), None));
    }
    hide Enter, Touches, Recorded;
  }

  /** So does subscribing, with the callback given. */
  lemma SubscribeExact(b: Build, s: State, name: Str, callback: Option<nat>)
    requires Inv(s)
    ensures var r := Subscribe(b, s, name, callback);
            && (r.Done? && Inv(r.state) <==> Guard(b, s, SubscribeName(name, callback)))
            && (b.Debug? ==> (r.Done? <==> Guard(b, s, SubscribeName(name, callback))))
    ensures Subscribe(b, s, name, callback) == Stopped(NameTaken) <==> b.Debug? && Remap(s.remaps, name) in s.subs.names
    ensures var r, topic := Subscribe(b, s, name, callback), Remap(s.remaps, name);
            r.Done? ==> Touches(s, r.state, Subscriber, name, topic, true) &&
                        Recorded(r.state, Subscriber, name, Endpoint(topic, callback))
  {
    hide Remap, Inv;
    EnterTouches(s, Subscriber, name, Endpoint(Remap(s.remaps, name), callback));
    if s.uri != [] {
      EnterExact(s, Subscriber, name, Endpoint(Remap(s.remaps, name), callback));
    }
    hide Enter, Touches, Recorded;
  }

  /** Unregistering succeeds iff the name is known; its name and its topic go, and nothing else. */
  lemma UnregisterExact(b: Build, s: State, role: Role, name: Str)
    requires Inv(s)
    ensures var r := Unregister(s, role, name);
            && (r.Done? <==> Guard(b, s, UnregisterName(role, name)))
            && (r.Done? ==> Inv(r.state))
    ensures var r := Unregister(s, role, name);
            r.Done? ==>
              && name in s.At(role).names
              && Touches(s, r.state, role, name, s.At(role).names[name], false)
              && name !in r.state.At(role).names && s.At(role).names[name] !in r.state.At(role).live
  {
    InvParts(s);
    if name in s.At(role).names {
      LeaveKeeps(s, role, name);
      LeaveTouches(s, role, name);
    }
    hide Leave, Remap, Touches;
  }

  lemma LeaveTouches(s: State, role: Role, name: Str)
    requires name in s.At(role).names
    ensures Touches(s, Leave(s, role, name), role, name, s.At(role).names[name], false)
    ensures name !in Leave(s, role, name).At(role).names
    ensures s.At(role).names[name] !in Leave(s, role, name).At(role).live
  {
  }

  lemma SendKeeps(s: State, name: Str, msg: nat)
    requires Inv(s) && name in s.pubs.names
    ensures Send(s, name, msg) == Done(s.(sent := s.sent + [(Remap(s.remaps, name), msg)]))
    ensures Inv(Send(s, name, msg).state)
  {
    hide Remap;
  }

  /** Publishing reaches the remapped topic, which is live; the consistency assertion never fails. */
  lemma PublishExact(b: Build, s: State, name: Str, msg: nat)
    requires Inv(s)
    ensures var r := Publish(b, s, name, msg);
            && (r.Done? && Inv(r.state) <==> Guard(b, s, PublishTo(name, msg)))
            && (b.Debug? ==> (r.Done? <==> Guard(b, s, PublishTo(name, msg))))
            && r != Stopped(NotRemapped)
    ensures var r := Publish(b, s, name, msg);
            Guard(b, s, PublishTo(name, msg)) ==>
              && r.state.sent == s.sent + [(Remap(s.remaps, name), msg)]
              && Remap(s.remaps, name) in r.state.pubs.live
  {
    hide Remap;
    if name in s.pubs.names {
      SendKeeps(s, name, msg);
    } else {
      RegisterExact(b, s, name);
      var r := RegisterPublication(b, s, name);
      if r.Done? && Inv(r.state) {
        SendKeeps(r.state, name, msg);
      } else if r.Done? {
        hide Logged, Current;
        var n :| n in s.pubs.names && s.pubs.names[n] == Remap(s.remaps, name);
        assert r.state.pubs.names[n] == r.state.pubs.names[name];
      }
    }
  }

  /** The comparison itself, on every state: with assertions a name recorded under another topic stops. */
  lemma PublishCompares(b: Build, s: State, name: Str, msg: nat)
    ensures Publish(b, s, name, msg) == Stopped(NotRemapped) <==>
            b.Debug? && name in s.pubs.names && s.pubs.names[name] != Remap(s.remaps, name)
  {
    hide Remap;
  }

  // ---------------------------------------------------------------- refreshing both roles

  ghost predicate NewRules(s: State) {
    Ready(s, Publisher) && Ready(s, Subscriber) && Logged(s)
  }

  /** A refresh touches one role, and brings its names up to date. */
  lemma RefreshedIs(s: State, role: Role)
    requires Ready(s, role) && Logged(s)
    ensures var t := Refreshed(s, role);
            && Addressed(t, role)
            && RefreshSide(Release, s, role) == Done(t)
            && SameElse(s, t, role) && Logged(t) && Current(s.remaps, t.At(role))
            && (Consistent(t.At(role)) <==> Clean(s.remaps, s.At(role).names))
  {
    ReleaseFinishes(s, role);
    RefreshExact(s, role);
    hide Refreshed, RefreshSide, Remap, Logged, Consistent, Clean, SameElse;
  }

  lemma RefreshRelease(s: State)
    requires NewRules(s)
    ensures Refresh(Release, s).Done?
    ensures Inv(Refresh(Release, s).state) <==> Clean(s.remaps, s.pubs.names) && Clean(s.remaps, s.subs.names)
  {
    RefreshedIs(s, Publisher);
    var t := Refreshed(s, Publisher);
    RefreshedIs(t, Subscriber);
    hide Refreshed, RefreshSide, Remap, Logged, Consistent, Clean, Current;
    assert Refresh(Release, s) == Done(Refreshed(t, Subscriber));
  }

  lemma RefreshDebug(s: State)
    requires NewRules(s)
    ensures Refresh(Debug, s).Done? <==> Current(s.remaps, s.pubs) && PassesFrom(s.remaps, s.subs.names, 0)
    ensures Refresh(Debug, s).Done? ==> Inv(Refresh(Debug, s).state) && Refresh(Debug, s) == Refresh(Release, s)
  {
    DebugPublications(s);
    DebugSubscriptions(s);
    RefreshedIs(s, Subscriber);
    hide Refreshed, RefreshSide, Remap, Logged, Consistent, Clean, PassesFrom, Current;
    if Current(s.remaps, s.pubs) {
      SortedIs(s.pubs.names.Keys);
      CurrentSide(s, Publisher);
    }
  }

  lemma CurrentSide(s: State, role: Role)
    requires Current(s.remaps, s.At(role))
    ensures RefreshSide(Release, s, role) == Done(s)
  {
    hide Remap;
    var m := s.At(role).names;
    SortedIs(m.Keys);
    CurrentIsKept(Release, s, role, m, Sorted(m.Keys));
  }

  lemma RulesExact(b: Build, s: State, remaps: map<Str, Str>)
    requires Inv(s)
    ensures var r := Refresh(b, s.(remaps := remaps));
            && (r.Done? && Inv(r.state) <==> RulesOk(b, s, remaps))
            && (b.Debug? ==> (r.Done? <==> RulesOk(b, s, remaps)))
  {
    hide Remap, Consistent, Current, Clean, PassesFrom;
    var t := s.(remaps := remaps);
    assert Logged(t) by {
      assert forall role: Role :: t.At(role) == s.At(role);
    }
    hide Logged;
    RefreshRelease(t);
    RefreshDebug(t);
    hide Refresh, Inv;
  }

  lemma AddRuleExact(b: Build, s: State, find: Str, replace: Str)
    requires Inv(s)
    ensures var r := SetRemap(b, s, find, replace);
            && (r.Done? && Inv(r.state) <==> Guard(b, s, AddRule(find, replace)))
            && (b.Debug? ==> (r.Done? <==> Guard(b, s, AddRule(find, replace))))
  {
    hide Inv, Refresh, RulesOk;
    RulesExact(b, s, s.remaps[find := replace]);
  }

  lemma SetRulesExact(b: Build, s: State, from: seq<Str>, to: seq<Str>)
    requires Inv(s)
    ensures var r := SetRemappings(b, s, from, to);
            && (r.Done? && Inv(r.state) <==> Guard(b, s, SetRules(from, to)))
            && (b.Debug? ==> (r.Done? <==> Guard(b, s, SetRules(from, to))))
  {
    hide Inv, Refresh, RulesOk;
    if |from| <= |to| {
      RulesExact(b, s, RuleMap(from, to));
    }
  }

  // ---------------------------------------------------------------- shutdown

  function Goodbyes(uri: Str, names: map<Str, Str>, role: Role, keys: seq<Str>): seq<Request>
    requires forall k | k in keys :: k in names
  {
    seq(|keys|, i requires 0 <= i < |keys| => Request(uri, names[keys[i]], role, false))
  }

  function Farewell(s: State, role: Role, keys: seq<Str>): seq<Request>
    requires forall k | k in keys :: k in s.At(role).names
  {
    Goodbyes(s.uri, s.At(role).names, role, keys)
  }

  ghost predicate Distinct<T(!new)>(s: seq<T>) {
    forall i, j | 0 <= i < j < |s| :: s[i] != s[j]
  }

  lemma UnregisterDone(s: State, role: Role, name: Str)
    requires Inv(s) && name in s.At(role).names
    ensures Unregister(s, role, name) == Done(Leave(s, role, name))
  {
    InvParts(s);
    assert Ready(s, role);
    hide Inv, Logged, Current, Leave;
  }

  lemma UnregisterStep(s: State, role: Role, keys: seq<Str>)
    requires Inv(s) && keys != []
    requires Distinct(keys) && forall k | k in keys :: k in s.At(role).names
    ensures var t := Leave(s, role, keys[0]);
            && Inv(t) && SameElse(s, t, role)
            && t.At(role).names == s.At(role).names - {keys[0]}
            && Distinct(keys[1..]) && (forall k | k in keys[1..] :: k in t.At(role).names)
            && UnregisterAll(s, role, keys) == UnregisterAll(t, role, keys[1..])
  {
    hide Inv, Unregister, Distinct;
    LeaveKeeps(s, role, keys[0]);
    UnregisterDone(s, role, keys[0]);
    FirstOnly(keys);
    assert keys == [keys[0]] + keys[1..];
  }

  lemma FirstOnly(keys: seq<Str>)
    requires keys != [] && Distinct(keys)
    ensures keys[0] !in keys[1..] && Distinct(keys[1..])
  {
    assert forall i | 0 <= i < |keys| - 1 :: keys[1..][i] == keys[i + 1];
  }

  lemma GoodbyesStep(uri: Str, names: map<Str, Str>, role: Role, keys: seq<Str>)
    requires keys != [] && forall k | k in keys :: k in names
    requires keys[0] !in keys[1..]
    ensures Goodbyes(uri, names, role, keys) ==
            [Request(uri, names[keys[0]], role, false)] + Goodbyes(uri, names - {keys[0]}, role, keys[1..])
  {
    var rest := Goodbyes(uri, names - {keys[0]}, role, keys[1..]);
    forall i | 0 <= i < |rest| ensures rest[i] == Goodbyes(uri, names, role, keys)[i + 1] {
      assert keys[1..][i] == keys[i + 1] && keys[i + 1] in keys[1..];
    }
  }

  lemma FarewellStep(s: State, role: Role, keys: seq<Str>)
    requires keys != [] && forall k | k in keys :: k in s.At(role).names
    requires keys[0] !in keys[1..]
    ensures forall k | k in keys[1..] :: k in Leave(s, role, keys[0]).At(role).names
    ensures Leave(s, role, keys[0]).log + Farewell(Leave(s, role, keys[0]), role, keys[1..]) ==
            s.log + Farewell(s, role, keys)
  {
    hide Goodbyes;
    GoodbyesStep(s.uri, s.At(role).names, role, keys);
    var t := Leave(s, role, keys[0]);
    var first := [Request(s.uri, s.At(role).names[keys[0]], role, false)];
    assert t.log == s.log + first && t.uri == s.uri && t.At(role).names == s.At(role).names - {keys[0]};
    ConcatAssociative(s.log, first, Farewell(t, role, keys[1..]));
  }

  lemma {:induction false} UnregisterAllIs(s: State, role: Role, keys: seq<Str>)
    requires Inv(s) && Distinct(keys) && forall k | k in keys :: k in s.At(role).names
    ensures UnregisterAll(s, role, keys).Done?
    ensures var t := UnregisterAll(s, role, keys).state;
            && Inv(t) && SameElse(s, t, role)
            && t.At(role).names == s.At(role).names - (set k | k in keys)
            && t.log == s.log + Farewell(s, role, keys)
    decreases |keys|
  {
    hide Inv, Consistent, SameElse, Leave, Farewell, Distinct;
    if keys == [] {
      NothingLeft(s, role);
    } else {
      UnregisterStep(s, role, keys);
      FirstOnly(keys);
      var u := Leave(s, role, keys[0]);
      UnregisterAllIs(u, role, keys[1..]);
      FarewellStep(s, role, keys);
      hide UnregisterAll;
      var t := UnregisterAll(s, role, keys).state;
      SameElseTransitive(s, u, t, role);
      assert (set k | k in keys) == {keys[0]} + (set k | k in keys[1..]);
    }
  }

  lemma NothingLeft(s: State, role: Role)
    ensures SameElse(s, s, role) && Farewell(s, role, []) == []
  {
  }

  /** A shutdown names each live topic of a role exactly once. */
  lemma FarewellOnce(s: State, role: Role)
    requires Inv(s)
    ensures forall k | k in Names(s.At(role).names) :: k in s.At(role).names
    ensures var all := Farewell(s, role, Names(s.At(role).names));
            && Distinct(all)
            && (forall r :: r in all <==> exists t :: t in s.At(role).live && r == Request(s.uri, t, role, false))
  {
    InvParts(s);
    hide Inv, Remap, Logged, Current;
    var side, keys := s.At(role), Names(s.At(role).names);
    hide Names;
    var all := Farewell(s, role, keys);
    forall r | r in all ensures exists t :: t in side.live && r == Request(s.uri, t, role, false) {
      var i :| 0 <= i < |all| && all[i] == r;
      assert keys[i] in side.names && side.names[keys[i]] in side.live;
    }
    forall t | t in side.live ensures Request(s.uri, t, role, false) in all {
      var n :| n in side.names && side.names[n] == t;
      var i :| 0 <= i < |keys| && keys[i] == n;
      assert all[i] == Request(s.uri, t, role, false);
    }
  }

  /** Shutdown always succeeds, empties the four maps, and tells the master about each live topic once. */
  lemma ShutdownIs(s: State)
    requires Inv(s)
    ensures forall role: Role, k | k in Names(s.At(role).names) :: k in s.At(role).names
    ensures Shutdown(s).Done?
    ensures var t := Shutdown(s).state;
            && Inv(t) && t.pubs == Side(map[], map[]) && t.subs == Side(map[], map[])
            && t.log == s.log + Farewell(s, Publisher, Names(s.pubs.names))
                              + Farewell(s, Subscriber, Names(s.subs.names))
  {
    var pubs, subs := Names(s.pubs.names), Names(s.subs.names);
    ShutdownUnfolds(s);
    hide Inv, Names, Remap, Shutdown, UnregisterAll, Farewell, Distinct;
    NamesDistinct(s.pubs.names);
    NamesDistinct(s.subs.names);
    UnregisterAllIs(s, Publisher, pubs);
    var u := UnregisterAll(s, Publisher, pubs).state;
    UnregisterAllIs(u, Subscriber, subs);
    var t := UnregisterAll(u, Subscriber, subs).state;
    FarewellSame(s, u, subs);
    assert (set k | k in pubs) == s.pubs.names.Keys && (set k | k in subs) == s.subs.names.Keys;
    InvEmpty(t);
  }

  lemma NamesDistinct(m: map<Str, Str>)
    ensures Distinct(Names(m))
  {
  }

  lemma FarewellSame(s: State, u: State, keys: seq<Str>)
    requires u.uri == s.uri && u.subs == s.subs && forall k | k in keys :: k in s.subs.names
    ensures Farewell(u, Subscriber, keys) == Farewell(s, Subscriber, keys)
  {
  }

  lemma ShutdownUnfolds(s: State)
    ensures var r := UnregisterAll(s, Publisher, Names(s.pubs.names));
            r.Done? && r.state.subs == s.subs ==>
              Shutdown(s) == UnregisterAll(r.state, Subscriber, Names(s.subs.names))
  {
    hide UnregisterAll, Names;
    assert Names(s.pubs.names) == Sorted(s.pubs.names.Keys) by { NamesIs(s.pubs.names); }
    assert Names(s.subs.names) == Sorted(s.subs.names.Keys) by { NamesIs(s.subs.names); }
  }

  lemma NamesIs(m: map<Str, Str>)
    ensures Names(m) == Sorted(m.Keys)
  {
  }

  lemma ShutdownExact(b: Build, s: State)
    requires Inv(s)
    ensures Guard(b, s, ShutDown) && Shutdown(s).Done? && Inv(Shutdown(s).state)
  {
    assert Guard(b, s, ShutDown);
    hide *;
    ShutdownIs(s);
  }

  lemma InvEmpty(s: State)
    requires Inv(s)
    ensures forall role: Role | s.At(role).names == map[] :: s.At(role).live == map[]
  {
    hide Logged, Current;
    forall role: Role | s.At(role).names == map[] ensures s.At(role).live == map[] {
      assert Consistent(s.At(role)) by { InvParts(s); }
    }
  }

  // ---------------------------------------------------------------- every run

  lemma InitialInv(uri: Str)
    ensures Inv(Initial(uri))
  {
  }

  /** One operation keeps everything in step iff its guard holds, and with assertions it stops otherwise. */
  lemma StepExact(b: Build, s: State, op: Op)
    requires Inv(s)
    ensures var r := Apply(b, s, op);
            && (r.Done? && Inv(r.state) <==> Guard(b, s, op))
            && (b.Debug? ==> (r.Done? <==> Guard(b, s, op)))
  {
    hide Guard, Inv, RegisterPublication, Unregister, Subscribe, Publish, SetRemap, SetRemappings, Shutdown;
    match op
    case RegisterName(name) => RegisterExact(b, s, name);
    case UnregisterName(role, name) => UnregisterExact(b, s, role, name);
    case SubscribeName(name, callback) => SubscribeExact(b, s, name, callback);
    case PublishTo(name, msg) => PublishExact(b, s, name, msg);
    case AddRule(find, replace) => AddRuleExact(b, s, find, replace);
    case SetRules(from, to) => SetRulesExact(b, s, from, to);
    case ShutDown => ShutdownExact(b, s);
  }

  ghost function Run(b: Build, s: State, ops: seq<Op>): Result
    decreases |ops|
  {
    if ops == [] then Done(s) else
    match Apply(b, s, ops[0])
    case Stopped(why) => Stopped(why)
    case Done(t) => Run(b, t, ops[1..])
  }

  /** Every guard on the way holds. */
  ghost predicate Guarded(b: Build, s: State, ops: seq<Op>)
    decreases |ops|
  {
    ops != [] ==>
      Guard(b, s, ops[0]) &&
      match Apply(b, s, ops[0])
      case Stopped(_) => false
      case Done(t) => Guarded(b, t, ops[1..])
  }

  /** The invariant holds after every operation of the run. */
  ghost predicate AlwaysInv(b: Build, s: State, ops: seq<Op>)
    decreases |ops|
  {
    Inv(s) && (ops != [] ==>
      match Apply(b, s, ops[0])
      case Stopped(_) => false
      case Done(t) => AlwaysInv(b, t, ops[1..]))
  }

  /** A run stays in step throughout iff every guard on the way holds; with assertions every run that
      finishes does. */
  lemma {:induction false} RunExact(b: Build, s: State, ops: seq<Op>)
    requires Inv(s)
    ensures AlwaysInv(b, s, ops) <==> Guarded(b, s, ops)
    ensures b.Debug? ==> (Run(b, s, ops).Done? <==> Guarded(b, s, ops))
    ensures Guarded(b, s, ops) ==> Run(b, s, ops).Done? && Inv(Run(b, s, ops).state)
    decreases |ops|
  {
    if ops != [] {
      StepExact(b, s, ops[0]);
      hide Apply, Guard, Inv;
      var r := Apply(b, s, ops[0]);
      if r.Done? && Inv(r.state) {
        RunExact(b, r.state, ops[1..]);
      }
    }
  }

  /** A run that stayed in step, shut down, has emptied everything and said goodbye for what was live. */
  lemma RunThenShutdown(b: Build, s: State, ops: seq<Op>)
    requires Inv(s) && Guarded(b, s, ops)
    ensures Run(b, s, ops).Done? && Inv(Run(b, s, ops).state)
    ensures forall role: Role, k | k in Names(Run(b, s, ops).state.At(role).names) ::
              k in Run(b, s, ops).state.At(role).names
    ensures var t, r := Run(b, s, ops).state, Run(b, s, ops + [ShutDown]);
            && r.Done? && r.state.pubs == Side(map[], map[]) && r.state.subs == Side(map[], map[])
            && r.state.log == t.log + Farewell(t, Publisher, Names(t.pubs.names))
                                    + Farewell(t, Subscriber, Names(t.subs.names))
  {
    RunExact(b, s, ops);
    RunSnoc(b, s, ops, ShutDown);
    ShutdownIs(Run(b, s, ops).state);
    hide Run, Inv, Shutdown, Names, Farewell;
  }

  lemma {:induction false} RunSnoc(b: Build, s: State, ops: seq<Op>, op: Op)
    requires Run(b, s, ops).Done?
    ensures Run(b, s, ops + [op]) == Apply(b, Run(b, s, ops).state, op)
    decreases |ops|
  {
    hide Apply;
    if ops == [] {
      assert ops + [op] == [op] && [op][1..] == [];
    } else {
      assert (ops + [op])[1..] == ops[1..] + [op];
      RunSnoc(b, Apply(b, s, ops[0]).state, ops[1..], op);
    }
  }

  // ---------------------------------------------------------------- with no guard at all

  /** Every name is recorded under its remapped topic, whether or not the live topics are in step. */
  ghost predicate BothCurrent(s: State) {
    Current(s.remaps, s.pubs) && Current(s.remaps, s.subs)
  }

  lemma EnterLogged(s: State, role: Role, name: Str, e: Endpoint)
    requires Logged(s)
    ensures Logged(Enter(s, role, name, e))
  {
    hide Logged;
    UpdateLogged(s, role, Enter(s, role, name, e).At(role), e.topic, true);
  }

  lemma LeaveLogged(s: State, role: Role, name: Str)
    requires Logged(s) && name in s.At(role).names
    ensures Logged(Leave(s, role, name))
  {
    hide Logged;
    UpdateLogged(s, role, Leave(s, role, name).At(role), s.At(role).names[name], false);
  }

  /** A finished move has the effect of Moved, in either build. */
  lemma MoveAny(b: Build, s: State, role: Role, name: Str, current: Str)
    ensures var r := Move(b, s, role, name, current);
            && r != Stopped(NotRemapped)
            && (r.Done? ==>
                 && SameElse(s, r.state, role)
                 && r.state.At(role).names == s.At(role).names[name := Remap(s.remaps, name)]
                 && (Logged(s) ==> Logged(r.state)))
  {
    hide Remap, Logged;
    var r, names := Move(b, s, role, name, current), s.At(role).names;
    if r.Done? {
      var u := Leave(s, role, name);
      var callback := if role.Publisher? then None else s.subs.live[current].callback;
      var e := Endpoint(Remap(s.remaps, name), callback);
      assert r.state == Enter(u, role, name, e);
      assert (names - {name})[name := Remap(s.remaps, name)] == names[name := Remap(s.remaps, name)];
      if Logged(s) {
        LeaveLogged(s, role, name);
        EnterLogged(u, role, name, e);
      }
    }
  }

  lemma {:induction false} RefreshAny(b: Build, s: State, role: Role, copy: map<Str, Str>, keys: seq<Str>)
    requires Distinct(keys) && forall k | k in keys :: k in copy
    requires forall n | n in s.At(role).names ::
               s.At(role).names[n] == if n in keys then copy[n] else Remap(s.remaps, n)
    ensures var r := RefreshNames(b, s, role, copy, keys);
            && r != Stopped(NotRemapped)
            && (r.Done? ==> SameElse(s, r.state, role) && Current(s.remaps, r.state.At(role)))
            && (r.Done? && Logged(s) ==> Logged(r.state))
    decreases |keys|
  {
    hide Remap, Move, Logged;
    if keys != [] {
      var name := keys[0];
      FirstOnly(keys);
      assert keys == [name] + keys[1..];
      if Remap(s.remaps, name) == copy[name] {
        RefreshAny(b, s, role, copy, keys[1..]);
      } else {
        MoveAny(b, s, role, name, copy[name]);
        var r := Move(b, s, role, name, copy[name]);
        if r.Done? {
          RefreshAny(b, r.state, role, copy, keys[1..]);
        }
      }
    }
  }

  lemma RefreshSideAny(b: Build, s: State, role: Role)
    ensures var r := RefreshSide(b, s, role);
            && r != Stopped(NotRemapped)
            && (r.Done? ==> SameElse(s, r.state, role) && Current(s.remaps, r.state.At(role)))
            && (r.Done? && Logged(s) ==> Logged(r.state))
  {
    var m := s.At(role).names;
    NamesIs(m);
    NamesDistinct(m);
    hide Remap, RefreshNames, Names, Logged;
    RefreshAny(b, s, role, m, Names(m));
  }

  lemma RefreshBoth(b: Build, s: State)
    ensures var r := Refresh(b, s);
            && r != Stopped(NotRemapped)
            && (r.Done? ==> BothCurrent(r.state) && r.state.uri == s.uri)
            && (r.Done? && Logged(s) ==> Logged(r.state))
  {
    hide RefreshSide, Remap, Logged;
    RefreshSideAny(b, s, Publisher);
    var r := RefreshSide(b, s, Publisher);
    if r.Done? {
      RefreshSideAny(b, r.state, Subscriber);
    }
  }

  lemma UnregisterAny(s: State, role: Role, name: Str)
    requires BothCurrent(s)
    ensures var r := Unregister(s, role, name);
            && r != Stopped(NotRemapped)
            && (r.Done? ==> BothCurrent(r.state) && r.state.uri == s.uri)
            && (r.Done? && Logged(s) ==> Logged(r.state))
  {
    hide Remap, Logged;
    if name in s.At(role).names && Logged(s) {
      LeaveLogged(s, role, name);
    }
  }

  lemma {:induction false} UnregisterAllAny(s: State, role: Role, keys: seq<Str>)
    requires BothCurrent(s)
    ensures var r := UnregisterAll(s, role, keys);
            && r != Stopped(NotRemapped)
            && (r.Done? ==> BothCurrent(r.state) && r.state.uri == s.uri)
            && (r.Done? && Logged(s) ==> Logged(r.state))
    decreases |keys|
  {
    hide Logged, BothCurrent, Unregister;
    if keys != [] {
      UnregisterAny(s, role, keys[0]);
      var r := Unregister(s, role, keys[0]);
      if r.Done? {
        UnregisterAllAny(r.state, role, keys[1..]);
      }
    }
  }

  lemma ShutdownAny(s: State)
    requires BothCurrent(s)
    ensures var r := Shutdown(s);
            && r != Stopped(NotRemapped)
            && (r.Done? ==> BothCurrent(r.state) && r.state.uri == s.uri)
            && (r.Done? && Logged(s) ==> Logged(r.state))
  {
    hide UnregisterAll, BothCurrent, Sorted, Logged;
    UnregisterAllAny(s, Publisher, Sorted(s.pubs.names.Keys));
    var r := UnregisterAll(s, Publisher, Sorted(s.pubs.names.Keys));
    if r.Done? {
      UnregisterAllAny(r.state, Subscriber, Sorted(r.state.subs.names.Keys));
    }
  }

  lemma RegisterAny(b: Build, s: State, name: Str, callback: Option<nat>)
    requires BothCurrent(s)
    ensures var r := RegisterPublication(b, s, name);
            && r != Stopped(NotRemapped)
            && (r.Done? ==> BothCurrent(r.state) && r.state.uri == s.uri)
            && (r.Done? && Logged(s) ==> Logged(r.state))
    ensures var r := Subscribe(b, s, name, callback);
            && r != Stopped(NotRemapped)
            && (r.Done? ==> BothCurrent(r.state) && r.state.uri == s.uri)
            && (r.Done? && Logged(s) ==> Logged(r.state))
  {
    hide Remap, Logged;
    if Logged(s) {
      EnterLogged(s, Publisher, name, Endpoint(Remap(s.remaps, name), None));
      EnterLogged(s, Subscriber, name, Endpoint(Remap(s.remaps, name), callback));
    }
  }

  lemma PublishAny(b: Build, s: State, name: Str, msg: nat)
    requires BothCurrent(s)
    ensures var r := Publish(b, s, name, msg);
            && r != Stopped(NotRemapped)
            && (r.Done? ==> BothCurrent(r.state) && r.state.uri == s.uri)
            && (r.Done? && Logged(s) ==> Logged(r.state))
  {
    hide Remap;
    RegisterAny(b, s, name, None);
    SendLogged(s, name, msg);
    var r := RegisterPublication(b, s, name);
    if r.Done? {
      SendLogged(r.state, name, msg);
    }
    hide Logged;
  }

  lemma SendLogged(s: State, name: Str, msg: nat)
    ensures Logged(s) ==> Logged(s.(sent := s.sent + if name in s.pubs.names then [(s.pubs.names[name], msg)] else []))
  {
    var t := s.(sent := s.sent + if name in s.pubs.names then [(s.pubs.names[name], msg)] else []);
    assert forall role: Role :: t.At(role) == s.At(role);
  }

  lemma RulesAny(b: Build, s: State, remaps: map<Str, Str>)
    ensures var r := Refresh(b, s.(remaps := remaps));
            && r != Stopped(NotRemapped)
            && (r.Done? ==> BothCurrent(r.state) && r.state.uri == s.uri)
            && (r.Done? && Logged(s) ==> Logged(r.state))
  {
    hide Refresh;
    var t := s.(remaps := remaps);
    RefreshBoth(b, t);
    if Logged(s) {
      assert Logged(t) by {
        assert forall role: Role :: t.At(role) == s.At(role);
      }
    }
    hide Logged;
  }

  lemma StepAny(b: Build, s: State, op: Op)
    requires BothCurrent(s)
    ensures var r := Apply(b, s, op);
            && r != Stopped(NotRemapped)
            && (r.Done? ==> BothCurrent(r.state) && r.state.uri == s.uri)
            && (r.Done? && Logged(s) ==> Logged(r.state))
  {
    hide BothCurrent, Logged, RegisterPublication, Unregister, Subscribe, Publish, Refresh, Shutdown;
    match op
    case RegisterName(name) => RegisterAny(b, s, name, None);
    case UnregisterName(role, name) => UnregisterAny(s, role, name);
    case SubscribeName(name, callback) => RegisterAny(b, s, name, callback);
    case PublishTo(name, msg) => PublishAny(b, s, name, msg);
    case AddRule(find, replace) => RulesAny(b, s, s.remaps[find := replace]);
    case SetRules(from, to) =>
      if |from| <= |to| {
        RulesAny(b, s, RuleMap(from, to));
      }
    case ShutDown => ShutdownAny(s);
  }

  /** In every run, clean or not, in either build, the comparisons of a recorded topic with the remapped
      name succeed, and the calls made to the master describe exactly what is live. */
  lemma {:induction false} EveryRun(b: Build, s: State, ops: seq<Op>)
    requires BothCurrent(s) && Logged(s)
    ensures Run(b, s, ops) != Stopped(NotRemapped)
    ensures Run(b, s, ops).Done? ==>
              var t := Run(b, s, ops).state;
              BothCurrent(t) && Logged(t) && t.uri == s.uri
    decreases |ops|
  {
    hide Apply, BothCurrent, Logged;
    if ops != [] {
      StepAny(b, s, ops[0]);
      var r := Apply(b, s, ops[0]);
      if r.Done? {
        EveryRun(b, r.state, ops[1..]);
      }
    }
  }
}
