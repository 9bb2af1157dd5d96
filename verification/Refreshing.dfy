/** What refreshRemaps does to a name map that it rewrites one name at a time, and exactly when the
    transient collisions of that loop are harmless. */
module Refreshing {
  import opened Bytes
  import opened Ordering
  import opened Topics

  /** The names of a map in the order the loop visits them. */
  ghost function Names(m: map<Str, Str>): (all: seq<Str>)
    ensures forall k :: k in all <==> k in m
    ensures forall i, j | 0 <= i < j < |all| :: all[i] != all[j]
  {
    SortedIs(m.Keys);
    var all := Sorted(m.Keys);
    assert forall i, j | 0 <= i < j < |all| :: all[i] != all[j] by {
      forall i, j | 0 <= i < j < |all| ensures all[i] != all[j] {
        LexIrreflexive(all[i]);
        assert LexLess(all[i], all[j]);
      }
    }
    all
  }

  /** When name number i is moved, its new topic must not be the new topic of an earlier name nor
      the old topic of a later one. */
  ghost predicate CleanAt(remaps: map<Str, Str>, m: map<Str, Str>, i: nat)
    requires i < |Names(m)|
  {
    var all := Names(m);
    var t := Remap(remaps, all[i]);
    t != m[all[i]] ==>
      (forall j | 0 <= j < i :: Remap(remaps, all[j]) != t) &&
      (forall j | i < j < |all| :: m[all[j]] != t)
  }

  ghost predicate CleanBelow(remaps: map<Str, Str>, m: map<Str, Str>, n: nat)
    requires n <= |Names(m)|
  {
    forall i | 0 <= i < n :: CleanAt(remaps, m, i)
  }

  /** The order-dependent condition on a whole name map. */
  ghost predicate Clean(remaps: map<Str, Str>, m: map<Str, Str>) {
    CleanBelow(remaps, m, |Names(m)|)
  }

  ghost predicate Injective(m: map<Str, Str>) {
    forall a, b | a in m && b in m && m[a] == m[b] :: a == b
  }

  /** The topic of name number j once the first i names have been processed. */
  ghost function TopicAt(remaps: map<Str, Str>, m: map<Str, Str>, i: nat, j: nat): Str
    requires j < |Names(m)|
  {
    if j < i then Remap(remaps, Names(m)[j]) else m[Names(m)[j]]
  }

  // ---------------------------------------------------------------- the loop without assertions

  /** One round of the loop. */
  ghost function Round(s: State, role: Role, m: map<Str, Str>, name: Str): State
    requires name in m
  {
    if Remap(s.remaps, name) == m[name] then s else
    match Move(Release, s, role, name, m[name])
    case Done(s') => s'
    case Stopped(_) => s
  }

  ghost function StateAt(s: State, role: Role, i: nat): State
    requires i <= |Names(s.At(role).names)|
  {
    if i == 0 then s else Round(StateAt(s, role, i - 1), role, s.At(role).names, Names(s.At(role).names)[i - 1])
  }

  function Other(role: Role): Role {
    if role.Publisher? then Subscriber else Publisher
  }

  function NewCallback(role: Role, e: Endpoint): Option<nat> {
    if role.Publisher? then None else e.callback
  }

  /** The state after re-registering a name under its new topic. */
  function Moved(s: State, role: Role, name: Str): State
    requires name in s.At(role).names && s.At(role).names[name] in s.At(role).live
  {
    var e := Endpoint(Remap(s.remaps, name), NewCallback(role, s.At(role).live[s.At(role).names[name]]));
    Enter(Leave(s, role, name), role, name, e)
  }

  /** In step, and with a URI if there is anything to refresh. */
  ghost predicate Ready(s: State, role: Role) {
    Consistent(s.At(role)) && Addressed(s, role)
  }

  lemma NameNeedsUri(s: State, role: Role, i: nat)
    requires Addressed(s, role) && i < |Names(s.At(role).names)|
    ensures s.uri != []
  {
    assert Names(s.At(role).names)[i] in s.At(role).names;
  }

  lemma MoveRelease(s: State, role: Role, name: Str, current: Str)
    requires s.uri != []
    requires name in s.At(role).names && s.At(role).names[name] == current && current in s.At(role).live
    ensures Move(Release, s, role, name, current) == Done(Moved(s, role, name))
  {
  }

  lemma MovedIs(s: State, role: Role, name: Str)
    requires name in s.At(role).names && s.At(role).names[name] in s.At(role).live
    ensures var t, previous := Remap(s.remaps, name), s.At(role).names[name];
            var side, side' := s.At(role), Moved(s, role, name).At(role);
            && side'.names == side.names[name := t]
            && side'.live == (side.live - {previous})[t := Endpoint(t, NewCallback(role, side.live[previous]))]
            && SameElse(s, Moved(s, role, name), role)
  {
    hide Remap;
    var names, t := s.At(role).names, Remap(s.remaps, name);
    assert (names - {name})[name := t] == names[name := t];
  }

  lemma MovedLogged(s: State, role: Role, name: Str)
    requires name in s.At(role).names && s.At(role).names[name] in s.At(role).live
    requires Logged(s)
    ensures Logged(Moved(s, role, name))
  {
    hide Remap, Logged;
    var left := Leave(s, role, name);
    var t := Remap(s.remaps, name);
    UpdateLogged(s, role, left.At(role), s.At(role).names[name], false);
    UpdateLogged(left, role, Moved(s, role, name).At(role), t, true);
  }

  /** After i rounds the first i names have their new topics, and the rest have their old, live ones. */
  ghost predicate Reached(s: State, role: Role, m: map<Str, Str>, i: nat)
    requires i <= |Names(m)|
  {
    var side, all := s.At(role), Names(m);
    && side.names.Keys == m.Keys
    && (forall j | 0 <= j < |all| :: side.names[all[j]] == TopicAt(s.remaps, m, i, j))
    && (forall j | i <= j < |all| :: m[all[j]] in side.live)
  }

  ghost predicate SameElse(s: State, t: State, role: Role) {
    t.uri == s.uri && t.remaps == s.remaps && t.sent == s.sent && t.At(Other(role)) == s.At(Other(role))
  }

  lemma MovedReaches(s: State, role: Role, m: map<Str, Str>, i: nat)
    requires Injective(m) && i < |Names(m)| && Reached(s, role, m, i)
    requires m[Names(m)[i]] != Remap(s.remaps, Names(m)[i])
    ensures Reached(Moved(s, role, Names(m)[i]), role, m, i + 1)
  {
    hide Remap, Names;
    var all := Names(m);
    var name := all[i];
    MovedIs(s, role, name);
    var side, side' := s.At(role), Moved(s, role, name).At(role);
    hide Moved;
    assert side'.names.Keys == m.Keys;
    forall j | 0 <= j < |all| ensures side'.names[all[j]] == TopicAt(s.remaps, m, i + 1, j) {
      assert side.names[all[j]] == TopicAt(s.remaps, m, i, j);
      assert j != i ==> all[j] != name;
    }
    forall j | i + 1 <= j < |all| ensures m[all[j]] in side'.live {
      assert m[all[j]] in side.live && all[j] != name;
    }
  }

  lemma RoundReaches(s: State, role: Role, m: map<Str, Str>, i: nat)
    requires s.uri != [] && Injective(m) && i < |Names(m)| && Reached(s, role, m, i)
    ensures var s' := Round(s, role, m, Names(m)[i]);
            Reached(s', role, m, i + 1) && SameElse(s, s', role) && (Logged(s) ==> Logged(s'))
  {
    hide Remap, Logged, Names;
    var name := Names(m)[i];
    if Remap(s.remaps, name) != m[name] {
      assert s.At(role).names[name] == TopicAt(s.remaps, m, i, i);
      MoveRelease(s, role, name, m[name]);
      MovedIs(s, role, name);
      MovedReaches(s, role, m, i);
      if Logged(s) {
        MovedLogged(s, role, name);
      }
      hide Moved, Move, Reached;
    }
  }

  lemma ConsistentInjective(side: Side)
    requires Consistent(side)
    ensures Injective(side.names)
  {
  }

  lemma StartReached(s: State, role: Role)
    requires Ready(s, role)
    ensures Reached(s, role, s.At(role).names, 0) && SameElse(s, s, role)
  {
    hide Remap, Names;
  }

  lemma SameElseTransitive(s: State, t: State, u: State, role: Role)
    requires SameElse(s, t, role) && SameElse(t, u, role)
    ensures SameElse(s, u, role)
  {
  }

  lemma {:induction false} StatesReached(s: State, role: Role, i: nat)
    requires Ready(s, role) && i <= |Names(s.At(role).names)|
    ensures var t := StateAt(s, role, i);
            Reached(t, role, s.At(role).names, i) && SameElse(s, t, role) && (Logged(s) ==> Logged(t))
  {
    hide Remap, Logged, Names, Round, Reached, Consistent;
    if i == 0 {
      StartReached(s, role);
    } else {
      ConsistentInjective(s.At(role));
      NameNeedsUri(s, role, i - 1);
      StatesReached(s, role, i - 1);
      RoundReaches(StateAt(s, role, i - 1), role, s.At(role).names, i - 1);
      SameElseTransitive(s, StateAt(s, role, i - 1), StateAt(s, role, i), role);
    }
  }

  lemma {:induction false} LoopIsStates(s: State, role: Role, i: nat)
    requires Ready(s, role) && i <= |Names(s.At(role).names)|
    ensures var m := s.At(role).names;
            RefreshNames(Release, StateAt(s, role, i), role, m, Names(m)[i..]) == Done(StateAt(s, role, |Names(m)|))
    decreases |Names(s.At(role).names)| - i
  {
    var m := s.At(role).names;
    var all := Names(m);
    if i < |all| {
      StatesReached(s, role, i);
      LoopIsStates(s, role, i + 1);
      var t := StateAt(s, role, i);
      assert all[i..][0] == all[i] && all[i..][1..] == all[i + 1..];
      assert StateAt(s, role, i + 1) == Round(t, role, m, all[i]);
      if Remap(t.remaps, all[i]) != m[all[i]] {
        MoveRelease(t, role, all[i], m[all[i]]);
        hide Moved, Move;
      }
    }
  }

  /** The state after the whole loop. */
  ghost function Refreshed(s: State, role: Role): State {
    StateAt(s, role, |Names(s.At(role).names)|)
  }

  lemma AllReached(t: State, role: Role, m: map<Str, Str>)
    requires Reached(t, role, m, |Names(m)|)
    ensures t.At(role).names == map n | n in m :: Remap(t.remaps, n)
  {
    hide Remap;
    var all := Names(m);
    forall n | n in m ensures t.At(role).names[n] == Remap(t.remaps, n) {
      var j :| 0 <= j < |all| && all[j] == n;
      assert t.At(role).names[all[j]] == TopicAt(t.remaps, m, |all|, j);
    }
  }

  /** Without assertions the loop always finishes, with every name at its new topic. */
  lemma ReleaseFinishes(s: State, role: Role)
    requires Ready(s, role)
    ensures RefreshSide(Release, s, role) == Done(Refreshed(s, role))
    ensures var t := Refreshed(s, role);
            && t.At(role).names == (map n | n in s.At(role).names :: Remap(s.remaps, n))
            && SameElse(s, t, role) && (Logged(s) ==> Logged(t))
  {
    var m := s.At(role).names;
    assert StateAt(s, role, 0) == s;
    hide Remap, Consistent, Logged, Reached, StateAt, RefreshNames;
    LoopIsStates(s, role, 0);
    assert Names(m)[0..] == Names(m);
    StatesReached(s, role, |Names(m)|);
    AllReached(Refreshed(s, role), role, m);
  }

  // ---------------------------------------------------------------- clean: the maps stay in step

  /** The topic a name moves to is not live, apart from the name's own one. */
  ghost predicate Free(side: Side, name: Str, topic: Str)
    requires name in side.names
  {
    topic !in side.live || topic == side.names[name]
  }

  ghost predicate KeepsCallbacks(before: Side, after: Side) {
    forall n | n in before.names && n in after.names &&
               before.names[n] in before.live && after.names[n] in after.live ::
      after.live[after.names[n]].callback == before.live[before.names[n]].callback
  }

  lemma MovedConsistent(s: State, role: Role, name: Str)
    requires name in s.At(role).names && Consistent(s.At(role))
    requires Free(s.At(role), name, Remap(s.remaps, name))
    ensures Consistent(Moved(s, role, name).At(role))
    ensures role.Subscriber? ==> KeepsCallbacks(s.At(role), Moved(s, role, name).At(role))
  {
    hide Remap, Moved;
    MovedIs(s, role, name);
    var t, previous := Remap(s.remaps, name), s.At(role).names[name];
    var side, side' := s.At(role), Moved(s, role, name).At(role);
    forall u | u in side'.live ensures exists n :: n in side'.names && side'.names[n] == u {
      if u == t {
        assert side'.names[name] == u;
      } else {
        var n :| n in side.names && side.names[n] == u;
        assert side'.names[n] == u;
      }
    }
  }

  /** In a consistent state reached on the way, a name's new topic is free iff the name is clean. */
  lemma FreeIsClean(s: State, role: Role, m: map<Str, Str>, i: nat)
    requires Injective(m) && i < |Names(m)| && CleanBelow(s.remaps, m, i)
    requires Reached(s, role, m, i) && Consistent(s.At(role))
    ensures var name := Names(m)[i];
            name in s.At(role).names && (Free(s.At(role), name, Remap(s.remaps, name)) <==> CleanAt(s.remaps, m, i))
  {
    hide Remap, Names, CleanBelow;
    var all, side := Names(m), s.At(role);
    var name, t := all[i], Remap(s.remaps, all[i]);
    assert side.names[name] == TopicAt(s.remaps, m, i, i);
    if t in side.live && t != m[name] {
      var n :| n in side.names && side.names[n] == t;
      var j :| 0 <= j < |all| && all[j] == n;
      assert side.names[all[j]] == TopicAt(s.remaps, m, i, j);
    } else if t != m[name] {
      forall j | 0 <= j < |all| ensures TopicAt(s.remaps, m, i, j) != t {
        assert side.names[all[j]] in side.live;
      }
      forall j | 0 <= j < i ensures Remap(s.remaps, all[j]) != t {
        assert TopicAt(s.remaps, m, i, j) != t;
      }
      forall j | i < j < |all| ensures m[all[j]] != t {
        assert TopicAt(s.remaps, m, i, j) != t;
      }
    }
  }

  lemma KeepsItself(side: Side)
    ensures KeepsCallbacks(side, side)
  {
  }

  /** As long as the names so far were clean, the maps are in step and the callbacks are the original ones. */
  lemma {:induction false} StatesConsistent(s: State, role: Role, i: nat)
    requires Ready(s, role) && i <= |Names(s.At(role).names)|
    requires CleanBelow(s.remaps, s.At(role).names, i)
    ensures Consistent(StateAt(s, role, i).At(role))
    ensures role.Subscriber? ==> KeepsCallbacks(s.At(role), StateAt(s, role, i).At(role))
  {
    hide Remap, Names, Reached, CleanAt, Consistent, KeepsCallbacks, CleanBelow, Round, SameElse;
    if i == 0 {
      KeepsItself(s.At(role));
    } else {
      CleanFirst(s.remaps, s.At(role).names, i - 1);
      StatesConsistent(s, role, i - 1);
      StatesReached(s, role, i - 1);
      RoundConsistent(StateAt(s, role, i - 1), s, role, i - 1);
      assert StateAt(s, role, i) ==
             Round(StateAt(s, role, i - 1), role, s.At(role).names, Names(s.At(role).names)[i - 1]);
    }
  }

  /** A clean name that changes moves to a free topic. */
  lemma RoundFree(t: State, role: Role, m: map<Str, Str>, i: nat)
    requires Injective(m) && i < |Names(m)| && CleanBelow(t.remaps, m, i) && CleanAt(t.remaps, m, i)
    requires Reached(t, role, m, i) && Consistent(t.At(role))
    ensures var name := Names(m)[i];
            && name in t.At(role).names && t.At(role).names[name] == m[name] && m[name] in t.At(role).live
            && t.At(role).names.Keys == m.Keys
            && (forall n | n in t.At(role).names :: t.At(role).names[n] in t.At(role).live)
            && Free(t.At(role), name, Remap(t.remaps, name))
  {
    hide CleanBelow, CleanAt, Names, Remap, Free;
    FreeIsClean(t, role, m, i);
    assert forall n | n in t.At(role).names :: t.At(role).names[n] in t.At(role).live;
    assert t.At(role).names[Names(m)[i]] == TopicAt(t.remaps, m, i, i);
  }

  lemma KeepsTransitive(a: Side, b: Side, c: Side)
    requires KeepsCallbacks(a, b) && KeepsCallbacks(b, c)
    requires a.names.Keys == b.names.Keys && forall n | n in b.names :: b.names[n] in b.live
    ensures KeepsCallbacks(a, c)
  {
  }

  /** A round that moves a name to a free topic. */
  lemma RoundMoves(t: State, role: Role, m: map<Str, Str>, name: Str)
    requires t.uri != [] && Consistent(t.At(role)) && name in m && name in t.At(role).names
    requires t.At(role).names[name] == m[name] && m[name] in t.At(role).live
    requires Remap(t.remaps, name) != m[name] && Free(t.At(role), name, Remap(t.remaps, name))
    ensures var t' := Round(t, role, m, name);
            Consistent(t'.At(role)) && (role.Subscriber? ==> KeepsCallbacks(t.At(role), t'.At(role)))
  {
    MovedConsistent(t, role, name);
    MoveRelease(t, role, name, m[name]);
    hide Moved, Move, Remap, Consistent, KeepsCallbacks, Free;
  }

  lemma CleanFirst(remaps: map<Str, Str>, m: map<Str, Str>, i: nat)
    requires i < |Names(m)| && CleanBelow(remaps, m, i + 1)
    ensures CleanBelow(remaps, m, i) && CleanAt(remaps, m, i)
  {
  }

  lemma RoundConsistent(t: State, s: State, role: Role, i: nat)
    requires Ready(s, role) && i < |Names(s.At(role).names)|
    requires CleanBelow(s.remaps, s.At(role).names, i + 1)
    requires Reached(t, role, s.At(role).names, i) && SameElse(s, t, role) && Consistent(t.At(role))
    requires role.Subscriber? ==> KeepsCallbacks(s.At(role), t.At(role))
    ensures var t' := Round(t, role, s.At(role).names, Names(s.At(role).names)[i]);
            Consistent(t'.At(role)) && (role.Subscriber? ==> KeepsCallbacks(s.At(role), t'.At(role)))
  {
    var m := s.At(role).names;
    var name := Names(m)[i];
    hide CleanBelow, CleanAt, Names, Remap, Free, KeepsCallbacks, Consistent, Reached, Move;
    CleanFirst(s.remaps, m, i);
    if Remap(s.remaps, name) != m[name] {
      ConsistentInjective(s.At(role));
      RoundFree(t, role, m, i);
      RoundMoves(t, role, m, name);
      hide Round;
      if role.Subscriber? {
        KeepsTransitive(s.At(role), t.At(role), Round(t, role, m, name).At(role));
      }
    }
  }

  // ---------------------------------------------------------------- not clean: a topic is lost

  /** One round of the loop, seen from its start. */
  lemma RoundIs(s: State, role: Role, i: nat)
    requires Ready(s, role) && i < |Names(s.At(role).names)|
    ensures var m, t := s.At(role).names, StateAt(s, role, i);
            var name := Names(m)[i];
            && t.remaps == s.remaps
            && name in t.At(role).names && t.At(role).names[name] == m[name] && m[name] in t.At(role).live
            && StateAt(s, role, i + 1) == if Remap(s.remaps, name) == m[name] then t else Moved(t, role, name)
  {
    hide Remap, Names, Moved, Move;
    var m, t := s.At(role).names, StateAt(s, role, i);
    var name := Names(m)[i];
    StatesReached(s, role, i);
    assert t.At(role).names[name] == TopicAt(t.remaps, m, i, i);
    MoveRelease(t, role, name, m[name]);
    hide Reached;
    assert StateAt(s, role, i + 1) == Round(t, role, m, name);
  }

  /** A topic that is not live, and that no later name moves to, stays out. */
  lemma {:induction false} GoneStays(s: State, role: Role, topic: Str, from: nat, i: nat)
    requires Ready(s, role) && from <= i <= |Names(s.At(role).names)|
    requires topic !in StateAt(s, role, from).At(role).live
    requires forall l | from <= l < i :: Remap(s.remaps, Names(s.At(role).names)[l]) != topic
    ensures topic !in StateAt(s, role, i).At(role).live
    decreases i
  {
    hide Remap, Names, Moved, Move, Consistent, StateAt;
    if from < i {
      GoneStays(s, role, topic, from, i - 1);
      RoundIs(s, role, i - 1);
      var name := Names(s.At(role).names)[i - 1];
      if Remap(s.remaps, name) != s.At(role).names[name] {
        MovedIs(StateAt(s, role, i - 1), role, name);
      }
    }
  }

  /** Moving a name takes its old topic away. */
  lemma RoundDrops(s: State, role: Role, i: nat)
    requires Ready(s, role) && i < |Names(s.At(role).names)|
    requires var name := Names(s.At(role).names)[i]; Remap(s.remaps, name) != s.At(role).names[name]
    ensures s.At(role).names[Names(s.At(role).names)[i]] !in StateAt(s, role, i + 1).At(role).live
  {
    hide Remap, Names, Moved, Move, Consistent, StateAt;
    RoundIs(s, role, i);
    MovedIs(StateAt(s, role, i), role, Names(s.At(role).names)[i]);
  }

  lemma LostTopic(s: State, role: Role, j: nat)
    requires Ready(s, role) && j < |Names(s.At(role).names)|
    requires var all, m := Names(s.At(role).names), s.At(role).names;
             forall l | j <= l < |all| :: Remap(s.remaps, all[l]) != m[all[j]]
    ensures s.At(role).names[Names(s.At(role).names)[j]] !in Refreshed(s, role).At(role).live
  {
    hide Remap, Names, StateAt, Consistent;
    RoundDrops(s, role, j);
    GoneStays(s, role, s.At(role).names[Names(s.At(role).names)[j]], j + 1, |Names(s.At(role).names)|);
  }

  lemma NewTopicsDistinct(s: State, role: Role, j: nat, l: nat)
    requires Ready(s, role) && Consistent(Refreshed(s, role).At(role))
    requires j < l < |Names(s.At(role).names)|
    ensures Remap(s.remaps, Names(s.At(role).names)[j]) != Remap(s.remaps, Names(s.At(role).names)[l])
  {
    ReleaseFinishes(s, role);
    var all := Names(s.At(role).names);
    hide Remap, Names, Refreshed, RefreshSide, SameElse, Logged;
    var names := Refreshed(s, role).At(role).names;
    assert names[all[j]] == Remap(s.remaps, all[j]) && names[all[l]] == Remap(s.remaps, all[l]);
  }

  lemma NewTopicLive(s: State, role: Role, i: nat)
    requires Ready(s, role) && Consistent(Refreshed(s, role).At(role))
    requires i < |Names(s.At(role).names)|
    ensures Remap(s.remaps, Names(s.At(role).names)[i]) in Refreshed(s, role).At(role).live
  {
    ReleaseFinishes(s, role);
    var all := Names(s.At(role).names);
    hide Remap, Names, Refreshed, RefreshSide, SameElse, Logged;
    var names := Refreshed(s, role).At(role).names;
    assert names[all[i]] == Remap(s.remaps, all[i]);
  }

  /** If the loop ends with everything in step then it was clean: otherwise two names share a topic, or
      the topic some name moved to was then taken away with a later name that had it before. */
  lemma InStepIsClean(s: State, role: Role, i: nat)
    requires Ready(s, role) && Consistent(Refreshed(s, role).At(role))
    requires i < |Names(s.At(role).names)|
    ensures CleanAt(s.remaps, s.At(role).names, i)
  {
    var m, all := s.At(role).names, Names(s.At(role).names);
    hide Remap, Names, Refreshed, Consistent;
    NewTopicLive(s, role, i);
    forall j, l | 0 <= j < l < |all| ensures Remap(s.remaps, all[j]) != Remap(s.remaps, all[l]) {
      NewTopicsDistinct(s, role, j, l);
    }
    forall j | i < j < |all| && Remap(s.remaps, all[i]) != m[all[i]] ensures m[all[j]] != Remap(s.remaps, all[i]) {
      if m[all[j]] == Remap(s.remaps, all[i]) {
        LostTopic(s, role, j);
      }
    }
  }

  /** Exactly when a refresh without assertions leaves the maps of a role in step; it then keeps every
      subscription's callback. */
  lemma RefreshExact(s: State, role: Role)
    requires Ready(s, role)
    ensures RefreshSide(Release, s, role) == Done(Refreshed(s, role))
    ensures Consistent(Refreshed(s, role).At(role)) <==> Clean(s.remaps, s.At(role).names)
    ensures Clean(s.remaps, s.At(role).names) && role.Subscriber? ==>
              KeepsCallbacks(s.At(role), Refreshed(s, role).At(role))
  {
    var m := s.At(role).names;
    ReleaseFinishes(s, role);
    if Clean(s.remaps, m) {
      StatesConsistent(s, role, |Names(m)|);
    }
    if Consistent(Refreshed(s, role).At(role)) {
      forall i | 0 <= i < |Names(m)| ensures CleanAt(s.remaps, m, i) {
        InStepIsClean(s, role, i);
      }
    }
  }

  /** Exchanging the topics of two names is never clean, whichever name comes first. */
  lemma SwapIsNotClean(remaps: map<Str, Str>, m: map<Str, Str>, a: Str, b: Str)
    requires a in m && b in m && m[a] != m[b]
    requires Remap(remaps, a) == m[b] && Remap(remaps, b) == m[a]
    ensures !Clean(remaps, m)
  {
    hide Remap, Names;
    var all := Names(m);
    var i :| 0 <= i < |all| && all[i] == a;
    var j :| 0 <= j < |all| && all[j] == b;
    assert !CleanAt(remaps, m, if i < j then i else j);
  }

  // ---------------------------------------------------------------- with assertions

  /** When subscription number i is moved, its new topic must not be spelled like another name. */
  ghost predicate KeyCleanAt(remaps: map<Str, Str>, m: map<Str, Str>, i: nat)
    requires i < |Names(m)|
  {
    var name := Names(m)[i];
    Remap(remaps, name) != m[name] ==> Remap(remaps, name) !in m.Keys - {name}
  }

  ghost predicate PassesFrom(remaps: map<Str, Str>, m: map<Str, Str>, i: nat)
    requires i <= |Names(m)|
  {
    forall j | i <= j < |Names(m)| :: CleanAt(remaps, m, j) && KeyCleanAt(remaps, m, j)
  }

  lemma MoveDebugSubscriber(s: State, name: Str, current: Str)
    requires s.uri != []
    requires name in s.subs.names && s.subs.names[name] == current && current in s.subs.live
    ensures var t, r := Remap(s.remaps, name), Move(Debug, s, Subscriber, name, current);
            r == if t in s.subs.names.Keys - {name} then Stopped(NameTaken) else
                 if Free(s.subs, name, t) then Done(Moved(s, Subscriber, name)) else Stopped(TopicTaken)
  {
    hide Remap;
  }

  ghost function DebugRest(s: State, i: nat): Result
    requires i <= |Names(s.subs.names)|
  {
    RefreshNames(Debug, StateAt(s, Subscriber, i), Subscriber, s.subs.names, Names(s.subs.names)[i..])
  }

  lemma DebugRestIs(s: State, i: nat)
    requires i < |Names(s.subs.names)|
    ensures var m, t := s.subs.names, StateAt(s, Subscriber, i);
            var name := Names(m)[i];
            DebugRest(s, i) ==
              if Remap(t.remaps, name) == m[name] then RefreshNames(Debug, t, Subscriber, m, Names(m)[i + 1..])
              else match Move(Debug, t, Subscriber, name, m[name])
                   case Stopped(why) => Stopped(why)
                   case Done(t') => RefreshNames(Debug, t', Subscriber, m, Names(m)[i + 1..])
  {
    var all := Names(s.subs.names);
    assert all[i..][0] == all[i] && all[i..][1..] == all[i + 1..];
    hide Remap, Names, StateAt, Move;
  }

  lemma DebugRound(s: State, i: nat)
    requires Ready(s, Subscriber) && i < |Names(s.subs.names)| && CleanBelow(s.remaps, s.subs.names, i)
    ensures CleanAt(s.remaps, s.subs.names, i) && KeyCleanAt(s.remaps, s.subs.names, i) ==>
              DebugRest(s, i) == DebugRest(s, i + 1)
    ensures !(CleanAt(s.remaps, s.subs.names, i) && KeyCleanAt(s.remaps, s.subs.names, i)) ==> DebugRest(s, i).Stopped?
  {
    var m, t := s.subs.names, StateAt(s, Subscriber, i);
    var name := Names(m)[i];
    StatesReached(s, Subscriber, i);
    assert t.subs.names.Keys == m.Keys;
    StatesConsistent(s, Subscriber, i);
    FreeIsClean(t, Subscriber, m, i);
    RoundIs(s, Subscriber, i);
    DebugRestIs(s, i);
    hide Reached, Consistent, StateAt, Remap, Names, Moved, CleanBelow, Logged, SameElse, KeepsCallbacks, RefreshNames;
    MoveDebugSubscriber(t, name, m[name]);
    hide Move;
  }

  lemma DebugDone(s: State)
    ensures DebugRest(s, |Names(s.subs.names)|) == Done(Refreshed(s, Subscriber))
  {
  }

  lemma {:induction false} DebugLoop(s: State, i: nat)
    requires Ready(s, Subscriber) && i <= |Names(s.subs.names)| && CleanBelow(s.remaps, s.subs.names, i)
    ensures DebugRest(s, i).Done? <==> PassesFrom(s.remaps, s.subs.names, i)
    ensures PassesFrom(s.remaps, s.subs.names, i) ==> DebugRest(s, i) == Done(Refreshed(s, Subscriber))
    decreases |Names(s.subs.names)| - i
  {
    hide Consistent, StateAt, CleanAt, KeyCleanAt, DebugRest, Names;
    var m := s.subs.names;
    if i == |Names(m)| {
      DebugDone(s);
    } else {
      DebugRound(s, i);
      if CleanAt(s.remaps, m, i) && KeyCleanAt(s.remaps, m, i) {
        DebugLoop(s, i + 1);
      }
    }
  }

  /** With assertions the refresh of the subscriptions either stops or does what it does without them;
      it stops iff the refresh is not clean or some new topic is spelled like another subscribed name. */
  lemma DebugSubscriptions(s: State)
    requires Ready(s, Subscriber)
    ensures RefreshSide(Debug, s, Subscriber).Done? <==> PassesFrom(s.remaps, s.subs.names, 0)
    ensures RefreshSide(Debug, s, Subscriber).Done? ==>
              && RefreshSide(Debug, s, Subscriber) == Done(Refreshed(s, Subscriber))
              && Consistent(Refreshed(s, Subscriber).subs)
  {
    var m := s.subs.names;
    DebugLoop(s, 0);
    assert Names(m)[0..] == Names(m);
    if PassesFrom(s.remaps, m, 0) {
      RefreshExact(s, Subscriber);
    }
  }

  /** With nothing to change, a refresh changes nothing. */
  lemma {:induction false} CurrentIsKept(b: Build, s: State, role: Role, copy: map<Str, Str>, keys: seq<Str>)
    requires forall k | k in keys :: k in copy && copy[k] == Remap(s.remaps, k)
    ensures RefreshNames(b, s, role, copy, keys) == Done(s)
    decreases |keys|
  {
    if keys != [] {
      CurrentIsKept(b, s, role, copy, keys[1..]);
    }
  }

  /** The comparison of the new topic with the copied map stops every move of a publication. */
  lemma {:induction false} DebugPublishLoop(s: State, copy: map<Str, Str>, keys: seq<Str>)
    requires forall k | k in keys :: k in copy
    ensures var r := RefreshNames(Debug, s, Publisher, copy, keys);
            && (r == Done(s) || r.Stopped?)
            && (r.Done? <==> forall k | k in keys :: copy[k] == Remap(s.remaps, k))
    decreases |keys|
  {
    hide Remap;
    if keys != [] {
      DebugPublishLoop(s, copy, keys[1..]);
      assert keys == [keys[0]] + keys[1..];
    }
  }

  /** With assertions the refresh of the publications finishes iff it has nothing to do. */
  lemma DebugPublications(s: State)
    ensures RefreshSide(Debug, s, Publisher).Done? <==> Current(s.remaps, s.pubs)
    ensures RefreshSide(Debug, s, Publisher).Done? ==> RefreshSide(Debug, s, Publisher) == Done(s)
  {
    SortedIs(s.pubs.names.Keys);
    DebugPublishLoop(s, s.pubs.names, Sorted(s.pubs.names.Keys));
  }

  /** Refreshing twice is refreshing once. */
  lemma RefreshTwice(b: Build, s: State, role: Role)
    requires Ready(s, role)
    ensures RefreshSide(b, Refreshed(s, role), role) == Done(Refreshed(s, role))
  {
    var t := Refreshed(s, role);
    ReleaseFinishes(s, role);
    var copy := t.At(role).names;
    SortedIs(copy.Keys);
    CurrentIsKept(b, t, role, copy, Sorted(copy.Keys));
  }
}
