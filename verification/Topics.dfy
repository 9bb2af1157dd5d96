/** TopicManager as a function of its state: what each operation does to the name maps, the live
    publications and subscriptions, and the calls made to the master, and where it stops. */
module Topics {
  import opened Bytes
  import opened Ordering

  // ---------------------------------------------------------------- remapping

  /** The length of the shortest prefix of `name`, at least `from` long, that is a rule. */
  function ShortestRule(remaps: map<Str, Str>, name: Str, from: nat): (r: Option<nat>)
    requires from <= |name|
    ensures r.Some? ==> from <= r.value <= |name| && name[..r.value] in remaps
    ensures r.Some? ==> forall l | from <= l < r.value :: name[..l] !in remaps
    ensures r.None? ==> forall l | from <= l <= |name| :: name[..l] !in remaps
    decreases |name| - from
  {
    if name[..from] in remaps then Some(from) else
    if from == |name| then None else ShortestRule(remaps, name, from + 1)
  }

  /** Apply the shortest matching rule, if there is one. */
  function Remap(remaps: map<Str, Str>, name: Str): Str {
    match ShortestRule(remaps, name, 0)
    case None => name
    case Some(l) => remaps[name[..l]] + name[l..]
  }

  /** The shortest rule that starts a name replaces just that start. */
  lemma RemapIs(remaps: map<Str, Str>, find: Str, rest: Str)
    requires find in remaps && forall l | 0 <= l < |find| :: find[..l] !in remaps
    ensures Remap(remaps, find + rest) == remaps[find] + rest
  {
    var name := find + rest;
    assert name[..|find|] == find && name[|find|..] == rest;
    assert forall l | 0 <= l < |find| :: name[..l] == find[..l];
  }

  /** A name that no rule starts keeps its name, and only such a name is looked up under its own. */
  lemma RemapNone(remaps: map<Str, Str>, name: Str)
    requires forall l | 0 <= l <= |name| :: name[..l] !in remaps
    ensures Remap(remaps, name) == name
  {
  }

  // ---------------------------------------------------------------- state

  datatype Role = Publisher | Subscriber

  /** One call to the master. */
  datatype Request = Request(node: Str, topic: Str, role: Role, add: bool)

  /** A Publication (no callback) or a Subscription. */
  datatype Endpoint = Endpoint(topic: Str, callback: Option<nat>)

  /** pub_map_ with publications_, or sub_map_ with subscriptions_. */
  datatype Side = Side(names: map<Str, Str>, live: map<Str, Endpoint>)

  datatype State = State(
    uri: Str,
    remaps: map<Str, Str>,
    pubs: Side,
    subs: Side,
    log: seq<Request>,
    sent: seq<(Str, nat)>)
  {
    function At(role: Role): Side {
      if role.Publisher? then pubs else subs
    }
  }

  function Initial(uri: Str): State {
    State(uri, map[], Side(map[], map[]), Side(map[], map[]), [], [])
  }

  /** With assertions compiled in, or with NDEBUG. */
  datatype Build = Debug | Release

  /** Why the process stops: no URI for the master, a failed assertion, or a null pointer or end iterator used
      without one. */
  datatype Reason = NoUri | UnknownName | UnknownTopic | TopicTaken | NameTaken | StaleCopy | NotRemapped | SizesDiffer

  datatype Result = Done(state: State) | Stopped(why: Reason)

  function Update(s: State, role: Role, side: Side, topic: Str, add: bool): State {
    var s' := if role.Publisher? then s.(pubs := side) else s.(subs := side);
    s'.(log := s.log + [Request(s.uri, topic, role, add)])
  }

  function Enter(s: State, role: Role, name: Str, e: Endpoint): State {
    var side := s.At(role);
    Update(s, role, Side(side.names[name := e.topic], side.live[e.topic := e]), e.topic, true)
  }

  function Leave(s: State, role: Role, name: Str): State
    requires name in s.At(role).names
  {
    var side := s.At(role);
    Update(s, role, Side(side.names - {name}, side.live - {side.names[name]}), side.names[name], false)
  }

  // ---------------------------------------------------------------- operations

  /** The master is called with the node's URI; without one the process stops there. */
  function RegisterPublication(b: Build, s: State, name: Str): Result {
    var topic := Remap(s.remaps, name);
    if b.Debug? && topic in s.pubs.live then Stopped(TopicTaken) else
    if s.uri == [] then Stopped(NoUri) else
    Done(Enter(s, Publisher, name, Endpoint(topic, None)))
  }

  /** The first check looks the new topic up among the unmapped names. */
  function Subscribe(b: Build, s: State, name: Str, callback: Option<nat>): Result {
    var topic := Remap(s.remaps, name);
    if b.Debug? && topic in s.subs.names then Stopped(NameTaken) else
    if b.Debug? && topic in s.subs.live then Stopped(TopicTaken) else
    if s.uri == [] then Stopped(NoUri) else
    Done(Enter(s, Subscriber, name, Endpoint(topic, callback)))
  }

  /** Only the call that unregisters a publication does not check the URI. */
  function Unregister(s: State, role: Role, name: Str): Result {
    var side := s.At(role);
    if name !in side.names then Stopped(UnknownName) else
    if side.names[name] !in side.live then Stopped(UnknownTopic) else
    if role.Subscriber? && s.uri == [] then Stopped(NoUri) else
    Done(Leave(s, role, name))
  }

  function Publish(b: Build, s: State, name: Str, msg: nat): Result {
    if name !in s.pubs.names then
      match RegisterPublication(b, s, name)
      case Stopped(why) => Stopped(why)
      case Done(s') => Send(s', name, msg)
    else if b.Debug? && s.pubs.names[name] != Remap(s.remaps, name) then Stopped(NotRemapped)
    else Send(s, name, msg)
  }

  function Send(s: State, name: Str, msg: nat): Result
    requires name in s.pubs.names
  {
    var topic := s.pubs.names[name];
    if topic !in s.pubs.live then Stopped(UnknownTopic) else
    Done(s.(sent := s.sent + [(topic, msg)]))
  }

  /** One round of a refresh loop for a name whose topic changes. After re-registering a publication
      the code compares the new topic with the copy of the old map, which still has the old topic. */
  function Move(b: Build, s: State, role: Role, name: Str, current: Str): Result {
    if role.Subscriber? && current !in s.subs.live then Stopped(UnknownTopic) else
    match Unregister(s, role, name)
    case Stopped(why) => Stopped(why)
    case Done(s') =>
      if role.Publisher? then
        match RegisterPublication(b, s', name)
        case Stopped(why) => Stopped(why)
        case Done(s'') => if b.Debug? && current != Remap(s.remaps, name) then Stopped(StaleCopy) else Done(s'')
      else
        match Subscribe(b, s', name, s.subs.live[current].callback)
        case Stopped(why) => Stopped(why)
        case Done(s'') =>
          if b.Debug? && s''.subs.names[name] != Remap(s.remaps, name) then Stopped(NotRemapped) else Done(s'')
  }

  /** A refresh loop over a copy of a name map. */
  function RefreshNames(b: Build, s: State, role: Role, copy: map<Str, Str>, keys: seq<Str>): Result
    requires forall k | k in keys :: k in copy
    decreases |keys|
  {
    if keys == [] then Done(s) else
    var name := keys[0];
    if Remap(s.remaps, name) == copy[name] then RefreshNames(b, s, role, copy, keys[1..]) else
    match Move(b, s, role, name, copy[name])
    case Stopped(why) => Stopped(why)
    case Done(s') => RefreshNames(b, s', role, copy, keys[1..])
  }

  ghost function RefreshSide(b: Build, s: State, role: Role): Result {
    var copy := s.At(role).names;
    SortedIs(copy.Keys);
    RefreshNames(b, s, role, copy, Sorted(copy.Keys))
  }

  ghost function Refresh(b: Build, s: State): Result {
    match RefreshSide(b, s, Publisher)
    case Stopped(why) => Stopped(why)
    case Done(s') => RefreshSide(b, s', Subscriber)
  }

  ghost function SetRemap(b: Build, s: State, find: Str, replace: Str): Result {
    Refresh(b, s.(remaps := s.remaps[find := replace]))
  }

  function RuleMap(find: seq<Str>, replace: seq<Str>): map<Str, Str>
    requires |find| <= |replace|
  {
    if find == [] then map[] else
    RuleMap(find[..|find| - 1], replace)[find[|find| - 1] := replace[|find| - 1]]
  }

  /** Every find is a rule, with the last replacement given for it. */
  lemma {:induction false} RuleMapIs(find: seq<Str>, replace: seq<Str>, k: Str)
    requires |find| <= |replace|
    ensures k in RuleMap(find, replace) <==> k in find
    ensures forall i | 0 <= i < |find| && find[i] == k && k !in find[i + 1..] ::
              k in RuleMap(find, replace) && RuleMap(find, replace)[k] == replace[i]
  {
    if find != [] {
      var n := |find| - 1;
      RuleMapIs(find[..n], replace, k);
      assert find == find[..n] + [find[n]];
      forall i | 0 <= i < |find| && find[i] == k && k !in find[i + 1..]
        ensures k in RuleMap(find, replace) && RuleMap(find, replace)[k] == replace[i]
      {
        if i < n {
          assert find[n] in find[i + 1..] && find[..n][i] == k;
          assert find[i + 1..] == find[..n][i + 1..] + [find[n]];
        }
      }
    }
  }

  /** Without the assertion a longer `find` is still caught, by vector::at. */
  ghost function SetRemappings(b: Build, s: State, find: seq<Str>, replace: seq<Str>): Result {
    if |find| > |replace| || (b.Debug? && |find| != |replace|) then Stopped(SizesDiffer) else
    Refresh(b, s.(remaps := RuleMap(find, replace)))
  }

  function UnregisterAll(s: State, role: Role, keys: seq<Str>): Result
    decreases |keys|
  {
    if keys == [] then Done(s) else
    match Unregister(s, role, keys[0])
    case Stopped(why) => Stopped(why)
    case Done(s') => UnregisterAll(s', role, keys[1..])
  }

  ghost function Shutdown(s: State): Result {
    match UnregisterAll(s, Publisher, Sorted(s.pubs.names.Keys))
    case Stopped(why) => Stopped(why)
    case Done(s') => UnregisterAll(s', Subscriber, Sorted(s'.subs.names.Keys))
  }

  // ---------------------------------------------------------------- what should hold

  /** The recorded topics are exactly the live ones, and no two names share one. */
  ghost predicate Consistent(side: Side) {
    && (forall n | n in side.names :: side.names[n] in side.live)
    && (forall t | t in side.live :: side.live[t].topic == t && exists n :: n in side.names && side.names[n] == t)
    && (forall m, n | m in side.names && n in side.names && side.names[m] == side.names[n] :: m == n)
  }

  ghost predicate Current(remaps: map<Str, Str>, side: Side) {
    forall n | n in side.names :: side.names[n] == Remap(remaps, n)
  }

  /** Whether the last request about a topic registered it. */
  function Registered(log: seq<Request>, role: Role, topic: Str): bool {
    if log == [] then false else
    var r := log[|log| - 1];
    if r.role == role && r.topic == topic then r.add else Registered(log[..|log| - 1], role, topic)
  }

  /** The master has been told exactly what is live. */
  ghost predicate Logged(s: State) {
    && (forall r | r in s.log :: r.node == s.uri)
    && (forall role: Role, t: Str :: Registered(s.log, role, t) <==> t in s.At(role).live)
  }

  /** Without a URI nothing gets recorded. */
  ghost predicate Addressed(s: State, role: Role) {
    s.uri == [] ==> s.At(role).names == map[]
  }

  ghost predicate Inv(s: State) {
    && Addressed(s, Publisher) && Addressed(s, Subscriber)
    && Consistent(s.pubs) && Consistent(s.subs)
    && Current(s.remaps, s.pubs) && Current(s.remaps, s.subs)
    && Logged(s)
  }

  lemma UpdateLogged(s: State, role: Role, side: Side, topic: Str, add: bool)
    requires Logged(s)
    requires side.live.Keys == if add then s.At(role).live.Keys + {topic} else s.At(role).live.Keys - {topic}
    ensures Logged(Update(s, role, side, topic, add))
  {
    var s' := Update(s, role, side, topic, add);
    assert s'.log[..|s'.log| - 1] == s.log;
    forall r: Role, t: Str ensures Registered(s'.log, r, t) <==> t in s'.At(r).live {
      assert Registered(s.log, r, t) <==> t in s.At(r).live;
    }
  }
}
