/** TCPPublish: accepted connections, their one options message, and publishing to those that sent it.
    The steps are the lock regions: the transport's own for closing, the publisher's for everything else. */
module Handshake {
  import opened Bytes

  /** The first uint32 that is no longer positive as the int that setFilter takes. */
  const INT_LIMIT: nat := 0x8000_0000

  const NO_COMPRESSION: byte := 0
  const SNAPPY: byte := 1

  datatype Options = Options(noDelay: bool, compression: byte, filter: uint32)

  datatype Connection = Connection(tcp: nat, setup: bool, options: Options)

  /** A message as it is handed to a transport, and the publish that handed it. */
  datatype Payload = Plain(msg: nat) | Compressed(msg: nat)

  datatype Delivery = Delivery(publish: nat, payload: Payload)

  /** What the publisher can see and change of an accepted transport. `disconnecting` is set from the moment
      the transport is closed until the disconnect callback has run; `sent` is the log of what was handed to it. */
  datatype Link = Link(
    closed: bool, disconnecting: bool, expectingRead: bool, noDelay: bool, filter: nat,
    sent: seq<Delivery>)

  /** A publish that works through its copy of the connection list; `start` is the whole copy. */
  datatype Publish = Publish(msg: nat, start: seq<Connection>, rest: seq<Connection>)

  /** `publishes` holds every publish ever begun. `setups` logs the connections in the order they were set up. */
  datatype State = State(
    listening: bool,
    connections: seq<Connection>,
    links: map<nat, Link>,
    publishes: seq<Publish>,
    setups: seq<nat>)

  function Initial(): State {
    State(true, [], map[], [], [])
  }

  /** In a message `alive` tells whether the transport still exists when the callback looks for it. */
  datatype Event =
    | Accept(tcp: nat)
    | Message(tcp: nat, frames: nat, alive: bool, options: Options)
    | Close(tcp: nat)
    | Disconnected(tcp: nat)
    | PublishStart(msg: nat)
    | PublishNext(publish: nat)
    | StopListening

  datatype Reason = FrameCount | SetupTwice | FilterNotPositive | UnknownCompression

  datatype Result = Done(state: State) | Aborted(why: Reason)

  /** The position of the first connection of a transport, or the length of the list. */
  function Find(connections: seq<Connection>, tcp: nat): (i: nat)
    ensures i <= |connections|
    ensures i < |connections| ==> connections[i].tcp == tcp
    ensures forall j | 0 <= j < i :: connections[j].tcp != tcp
  {
    if connections == [] || connections[0].tcp == tcp then 0 else 1 + Find(connections[1..], tcp)
  }

  function OnAccept(s: State, tcp: nat): State {
    s.(connections := s.connections + [Connection(tcp, false, Options(false, NO_COMPRESSION, 0))],
       links := s.links[tcp := Link(false, false, true, false, 1, [])])
  }

  /** The callback for a message of a connection; `disableRead` does nothing on a closed transport. */
  function OnOptions(s: State, tcp: nat, frames: nat, alive: bool, options: Options): Result
    requires tcp in s.links
  {
    if frames != 1 then Aborted(FrameCount) else
    if !alive then Done(s) else
    var link := s.links[tcp];
    var link' := if link.closed then link else link.(expectingRead := false);
    var i := Find(s.connections, tcp);
    if i == |s.connections| then Done(s.(links := s.links[tcp := link'])) else
    if s.connections[i].setup then Aborted(SetupTwice) else
    if options.filter == 0 || options.filter >= INT_LIMIT then Aborted(FilterNotPositive) else
    Done(s.(connections := s.connections[i := Connection(tcp, true, options)],
            links := s.links[tcp := link'.(noDelay := options.noDelay, filter := options.filter)],
            setups := s.setups + [tcp]))
  }

  /** The locked region of close(), which takes the disconnect callback with it. */
  function Closing(s: State, tcp: nat): State
    requires tcp in s.links
  {
    s.(links := s.links[tcp := s.links[tcp].(closed := true, disconnecting := true)])
  }

  /** The disconnect callback, which runs later and under the publisher's lock. */
  function OnDisconnect(s: State, tcp: nat): State
    requires tcp in s.links
  {
    var i := Find(s.connections, tcp);
    var s' := s.(links := s.links[tcp := s.links[tcp].(disconnecting := false)]);
    if i == |s.connections| then s' else s'.(connections := s.connections[..i] + s.connections[i + 1..])
  }

  /** What the switch over the compression can handle. */
  predicate Known(c: Connection) {
    c.setup ==> c.options.compression == NO_COMPRESSION || c.options.compression == SNAPPY
  }

  function PayloadFor(c: Connection, msg: nat): Payload {
    if c.options.compression == SNAPPY then Compressed(msg) else Plain(msg)
  }

  function Hand(links: map<nat, Link>, c: Connection, publish: nat, msg: nat): map<nat, Link> {
    if !c.setup || c.tcp !in links then links else
    var link := links[c.tcp];
    links[c.tcp := link.(sent := link.sent + [Delivery(publish, PayloadFor(c, msg))])]
  }

  function Advance(s: State, i: nat): Result
    requires i < |s.publishes| && s.publishes[i].rest != []
  {
    var p := s.publishes[i];
    if !Known(p.rest[0]) then Aborted(UnknownCompression) else
    Done(s.(links := Hand(s.links, p.rest[0], i, p.msg), publishes := s.publishes[i := p.(rest := p.rest[1..])]))
  }

  /** A message reaches its callback only while the transport is open and expects to read. */
  function Step(s: State, e: Event): Result {
    match e
    case Accept(tcp) => Done(if tcp in s.links || !s.listening then s else OnAccept(s, tcp))
    case Message(tcp, frames, alive, options) =>
      if tcp in s.links && !s.links[tcp].closed && s.links[tcp].expectingRead then
        OnOptions(s, tcp, frames, alive, options)
      else Done(s)
    case Close(tcp) => Done(if tcp in s.links && !s.links[tcp].closed then Closing(s, tcp) else s)
    case Disconnected(tcp) => Done(if tcp in s.links && s.links[tcp].disconnecting then OnDisconnect(s, tcp) else s)
    case PublishStart(msg) => Done(s.(publishes := s.publishes + [Publish(msg, s.connections, s.connections)]))
    case PublishNext(i) => if i < |s.publishes| && s.publishes[i].rest != [] then Advance(s, i) else Done(s)
    case StopListening => Done(s.(listening := false))
  }

  function Run(s: State, events: seq<Event>): Result
    decreases |events|
  {
    if events == [] then Done(s) else
    match Step(s, events[0])
    case Aborted(why) => Aborted(why)
    case Done(t) => Run(t, events[1..])
  }

  // ---------------------------------------------------------------- what every run keeps

  /** Open, or closed with the disconnect callback still to run. */
  predicate Attached(link: Link) {
    !link.closed || link.disconnecting
  }

  /** The list holds exactly the attached transports, once each. */
  ghost predicate ListsAttached(s: State) {
    && (forall i, j | 0 <= i < j < |s.connections| :: s.connections[i].tcp != s.connections[j].tcp)
    && (forall i | 0 <= i < |s.connections| ::
          s.connections[i].tcp in s.links && Attached(s.links[s.connections[i].tcp]))
    && (forall tcp | tcp in s.links && Attached(s.links[tcp]) :: Find(s.connections, tcp) < |s.connections|)
    && (forall tcp | tcp in s.links && s.links[tcp].disconnecting :: s.links[tcp].closed)
  }

  /** A connection is set up iff reading from it was disabled, and its transport then has its options. */
  ghost predicate SetupStopsReading(s: State) {
    && (forall i | 0 <= i < |s.connections| ::
          var c := s.connections[i];
          && c.tcp in s.links
          && (c.setup <==> !s.links[c.tcp].expectingRead)
          && (c.setup <==> c.tcp in s.setups)
          && (c.setup ==> 0 < c.options.filter < INT_LIMIT
                          && s.links[c.tcp].filter == c.options.filter
                          && s.links[c.tcp].noDelay == c.options.noDelay))
    && (forall i, j | 0 <= i < j < |s.setups| :: s.setups[i] != s.setups[j])
    && (forall tcp | tcp in s.setups :: tcp in s.links)
  }

  /** Messages go only to connections that were set up. */
  ghost predicate SendsToSetup(s: State) {
    && (forall tcp | tcp in s.links && s.links[tcp].sent != [] :: tcp in s.setups)
    && (forall i, j | 0 <= i < |s.publishes| && 0 <= j < |s.publishes[i].rest| ::
          s.publishes[i].rest[j].setup ==> s.publishes[i].rest[j].tcp in s.setups)
  }

  /** What a link has received from one publish. */
  function Received(sent: seq<Delivery>, publish: nat): seq<Payload> {
    if sent == [] then [] else
    var last := sent[|sent| - 1];
    Received(sent[..|sent| - 1], publish) + if last.publish == publish then [last.payload] else []
  }

  /** What a list of connections entitles a transport to: one payload if it is listed as set up. */
  function Due(list: seq<Connection>, tcp: nat, msg: nat): seq<Payload> {
    var k := Find(list, tcp);
    if k < |list| && list[k].setup then [PayloadFor(list[k], msg)] else []
  }

  /** A publish has handed over exactly what the part of its list that it has worked through entitles to. */
  ghost predicate Pays(s: State, i: nat)
    requires i < |s.publishes|
  {
    var p := s.publishes[i];
    && |p.rest| <= |p.start| && p.rest == p.start[|p.start| - |p.rest|..]
    && (forall j, l | 0 <= j < l < |p.start| :: p.start[j].tcp != p.start[l].tcp)
    && (forall j | 0 <= j < |p.start| :: p.start[j].tcp in s.links)
    && (forall tcp | tcp in s.links ::
          Received(s.links[tcp].sent, i) == Due(p.start[..|p.start| - |p.rest|], tcp, p.msg))
  }

  ghost predicate Paying(s: State) {
    && (forall tcp, k | tcp in s.links && 0 <= k < |s.links[tcp].sent| ::
          s.links[tcp].sent[k].publish < |s.publishes|)
    && (forall i | 0 <= i < |s.publishes| :: Pays(s, i))
  }

  ghost predicate Inv(s: State) {
    ListsAttached(s) && SetupStopsReading(s) && SendsToSetup(s) && Paying(s)
  }

  // ---------------------------------------------------------------- every publish hands over what is due

  lemma DueSnoc(list: seq<Connection>, c: Connection, tcp: nat, msg: nat)
    requires forall j | 0 <= j < |list| :: list[j].tcp != c.tcp
    ensures Due(list + [c], tcp, msg) ==
              if tcp != c.tcp then Due(list, tcp, msg) else if c.setup then [PayloadFor(c, msg)] else []
    ensures Due(list, c.tcp, msg) == []
  {
    hide PayloadFor;
    var whole := list + [c];
    var k, l := Find(whole, tcp), Find(list, tcp);
    assert forall j | 0 <= j < |list| :: whole[j] == list[j];
    assert whole[|list|] == c;
    FindPrefix(list, c, tcp);
    DueNone(list, c.tcp, msg);
  }

  lemma {:induction false} FindPrefix(list: seq<Connection>, c: Connection, tcp: nat)
    ensures Find(list + [c], tcp) ==
              if Find(list, tcp) < |list| then Find(list, tcp) else if c.tcp == tcp then |list| else |list| + 1
  {
    if list == [] {
      assert list + [c] == [c] && [c][1..] == [];
    } else {
      assert (list + [c])[1..] == list[1..] + [c];
      FindPrefix(list[1..], c, tcp);
    }
  }

  lemma {:induction false} DueNone(list: seq<Connection>, tcp: nat, msg: nat)
    requires forall j | 0 <= j < |list| :: list[j].tcp != tcp
    ensures Due(list, tcp, msg) == []
  {
    FindNone(list, tcp);
  }

  lemma {:induction false} FindNone(list: seq<Connection>, tcp: nat)
    requires forall j | 0 <= j < |list| :: list[j].tcp != tcp
    ensures Find(list, tcp) == |list|
  {
    if list != [] {
      FindNone(list[1..], tcp);
    }
  }

  lemma ReceivedSnoc(sent: seq<Delivery>, d: Delivery, publish: nat)
    ensures Received(sent + [d], publish) ==
              Received(sent, publish) + if d.publish == publish then [d.payload] else []
  {
    assert (sent + [d])[..|sent|] == sent;
  }

  lemma {:induction false} ReceivedNone(sent: seq<Delivery>, publish: nat)
    requires forall k | 0 <= k < |sent| :: sent[k].publish != publish
    ensures Received(sent, publish) == []
  {
    if sent != [] {
      ReceivedNone(sent[..|sent| - 1], publish);
    }
  }

  /** Steps that hand nothing over keep every publish as it was. */
  lemma SameSentPays(s: State, t: State)
    requires Paying(s) && t.publishes == s.publishes && s.links.Keys <= t.links.Keys
    requires forall tcp | tcp in t.links ::
               t.links[tcp].sent == if tcp in s.links then s.links[tcp].sent else []
    ensures Paying(t)
  {
    hide Received, Due;
    forall i | 0 <= i < |t.publishes| ensures Pays(t, i) {
      assert Pays(s, i);
      var p := s.publishes[i];
      forall tcp | tcp in t.links
        ensures Received(t.links[tcp].sent, i) == Due(p.start[..|p.start| - |p.rest|], tcp, p.msg)
      {
        if tcp !in s.links {
          ReceivedNone([], i);
          DueNone(p.start[..|p.start| - |p.rest|], tcp, p.msg);
        }
      }
    }
  }

  lemma StartPays(s: State, msg: nat)
    requires ListsAttached(s) && Paying(s)
    ensures Paying(Step(s, PublishStart(msg)).state)
  {
    hide Received, Due, Find;
    var t, n := Step(s, PublishStart(msg)).state, |s.publishes|;
    forall i | 0 <= i < |t.publishes| ensures Pays(t, i) {
      if i < n {
        assert Pays(s, i) && t.publishes[i] == s.publishes[i];
      } else {
        forall tcp | tcp in t.links ensures Received(t.links[tcp].sent, n) == Due(s.connections[..0], tcp, msg) {
          ReceivedNone(t.links[tcp].sent, n);
          DueNone(s.connections[..0], tcp, msg);
        }
      }
    }
  }

  /** The publish that moves on. */
  lemma AdvancePays(s: State, i: nat)
    requires Paying(s) && i < |s.publishes| && s.publishes[i].rest != [] && Known(s.publishes[i].rest[0])
    ensures Pays(Advance(s, i).state, i)
  {
    hide Received, Due, PayloadFor, Find;
    assert Pays(s, i);
    var p, t := s.publishes[i], Advance(s, i).state;
    var c, done := p.rest[0], |p.start| - |p.rest|;
    assert c == p.start[done] && p.start[..done + 1] == p.start[..done] + [c];
    assert p.rest[1..] == p.start[done + 1..];
    forall tcp | tcp in t.links ensures Received(t.links[tcp].sent, i) == Due(p.start[..done + 1], tcp, p.msg) {
      DueSnoc(p.start[..done], c, tcp, p.msg);
      if tcp == c.tcp && c.setup {
        ReceivedSnoc(s.links[tcp].sent, Delivery(i, PayloadFor(c, p.msg)), i);
      }
    }
  }

  /** The others do not notice. */
  lemma AdvanceOthers(s: State, i: nat, j: nat)
    requires Paying(s) && i < |s.publishes| && s.publishes[i].rest != [] && Known(s.publishes[i].rest[0])
    requires j < |s.publishes| && j != i
    ensures Pays(Advance(s, i).state, j)
  {
    hide Received, Due, PayloadFor, Find;
    assert Pays(s, j);
    var p, t := s.publishes[i], Advance(s, i).state;
    var c := p.rest[0];
    forall tcp | tcp in t.links ensures Received(t.links[tcp].sent, j) == Received(s.links[tcp].sent, j) {
      if tcp == c.tcp && c.setup {
        ReceivedSnoc(s.links[tcp].sent, Delivery(i, PayloadFor(c, p.msg)), j);
        assert Received(s.links[tcp].sent, j) + [] == Received(s.links[tcp].sent, j);
      }
    }
  }

  lemma AdvanceAllPay(s: State, i: nat)
    requires Paying(s) && i < |s.publishes| && s.publishes[i].rest != [] && Known(s.publishes[i].rest[0])
    ensures Paying(Advance(s, i).state)
  {
    var t := Advance(s, i).state;
    forall j | 0 <= j < |t.publishes| ensures Pays(t, j) {
      if j == i { AdvancePays(s, i); } else { AdvanceOthers(s, i, j); }
    }
    hide Pays;
  }

  lemma AcceptLists(s: State, tcp: nat)
    requires ListsAttached(s) && tcp !in s.links
    ensures ListsAttached(OnAccept(s, tcp))
  {
    var t := OnAccept(s, tcp);
    hide Find;
    forall u | u in t.links && Attached(t.links[u]) ensures Find(t.connections, u) < |t.connections| {
      if u == tcp {
        assert t.connections[|s.connections|].tcp == tcp;
      } else {
        assert t.connections[Find(s.connections, u)].tcp == u;
      }
    }
  }

  lemma AcceptSetup(s: State, tcp: nat)
    requires SetupStopsReading(s) && tcp !in s.links
    ensures SetupStopsReading(OnAccept(s, tcp))
  {
  }

  /** An accepted connection is listed, open, read from and not set up. */
  lemma AcceptKeeps(s: State, tcp: nat)
    requires Inv(s) && tcp !in s.links
    ensures Inv(OnAccept(s, tcp))
    ensures var t := OnAccept(s, tcp);
            && tcp in t.links && !t.links[tcp].closed && t.links[tcp].expectingRead
            && t.links[tcp].filter == 1 && t.links[tcp].sent == []
            && tcp !in t.setups && t.setups == s.setups && t.listening == s.listening
            && (forall u | u in s.links :: u in t.links && t.links[u] == s.links[u])
  {
    AcceptLists(s, tcp);
    AcceptSetup(s, tcp);
    SameSentPays(s, OnAccept(s, tcp));
    hide ListsAttached, Paying;
  }

  /** The state after a connection's options were accepted. */
  function Configured(s: State, tcp: nat, i: nat, options: Options): State
    requires tcp in s.links && i < |s.connections|
  {
    s.(connections := s.connections[i := Connection(tcp, true, options)],
       links := s.links[tcp := s.links[tcp].(expectingRead := false, noDelay := options.noDelay,
                                             filter := options.filter)],
       setups := s.setups + [tcp])
  }

  lemma ConfiguredLists(s: State, tcp: nat, i: nat, options: Options)
    requires ListsAttached(s) && tcp in s.links && i < |s.connections| && s.connections[i].tcp == tcp
    ensures ListsAttached(Configured(s, tcp, i, options))
  {
    hide Find;
    var t := Configured(s, tcp, i, options);
    assert forall j | 0 <= j < |s.connections| :: t.connections[j].tcp == s.connections[j].tcp;
    forall u | u in t.links && Attached(t.links[u]) ensures Find(t.connections, u) < |t.connections| {
      var j := Find(s.connections, u);
      assert t.connections[j].tcp == u;
    }
  }

  lemma ConfiguredSetup(s: State, tcp: nat, i: nat, options: Options)
    requires SetupStopsReading(s) && tcp in s.links && i < |s.connections| && s.connections[i].tcp == tcp
    requires forall j | 0 <= j < |s.connections| && j != i :: s.connections[j].tcp != tcp
    requires !s.connections[i].setup && 0 < options.filter < INT_LIMIT
    ensures SetupStopsReading(Configured(s, tcp, i, options))
  {
  }

  lemma ConfiguredSends(s: State, tcp: nat, i: nat, options: Options)
    requires SendsToSetup(s) && tcp in s.links && i < |s.connections|
    ensures SendsToSetup(Configured(s, tcp, i, options))
  {
  }

  lemma ListedOnce(s: State, tcp: nat)
    requires Inv(s) && tcp in s.links && !s.links[tcp].closed
    ensures var i := Find(s.connections, tcp);
            && i < |s.connections|
            && (forall j | 0 <= j < |s.connections| && j != i :: s.connections[j].tcp != tcp)
            && (s.connections[i].setup <==> !s.links[tcp].expectingRead)
  {
    hide Find;
    assert Attached(s.links[tcp]);
  }

  lemma OptionsAre(s: State, tcp: nat, frames: nat, alive: bool, options: Options)
    requires tcp in s.links && !s.links[tcp].closed
    requires Find(s.connections, tcp) < |s.connections| && !s.connections[Find(s.connections, tcp)].setup
    ensures OnOptions(s, tcp, frames, alive, options) ==
              if frames != 1 then Aborted(FrameCount) else
              if !alive then Done(s) else
              if 0 < options.filter < INT_LIMIT then Done(Configured(s, tcp, Find(s.connections, tcp), options))
              else Aborted(FilterNotPositive)
  {
    hide Find;
  }

  /** The first message of a connection: accepted iff it has one frame and a positive filter. */
  lemma OptionsKeep(s: State, tcp: nat, frames: nat, alive: bool, options: Options)
    requires Inv(s) && tcp in s.links && !s.links[tcp].closed && s.links[tcp].expectingRead
    ensures var r := OnOptions(s, tcp, frames, alive, options);
            && (r.Done? <==> frames == 1 && (alive ==> 0 < options.filter < INT_LIMIT))
            && (r.Done? ==> Inv(r.state) && r.state.setups == s.setups + if alive then [tcp] else [])
            && r != Aborted(SetupTwice)
  {
    ListedOnce(s, tcp);
    OptionsAre(s, tcp, frames, alive, options);
    hide Find, OnOptions, ListsAttached, SetupStopsReading, SendsToSetup, Paying;
    if 0 < options.filter < INT_LIMIT {
      var i := Find(s.connections, tcp);
      ConfiguredLists(s, tcp, i, options);
      ConfiguredSetup(s, tcp, i, options);
      ConfiguredSends(s, tcp, i, options);
      SameSentPays(s, Configured(s, tcp, i, options));
    }
  }

  lemma ClosingLists(s: State, tcp: nat)
    requires ListsAttached(s) && SetupStopsReading(s) && SendsToSetup(s) && tcp in s.links && !s.links[tcp].closed
    ensures var t := Closing(s, tcp); ListsAttached(t) && SetupStopsReading(t) && SendsToSetup(t)
  {
    hide Find;
  }

  /** Closing closes, and leaves the disconnect callback to run. */
  lemma CloseKeeps(s: State, tcp: nat)
    requires Inv(s) && tcp in s.links && !s.links[tcp].closed
    ensures Inv(Closing(s, tcp))
    ensures var t := Closing(s, tcp);
            && t.links.Keys == s.links.Keys && t.links[tcp].closed && t.links[tcp].disconnecting
            && t.connections == s.connections && t.setups == s.setups
  {
    SameSentPays(s, Closing(s, tcp));
    ClosingLists(s, tcp);
    hide ListsAttached, SetupStopsReading, SendsToSetup, Paying;
  }

  lemma DisconnectIs(s: State, tcp: nat)
    requires ListsAttached(s) && tcp in s.links && s.links[tcp].disconnecting
    ensures var i, t := Find(s.connections, tcp), OnDisconnect(s, tcp);
            && i < |s.connections| && |t.connections| == |s.connections| - 1
            && (forall j | 0 <= j < |t.connections| :: t.connections[j] == s.connections[if j < i then j else j + 1])
            && t.links == s.links[tcp := s.links[tcp].(disconnecting := false)]
            && t.setups == s.setups && t.publishes == s.publishes && t.listening == s.listening
  {
    hide Find;
  }

  lemma DisconnectDistinct(s: State, tcp: nat)
    requires ListsAttached(s) && tcp in s.links && s.links[tcp].disconnecting
    ensures var c := OnDisconnect(s, tcp).connections; forall j, l | 0 <= j < l < |c| :: c[j].tcp != c[l].tcp
    ensures var t := OnDisconnect(s, tcp);
            forall j | 0 <= j < |t.connections| ::
              t.connections[j].tcp in t.links && Attached(t.links[t.connections[j].tcp])
  {
    DisconnectIs(s, tcp);
    var i, t := Find(s.connections, tcp), OnDisconnect(s, tcp);
    hide OnDisconnect, Find;
    forall j | 0 <= j < |t.connections|
      ensures t.connections[j].tcp in t.links && Attached(t.links[t.connections[j].tcp])
    {
      assert s.connections[if j < i then j else j + 1].tcp != s.connections[i].tcp;
    }
  }

  lemma DisconnectLists(s: State, tcp: nat)
    requires ListsAttached(s) && tcp in s.links && s.links[tcp].disconnecting
    ensures ListsAttached(OnDisconnect(s, tcp))
  {
    DisconnectDistinct(s, tcp);
    DisconnectIs(s, tcp);
    var i, t := Find(s.connections, tcp), OnDisconnect(s, tcp);
    hide OnDisconnect, Find;
    forall u | u in t.links && Attached(t.links[u]) ensures Find(t.connections, u) < |t.connections| {
      var j := Find(s.connections, u);
      assert t.connections[if j < i then j else j - 1].tcp == u;
    }
  }

  lemma DisconnectSetup(s: State, tcp: nat)
    requires ListsAttached(s) && SetupStopsReading(s) && tcp in s.links && s.links[tcp].disconnecting
    ensures SetupStopsReading(OnDisconnect(s, tcp))
  {
    DisconnectIs(s, tcp);
    hide OnDisconnect, ListsAttached, Find;
  }

  lemma DisconnectSends(s: State, tcp: nat)
    requires ListsAttached(s) && SendsToSetup(s) && tcp in s.links && s.links[tcp].disconnecting
    ensures SendsToSetup(OnDisconnect(s, tcp))
  {
    DisconnectIs(s, tcp);
    hide OnDisconnect, ListsAttached, Find;
  }

  /** The disconnect callback always finds its connection in the list, and takes it out. */
  lemma DisconnectKeeps(s: State, tcp: nat)
    requires Inv(s) && tcp in s.links && s.links[tcp].disconnecting
    ensures Inv(OnDisconnect(s, tcp))
    ensures Find(s.connections, tcp) < |s.connections|
    ensures Find(OnDisconnect(s, tcp).connections, tcp) == |OnDisconnect(s, tcp).connections|
  {
    DisconnectIs(s, tcp);
    DisconnectLists(s, tcp);
    DisconnectSetup(s, tcp);
    DisconnectSends(s, tcp);
    SameSentPays(s, OnDisconnect(s, tcp));
    FoundAttached(OnDisconnect(s, tcp), tcp);
    hide OnDisconnect, ListsAttached, SetupStopsReading, SendsToSetup, Paying;
  }

  lemma FoundAttached(s: State, tcp: nat)
    requires ListsAttached(s)
    ensures Find(s.connections, tcp) < |s.connections| ==> tcp in s.links && Attached(s.links[tcp])
  {
  }

  lemma AdvanceSends(s: State, i: nat)
    requires ListsAttached(s) && SetupStopsReading(s) && SendsToSetup(s)
    requires i < |s.publishes| && s.publishes[i].rest != [] && Known(s.publishes[i].rest[0])
    ensures var t := Advance(s, i).state; ListsAttached(t) && SetupStopsReading(t) && SendsToSetup(t)
  {
    hide Find, PayloadFor;
    var p := s.publishes[i];
    assert p.rest[0].setup ==> p.rest[0].tcp in s.setups;
    assert forall j | 0 <= j < |p.rest| - 1 :: p.rest[1..][j] == p.rest[j + 1];
  }

  /** A publish stops the process iff it meets a set-up connection with an unknown compression. */
  lemma AdvanceKeeps(s: State, i: nat)
    requires Inv(s) && i < |s.publishes| && s.publishes[i].rest != []
    ensures Advance(s, i).Done? <==> Known(s.publishes[i].rest[0])
    ensures Advance(s, i) != Aborted(SetupTwice)
    ensures Advance(s, i).Done? ==> Inv(Advance(s, i).state)
  {
    if Known(s.publishes[i].rest[0]) {
      AdvanceSends(s, i);
      AdvanceAllPay(s, i);
    }
    hide ListsAttached, SetupStopsReading, SendsToSetup, Paying, Known, Hand;
  }

  lemma StartKeeps(s: State, msg: nat)
    requires Inv(s)
    ensures Inv(Step(s, PublishStart(msg)).state)
  {
    hide Find, Paying;
    StartPays(s, msg);
  }

  /** Once it no longer listens, nothing is accepted. */
  lemma StopKeeps(s: State)
    requires Inv(s)
    ensures var t := Step(s, StopListening).state;
            Inv(t) && !t.listening && forall tcp :: Step(t, Accept(tcp)) == Done(t)
  {
    SameSentPays(s, Step(s, StopListening).state);
    hide Find, Paying;
  }

  lemma StepKeeps(s: State, e: Event)
    requires Inv(s)
    ensures Step(s, e) != Aborted(SetupTwice)
    ensures Step(s, e).Done? ==> Inv(Step(s, e).state)
  {
    hide Inv, OnAccept, OnOptions, Closing, OnDisconnect, Advance;
    match e
    case Accept(tcp) =>
      if tcp !in s.links {
        AcceptKeeps(s, tcp);
      }
    case Message(tcp, frames, alive, options) =>
      if tcp in s.links && !s.links[tcp].closed && s.links[tcp].expectingRead {
        OptionsKeep(s, tcp, frames, alive, options);
      }
    case Close(tcp) =>
      if tcp in s.links && !s.links[tcp].closed {
        CloseKeeps(s, tcp);
      }
    case Disconnected(tcp) =>
      if tcp in s.links && s.links[tcp].disconnecting {
        DisconnectKeeps(s, tcp);
      }
    case PublishStart(msg) => StartKeeps(s, msg);
    case PublishNext(i) =>
      if i < |s.publishes| && s.publishes[i].rest != [] {
        AdvanceKeeps(s, i);
      }
    case StopListening => StopKeeps(s);
  }

  /** Whatever the peers send and however the lock regions interleave, no connection is told to set up twice,
      none is set up twice, and no message goes to a connection that was not set up. */
  lemma {:induction false} RunKeeps(s: State, events: seq<Event>)
    requires Inv(s)
    ensures Run(s, events) != Aborted(SetupTwice)
    ensures Run(s, events).Done? ==> Inv(Run(s, events).state)
    decreases |events|
  {
    hide Inv, Step;
    if events != [] {
      StepKeeps(s, events[0]);
      var r := Step(s, events[0]);
      if r.Done? {
        RunKeeps(r.state, events[1..]);
      }
    }
  }

  lemma InitialInv()
    ensures Inv(Initial())
  {
  }

  // ---------------------------------------------------------------- publishes over whole runs

  lemma {:induction false} RunAppend(s: State, a: seq<Event>, b: seq<Event>)
    ensures Run(s, a + b) == if Run(s, a).Done? then Run(Run(s, a).state, b) else Run(s, a)
    decreases |a|
  {
    hide Step;
    if a == [] {
      assert a + b == b;
    } else {
      assert (a + b)[1..] == a[1..] + b;
      var r := Step(s, a[0]);
      if r.Done? {
        RunAppend(r.state, a[1..], b);
      }
    }
  }

  lemma RunOne(s: State, e: Event)
    ensures Run(s, [e]) == Step(s, e)
  {
    hide Step;
    assert [e][1..] == [];
  }

  /** A publish keeps its message and its copy of the list. */
  lemma StepRecords(s: State, e: Event, i: nat)
    requires i < |s.publishes| && Step(s, e).Done?
    ensures var t := Step(s, e).state;
            && i < |t.publishes|
            && t.publishes[i].msg == s.publishes[i].msg && t.publishes[i].start == s.publishes[i].start
  {
    hide Find, Hand, Known;
  }

  lemma {:induction false} RunRecords(s: State, events: seq<Event>, i: nat)
    requires i < |s.publishes| && Run(s, events).Done?
    ensures var t := Run(s, events).state;
            && i < |t.publishes|
            && t.publishes[i].msg == s.publishes[i].msg && t.publishes[i].start == s.publishes[i].start
    decreases |events|
  {
    hide Step;
    if events != [] {
      StepRecords(s, events[0], i);
      RunRecords(Step(s, events[0]).state, events[1..], i);
    }
  }

  /** In every run, whatever happens between its steps: once a publish has worked through its list it has handed
      its message, suitably compressed, once to each transport that was set up in the list when it began, and to
      no other. */
  lemma PublishesExactly(before: seq<Event>, msg: nat, after: seq<Event>)
    requires Run(Initial(), before + [PublishStart(msg)] + after).Done?
    ensures Run(Initial(), before).Done?
    ensures var s, t := Run(Initial(), before).state, Run(Initial(), before + [PublishStart(msg)] + after).state;
            var i := |s.publishes|;
            && i < |t.publishes|
            && (t.publishes[i].rest == [] ==>
                  forall tcp | tcp in t.links :: Received(t.links[tcp].sent, i) == Due(s.connections, tcp, msg))
  {
    RunAppend(Initial(), before + [PublishStart(msg)], after);
    RunAppend(Initial(), before, [PublishStart(msg)]);
    var s := Run(Initial(), before).state;
    RunOne(s, PublishStart(msg));
    var u := Step(s, PublishStart(msg)).state;
    assert u.publishes[|s.publishes|] == Publish(msg, s.connections, s.connections);
    InitialInv();
    RunKeeps(Initial(), before + [PublishStart(msg)] + after);
    RunRecords(u, after, |s.publishes|);
    var t := Run(u, after).state;
    hide Run, Step, Inv, Received, Due;
    if t.publishes[|s.publishes|].rest == [] {
      PaysIs(t, |s.publishes|);
    }
  }

  lemma PaysIs(s: State, i: nat)
    requires Inv(s) && i < |s.publishes| && s.publishes[i].rest == []
    ensures var p := s.publishes[i];
            forall tcp | tcp in s.links :: Received(s.links[tcp].sent, i) == Due(p.start, tcp, p.msg)
  {
    assert Pays(s, i);
    var p := s.publishes[i];
    assert p.start[..|p.start|] == p.start;
    hide Received, Due;
  }

  // ---------------------------------------------------------------- every event has its effect

  /** Accepted while the publisher listens, a transport is listed last, open and read from. */
  lemma AcceptTakesEffect(s: State, tcp: nat)
    requires Inv(s) && s.listening && tcp !in s.links
    ensures var r := Step(s, Accept(tcp));
            && r.Done? && tcp in r.state.links && !r.state.links[tcp].closed && r.state.links[tcp].expectingRead
            && Find(r.state.connections, tcp) == |s.connections| == |r.state.connections| - 1
  {
    AcceptKeeps(s, tcp);
    AcceptedLast(s, tcp);
    hide Inv, Find;
  }

  /** A close leaves the disconnect callback to run, and that takes the transport off the list. */
  lemma CloseTakesEffect(s: State, tcp: nat)
    requires Inv(s) && tcp in s.links
    ensures !s.links[tcp].closed ==>
              var r := Step(s, Close(tcp));
              r.Done? && tcp in r.state.links && r.state.links[tcp].closed && r.state.links[tcp].disconnecting
    ensures s.links[tcp].disconnecting ==>
              var r := Step(s, Disconnected(tcp));
              && r.Done? && tcp in r.state.links && !r.state.links[tcp].disconnecting
              && Find(r.state.connections, tcp) == |r.state.connections|
  {
    if s.links[tcp].disconnecting {
      DisconnectKeeps(s, tcp);
      InvLists(s);
      DisconnectIs(s, tcp);
    }
    hide Inv, Find, OnDisconnect;
  }

  /** A good options message sets its connection up. */
  lemma MessageTakesEffect(s: State, tcp: nat, options: Options)
    requires Inv(s) && tcp in s.links && !s.links[tcp].closed && s.links[tcp].expectingRead
    requires 0 < options.filter < INT_LIMIT
    ensures var r := Step(s, Message(tcp, 1, true, options));
            && r.Done? && r.state.setups == s.setups + [tcp]
            && tcp in r.state.links && !r.state.links[tcp].expectingRead && r.state.links[tcp].filter == options.filter
  {
    ListedOnce(s, tcp);
    OptionsAre(s, tcp, 1, true, options);
    hide Inv, Find, OnOptions;
  }

  lemma InvLists(s: State)
    requires Inv(s)
    ensures ListsAttached(s)
  {
  }

  lemma AcceptedLast(s: State, tcp: nat)
    requires Inv(s) && tcp !in s.links
    ensures Find(OnAccept(s, tcp).connections, tcp) == |s.connections|
  {
    assert forall j | 0 <= j < |s.connections| :: s.connections[j].tcp in s.links;
    hide Inv;
    FindNone(s.connections, tcp);
    FindPrefix(s.connections, Connection(tcp, false, Options(false, NO_COMPRESSION, 0)), tcp);
  }

  /** The first message ever published reaches the first transport ever accepted, in the form it asked for. */
  lemma FirstDelivery(tcp: nat, options: Options, msg: nat)
    requires 0 < options.filter < INT_LIMIT
    ensures var r := Run(Initial(), [Accept(tcp), Message(tcp, 1, true, options), PublishStart(msg), PublishNext(0)]);
            && (options.compression == 0 ==>
                  r.Done? && tcp in r.state.links && r.state.links[tcp].sent == [Delivery(0, Plain(msg))])
            && (options.compression == 1 ==>
                  r.Done? && tcp in r.state.links && r.state.links[tcp].sent == [Delivery(0, Compressed(msg))])
            && (options.compression > 1 ==> r == Aborted(UnknownCompression))
  {
    var s1 := OnAccept(Initial(), tcp);
    assert s1.connections == [Connection(tcp, false, Options(false, NO_COMPRESSION, 0))];
    assert Find(s1.connections, tcp) == 0;
    var s2 := Configured(s1, tcp, 0, options);
    OptionsAre(s1, tcp, 1, true, options);
    var events := [Accept(tcp), Message(tcp, 1, true, options), PublishStart(msg), PublishNext(0)];
    var s3 := Step(s2, PublishStart(msg)).state;
    assert s3.publishes == [Publish(msg, s2.connections, s2.connections)];
    hide OnOptions, Find;
    assert Step(Initial(), events[0]) == Done(s1) && Step(s1, events[1]) == Done(s2) && Step(s2, events[2]) == Done(s3);
    RunFour(Initial(), events, s1, s2, s3);
    assert s2.connections[0] == Connection(tcp, true, options) && s2.links[tcp].sent == [];
  }

  lemma RunFour(s: State, events: seq<Event>, s1: State, s2: State, s3: State)
    requires |events| == 4
    requires Step(s, events[0]) == Done(s1) && Step(s1, events[1]) == Done(s2) && Step(s2, events[2]) == Done(s3)
    ensures Run(s, events) == Step(s3, events[3])
  {
    hide Step;
    assert events == [events[0]] + ([events[1]] + ([events[2]] + [events[3]]));
    RunAppend(s, [events[0]], [events[1]] + ([events[2]] + [events[3]]));
    RunAppend(s1, [events[1]], [events[2]] + [events[3]]);
    RunAppend(s2, [events[2]], [events[3]]);
    RunOne(s, events[0]);
    RunOne(s1, events[1]);
    RunOne(s2, events[2]);
    RunOne(s3, events[3]);
  }

  /** A publish without anything in between: its start and a step for each connection listed. */
  function Steps(publish: nat, n: nat): seq<Event> {
    if n == 0 then [] else Steps(publish, n - 1) + [PublishNext(publish)]
  }

  function WholePublish(publish: nat, msg: nat, n: nat): seq<Event> {
    [PublishStart(msg)] + Steps(publish, n)
  }

  lemma {:induction false} StepsFrom(publish: nat, n: nat)
    requires n > 0
    ensures Steps(publish, n) == [PublishNext(publish)] + Steps(publish, n - 1)
  {
    if n > 1 {
      StepsFrom(publish, n - 1);
    }
  }

  /** It finishes iff every set-up connection asked for a known compression. */
  lemma {:induction false} StepsFinish(s: State, i: nat)
    requires Inv(s) && i < |s.publishes|
    ensures var r := Run(s, Steps(i, |s.publishes[i].rest|));
            && (r.Done? <==> forall c | c in s.publishes[i].rest :: Known(c))
            && (r.Done? ==> i < |r.state.publishes| && r.state.publishes[i].rest == [])
    decreases |s.publishes[i].rest|
  {
    var rest := s.publishes[i].rest;
    if rest != [] {
      StepsFrom(i, |rest|);
      AdvanceKeeps(s, i);
      StepRest(s, i);
      hide Inv, Known, Advance, Steps;
      RunAppend(s, [PublishNext(i)], Steps(i, |rest| - 1));
      RunOne(s, PublishNext(i));
      assert rest == [rest[0]] + rest[1..];
      var r := Step(s, PublishNext(i));
      hide Step;
      if r.Done? {
        StepsFinish(r.state, i);
      }
    }
  }

  lemma StepRest(s: State, i: nat)
    requires i < |s.publishes| && s.publishes[i].rest != []
    ensures Step(s, PublishNext(i)) == Advance(s, i)
    ensures Advance(s, i).Done? ==>
              i < |Advance(s, i).state.publishes| && Advance(s, i).state.publishes[i].rest == s.publishes[i].rest[1..]
  {
  }

  // ---------------------------------------------------------------- the class

  class TCPPublish {
    var listening: bool
    var connections: seq<Connection>
    var links: map<nat, Link>
    var setups: seq<nat>
    var publishes: seq<Publish>

    ghost function View(): State
      reads this
    {
      State(listening, connections, links, publishes, setups)
    }

    constructor ()
      ensures View() == Initial()
    {
      listening, connections, links, setups := true, [], map[], [];
      publishes := [];
    }

    method Accept(tcp: nat)
      requires tcp !in links
      modifies `connections, `links
      ensures View() == OnAccept(old(View()), tcp)
    {
      connections := connections + [Connection(tcp, false, Options(false, NO_COMPRESSION, 0))];
      links := links[tcp := Link(false, false, true, false, 1, [])];
    }

    /** The search through the list that both callbacks make. */
    method Lookup(tcp: nat) returns (i: nat)
      ensures i == Find(connections, tcp)
    {
      i := 0;
      while i < |connections| && connections[i].tcp != tcp
        invariant i <= |connections|
        invariant forall j | 0 <= j < i :: connections[j].tcp != tcp
      {
        i := i + 1;
      }
    }

    method ReceiveOptions(tcp: nat, frames: nat, alive: bool, options: Options) returns (aborted: Option<Reason>)
      requires tcp in links
      modifies `connections, `links, `setups
      ensures match OnOptions(old(View()), tcp, frames, alive, options)
              case Done(t) => aborted == None && View() == t
              case Aborted(why) => aborted == Some(why)
    {
      hide Find;
      if frames != 1 {
        return Some(FrameCount);
      }
      if !alive {
        return None;
      }
      if !links[tcp].closed {
        links := links[tcp := links[tcp].(expectingRead := false)];
      }
      var i := Lookup(tcp);
      if i < |connections| {
        if connections[i].setup {
          return Some(SetupTwice);
        }
        links := links[tcp := links[tcp].(noDelay := options.noDelay)];
        if options.filter == 0 || options.filter >= INT_LIMIT {
          return Some(FilterNotPositive);
        }
        links := links[tcp := links[tcp].(filter := options.filter)];
        connections := connections[i := Connection(tcp, true, options)];
        setups := setups + [tcp];
      }
      return None;
    }

    method Disconnect(tcp: nat)
      requires tcp in links
      modifies `connections, `links
      ensures View() == OnDisconnect(old(View()), tcp)
    {
      hide Find;
      links := links[tcp := links[tcp].(disconnecting := false)];
      var i := Lookup(tcp);
      if i < |connections| {
        connections := connections[..i] + connections[i + 1..];
      }
    }

    /** `close` on a transport, and the disconnect callback it calls the first time. */
    method CloseLink(tcp: nat)
      requires tcp in links
      modifies `connections, `links
      ensures View() ==
              if old(links[tcp].closed) then old(View()) else OnDisconnect(Closing(old(View()), tcp), tcp)
    {
      if !links[tcp].closed {
        links := links[tcp := links[tcp].(closed := true, disconnecting := true)];
        Disconnect(tcp);
      }
    }

    /** The whole publish, with nothing in between, is the run of its steps. */
    method Send(msg: nat) returns (aborted: Option<Reason>)
      modifies `links, `publishes
      ensures match Run(old(View()), WholePublish(|old(publishes)|, msg, |connections|))
              case Done(t) => aborted == None && View() == t
              case Aborted(why) => aborted == Some(why)
    {
      hide Run, WholePublish, Steps;
      ghost var s := View();
      var id := |publishes|;
      var conns := connections;
      publishes := publishes + [Publish(msg, conns, conns)];
      PublishBegins(s, id, msg);
      var i := 0;
      while i < |conns|
        invariant i <= |conns| && id < |publishes| && publishes[id] == Publish(msg, conns, conns[i..])
        invariant Run(s, WholePublish(id, msg, i)) == Done(View())
      {
        PublishMore(s, id, msg, i, |conns|);
        assert conns[i..][0] == conns[i] && conns[i..][1..] == conns[i + 1..];
        if conns[i].setup {
          var payload;
          if conns[i].options.compression == NO_COMPRESSION {
            payload := Plain(msg);
          } else if conns[i].options.compression == SNAPPY {
            payload := Compressed(msg);
          } else {
            return Some(UnknownCompression);
          }
          if conns[i].tcp in links {
            var link := links[conns[i].tcp];
            links := links[conns[i].tcp := link.(sent := link.sent + [Delivery(id, payload)])];
          }
        }
        publishes := publishes[id := Publish(msg, conns, conns[i + 1..])];
        i := i + 1;
      }
      return None;
    }

    /** Closing every transport of a copy of the list leaves none open, and none listed but those whose disconnect
        callback was already about to run elsewhere; then the listening transport is closed. */
    method Shutdown()
      requires Inv(View())
      modifies this
      ensures Inv(View()) && !listening
      ensures forall tcp | tcp in links :: links[tcp].closed
      ensures forall c | c in connections :: c.tcp in old(links) && old(links)[c.tcp].disconnecting
      ensures links.Keys == old(links.Keys) && setups == old(setups)
    {
      hide Inv, Closing, OnDisconnect, Closed, OpenFrom, Find;
      var local := connections;
      ShutdownStarts(View());
      var i := 0;
      while i < |local|
        invariant i <= |local|
        invariant Closed(old(View()), View(), local, i)
      {
        ShutdownStep(old(View()), View(), local, i);
        CloseLink(local[i].tcp);
        i := i + 1;
      }
      ShutdownEnds(old(View()), View(), local);
      listening := false;
    }
  }

  lemma PublishBegins(s: State, id: nat, msg: nat)
    ensures Run(s, WholePublish(id, msg, 0)) == Step(s, PublishStart(msg))
  {
    RunOne(s, PublishStart(msg));
    assert [PublishStart(msg)] + [] == [PublishStart(msg)];
    hide Run, Step;
  }

  /** One more step of a publish, and what becomes of the rest when it stops the process. */
  lemma PublishMore(s: State, id: nat, msg: nat, i: nat, n: nat)
    requires i < n && Run(s, WholePublish(id, msg, i)).Done?
    ensures Run(s, WholePublish(id, msg, i + 1)) == Step(Run(s, WholePublish(id, msg, i)).state, PublishNext(id))
    ensures Run(s, WholePublish(id, msg, i + 1)).Aborted? ==>
              Run(s, WholePublish(id, msg, n)) == Run(s, WholePublish(id, msg, i + 1))
  {
    var before := WholePublish(id, msg, i);
    ConcatAssociative([PublishStart(msg)], Steps(id, i), [PublishNext(id)]);
    RunAppend(s, before, [PublishNext(id)]);
    RunOne(Run(s, before).state, PublishNext(id));
    var rest := StepsSplit(id, i + 1, n);
    ConcatAssociative([PublishStart(msg)], Steps(id, i + 1), rest);
    RunAppend(s, WholePublish(id, msg, i + 1), rest);
    hide Step, Run;
  }

  lemma {:induction false} StepsSplit(id: nat, i: nat, n: nat) returns (rest: seq<Event>)
    requires i <= n
    ensures Steps(id, n) == Steps(id, i) + rest
    decreases n
  {
    if i == n {
      rest := [];
    } else {
      rest := StepsSplit(id, i, n - 1);
      ConcatAssociative(Steps(id, i), rest, [PublishNext(id)]);
      rest := rest + [PublishNext(id)];
    }
  }

  /** The effect of closing one transport of the list, if it is still open. */
  function ClosedLink(s: State, tcp: nat): State
    requires tcp in s.links
  {
    if s.links[tcp].closed then s else OnDisconnect(Closing(s, tcp), tcp)
  }

  lemma ClosedLinkKeeps(s: State, tcp: nat)
    requires Inv(s) && tcp in s.links
    ensures Inv(ClosedLink(s, tcp))
  {
    hide Inv, Closing, OnDisconnect;
    if !s.links[tcp].closed {
      CloseKeeps(s, tcp);
      ClosingIs(s, tcp);
      DisconnectKeeps(Closing(s, tcp), tcp);
    }
  }

  lemma ClosingIs(s: State, tcp: nat)
    requires tcp in s.links
    ensures tcp in Closing(s, tcp).links && Closing(s, tcp).links[tcp].disconnecting
  {
  }

  lemma ClosedLinkIs(s: State, tcp: nat)
    requires Inv(s) && tcp in s.links
    ensures var t := ClosedLink(s, tcp);
            && t.listening == s.listening && t.setups == s.setups && t.publishes == s.publishes
            && t.links == (if s.links[tcp].closed then s.links
                           else s.links[tcp := s.links[tcp].(closed := true, disconnecting := false)])
            && (!s.links[tcp].closed ==> !s.links[tcp].disconnecting)
  {
    hide Find, SetupStopsReading, SendsToSetup;
  }

  /** How far a shutdown that started in s has come in t. */
  ghost predicate Closed(s: State, t: State, list: seq<Connection>, i: nat) {
    && Inv(t) && t.links.Keys == s.links.Keys && t.setups == s.setups && t.listening == s.listening
    && t.publishes == s.publishes
    && OpenFrom(t.links, list, i)
    && (forall tcp | tcp in t.links :: t.links[tcp].disconnecting == s.links[tcp].disconnecting)
  }

  lemma ShutdownStarts(s: State)
    requires Inv(s)
    ensures Closed(s, s, s.connections, 0)
  {
    ListIsCopied(s);
    hide Inv, OpenFrom;
  }

  lemma OpenFromStep(links: map<nat, Link>, list: seq<Connection>, i: nat, after: map<nat, Link>)
    requires i < |list| && OpenFrom(links, list, i)
    requires after.Keys == links.Keys
    requires forall tcp | tcp in links :: after[tcp].closed == (links[tcp].closed || tcp == list[i].tcp)
    ensures OpenFrom(after, list, i + 1)
  {
    hide Find;
  }

  lemma ShutdownStep(s: State, t: State, list: seq<Connection>, i: nat)
    requires i < |list| && Closed(s, t, list, i)
    ensures list[i].tcp in t.links && Closed(s, ClosedLink(t, list[i].tcp), list, i + 1)
    ensures ClosedLink(t, list[i].tcp) == if t.links[list[i].tcp].closed then t
                                          else OnDisconnect(Closing(t, list[i].tcp), list[i].tcp)
  {
    var tcp := list[i].tcp;
    assert tcp in t.links;
    hide Inv, Closing, OnDisconnect, Find, OpenFrom;
    ClosedLinkKeeps(t, tcp);
    ClosedLinkIs(t, tcp);
    var u := ClosedLink(t, tcp);
    OpenFromStep(t.links, list, i, u.links);
    hide ClosedLink;
  }

  lemma ShutdownEnds(s: State, t: State, list: seq<Connection>)
    requires Closed(s, t, list, |list|)
    ensures Inv(t.(listening := false))
    ensures forall tcp | tcp in t.links :: t.links[tcp].closed
    ensures forall c | c in t.connections :: c.tcp in s.links && s.links[c.tcp].disconnecting
    ensures t.links.Keys == s.links.Keys && t.setups == s.setups
  {
    AttachedOnly(t);
    StopKeeps(t);
    hide Inv, Find;
  }

  /** The open transports are those of the list from position i on. */
  ghost predicate OpenFrom(links: map<nat, Link>, list: seq<Connection>, i: nat) {
    && (forall j | 0 <= j < |list| :: list[j].tcp in links)
    && (forall tcp | tcp in links && !links[tcp].closed :: i <= Find(list, tcp) < |list|)
  }

  lemma ListIsCopied(s: State)
    requires Inv(s)
    ensures OpenFrom(s.links, s.connections, 0)
  {
  }

  lemma AttachedOnly(s: State)
    requires Inv(s)
    ensures forall c | c in s.connections :: c.tcp in s.links && Attached(s.links[c.tcp])
  {
  }
}
