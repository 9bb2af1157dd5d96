/** Many nodes and one master: what the master answers is what the nodes publish. */
module Agreement {
  import opened Bytes
  import opened Topics
  import opened TopicRuns
  import opened Registration
  import opened Registry
  import opened Masters

  /** In the log of one node the last request about a topic is the last request selected for it. */
  lemma {:induction false} RegisteredSelect(log: seq<Request>, node: Str, topic: Str, role: Role)
    requires forall r | r in log :: r.node == node
    ensures var sel := Select(log, node, topic, role);
            Registered(log, role, topic) <==> sel != [] && sel[|sel| - 1].add
  {
    if log != [] {
      assert log[|log| - 1] in log;
      RegisteredSelect(log[..|log| - 1], node, topic, role);
    }
  }

  lemma {:induction false} SelectNone(log: seq<Request>, node: Str, topic: Str, role: Role)
    requires forall r | r in log :: r.node != node
    ensures Select(log, node, topic, role) == []
  {
    if log != [] {
      assert log[|log| - 1] in log;
      SelectNone(log[..|log| - 1], node, topic, role);
    }
  }

  /** The nodes' calls have all arrived, those of one node about one topic in the order it made them. */
  ghost predicate Delivered(nodes: map<Str, State>, arrivals: seq<Request>) {
    && (forall r | r in arrivals :: r.node in nodes)
    && (forall u, topic, role | u in nodes ::
          Select(arrivals, u, topic, role) == Select(nodes[u].log, u, topic, role))
  }

  /** Each node is in the state some run of operations brought it to. */
  ghost predicate Ran(b: Build, nodes: map<Str, State>, runs: map<Str, seq<Op>>) {
    nodes.Keys == runs.Keys && forall u | u in nodes :: Run(b, Initial(u), runs[u]) == Done(nodes[u])
  }

  lemma RanIsLogged(b: Build, nodes: map<Str, State>, runs: map<Str, seq<Op>>, u: Str)
    requires Ran(b, nodes, runs) && u in nodes
    ensures Logged(nodes[u]) && nodes[u].uri == u
  {
    InitialInv(u);
    hide Logged, Run, BothCurrent;
    assert BothCurrent(Initial(u)) by { InitialCurrent(u); }
    EveryRun(b, Initial(u), runs[u]);
  }

  lemma InitialCurrent(uri: Str)
    ensures BothCurrent(Initial(uri))
  {
  }

  /** After any runs of any nodes, in either build and whatever the rules did to them, the master relates
      a node to a topic iff the topic is live in that node. */
  lemma MasterAgrees(b: Build, nodes: map<Str, State>, runs: map<Str, seq<Op>>, arrivals: seq<Request>,
                     u: Str, topic: Str, role: Role)
    requires Ran(b, nodes, runs) && Delivered(nodes, arrivals)
    ensures (u, topic) in ServeAll(NOTHING, arrivals).At(role) <==> u in nodes && topic in nodes[u].At(role).live
  {
    hide ServeAll, Select, Registered, Run, Logged;
    LastDecides(NOTHING, arrivals, u, topic, role);
    if u in nodes {
      RanIsLogged(b, nodes, runs, u);
      LoggedSelect(nodes[u], topic, role);
    } else {
      SelectNone(arrivals, u, topic, role);
    }
  }

  lemma LoggedSelect(s: State, topic: Str, role: Role)
    requires Logged(s)
    ensures var sel := Select(s.log, s.uri, topic, role);
            topic in s.At(role).live <==> sel != [] && sel[|sel| - 1].add
  {
    RegisteredSelect(s.log, s.uri, topic, role);
    hide Select, Registered;
  }

  lemma PublishersAgree(b: Build, nodes: map<Str, State>, runs: map<Str, seq<Op>>, arrivals: seq<Request>, topic: Str)
    requires Ran(b, nodes, runs) && Delivered(nodes, arrivals)
    ensures Nodes(ServeAll(NOTHING, arrivals).pubs, topic) == set u | u in nodes && topic in nodes[u].pubs.live
  {
    hide Ran, Delivered, ServeAll;
    var pairs := ServeAll(NOTHING, arrivals).pubs;
    forall u ensures u in Nodes(pairs, topic) <==> u in nodes && topic in nodes[u].pubs.live {
      MasterAgrees(b, nodes, runs, arrivals, u, topic, Publisher);
      NodesHas(pairs, topic, u);
    }
  }

  /** A lookup lists exactly the nodes that publish the topic, each once. */
  method Lookup(ghost b: Build, ghost nodes: map<Str, State>, ghost runs: map<Str, seq<Op>>,
                arrivals: seq<Request>, topic: Str)
    returns (nodeUris: seq<Str>)
    requires Ran(b, nodes, runs) && Delivered(nodes, arrivals)
    ensures OnceEach(nodeUris, set u | u in nodes && topic in nodes[u].pubs.live)
  {
    hide Ran, Delivered, OnceEach, ServeAll, Nodes;
    var master := new Master();
    master.HandleAll(arrivals);
    nodeUris := master.LookupPublishers(topic);
    PublishersAgree(b, nodes, runs, arrivals, topic);
  }

  /** So does the reply to a subscription. */
  method Reply(ghost b: Build, ghost nodes: map<Str, State>, ghost runs: map<Str, seq<Op>>,
               arrivals: seq<Request>, subscriber: Str, topic: Str)
    returns (publisherUris: seq<Str>)
    requires Ran(b, nodes, runs) && Delivered(nodes, arrivals)
    ensures OnceEach(publisherUris, set u | u in nodes && topic in nodes[u].pubs.live)
  {
    hide Ran, Delivered, OnceEach, ServeAll, Nodes;
    var master := new Master();
    master.HandleAll(arrivals);
    publisherUris := master.RegisterSubscription(subscriber, topic);
    PublishersAgree(b, nodes, runs, arrivals, topic);
  }

  /** The reply makes a new subscriber contact exactly the nodes that publish the topic, each once, at the port
      in its URI. */
  method Discover(ghost b: Build, ghost nodes: map<Str, State>, ghost runs: map<Str, seq<Op>>,
                  arrivals: seq<Request>, subscriber: Str, topic: Str)
    returns (contacts: seq<Contact>)
    requires Ran(b, nodes, runs) && Delivered(nodes, arrivals)
    requires subscriber != [] && forall u | u in nodes :: IsNodeUri(u)
    ensures forall port: nat :: multiset(contacts)[Contact(LOOPBACK, port, topic)] ==
              if NodeUri(port) in nodes && topic in nodes[NodeUri(port)].pubs.live then 1 else 0
  {
    hide Ran, Delivered, IsNodeUri, NodeUri, Contacts, OnceEach;
    var registration := new MasterRegistration();
    registration.SetURI(subscriber);
    var _ := registration.RegisterSubscription(topic);
    var call := registration.calls[0];
    var reply := Reply(b, nodes, runs, arrivals, call.node, call.topic);
    registration.RegisterSubscriptionCb(topic, reply);
    contacts := registration.contacts;
    assert contacts == Contacts(topic, reply);
    ContactsOnce(topic, reply, set u | u in nodes && topic in nodes[u].pubs.live);
  }

  lemma ContactsOnce(topic: Str, nodeUris: seq<Str>, publishers: set<Str>)
    requires OnceEach(nodeUris, publishers) && forall u | u in publishers :: IsNodeUri(u)
    ensures forall port: nat :: multiset(Contacts(topic, nodeUris))[Contact(LOOPBACK, port, topic)] ==
              if NodeUri(port) in publishers then 1 else 0
  {
    hide IsNodeUri, NodeUri, Contacts;
    forall u | u in nodeUris ensures u in publishers {
      assert multiset(nodeUris)[u] > 0;
    }
    forall port: nat
      ensures multiset(Contacts(topic, nodeUris))[Contact(LOOPBACK, port, topic)] ==
              if NodeUri(port) in publishers then 1 else 0
    {
      ContactsCount(topic, nodeUris, port);
    }
  }

  lemma NodesHas(pairs: set<(Str, Str)>, topic: Str, u: Str)
    ensures u in Nodes(pairs, topic) <==> (u, topic) in pairs
  {
    if (u, topic) in pairs {
      assert (u, topic).0 in Nodes(pairs, topic);
    }
  }
}
