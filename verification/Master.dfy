/** The master: its nodes, its topics, and the index that runs both ways between them. */
module Masters {
  import opened Bytes
  import opened Topics
  import opened Registry

  datatype TopicInfo = TopicInfo(subscribers: set<NodeInfo>, publishers: set<NodeInfo>)
  {
    function At(role: Role): set<NodeInfo> {
      if role.Publisher? then publishers else subscribers
    }
  }

  /** topics_[topic], which is created empty when it is missing. */
  function TopicOf(topics: map<Str, TopicInfo>, topic: Str): TopicInfo {
    if topic in topics then topics[topic] else TopicInfo({}, {})
  }

  function Toggle<T>(s: set<T>, x: T, add: bool): set<T> {
    if add then s + {x} else s - {x}
  }

  /** In one role, a node has a topic iff the topic has the node. */
  ghost predicate Indexed(role: Role, has: map<NodeInfo, set<Str>>, topics: map<Str, TopicInfo>) {
    && (forall t :: TopicOf(topics, t).At(role) <= has.Keys)
    && (forall n, t | n in has :: t in has[n] <==> n in TopicOf(topics, t).At(role))
  }

  ghost function Pairs(has: map<NodeInfo, set<Str>>): set<(Str, Str)> {
    set n, t | n in has && t in has[n] :: (n.uri, t)
  }

  /** Adding or removing one topic of one node, on both ends of the index. */
  lemma IndexedToggle(role: Role, has: map<NodeInfo, set<Str>>, topics: map<Str, TopicInfo>,
                      node: NodeInfo, topic: Str, info: TopicInfo, add: bool)
    requires Indexed(role, has, topics) && node in has
    requires info.At(role) == Toggle(TopicOf(topics, topic).At(role), node, add)
    ensures Indexed(role, has[node := Toggle(has[node], topic, add)], topics[topic := info])
  {
    var has', topics' := has[node := Toggle(has[node], topic, add)], topics[topic := info];
    assert has'.Keys == has.Keys;
    forall t ensures TopicOf(topics', t).At(role) <= has.Keys {
      assert TopicOf(topics, t).At(role) <= has.Keys;
    }
    forall n, t | n in has ensures t in has'[n] <==> n in TopicOf(topics', t).At(role) {
      assert t in has[n] <==> n in TopicOf(topics, t).At(role);
    }
  }

  /** The other role does not notice. */
  lemma IndexedOther(role: Role, has: map<NodeInfo, set<Str>>, topics: map<Str, TopicInfo>, topic: Str, info: TopicInfo)
    requires Indexed(role, has, topics)
    requires info.At(role) == TopicOf(topics, topic).At(role)
    ensures Indexed(role, has, topics[topic := info])
  {
    var topics' := topics[topic := info];
    forall t ensures TopicOf(topics', t).At(role) <= has.Keys {
      assert TopicOf(topics, t).At(role) <= has.Keys;
    }
    forall n, t | n in has ensures t in has[n] <==> n in TopicOf(topics', t).At(role) {
      assert t in has[n] <==> n in TopicOf(topics, t).At(role);
    }
  }

  lemma NewNode(role: Role, has: map<NodeInfo, set<Str>>, topics: map<Str, TopicInfo>, node: NodeInfo)
    requires Indexed(role, has, topics) && node !in has
    ensures Indexed(role, has[node := {}], topics) && Pairs(has[node := {}]) == Pairs(has)
  {
    var has' := has[node := {}];
    forall t ensures TopicOf(topics, t).At(role) <= has'.Keys && node !in TopicOf(topics, t).At(role) {
      assert TopicOf(topics, t).At(role) <= has.Keys;
    }
    forall n, t | n in has' ensures t in has'[n] <==> n in TopicOf(topics, t).At(role) {
      if n in has {
        assert t in has[n] <==> n in TopicOf(topics, t).At(role);
      }
    }
    forall u, t ensures (u, t) in Pairs(has') <==> (u, t) in Pairs(has) {
      if (u, t) in Pairs(has) {
        var n :| n in has && t in has[n] && u == n.uri;
        assert n in has' && t in has'[n];
      }
    }
    assert forall p: (Str, Str) :: p == (p.0, p.1);
  }

  function Uris(nodes: set<NodeInfo>): set<Str> {
    set n | n in nodes :: n.uri
  }

  lemma PairsToggle(has: map<NodeInfo, set<Str>>, node: NodeInfo, topic: Str, add: bool)
    requires node in has && forall m, n | m in has && n in has && m.uri == n.uri :: m == n
    ensures Pairs(has[node := Toggle(has[node], topic, add)]) == Toggle(Pairs(has), (node.uri, topic), add)
  {
    var has' := has[node := Toggle(has[node], topic, add)];
    forall u, t ensures (u, t) in Pairs(has') <==> (u, t) in Toggle(Pairs(has), (node.uri, topic), add) {
      if (u, t) in Pairs(has') {
        var n :| n in has' && t in has'[n] && u == n.uri;
        assert n in has;
      }
      if (u, t) in Toggle(Pairs(has), (node.uri, topic), add) && (u, t) != (node.uri, topic) {
        var n :| n in has && t in has[n] && u == n.uri;
        assert n in has' && t in has'[n];
      }
      if (u, t) == (node.uri, topic) && add {
        assert node in has' && topic in has'[node];
      }
    }
    assert forall p: (Str, Str) :: p == (p.0, p.1);
  }

  ghost function Nodes(pairs: set<(Str, Str)>, topic: Str): set<Str> {
    set p | p in pairs && p.1 == topic :: p.0
  }

  /** A list with each element of the set once, and nothing else. */
  ghost predicate OnceEach(list: seq<Str>, elements: set<Str>) {
    forall u :: multiset(list)[u] == if u in elements then 1 else 0
  }

  lemma OnceEachEmpty()
    ensures OnceEach([], Uris({}))
  {
  }

  lemma OnceEachSnoc(list: seq<Str>, nodes: set<NodeInfo>, node: NodeInfo)
    requires OnceEach(list, Uris(nodes)) && node.uri !in Uris(nodes)
    ensures OnceEach(list + [node.uri], Uris(nodes + {node}))
  {
    assert Uris(nodes + {node}) == Uris(nodes) + {node.uri};
  }

  /** The URIs of some nodes that have one each. */
  method ListUris(nodes: set<NodeInfo>) returns (nodeUris: seq<Str>)
    requires forall m, n | m in nodes && n in nodes && m.uri == n.uri :: m == n
    ensures OnceEach(nodeUris, Uris(nodes))
  {
    hide OnceEach;
    OnceEachEmpty();
    nodeUris := [];
    var rest := nodes;
    assert nodes - rest == {};
    while rest != {}
      invariant rest <= nodes
      invariant OnceEach(nodeUris, Uris(nodes - rest))
      decreases |rest|
    {
      var node :| node in rest;
      OnceEachSnoc(nodeUris, nodes - rest, node);
      assert nodes - (rest - {node}) == nodes - rest + {node};
      nodeUris := nodeUris + [node.uri];
      rest := rest - {node};
    }
    assert nodes - rest == nodes;
  }

  class NodeInfo {
    const uri: Str
    const parent: Master
    var subscriptions: set<Str>
    var publications: set<Str>

    constructor (uri: Str, parent: Master)
      ensures this.uri == uri && this.parent == parent && subscriptions == {} && publications == {}
    {
      this.uri, this.parent, subscriptions, publications := uri, parent, {}, {};
    }

    function At(role: Role): set<Str>
      reads this
    {
      if role.Publisher? then publications else subscriptions
    }

    method Subscribe(topic: Str)
      requires parent.Valid() && this in parent.repr
      modifies this`subscriptions, parent`topics
      ensures parent.Valid() && parent.topics.Keys == old(parent.topics.Keys) + {topic}
      ensures parent.Rel() == Serve(old(parent.Rel()), Request(uri, topic, Subscriber, true))
    {
      ghost var before := parent.topics;
      subscriptions := subscriptions + {topic};
      var info := TopicOf(parent.topics, topic);
      parent.topics := parent.topics[topic := info.(subscribers := info.subscribers + {this})];
      assert parent.Has(Subscriber) == old(parent.Has(Subscriber))[this := Toggle(old(subscriptions), topic, true)];
      assert parent.Has(Publisher) == old(parent.Has(Publisher));
      IndexedToggle(Subscriber, old(parent.Has(Subscriber)), before, this, topic,
                    info.(subscribers := info.subscribers + {this}), true);
      IndexedOther(Publisher, parent.Has(Publisher), before, topic, info.(subscribers := info.subscribers + {this}));
      PairsToggle(old(parent.Has(Subscriber)), this, topic, true);
      hide Indexed, Pairs, Toggle;
    }

    method Unsubscribe(topic: Str)
      requires parent.Valid() && this in parent.repr
      modifies this`subscriptions, parent`topics
      ensures parent.Valid() && parent.topics.Keys == old(parent.topics.Keys) + {topic}
      ensures parent.Rel() == Serve(old(parent.Rel()), Request(uri, topic, Subscriber, false))
    {
      ghost var before := parent.topics;
      subscriptions := subscriptions - {topic};
      var info := TopicOf(parent.topics, topic);
      parent.topics := parent.topics[topic := info.(subscribers := info.subscribers - {this})];
      assert parent.Has(Subscriber) == old(parent.Has(Subscriber))[this := Toggle(old(subscriptions), topic, false)];
      assert parent.Has(Publisher) == old(parent.Has(Publisher));
      IndexedToggle(Subscriber, old(parent.Has(Subscriber)), before, this, topic,
                    info.(subscribers := info.subscribers - {this}), false);
      IndexedOther(Publisher, parent.Has(Publisher), before, topic, info.(subscribers := info.subscribers - {this}));
      PairsToggle(old(parent.Has(Subscriber)), this, topic, false);
      hide Indexed, Pairs, Toggle;
    }

    method Publish(topic: Str)
      requires parent.Valid() && this in parent.repr
      modifies this`publications, parent`topics
      ensures parent.Valid() && parent.topics.Keys == old(parent.topics.Keys) + {topic}
      ensures parent.Rel() == Serve(old(parent.Rel()), Request(uri, topic, Publisher, true))
    {
      ghost var before := parent.topics;
      publications := publications + {topic};
      var info := TopicOf(parent.topics, topic);
      parent.topics := parent.topics[topic := info.(publishers := info.publishers + {this})];
      assert parent.Has(Publisher) == old(parent.Has(Publisher))[this := Toggle(old(publications), topic, true)];
      assert parent.Has(Subscriber) == old(parent.Has(Subscriber));
      IndexedToggle(Publisher, old(parent.Has(Publisher)), before, this, topic,
                    info.(publishers := info.publishers + {this}), true);
      IndexedOther(Subscriber, parent.Has(Subscriber), before, topic, info.(publishers := info.publishers + {this}));
      PairsToggle(old(parent.Has(Publisher)), this, topic, true);
      hide Indexed, Pairs, Toggle;
    }

    method Unpublish(topic: Str)
      requires parent.Valid() && this in parent.repr
      modifies this`publications, parent`topics
      ensures parent.Valid() && parent.topics.Keys == old(parent.topics.Keys) + {topic}
      ensures parent.Rel() == Serve(old(parent.Rel()), Request(uri, topic, Publisher, false))
    {
      ghost var before := parent.topics;
      publications := publications - {topic};
      var info := TopicOf(parent.topics, topic);
      parent.topics := parent.topics[topic := info.(publishers := info.publishers - {this})];
      assert parent.Has(Publisher) == old(parent.Has(Publisher))[this := Toggle(old(publications), topic, false)];
      assert parent.Has(Subscriber) == old(parent.Has(Subscriber));
      IndexedToggle(Publisher, old(parent.Has(Publisher)), before, this, topic,
                    info.(publishers := info.publishers - {this}), false);
      IndexedOther(Subscriber, parent.Has(Subscriber), before, topic, info.(publishers := info.publishers - {this}));
      PairsToggle(old(parent.Has(Publisher)), this, topic, false);
      hide Indexed, Pairs, Toggle;
    }
  }

  class Master {
    var nodes: map<Str, NodeInfo>
    var topics: map<Str, TopicInfo>
    /** The values of `nodes`. */
    ghost var repr: set<NodeInfo>

    /** Each node is listed under its own URI. */
    ghost predicate Listed()
      reads this`nodes, this`repr
    {
      && (forall u | u in nodes :: nodes[u] in repr && nodes[u].uri == u)
      && (forall n | n in repr :: n.uri in nodes && nodes[n.uri] == n && n.parent == this)
    }

    ghost function Has(role: Role): map<NodeInfo, set<Str>>
      reads this`repr, repr
    {
      map n | n in repr :: n.At(role)
    }

    ghost predicate Valid()
      reads this, repr
    {
      Listed() && Indexed(Publisher, Has(Publisher), topics) && Indexed(Subscriber, Has(Subscriber), topics)
    }

    ghost function Rel(): Relations
      reads this`repr, repr
    {
      Relations(Pairs(Has(Publisher)), Pairs(Has(Subscriber)))
    }

    /** The index read from either end. */
    lemma RelHas(u: Str, t: Str, role: Role)
      requires Valid()
      ensures (u, t) in Rel().At(role) <==> u in nodes && t in nodes[u].At(role)
      ensures (u, t) in Rel().At(role) <==> u in nodes && nodes[u] in TopicOf(topics, t).At(role)
    {
      if u in nodes && t in nodes[u].At(role) {
        assert (nodes[u].uri, t) in Pairs(Has(role));
      }
    }

    constructor ()
      ensures Valid() && Rel() == NOTHING && nodes == map[] && topics == map[] && repr == {}
    {
      nodes, topics, repr := map[], map[], {};
    }

    method GetOrCreateNode(uri: Str) returns (node: NodeInfo)
      requires Valid()
      modifies this`nodes, this`repr
      ensures Valid() && Rel() == old(Rel())
      ensures nodes == old(nodes)[uri := node] && node.uri == uri
      ensures repr == old(repr) + {node} && fresh(repr - old(repr))
    {
      hide Indexed, Pairs;
      if uri !in nodes {
        node := new NodeInfo(uri, this);
        nodes := nodes[uri := node];
        repr := repr + {node};
        assert Has(Publisher) == old(Has(Publisher))[node := {}];
        assert Has(Subscriber) == old(Has(Subscriber))[node := {}];
        NewNode(Publisher, old(Has(Publisher)), topics, node);
        NewNode(Subscriber, old(Has(Subscriber)), topics, node);
      } else {
        node := nodes[uri];
      }
    }

    lemma PublisherUris(topic: Str)
      requires Valid()
      ensures TopicOf(topics, topic).publishers <= repr
      ensures Nodes(Rel().pubs, topic) == Uris(TopicOf(topics, topic).publishers)
    {
      var pubs := TopicOf(topics, topic).publishers;
      assert pubs <= repr by {
        assert TopicOf(topics, topic).At(Publisher) <= Has(Publisher).Keys;
      }
      forall u ensures (u, topic) in Rel().At(Publisher) <==> u in Uris(pubs) {
        RelHas(u, topic, Publisher);
        hide Indexed, Pairs;
        if u in nodes && nodes[u] in pubs {
          assert nodes[u].uri in Uris(pubs);
        }
      }
      forall u ensures u in Nodes(Rel().pubs, topic) <==> u in Uris(pubs) {
        hide Indexed, Pairs, Rel;
        assert (u, topic) in Rel().pubs <==> u in Uris(pubs);
        if u in Nodes(Rel().pubs, topic) {
          var p :| p in Rel().pubs && p.1 == topic && p.0 == u;
          assert p == (u, topic);
        }
        if (u, topic) in Rel().pubs {
          assert (u, topic).0 in Nodes(Rel().pubs, topic);
        }
      }
    }

    /** topics_[topic] may add an empty entry; nothing else changes. */
    method TouchTopic(topic: Str)
      requires Valid()
      modifies this`topics
      ensures Valid() && Rel() == old(Rel())
      ensures topics == old(topics)[topic := TopicOf(old(topics), topic)]
    {
      ghost var before := topics;
      topics := topics[topic := TopicOf(topics, topic)];
      IndexedOther(Publisher, Has(Publisher), before, topic, topics[topic]);
      IndexedOther(Subscriber, Has(Subscriber), before, topic, topics[topic]);
      hide Indexed, Pairs;
    }

    /** Every publisher of the topic, once each, in no particular order. */
    method LookupPublishers(topic: Str) returns (nodeUris: seq<Str>)
      requires Valid()
      modifies this`topics
      ensures Valid() && Rel() == old(Rel()) && topics.Keys == old(topics.Keys) + {topic}
      ensures OnceEach(nodeUris, Nodes(Rel().pubs, topic))
    {
      hide Indexed, Rel, Has, OnceEach;
      TouchTopic(topic);
      PublisherUris(topic);
      var pubs := topics[topic].publishers;
      assert forall n | n in pubs :: n in repr && nodes[n.uri] == n;
      nodeUris := ListUris(pubs);
    }

    method RegisterSubscription(nodeUri: Str, topic: Str) returns (publisherUris: seq<Str>)
      requires Valid()
      modifies this, repr
      ensures Valid() && fresh(repr - old(repr)) && old(repr) <= repr
      ensures Rel() == Serve(old(Rel()), Request(nodeUri, topic, Subscriber, true))
      ensures nodes.Keys == old(nodes.Keys) + {nodeUri} && topics.Keys == old(topics.Keys) + {topic}
      ensures OnceEach(publisherUris, Nodes(old(Rel()).pubs, topic))
    {
      hide Indexed, Pairs, Has, OnceEach;
      var node := GetOrCreateNode(nodeUri);
      node.Subscribe(topic);
      publisherUris := LookupPublishers(topic);
    }

    method UnregisterSubscription(nodeUri: Str, topic: Str)
      requires Valid()
      modifies this, repr
      ensures Valid() && fresh(repr - old(repr)) && old(repr) <= repr
      ensures Rel() == Serve(old(Rel()), Request(nodeUri, topic, Subscriber, false))
      ensures nodes.Keys == old(nodes.Keys) + {nodeUri} && topics.Keys == old(topics.Keys) + {topic}
    {
      var node := GetOrCreateNode(nodeUri);
      node.Unsubscribe(topic);
    }

    method RegisterPublication(nodeUri: Str, topic: Str)
      requires Valid()
      modifies this, repr
      ensures Valid() && fresh(repr - old(repr)) && old(repr) <= repr
      ensures Rel() == Serve(old(Rel()), Request(nodeUri, topic, Publisher, true))
      ensures nodes.Keys == old(nodes.Keys) + {nodeUri} && topics.Keys == old(topics.Keys) + {topic}
    {
      var node := GetOrCreateNode(nodeUri);
      node.Publish(topic);
    }

    method UnregisterPublication(nodeUri: Str, topic: Str)
      requires Valid()
      modifies this, repr
      ensures Valid() && fresh(repr - old(repr)) && old(repr) <= repr
      ensures Rel() == Serve(old(Rel()), Request(nodeUri, topic, Publisher, false))
      ensures nodes.Keys == old(nodes.Keys) + {nodeUri} && topics.Keys == old(topics.Keys) + {topic}
    {
      var node := GetOrCreateNode(nodeUri);
      node.Unpublish(topic);
    }

    /** The services the master binds, by name of the request. */
    method Handle(r: Request)
      requires Valid()
      modifies this, repr
      ensures Valid() && fresh(repr - old(repr)) && old(repr) <= repr
      ensures Rel() == Serve(old(Rel()), r)
    {
      match (r.role, r.add)
      case (Subscriber, true) => var _ := RegisterSubscription(r.node, r.topic);
      case (Subscriber, false) => UnregisterSubscription(r.node, r.topic);
      case (Publisher, true) => RegisterPublication(r.node, r.topic);
      case (Publisher, false) => UnregisterPublication(r.node, r.topic);
    }

    /** The requests of an arrival log, one after the other. */
    method HandleAll(arrivals: seq<Request>)
      requires Valid()
      modifies this, repr
      ensures Valid() && fresh(repr - old(repr)) && old(repr) <= repr
      ensures Rel() == ServeAll(old(Rel()), arrivals)
    {
      var i := 0;
      while i < |arrivals|
        invariant i <= |arrivals|
        invariant Valid() && fresh(repr - old(repr)) && old(repr) <= repr
        invariant Rel() == ServeAll(old(Rel()), arrivals[..i])
      {
        Handle(arrivals[i]);
        assert arrivals[..i + 1][..i] == arrivals[..i];
        i := i + 1;
      }
      assert arrivals[..i] == arrivals;
    }
  }
}
