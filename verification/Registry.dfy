/** What the master knows, as relations between nodes and topics, and why only the order of the
    requests about one (node, topic, role) matters. */
module Registry {
  import opened Bytes
  import opened Topics

  /** Pairs of a node's URI and a topic. */
  datatype Relations = Relations(pubs: set<(Str, Str)>, subs: set<(Str, Str)>)
  {
    function At(role: Role): set<(Str, Str)> {
      if role.Publisher? then pubs else subs
    }
  }

  const NOTHING := Relations({}, {})

  function Serve(rel: Relations, r: Request): Relations {
    var pair := {(r.node, r.topic)};
    if r.role.Publisher? then rel.(pubs := if r.add then rel.pubs + pair else rel.pubs - pair)
    else rel.(subs := if r.add then rel.subs + pair else rel.subs - pair)
  }

  function ServeAll(rel: Relations, log: seq<Request>): Relations {
    if log == [] then rel else Serve(ServeAll(rel, log[..|log| - 1]), log[|log| - 1])
  }

  predicate About(r: Request, node: Str, topic: Str, role: Role) {
    r.node == node && r.topic == topic && r.role == role
  }

  /** The requests about one (node, topic, role), in order. */
  function Select(log: seq<Request>, node: Str, topic: Str, role: Role): seq<Request> {
    if log == [] then [] else
    var r := log[|log| - 1];
    Select(log[..|log| - 1], node, topic, role) + if About(r, node, topic, role) then [r] else []
  }

  /** The last request about a (node, topic, role) decides it. */
  lemma {:induction false} LastDecides(rel: Relations, log: seq<Request>, node: Str, topic: Str, role: Role)
    ensures var sel := Select(log, node, topic, role);
            (node, topic) in ServeAll(rel, log).At(role) <==>
            if sel == [] then (node, topic) in rel.At(role) else sel[|sel| - 1].add
  {
    if log != [] {
      LastDecides(rel, log[..|log| - 1], node, topic, role);
    }
  }

  /** Both logs have the requests about each (node, topic, role) in the same order. */
  ghost predicate SameOrder(a: seq<Request>, b: seq<Request>) {
    forall node, topic, role :: Select(a, node, topic, role) == Select(b, node, topic, role)
  }

  /** Requests may be reordered freely as long as each (node, topic, role) keeps its own order. */
  lemma Reordering(rel: Relations, a: seq<Request>, b: seq<Request>)
    requires SameOrder(a, b)
    ensures ServeAll(rel, a) == ServeAll(rel, b)
  {
    var ra, rb := ServeAll(rel, a), ServeAll(rel, b);
    hide ServeAll, Select;
    forall pair: (Str, Str)
      ensures pair in ra.pubs <==> pair in rb.pubs
      ensures pair in ra.subs <==> pair in rb.subs
    {
      assert pair == (pair.0, pair.1) && ra.pubs == ra.At(Publisher) && ra.subs == ra.At(Subscriber);
      LastDecides(rel, a, pair.0, pair.1, Publisher);
      LastDecides(rel, b, pair.0, pair.1, Publisher);
      LastDecides(rel, a, pair.0, pair.1, Subscriber);
      LastDecides(rel, b, pair.0, pair.1, Subscriber);
    }
  }

  lemma {:induction false} SelectAppend(a: seq<Request>, b: seq<Request>, node: Str, topic: Str, role: Role)
    ensures Select(a + b, node, topic, role) == Select(a, node, topic, role) + Select(b, node, topic, role)
  {
    if b == [] {
      assert a + b == a;
    } else {
      SelectAppend(a, b[..|b| - 1], node, topic, role);
      assert (a + b)[..|a + b| - 1] == a + b[..|b| - 1];
    }
  }

  /** Neighbouring requests about different things can change places. */
  lemma Exchange(before: seq<Request>, r: Request, q: Request, after: seq<Request>)
    requires !About(r, q.node, q.topic, q.role)
    ensures SameOrder(before + [r, q] + after, before + [q, r] + after)
  {
    forall node, topic, role
      ensures Select(before + [r, q] + after, node, topic, role) == Select(before + [q, r] + after, node, topic, role)
    {
      hide Select, About;
      SelectPair(r, q, node, topic, role);
      SelectAppend(before + [r, q], after, node, topic, role);
      SelectAppend(before + [q, r], after, node, topic, role);
      SelectAppend(before, [r, q], node, topic, role);
      SelectAppend(before, [q, r], node, topic, role);
    }
  }

  lemma SelectPair(r: Request, q: Request, node: Str, topic: Str, role: Role)
    requires !About(r, q.node, q.topic, q.role)
    ensures Select([r, q], node, topic, role) == Select([q, r], node, topic, role)
  {
    assert [r, q][..1] == [r] && [q, r][..1] == [q] && [r][..0] == [] && [q][..0] == [];
  }
}
