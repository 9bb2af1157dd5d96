/** MasterRegistration: the calls a node makes to the master, and to the publishers it is told about. */
module Registration {
  import opened Bytes
  import opened Topics

  const ZERO: byte := 48
  const COLON: byte := 58
  const LOOPBACK: Str := [49, 50, 55, 46, 48, 46, 48, 46, 49]

  predicate IsDigit(c: byte) {
    ZERO <= c <= ZERO + 9
  }

  /** A port as sprintf("%i") prints it. */
  function Decimal(n: nat): (s: Str)
    ensures s != [] && forall i | 0 <= i < |s| :: IsDigit(s[i])
  {
    (if n < 10 then [] else Decimal(n / 10)) + [ZERO + (n % 10) as byte]
  }

  /** The URI of a node whose service socket listens on `port`. */
  function NodeUri(port: nat): Str {
    LOOPBACK + [COLON] + Decimal(port)
  }

  function Leading(s: Str, value: int): int {
    if s == [] || !IsDigit(s[0]) then value else Leading(s[1..], 10 * value + (s[0] - ZERO) as int)
  }

  predicate IsSpace(c: byte) {
    c == 32 || 9 <= c <= 13
  }

  /** The C function, without its overflow. */
  function Atoi(s: Str): int {
    if s == [] then 0 else
    if IsSpace(s[0]) then Atoi(s[1..]) else
    if s[0] == 45 then -Leading(s[1..], 0) else
    if s[0] == 43 then Leading(s[1..], 0) else Leading(s, 0)
  }

  /** std::string::find of one character. */
  function Find(s: Str, c: byte): (r: Option<nat>)
    ensures r.Some? ==> r.value < |s| && s[r.value] == c && c !in s[..r.value]
    ensures r.None? ==> c !in s
  {
    if s == [] then None else
    if s[0] == c then Some(0) else
    match Find(s[1..], c)
    case None => None
    case Some(i) =>
      assert s[..i + 1] == [s[0]] + s[1..][..i];
      Some(i + 1)
  }

  /** Without a colon both substrings are the whole string, since npos + 1 is 0. */
  function Address(endpoint: Str): Str {
    match Find(endpoint, COLON)
    case None => endpoint
    case Some(i) => endpoint[..i]
  }

  function Port(endpoint: Str): int {
    match Find(endpoint, COLON)
    case None => Atoi(endpoint)
    case Some(i) => Atoi(endpoint[i + 1..])
  }

  lemma {:induction false} LeadingSnoc(s: Str, c: byte, value: int)
    requires IsDigit(c) && forall i | 0 <= i < |s| :: IsDigit(s[i])
    ensures Leading(s + [c], value) == 10 * Leading(s, value) + (c - ZERO) as int
  {
    if s == [] {
      assert (s + [c])[1..] == [];
    } else {
      assert (s + [c])[1..] == s[1..] + [c];
      LeadingSnoc(s[1..], c, 10 * value + (s[0] - ZERO) as int);
    }
  }

  lemma {:induction false} LeadingDecimal(n: nat)
    ensures Leading(Decimal(n), 0) == n
  {
    var c := ZERO + (n % 10) as byte;
    var front := if n < 10 then [] else Decimal(n / 10);
    LeadingSnoc(front, c, 0);
    if n >= 10 {
      LeadingDecimal(n / 10);
    }
  }

  lemma {:induction false} FindFirst(before: Str, c: byte, after: Str)
    requires c !in before
    ensures Find(before + [c] + after, c) == Some(|before|)
  {
    var s := before + [c] + after;
    if before != [] {
      assert s[1..] == before[1..] + [c] + after;
      FindFirst(before[1..], c, after);
    }
  }

  lemma {:induction false} LeadingStops(s: Str, tail: Str, value: int)
    requires forall i | 0 <= i < |s| :: IsDigit(s[i])
    requires tail == [] || !IsDigit(tail[0])
    ensures Leading(s + tail, value) == Leading(s, value)
  {
    if s == [] {
      assert s + tail == tail;
    } else {
      assert (s + tail)[1..] == s[1..] + tail;
      LeadingStops(s[1..], tail, 10 * value + (s[0] - ZERO) as int);
    }
  }

  lemma AtoiSign(s: Str)
    requires s != [] && IsDigit(s[0])
    ensures Atoi(s) == Atoi([43] + s) == Leading(s, 0) && Atoi([45] + s) == -Leading(s, 0)
  {
    hide Leading;
    assert ([43] + s)[1..] == s && ([45] + s)[1..] == s;
  }

  lemma DecimalReads(n: nat, tail: Str)
    requires tail == [] || !IsDigit(tail[0])
    ensures var s := Decimal(n) + tail; s != [] && IsDigit(s[0]) && Leading(s, 0) == n
  {
    LeadingDecimal(n);
    LeadingStops(Decimal(n), tail, 0);
    hide Leading, Decimal;
    assert (Decimal(n) + tail)[0] == Decimal(n)[0];
  }

  /** atoi skips blanks, takes a sign, and reads the digits up to whatever comes after them. */
  lemma AtoiReads(blanks: Str, n: nat, tail: Str)
    requires forall i | 0 <= i < |blanks| :: IsSpace(blanks[i])
    requires tail == [] || !IsDigit(tail[0])
    ensures Atoi(blanks + (Decimal(n) + tail)) == n
    ensures Atoi(blanks + ([43] + (Decimal(n) + tail))) == n
    ensures Atoi(blanks + ([45] + (Decimal(n) + tail))) == -(n as int)
  {
    var s := Decimal(n) + tail;
    DecimalReads(n, tail);
    AtoiSign(s);
    hide Decimal, Leading, Atoi;
    AtoiSkips(blanks, s);
    AtoiSkips(blanks, [43] + s);
    AtoiSkips(blanks, [45] + s);
  }

  lemma {:induction false} AtoiSkips(blanks: Str, s: Str)
    requires forall i | 0 <= i < |blanks| :: IsSpace(blanks[i])
    ensures Atoi(blanks + s) == Atoi(s)
  {
    hide Leading;
    if blanks == [] {
      assert blanks + s == s;
    } else {
      assert (blanks + s)[1..] == blanks[1..] + s;
      AtoiSkips(blanks[1..], s);
    }
  }

  /** What contactPublishers takes a node's URI apart into is what it was made of. */
  lemma UriRoundTrip(port: nat)
    ensures Address(NodeUri(port)) == LOOPBACK && Port(NodeUri(port)) == port
  {
    var uri := NodeUri(port);
    FindFirst(LOOPBACK, COLON, Decimal(port));
    assert uri[..|LOOPBACK|] == LOOPBACK && uri[|LOOPBACK| + 1..] == Decimal(port);
    LeadingDecimal(port);
    assert IsDigit(Decimal(port)[0]);
  }

  /** "127.0.0.1:80" */
  lemma UriExample()
    ensures NodeUri(80) == [49, 50, 55, 46, 48, 46, 48, 46, 49, 58, 56, 48]
  {
    assert Decimal(8) == [56] && Decimal(80) == [56, 48];
  }

  /** So nodes on different ports have different URIs. */
  lemma UriInjective(p: nat, q: nat)
    requires NodeUri(p) == NodeUri(q)
    ensures p == q
  {
    UriRoundTrip(p);
    UriRoundTrip(q);
  }

  /** One requestTopic call to a publisher. */
  datatype Contact = Contact(address: Str, port: int, topic: Str)

  class MasterRegistration {
    var uri: Str
    var calls: seq<Request>
    var contacts: seq<Contact>

    constructor ()
      ensures uri == [] && calls == [] && contacts == []
    {
      uri, calls, contacts := [], [], [];
    }

    method SetURI(uri: Str)
      modifies `uri
      ensures this.uri == uri
    {
      this.uri := uri;
    }

    /** Asking for a URI that was never set stops the process. */
    method MyURI() returns (ok: bool, result: Str)
      ensures ok <==> uri != []
      ensures ok ==> result == uri
    {
      if uri == [] {
        return false, [];
      }
      return true, uri;
    }

    method RegisterSubscription(topic: Str) returns (ok: bool)
      modifies `calls
      ensures ok <==> uri != []
      ensures calls == old(calls) + if ok then [Request(uri, topic, Subscriber, true)] else []
    {
      var node;
      ok, node := MyURI();
      if ok {
        calls := calls + [Request(node, topic, Subscriber, true)];
      }
    }

    method UnregisterSubscription(topic: Str) returns (ok: bool)
      modifies `calls
      ensures ok <==> uri != []
      ensures calls == old(calls) + if ok then [Request(uri, topic, Subscriber, false)] else []
    {
      var node;
      ok, node := MyURI();
      if ok {
        calls := calls + [Request(node, topic, Subscriber, false)];
      }
    }

    method RegisterPublication(topic: Str) returns (ok: bool)
      modifies `calls
      ensures ok <==> uri != []
      ensures calls == old(calls) + if ok then [Request(uri, topic, Publisher, true)] else []
    {
      var node;
      ok, node := MyURI();
      if ok {
        calls := calls + [Request(node, topic, Publisher, true)];
      }
    }

    /** The one call that does not check the URI. */
    method UnregisterPublication(topic: Str)
      modifies `calls
      ensures calls == old(calls) + [Request(uri, topic, Publisher, false)]
    {
      calls := calls + [Request(uri, topic, Publisher, false)];
    }

    /** The reply to registerSubscription lists the publishers to contact. */
    method RegisterSubscriptionCb(topic: Str, publisherUris: seq<Str>)
      modifies `contacts
      ensures contacts == old(contacts) + Contacts(topic, publisherUris)
    {
      ContactPublishers(topic, publisherUris);
    }

    /** One requestTopic call to each publisher, in the order of the list. */
    method ContactPublishers(topic: Str, nodeUris: seq<Str>)
      modifies `contacts
      ensures contacts == old(contacts) + Contacts(topic, nodeUris)
    {
      var i := 0;
      assert nodeUris[..0] == [];
      while i < |nodeUris|
        invariant i <= |nodeUris|
        invariant contacts == old(contacts) + Contacts(topic, nodeUris[..i])
      {
        var endpoint := nodeUris[i];
        contacts := contacts + [Contact(Address(endpoint), Port(endpoint), topic)];
        assert nodeUris[..i + 1][..i] == nodeUris[..i];
        i := i + 1;
      }
      assert nodeUris[..i] == nodeUris;
    }
  }

  ghost predicate IsNodeUri(uri: Str) {
    exists port: nat :: uri == NodeUri(port)
  }

  function Contacts(topic: Str, nodeUris: seq<Str>): seq<Contact> {
    if nodeUris == [] then [] else
    var last := nodeUris[|nodeUris| - 1];
    Contacts(topic, nodeUris[..|nodeUris| - 1]) + [Contact(Address(last), Port(last), topic)]
  }

  lemma ContactIs(topic: Str, uri: Str, port: nat)
    requires IsNodeUri(uri)
    ensures Contact(Address(uri), Port(uri), topic) == Contact(LOOPBACK, port, topic) <==> uri == NodeUri(port)
  {
    var p: nat :| uri == NodeUri(p);
    UriRoundTrip(p);
    UriRoundTrip(port);
    hide NodeUri, Address, Port;
  }

  /** The publisher on a port is contacted as often as its URI is listed. */
  lemma {:induction false} ContactsCount(topic: Str, nodeUris: seq<Str>, port: nat)
    requires forall u | u in nodeUris :: IsNodeUri(u)
    ensures multiset(Contacts(topic, nodeUris))[Contact(LOOPBACK, port, topic)] == multiset(nodeUris)[NodeUri(port)]
  {
    hide IsNodeUri, NodeUri, Address, Port;
    if nodeUris != [] {
      var front, last := nodeUris[..|nodeUris| - 1], nodeUris[|nodeUris| - 1];
      assert nodeUris == front + [last];
      assert last in nodeUris && forall u | u in front :: u in nodeUris;
      ContactsCount(topic, front, port);
      ContactIs(topic, last, port);
    }
  }
}
