/** The TopicManager class, method by method the functions of Topics. */
module TopicManagement {
  import opened Bytes
  import opened Ordering
  import opened Registration
  import opened Topics

  /** How a call ends: normally, or with the process stopped. */
  datatype Outcome = Continue | Stop(why: Reason)
  {
    predicate IsFailure() {
      Stop?
    }

    function PropagateFailure(): Outcome {
      this
    }
  }

  /** The first rule in map order whose `find` starts a name is the shortest one that does. */
  lemma FirstIsShortest(remaps: map<Str, Str>, name: Str, rest: set<Str>, find: Str)
    requires rest <= remaps.Keys && LexFirst(rest, find) && find <= name
    requires forall k | k in remaps && k !in rest :: !(k <= name)
    ensures ShortestRule(remaps, name, 0) == Some(|find|)
  {
    hide LexLess;
    assert name[..|find|] == find;
    forall l | 0 <= l < |find| ensures name[..l] !in remaps {
      var k := name[..l];
      if k in remaps {
        assert k <= name && k <= find && k != find;
        LexPrefix(k, find);
        LexTransitive(k, find, k);
        LexIrreflexive(k);
      }
    }
  }

  class TopicManager {
    const build: Build
    const registration: MasterRegistration
    var remaps: map<Str, Str>
    var pubMap: map<Str, Str>
    var subMap: map<Str, Str>
    var publications: map<Str, Endpoint>
    var subscriptions: map<Str, Endpoint>
    var sent: seq<(Str, nat)>

    /** The node's URI and the calls to the master are those of the registration object. */
    ghost function State(): State
      reads this, registration
    {
      Topics.State(registration.uri, remaps, Side(pubMap, publications), Side(subMap, subscriptions),
                   registration.calls, sent)
    }

    ghost predicate Follows(r: Result, out: Outcome)
      reads this, registration
    {
      match r
      case Done(s) => out == Continue && State() == s
      case Stopped(why) => out == Stop(why)
    }

    constructor (build: Build, registration: MasterRegistration)
      requires registration.calls == []
      ensures State() == Initial(registration.uri) && this.build == build && this.registration == registration
    {
      this.build, this.registration := build, registration;
      remaps, pubMap, subMap := map[], map[], map[];
      publications, subscriptions := map[], map[];
      sent := [];
    }

    /** The loop over the rules in map order applies the shortest one that matches. */
    method Remap(name: Str) returns (remapped: Str)
      ensures remapped == Topics.Remap(remaps, name)
    {
      remapped := name;
      var rest := remaps.Keys;
      while rest != {}
        invariant rest <= remaps.Keys && remapped == name
        invariant forall k | k in remaps && k !in rest :: !(k <= name)
        decreases |rest|
      {
        LexFirstExists(rest);
        var start :| LexFirst(rest, start);
        if start <= name {
          FirstIsShortest(remaps, name, rest, start);
          assert name[..|start|] == start;
          remapped := remaps[start] + remapped[|start|..];
          return;
        }
        rest := rest - {start};
      }
    }

    method RegisterPublication(unmapped: Str) returns (out: Outcome)
      modifies this, registration
      ensures Follows(Topics.RegisterPublication(build, old(State()), unmapped), out)
    {
      pubMap := pubMap[unmapped := []];
      var topic := Remap(unmapped);
      pubMap := pubMap[unmapped := topic];
      if build.Debug? && topic in publications {
        return Stop(TopicTaken);
      }
      publications := publications[topic := Endpoint(topic, None)];
      var told := registration.RegisterPublication(topic);
      if !told {
        return Stop(NoUri);
      }
      out := Continue;
      assert old(pubMap)[unmapped := []][unmapped := topic] == old(pubMap)[unmapped := topic];
    }

    method UnregisterPublication(unmapped: Str) returns (out: Outcome)
      modifies this, registration
      ensures Follows(Unregister(old(State()), Publisher, unmapped), out)
    {
      if unmapped !in pubMap {
        return Stop(UnknownName);
      }
      var topic := pubMap[unmapped];
      if topic !in publications {
        return Stop(UnknownTopic);
      }
      publications := publications - {topic};
      registration.UnregisterPublication(topic);
      pubMap := pubMap - {unmapped};
      out := Continue;
    }

    method Subscribe(unmapped: Str, callback: Option<nat>) returns (out: Outcome)
      modifies this, registration
      ensures Follows(Topics.Subscribe(build, old(State()), unmapped, callback), out)
    {
      var topic := Remap(unmapped);
      if build.Debug? && topic in subMap {
        return Stop(NameTaken);
      }
      subMap := subMap[unmapped := topic];
      if build.Debug? && topic in subscriptions {
        return Stop(TopicTaken);
      }
      subscriptions := subscriptions[topic := Endpoint(topic, callback)];
      var told := registration.RegisterSubscription(topic);
      if !told {
        return Stop(NoUri);
      }
      out := Continue;
    }

    method UnregisterSubscription(unmapped: Str) returns (out: Outcome)
      modifies this, registration
      ensures Follows(Unregister(old(State()), Subscriber, unmapped), out)
    {
      if unmapped !in subMap {
        return Stop(UnknownName);
      }
      var topic := subMap[unmapped];
      if topic !in subscriptions {
        return Stop(UnknownTopic);
      }
      subscriptions := subscriptions - {topic};
      var told := registration.UnregisterSubscription(topic);
      if !told {
        return Stop(NoUri);
      }
      subMap := subMap - {unmapped};
      out := Continue;
    }

    method Publish(unmapped: Str, msg: nat) returns (out: Outcome)
      modifies this, registration
      ensures Follows(Topics.Publish(build, old(State()), unmapped, msg), out)
    {
      if unmapped !in pubMap {
        :- RegisterPublication(unmapped);
      } else {
        var remapped := Remap(unmapped);
        if build.Debug? && pubMap[unmapped] != remapped {
          return Stop(NotRemapped);
        }
      }
      var topic := pubMap[unmapped];
      if topic !in publications {
        return Stop(UnknownTopic);
      }
      sent := sent + [(topic, msg)];
      out := Continue;
    }

    // ---------------------------------------------------------------- refreshRemaps

    method MovePublication(name: Str, current: Str) returns (out: Outcome)
      modifies this, registration
      ensures Follows(Move(build, old(State()), Publisher, name, current), out)
    {
      var remapped := Remap(name);
      :- UnregisterPublication(name);
      :- RegisterPublication(name);
      if build.Debug? && current != remapped {
        return Stop(StaleCopy);
      }
      out := Continue;
    }

    method MoveSubscription(name: Str, current: Str) returns (out: Outcome)
      modifies this, registration
      ensures Follows(Move(build, old(State()), Subscriber, name, current), out)
    {
      var remapped := Remap(name);
      if current !in subscriptions {
        return Stop(UnknownTopic);
      }
      var callback := subscriptions[current].callback;
      :- UnregisterSubscription(name);
      :- Subscribe(name, callback);
      if build.Debug? && subMap[name] != remapped {
        return Stop(NotRemapped);
      }
      out := Continue;
    }

    method RefreshPublications() returns (out: Outcome)
      modifies this, registration
      ensures Follows(RefreshSide(build, old(State()), Publisher), out)
    {
      hide Topics.Remap, Move, LexLess;
      var pmap := pubMap;
      SortedIs(pmap.Keys);
      var rest := pmap.Keys;
      while rest != {}
        invariant rest <= pmap.Keys
        invariant forall k :: k in Sorted(rest) <==> k in rest
        invariant RefreshNames(build, State(), Publisher, pmap, Sorted(rest)) ==
                  RefreshSide(build, old(State()), Publisher)
        decreases |rest|
      {
        LexFirstExists(rest);
        var name :| LexFirst(rest, name);
        SortedFirst(rest, name);
        SortedIs(rest - {name});
        assert Sorted(rest)[1..] == Sorted(rest - {name});
        var remapped := Remap(name);
        if remapped != pmap[name] {
          :- MovePublication(name, pmap[name]);
        }
        rest := rest - {name};
      }
      SortedEmpty();
      out := Continue;
    }

    method RefreshSubscriptions() returns (out: Outcome)
      modifies this, registration
      ensures Follows(RefreshSide(build, old(State()), Subscriber), out)
    {
      hide Topics.Remap, Move, LexLess;
      var smap := subMap;
      SortedIs(smap.Keys);
      var rest := smap.Keys;
      while rest != {}
        invariant rest <= smap.Keys
        invariant forall k :: k in Sorted(rest) <==> k in rest
        invariant RefreshNames(build, State(), Subscriber, smap, Sorted(rest)) ==
                  RefreshSide(build, old(State()), Subscriber)
        decreases |rest|
      {
        LexFirstExists(rest);
        var orig :| LexFirst(rest, orig);
        SortedFirst(rest, orig);
        SortedIs(rest - {orig});
        assert Sorted(rest)[1..] == Sorted(rest - {orig});
        var remapped := Remap(orig);
        if remapped != smap[orig] {
          :- MoveSubscription(orig, smap[orig]);
        }
        rest := rest - {orig};
      }
      SortedEmpty();
      out := Continue;
    }

    method RefreshRemaps() returns (out: Outcome)
      modifies this, registration
      ensures Follows(Refresh(build, old(State())), out)
    {
      hide RefreshSide;
      :- RefreshPublications();
      out := RefreshSubscriptions();
    }

    method SetRemap(find: Str, replace: Str) returns (out: Outcome)
      modifies this, registration
      ensures Follows(Topics.SetRemap(build, old(State()), find, replace), out)
    {
      hide Refresh;
      remaps := remaps[find := replace];
      out := RefreshRemaps();
    }

    method SetRemappings(find: seq<Str>, replace: seq<Str>) returns (out: Outcome)
      modifies this, registration
      ensures Follows(Topics.SetRemappings(build, old(State()), find, replace), out)
    {
      hide Refresh;
      if build.Debug? && |find| != |replace| {
        return Stop(SizesDiffer);
      }
      remaps := map[];
      var i := 0;
      while i < |find|
        invariant 0 <= i <= |find| && i <= |replace|
        invariant remaps == RuleMap(find[..i], replace)
        invariant State() == old(State()).(remaps := remaps)
      {
        if i >= |replace| {
          return Stop(SizesDiffer);
        }
        assert find[..i + 1][..i] == find[..i];
        remaps := remaps[find[i] := replace[i]];
        i := i + 1;
      }
      assert find[..i] == find;
      out := RefreshRemaps();
    }

    // ---------------------------------------------------------------- shutdown

    method Shutdown() returns (out: Outcome)
      modifies this, registration
      ensures Follows(Topics.Shutdown(old(State())), out)
    {
      hide LexLess, Unregister;
      var rest := pubMap.Keys;
      SortedIs(rest);
      while rest != {}
        invariant UnregisterAll(State(), Publisher, Sorted(rest)) ==
                  UnregisterAll(old(State()), Publisher, Sorted(old(pubMap).Keys))
        decreases |rest|
      {
        LexFirstExists(rest);
        var name :| LexFirst(rest, name);
        SortedFirst(rest, name);
        assert Sorted(rest)[1..] == Sorted(rest - {name});
        :- UnregisterPublication(name);
        rest := rest - {name};
      }
      SortedEmpty();
      ghost var between := State();
      rest := subMap.Keys;
      while rest != {}
        invariant UnregisterAll(State(), Subscriber, Sorted(rest)) ==
                  UnregisterAll(between, Subscriber, Sorted(between.subs.names.Keys))
        decreases |rest|
      {
        LexFirstExists(rest);
        var name :| LexFirst(rest, name);
        SortedFirst(rest, name);
        assert Sorted(rest)[1..] == Sorted(rest - {name});
        :- UnregisterSubscription(name);
        rest := rest - {name};
      }
      SortedEmpty();
      out := Continue;
    }
  }
}
