/** The PollSet class. Every method is one lock region (or a sequence of them) and is proved to be
    the corresponding steps of PollModel; `Update` takes what other threads and the callbacks do
    in between as a parameter. */
module PollSets {
  import opened Bytes
  import opened PollModel
  import opened Ordering

  /** A call made by another thread or from inside a callback. */
  datatype Op =
    | Add(fd: int)
    | Delete(fd: int)
    | Enable(fd: int, events: set<Flag>)
    | Disable(fd: int, events: set<Flag>)

  function Actions(op: Op): seq<Action> {
    match op
    case Add(fd) => [PollModel.AddSocket(fd)]
    case Delete(fd) => [DelErase(fd), DelRecord]
    case Enable(fd, events) => [PollModel.AddEvents(fd, events)]
    case Disable(fd, events) => [PollModel.DelEvents(fd, events)]
  }

  function OpsTrace(ops: seq<Op>): seq<Action> {
    if ops == [] then [] else OpsTrace(ops[..|ops| - 1]) + Actions(ops[|ops| - 1])
  }

  /** What poll reports of the descriptors it is given. */
  function Reports(list: seq<PollFd>, report: int -> set<Flag>): (revents: seq<set<Flag>>)
    ensures |revents| == |list| && forall i | 0 <= i < |list| :: revents[i] == report(list[i].fd)
  {
    seq(|list|, i requires 0 <= i < |list| => report(list[i].fd))
  }

  predicate Reported(revents: seq<set<Flag>>) {
    exists i :: 0 <= i < |revents| && revents[i] != {}
  }

  /** What may happen between poll returning and the end of the update. */
  predicate Dispatches(a: Action) {
    a != Rebuild && !a.PollReturns? && a != PollTimesOut && a != Finish
  }

  lemma {:induction false} OpsDispatch(ops: seq<Op>)
    ensures forall k | 0 <= k < |OpsTrace(ops)| :: Dispatches(OpsTrace(ops)[k])
  {
    if ops != [] {
      OpsDispatch(ops[..|ops| - 1]);
    }
  }

  class PollSet {
    var socketInfo: map<int, SocketInfo>
    var justDeleted: seq<int>
    var socketsChanged: bool
    var ufds: seq<PollFd>
    var registrations: nat
    ghost var model: State

    ghost predicate Valid()
      reads this
    {
      && model.info == socketInfo
      && model.deleted == justDeleted
      && model.changed == socketsChanged
      && model.ufds == ufds
      && model.nextReg == registrations
      && model.deleting == None
      && socketsChanged
    }

    constructor (pipe: int)
      ensures Valid() && model == Initial(pipe)
    {
      socketInfo := map[pipe := SocketInfo(pipe, {PollIn}, 0)];
      justDeleted := [];
      socketsChanged := true;
      ufds := [];
      registrations := 1;
      model := Initial(pipe);
    }

    method AddSocket(fd: int) returns (added: bool)
      requires Valid()
      modifies this
      ensures Valid() && model == Step(old(model), PollModel.AddSocket(fd))
      ensures added == (fd !in old(socketInfo))
      ensures added ==> socketInfo == old(socketInfo)[fd := SocketInfo(fd, {}, old(registrations))]
      ensures !added ==> socketInfo == old(socketInfo)
    {
      model := Step(model, PollModel.AddSocket(fd));
      if fd in socketInfo {
        return false;
      }
      socketInfo := socketInfo[fd := SocketInfo(fd, {}, registrations)];
      registrations := registrations + 1;
      socketsChanged := true;
      return true;
    }

    method DelSocket(fd: int) returns (deleted: bool)
      requires Valid()
      modifies this
      ensures Valid() && model == Step(Step(old(model), DelErase(fd)), DelRecord)
      ensures deleted == (fd >= 0 && fd in old(socketInfo))
      ensures socketInfo == if deleted then old(socketInfo) - {fd} else old(socketInfo)
    {
      model := Step(Step(model, DelErase(fd)), DelRecord);
      if fd < 0 {
        return false;
      }
      if fd in socketInfo {
        socketInfo := socketInfo - {fd};
        justDeleted := justDeleted + [fd];
        socketsChanged := true;
        return true;
      }
      return false;
    }

    method AddEvents(fd: int, events: set<Flag>) returns (found: bool)
      requires Valid()
      modifies this
      ensures Valid() && model == Step(old(model), PollModel.AddEvents(fd, events))
      ensures found == (fd in old(socketInfo))
      ensures found ==>
        socketInfo == old(socketInfo)[fd := old(socketInfo)[fd].(events := old(socketInfo)[fd].events + events)]
      ensures !found ==> socketInfo == old(socketInfo)
    {
      model := Step(model, PollModel.AddEvents(fd, events));
      if fd !in socketInfo {
        return false;
      }
      socketInfo := socketInfo[fd := socketInfo[fd].(events := socketInfo[fd].events + events)];
      return true;
    }

    method DelEvents(fd: int, events: set<Flag>) returns (found: bool)
      requires Valid()
      modifies this
      ensures Valid() && model == Step(old(model), PollModel.DelEvents(fd, events))
      ensures found == (fd in old(socketInfo))
      ensures found ==>
        socketInfo == old(socketInfo)[fd := old(socketInfo)[fd].(events := old(socketInfo)[fd].events - events)]
      ensures !found ==> socketInfo == old(socketInfo)
    {
      model := Step(model, PollModel.DelEvents(fd, events));
      if fd !in socketInfo {
        return false;
      }
      socketInfo := socketInfo[fd := socketInfo[fd].(events := socketInfo[fd].events - events)];
      return true;
    }

    /** Rebuild the array given to poll, in descriptor order. Nothing clears the change flag, so the array is
        always built, and always lists exactly the current entries. */
    method CreateNativePollset()
      requires Valid() && model.phase.Idle?
      modifies this
      ensures Valid() && model == Step(old(model), Rebuild) && model.phase.Polling?
      ensures socketInfo == old(socketInfo) && Lists(ufds, socketInfo)
    {
      ListingIs(socketInfo);
      if socketsChanged {
        var rest := socketInfo.Keys;
        ufds := [];
        while rest != {}
          invariant rest <= socketInfo.Keys && ufds + ListingOf(socketInfo, rest) == Listing(socketInfo)
          invariant model == old(model) && socketInfo == old(socketInfo) && socketsChanged
          invariant justDeleted == old(justDeleted) && registrations == old(registrations)
          decreases |rest|
        {
          LeastExists(rest);
          assert exists m :: m in rest && forall x | x in rest :: m <= x by {
            var m :| m in rest && Least(rest, m);
          }
          var fd :| fd in rest && forall x | x in rest :: fd <= x;
          ListingFirst(socketInfo, rest, fd);
          ufds := ufds + [PollFd(fd, socketInfo[fd].events, {})];
          rest := rest - {fd};
        }
      }
      hide Listing, ListingOf, Lists;
      model := Step(model, Rebuild);
    }

    /** One call of another thread or of a callback. */
    method Perform(op: Op)
      requires Valid()
      modifies this
      ensures Valid() && model == Run(old(model), Actions(op))
      ensures model.phase == old(model.phase) && ufds == old(ufds)
    {
      RunNone(model);
      match op {
        case Add(fd) =>
          var _ := AddSocket(fd);
          RunSnoc(old(model), [], PollModel.AddSocket(fd));
          assert [] + [PollModel.AddSocket(fd)] == Actions(op);
        case Delete(fd) =>
          var _ := DelSocket(fd);
          RunSnoc(old(model), [], DelErase(fd));
          RunSnoc(old(model), [DelErase(fd)], DelRecord);
          assert [] + [DelErase(fd)] == [DelErase(fd)] && [DelErase(fd)] + [DelRecord] == Actions(op);
        case Enable(fd, events) =>
          var _ := AddEvents(fd, events);
          RunSnoc(old(model), [], PollModel.AddEvents(fd, events));
          assert [] + [PollModel.AddEvents(fd, events)] == Actions(op);
        case Disable(fd, events) =>
          var _ := DelEvents(fd, events);
          RunSnoc(old(model), [], PollModel.DelEvents(fd, events));
          assert [] + [PollModel.DelEvents(fd, events)] == Actions(op);
      }
      hide Run;
    }

    /** What happens between two lock regions of the poll thread: all of the given calls, in order. */
    method Interfere(ops: seq<Op>) returns (ghost trace: seq<Action>)
      requires Valid()
      modifies this
      ensures trace == OpsTrace(ops)
      ensures Valid() && model == Run(old(model), trace)
      ensures model.phase == old(model.phase) && ufds == old(ufds)
    {
      hide Step, Run, Actions;
      RunNone(model);
      trace := [];
      var k := 0;
      while k < |ops|
        invariant k <= |ops| && trace == OpsTrace(ops[..k])
        invariant Valid() && model == Run(old(model), trace)
        invariant model.phase == old(model.phase) && ufds == old(ufds)
      {
        Perform(ops[k]);
        RunAppend(old(model), trace, Actions(ops[k]));
        assert ops[..k + 1][..k] == ops[..k];
        trace := trace + Actions(ops[k]);
        k := k + 1;
      }
      assert ops[..k] == ops;
    }

    /** Record what poll reported; true if there is something to serve. */
    method Poll(failed: bool, report: int -> set<Flag>) returns (ready: bool, ghost action: Action)
      requires Valid() && model.phase.Polling?
      modifies this
      ensures ready <==> !failed && Reported(Reports(old(ufds), report))
      ensures action == if ready then PollReturns(Reports(old(ufds), report)) else PollTimesOut
      ensures Valid() && model == Step(old(model), action) && |ufds| == |old(ufds)|
      ensures model.phase == if ready then Dispatching(0) else Idle
    {
      var revents := Reports(ufds, report);
      ready := !failed && exists i :: 0 <= i < |revents| && revents[i] != {};
      action := if ready then PollReturns(revents) else PollTimesOut;
      if ready {
        ufds := seq(|ufds|, i requires 0 <= i < |ufds| && |revents| == |ufds| reads this =>
                    ufds[i].(revents := revents[i]));
      }
      model := Step(model, action);
    }

    /** Copy out, under the socket_info lock, what entry i needs to be served. */
    method FetchEntry(i: nat) returns (found: bool, reg: nat, events: set<Flag>)
      requires Valid() && model.phase == Dispatching(i) && i < |ufds|
      modifies `model
      ensures Valid() && model == Step(old(model), Fetch)
      ensures model.phase == if found then Fetched(i, reg, events) else Dispatching(i + 1)
    {
      found, reg, events := false, 0, {};
      if ufds[i].revents != {} && ufds[i].fd in socketInfo {
        found, reg, events := true, socketInfo[ufds[i].fd].reg, socketInfo[ufds[i].fd].events;
      }
      model := Step(model, Fetch);
    }

    /** Serve entry i: returns the call to make, if any. */
    method ServeEntry(i: nat, reg: nat, events: set<Flag>) returns (called: bool, flags: set<Flag>)
      requires Valid() && model.phase == Fetched(i, reg, events) && i < |ufds|
      modifies this
      ensures Valid() && model == Step(old(model), Serve)
      ensures model.phase == Dispatching(i + 1) && |ufds| == |old(ufds)|
      ensures called == (|model.calls| > |old(model.calls)|)
      ensures called ==> model.calls[|old(model.calls)|].reg == reg && model.calls[|old(model.calls)|].revents == flags
    {
      var revents := ufds[i].revents;
      called, flags := false, {};
      if events * revents != {} || revents * ERRORS != {} {
        var skip := revents * ERRORS != {} && ufds[i].fd in justDeleted;
        if !skip {
          called, flags := true, revents * (events + ERRORS);
        }
      }
      ufds := ufds[i := ufds[i].(revents := {})];
      model := Step(model, Serve);
    }

    /** Forget the deletions once every entry has been served. */
    method ClearDeleted()
      requires Valid() && model.phase == Dispatching(|ufds|)
      modifies this
      ensures Valid() && model == Step(old(model), Finish) && model.phase.Idle? && justDeleted == []
    {
      justDeleted := [];
      model := Step(model, Finish);
    }

    /** Serve entry i, with what others do before the fetch, before the serve, and after a call. */
    method DispatchEntry(i: nat, env: nat -> seq<Op>) returns (ghost trace: seq<Action>)
      requires Valid() && model.phase == Dispatching(i) && i < |ufds|
      modifies this
      ensures Valid() && model == Run(old(model), trace)
      ensures model.phase == Dispatching(i + 1) && |ufds| == |old(ufds)|
      ensures forall k | 0 <= k < |trace| :: Dispatches(trace[k])
    {
      hide Step, Run, OpsTrace;
      OpsDispatch(env(3 * i + 1));
      trace := Interfere(env(3 * i + 1));
      var found, reg, events := FetchEntry(i);
      RunSnoc(old(model), trace, Fetch);
      trace := trace + [Fetch];
      if found {
        OpsDispatch(env(3 * i + 2));
        ghost var more := Interfere(env(3 * i + 2));
        RunAppend(old(model), trace, more);
        trace := trace + more;
        var called, flags := ServeEntry(i, reg, events);
        RunSnoc(old(model), trace, Serve);
        trace := trace + [Serve];
        if called {
          OpsDispatch(env(3 * i + 3));
          more := Interfere(env(3 * i + 3));
          RunAppend(old(model), trace, more);
          trace := trace + more;
        }
      }
    }

    /** Serve every entry. */
    method DispatchAll(env: nat -> seq<Op>) returns (ghost trace: seq<Action>)
      requires Valid() && model.phase == Dispatching(0)
      modifies this
      ensures Valid() && model == Run(old(model), trace)
      ensures model.phase == Dispatching(|ufds|) && |ufds| == |old(ufds)|
      ensures forall k | 0 <= k < |trace| :: Dispatches(trace[k])
    {
      hide Step, Run, OpsTrace;
      RunNone(model);
      trace := [];
      var i := 0;
      while i < |ufds|
        invariant Valid() && i <= |ufds| == |old(ufds)| && model.phase == Dispatching(i)
        invariant model == Run(old(model), trace)
        invariant forall k | 0 <= k < |trace| :: Dispatches(trace[k])
      {
        ghost var more := DispatchEntry(i, env);
        RunAppend(old(model), trace, more);
        trace := trace + more;
        i := i + 1;
      }
      OpsDispatch(env(3 * i + 1));
      ghost var more := Interfere(env(3 * i + 1));
      RunAppend(old(model), trace, more);
      trace := trace + more;
    }

    /** How an update begins: the array is rebuilt, and others act before poll returns. */
    static ghost function Beginning(env: nat -> seq<Op>): seq<Action> {
      [Rebuild] + OpsTrace(env(0))
    }

    method PollOnce(failed: bool, report: int -> set<Flag>, env: nat -> seq<Op>)
      returns (ready: bool, ghost trace: seq<Action>)
      requires Valid() && model.phase.Idle?
      modifies this
      ensures Valid() && model == Run(old(model), trace)
      ensures model.phase == if ready then Dispatching(0) else Idle
      ensures var list := Step(old(model), Rebuild).ufds;
        && |ufds| == |list| && Lists(list, old(socketInfo))
        && (ready <==> !failed && Reported(Reports(list, report)))
        && trace == Beginning(env) + [if ready then PollReturns(Reports(list, report)) else PollTimesOut]
    {
      hide Step, Reports, Reported, Run, OpsTrace, Lists;
      RunNone(model);
      CreateNativePollset();
      RunSnoc(old(model), [], Rebuild);
      assert [] + [Rebuild] == [Rebuild];
      trace := [Rebuild];
      ghost var more := Interfere(env(0));
      RunAppend(old(model), trace, more);
      trace := trace + more;
      ghost var action;
      ready, action := Poll(failed, report);
      RunSnoc(old(model), trace, action);
      trace := trace + [action];
    }

    /** One update, with what the other threads and the callbacks do at each point in between. Whatever
        that is, the update is a run of the state machine, so the results about runs hold of it: it rebuilds the
        array, polls exactly that, and if anything was reported goes through every entry and then clears the list
        of deleted descriptors. */
    method Update(failed: bool, report: int -> set<Flag>, env: nat -> seq<Op>)
      returns (ghost head: seq<Action>, ghost body: seq<Action>, ghost trace: seq<Action>)
      requires Valid() && model.phase.Idle?
      modifies this
      ensures Valid() && model.phase.Idle? && model == Run(old(model), trace)
      ensures var list := Step(old(model), Rebuild).ufds;
        if failed || !Reported(Reports(list, report)) then trace == Beginning(env) + [PollTimesOut]
        else
          && trace == head + body + [Finish] && head == Beginning(env) + [PollReturns(Reports(list, report))]
          && (forall k | 0 <= k < |body| :: Dispatches(body[k]))
          && Run(old(model), head + body).phase == Dispatching(|list|) && justDeleted == []
    {
      hide Step, Reports, Reported, Run, Beginning, Lists;
      var ready;
      ready, head := PollOnce(failed, report, env);
      body, trace := [], head;
      if ready {
        body := DispatchAll(env);
        RunAppend(old(model), head, body);
        ClearDeleted();
        RunSnoc(old(model), head + body, Finish);
        trace := head + body + [Finish];
      }
    }
  }

  lemma RunNone(s: State)
    ensures Run(s, []) == s
  {
  }
}
