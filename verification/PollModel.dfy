/** PollSet as a state machine whose atomic steps are its lock regions. Any thread may add and delete
    sockets between any two of them, the poll thread is inside `update`, and the operating system
    may hand a closed descriptor number out again at once. */
module PollModel {
  import opened Bytes
  import opened Ordering

  datatype Flag = PollIn | PollOut | PollErr | PollHup | PollNval

  const ERRORS: set<Flag> := {PollErr, PollHup, PollNval}

  /** `reg` names the callback registered: each addSocket is a new registration. */
  datatype SocketInfo = SocketInfo(fd: int, events: set<Flag>, reg: nat)

  datatype PollFd = PollFd(fd: int, events: set<Flag>, revents: set<Flag>)

  /** Where the poll thread is: outside `update`, blocked in poll, or serving entry i; an entry is
      fetched under one lock and served under another. */
  datatype Phase =
    | Idle
    | Polling
    | Dispatching(i: nat)
    | Fetched(i: nat, reg: nat, events: set<Flag>)

  /** A call of a registered function. `polled` is the registration the descriptor had when polled. */
  datatype Call = Call(fd: int, reg: nat, revents: set<Flag>, polled: nat)

  /** `deleting` is the descriptor a deleter holding the socket_info lock has erased but not yet
      recorded; `snap`, `calls` and `skips` are histories. */
  datatype State = State(
    info: map<int, SocketInfo>,
    deleted: seq<int>,
    changed: bool,
    ufds: seq<PollFd>,
    nextReg: nat,
    deleting: Option<int>,
    phase: Phase,
    snap: map<int, nat>,
    calls: seq<Call>,
    skips: seq<int>)

  datatype Action =
    | AddSocket(fd: int)
    | DelErase(fd: int)
    | DelRecord
    | AddEvents(fd: int, events: set<Flag>)
    | DelEvents(fd: int, events: set<Flag>)
    | Rebuild
    | PollReturns(revents: seq<set<Flag>>)
    | PollTimesOut
    | Fetch
    | Serve
    | Finish

  /** The constructor registers the signal pipe. */
  function Initial(pipe: int): State {
    State(map[pipe := SocketInfo(pipe, {PollIn}, 0)], [], true, [], 1, None, Idle, map[], [], [])
  }

  /** `ufds` lists the registered sockets in descriptor order with nothing reported yet. */
  ghost predicate Lists(ufds: seq<PollFd>, info: map<int, SocketInfo>) {
    && |ufds| == |info|
    && (forall i, j | 0 <= i < j < |ufds| :: ufds[i].fd < ufds[j].fd)
    && (forall i | 0 <= i < |ufds| ::
          ufds[i].fd in info && ufds[i].events == info[ufds[i].fd].events && ufds[i].revents == {})
  }

  /** An entry for each of some descriptors, the least first, as std::map iterates. */
  ghost function ListingOf(info: map<int, SocketInfo>, keys: set<int>): seq<PollFd>
    requires keys <= info.Keys
    decreases keys
  {
    if keys == {} then [] else
    LeastExists(keys);
    var fd :| fd in keys && Least(keys, fd);
    [PollFd(fd, info[fd].events, {})] + ListingOf(info, keys - {fd})
  }

  ghost function Listing(info: map<int, SocketInfo>): seq<PollFd> {
    ListingOf(info, info.Keys)
  }

  lemma ListingFirst(info: map<int, SocketInfo>, keys: set<int>, fd: int)
    requires keys <= info.Keys && fd in keys && Least(keys, fd)
    ensures ListingOf(info, keys) == [PollFd(fd, info[fd].events, {})] + ListingOf(info, keys - {fd})
  {
    LeastExists(keys);
  }

  lemma {:induction false} ListingOfIs(info: map<int, SocketInfo>, keys: set<int>)
    requires keys <= info.Keys
    ensures var l := ListingOf(info, keys);
            && |l| == |keys|
            && (forall i, j | 0 <= i < j < |l| :: l[i].fd < l[j].fd)
            && (forall i | 0 <= i < |l| ::
                  l[i].fd in keys && l[i].events == info[l[i].fd].events && l[i].revents == {})
    decreases keys
  {
    if keys != {} {
      LeastExists(keys);
      var fd :| fd in keys && Least(keys, fd);
      ListingFirst(info, keys, fd);
      ListingOfIs(info, keys - {fd});
    }
  }

  /** Every set of registrations has its listing. */
  lemma ListingIs(info: map<int, SocketInfo>)
    ensures Lists(Listing(info), info)
  {
    ListingOfIs(info, info.Keys);
    assert |info.Keys| == |info|;
  }

  predicate NeedsInfoLock(s: State, a: Action) {
    match a
    case AddSocket(_) => true
    case DelErase(_) => true
    case AddEvents(_, _) => true
    case DelEvents(_, _) => true
    case Rebuild => true
    case Fetch => s.phase.Dispatching? && s.phase.i < |s.ufds| && s.ufds[s.phase.i].revents != {}
    case _ => false
  }

  /** One atomic step; an action that is not enabled changes nothing. */
  ghost function Step(s: State, a: Action): State {
    if s.deleting.Some? && NeedsInfoLock(s, a) then s else
    match a
    case AddSocket(fd) =>
      if fd in s.info then s else
      s.(info := s.info[fd := SocketInfo(fd, {}, s.nextReg)], nextReg := s.nextReg + 1, changed := true)
    case DelErase(fd) =>
      if fd < 0 || fd !in s.info then s else
      s.(info := s.info - {fd}, deleting := Some(fd))
    case DelRecord =>
      if s.deleting.None? then s else
      s.(deleted := s.deleted + [s.deleting.value], changed := true, deleting := None)
    case AddEvents(fd, ev) =>
      if fd !in s.info then s else
      s.(info := s.info[fd := s.info[fd].(events := s.info[fd].events + ev)])
    case DelEvents(fd, ev) =>
      if fd !in s.info then s else
      s.(info := s.info[fd := s.info[fd].(events := s.info[fd].events - ev)])
    case Rebuild =>
      if !s.phase.Idle? then s else
      s.(ufds := if s.changed then Listing(s.info) else s.ufds,
         phase := Polling,
         snap := map fd | fd in s.info :: s.info[fd].reg)
    case PollReturns(revents) =>
      if !s.phase.Polling? || |revents| != |s.ufds| || (forall i | 0 <= i < |revents| :: revents[i] == {}) then s else
      s.(ufds := seq(|s.ufds|, i requires 0 <= i < |s.ufds| => s.ufds[i].(revents := revents[i])),
         phase := Dispatching(0))
    case PollTimesOut =>
      if s.phase.Polling? then s.(phase := Idle) else s
    case Fetch =>
      if !s.phase.Dispatching? || s.phase.i >= |s.ufds| then s else
      var i, p := s.phase.i, s.ufds[s.phase.i];
      if p.revents == {} || p.fd !in s.info then s.(phase := Dispatching(i + 1)) else
      s.(phase := Fetched(i, s.info[p.fd].reg, s.info[p.fd].events))
    case Serve =>
      if !s.phase.Fetched? || s.phase.i >= |s.ufds| then s else
      ServeEntry(s, s.phase.i, s.phase.reg, s.phase.events)
    case Finish =>
      if s.phase != Dispatching(|s.ufds|) then s else
      s.(deleted := [], phase := Idle)
  }

  /** Call the function fetched, unless an error was reported on a descriptor deleted meanwhile. */
  function ServeEntry(s: State, i: nat, reg: nat, events: set<Flag>): State
    requires i < |s.ufds|
  {
    var p := s.ufds[i];
    var s' := s.(ufds := s.ufds[i := p.(revents := {})], phase := Dispatching(i + 1));
    if events * p.revents == {} && p.revents * ERRORS == {} then s' else
    if p.revents * ERRORS != {} && p.fd in s.deleted then s'.(skips := s.skips + [p.fd]) else
    s'.(calls := s.calls + [Call(p.fd, reg, p.revents * (events + ERRORS),
                                 if p.fd in s.snap then s.snap[p.fd] else reg)])
  }

  ghost function Run(s: State, run: seq<Action>): State
    decreases |run|
  {
    if run == [] then s else Run(Step(s, run[0]), run[1..])
  }

  lemma {:induction false} RunAppend(s: State, a: seq<Action>, b: seq<Action>)
    ensures Run(s, a + b) == Run(Run(s, a), b)
    decreases |a|
  {
    hide Step;
    if a == [] {
      assert a + b == b;
    } else {
      assert (a + b)[1..] == a[1..] + b;
      RunAppend(Step(s, a[0]), a[1..], b);
    }
  }

  lemma RunSnoc(s: State, run: seq<Action>, a: Action)
    ensures Run(s, run + [a]) == Step(Run(s, run), a)
  {
    hide Step;
    RunAppend(s, run, [a]);
    assert [a][1..] == [];
  }

  // ---------------------------------------------------------------- errors reach the right registration

  ghost predicate Safe(c: Call) {
    c.revents * ERRORS != {} ==> c.reg == c.polled
  }

  ghost predicate Distinct(ufds: seq<PollFd>) {
    forall i, j | 0 <= i < j < |ufds| :: ufds[i].fd != ufds[j].fd
  }

  /** A polled registration is still there, or its deletion is on record or about to be. */
  ghost predicate Tracked(s: State) {
    && Distinct(s.ufds)
    && (forall i | 0 <= i < |s.ufds| :: s.ufds[i].fd in s.snap)
    && (forall fd | fd in s.snap ::
          (fd in s.info && s.info[fd].reg == s.snap[fd]) || fd in s.deleted || s.deleting == Some(fd))
  }

  ghost predicate PhaseOk(s: State) {
    match s.phase
    case Dispatching(i) => i <= |s.ufds|
    case Fetched(i, reg, _) =>
      i < |s.ufds| && s.ufds[i].fd in s.snap && (reg == s.snap[s.ufds[i].fd] || s.ufds[i].fd in s.deleted)
    case _ => true
  }

  ghost predicate Inv(s: State) {
    && s.changed
    && (forall fd | fd in s.info :: s.info[fd].fd == fd && s.info[fd].reg < s.nextReg)
    && (!s.phase.Idle? ==> Tracked(s))
    && PhaseOk(s)
    && (forall i | 0 <= i < |s.calls| :: Safe(s.calls[i]))
  }

  lemma InitialInv(pipe: int)
    ensures Inv(Initial(pipe))
  {
  }

  lemma ChangesKeep(s: State, a: Action)
    requires Inv(s)
    requires a.AddSocket? || a.DelErase? || a.DelRecord? || a.AddEvents? || a.DelEvents?
    ensures Inv(Step(s, a))
  {
    var s' := Step(s, a);
    assert s'.ufds == s.ufds && s'.phase == s.phase && s'.snap == s.snap && s'.calls == s.calls;
    hide Lists, Safe, Distinct;
  }

  lemma ServeKeeps(s: State)
    requires Inv(s)
    ensures Inv(Step(s, Serve))
  {
    if s.phase.Fetched? {
      var i, p := s.phase.i, s.ufds[s.phase.i];
      var s' := ServeEntry(s, i, s.phase.reg, s.phase.events);
      assert s' == Step(s, Serve) && Tracked(s');
      if s'.calls != s.calls {
        var c := s'.calls[|s.calls|];
        assert Safe(c);
        assert s'.calls == s.calls + [c];
      }
      hide ServeEntry, Safe;
    }
  }

  lemma PollKeeps(s: State, a: Action)
    requires Inv(s)
    requires a.Rebuild? || a.PollReturns? || a.PollTimesOut? || a.Fetch? || a.Finish?
    ensures Inv(Step(s, a))
  {
    hide Safe, Listing;
    ListingIs(s.info);
  }

  lemma StepKeeps(s: State, a: Action)
    requires Inv(s)
    ensures Inv(Step(s, a))
  {
    hide Step, Inv;
    match a
    case AddSocket(_) => ChangesKeep(s, a);
    case DelErase(_) => ChangesKeep(s, a);
    case DelRecord => ChangesKeep(s, a);
    case AddEvents(_, _) => ChangesKeep(s, a);
    case DelEvents(_, _) => ChangesKeep(s, a);
    case Serve => ServeKeeps(s);
    case _ => PollKeeps(s, a);
  }

  lemma {:induction false} RunKeeps(s: State, run: seq<Action>)
    requires Inv(s)
    ensures Inv(Run(s, run))
    decreases |run|
  {
    if run != [] {
      StepKeeps(s, run[0]);
      hide Step, Inv;
      RunKeeps(Step(s, run[0]), run[1..]);
    }
  }

  /** Descriptor reuse is safe: under every interleaving, a function is called with an error flag only
      if it is the one that was registered for the descriptor when it was polled. */
  lemma ErrorsReachPolled(pipe: int, run: seq<Action>)
    ensures forall c | c in Run(Initial(pipe), run).calls :: c.revents * ERRORS != {} ==> c.reg == c.polled
  {
    InitialInv(pipe);
    RunKeeps(Initial(pipe), run);
    var calls := Run(Initial(pipe), run).calls;
    forall c | c in calls ensures c.revents * ERRORS != {} ==> c.reg == c.polled {
      var i :| 0 <= i < |calls| && calls[i] == c;
      assert Safe(calls[i]);
    }
  }

  /** What poll is given is always the current set: in every reachable state in which an update can
      begin, the array is rebuilt, because the constructor sets the change flag and nothing clears it. */
  lemma SnapshotAgrees(pipe: int, run: seq<Action>)
    requires Run(Initial(pipe), run).phase.Idle? && Run(Initial(pipe), run).deleting.None?
    ensures var s := Run(Initial(pipe), run);
            Step(s, Rebuild).phase.Polling? && Step(s, Rebuild).info == s.info && Lists(Step(s, Rebuild).ufds, s.info)
  {
    InitialInv(pipe);
    RunKeeps(Initial(pipe), run);
    ListingIs(Run(Initial(pipe), run).info);
    hide Listing, Lists;
  }

  // ---------------------------------------------------------------- an error is held back at most once

  function Count(xs: seq<int>, x: int): nat {
    if xs == [] then 0 else Count(xs[..|xs| - 1], x) + if xs[|xs| - 1] == x then 1 else 0
  }

  ghost predicate Ahead(s: State, fd: int) {
    match s.phase
    case Dispatching(i) => exists j | i <= j < |s.ufds| :: s.ufds[j].fd == fd
    case Fetched(i, _, _) => exists j | i <= j < |s.ufds| :: s.ufds[j].fd == fd
    case _ => true
  }

  /** 1 while the list of deleted descriptors can still hold back an error on `fd`. */
  ghost function Owed(s: State, fd: int): nat {
    if fd in s.deleted && Ahead(s, fd) then 1 else 0
  }

  lemma EnvOwes(s: State, a: Action, fd: int)
    requires Inv(s) && s.deleting != Some(fd) && a != DelErase(fd)
    requires a.AddSocket? || a.DelErase? || a.DelRecord? || a.AddEvents? || a.DelEvents?
    ensures Step(s, a).deleting != Some(fd)
    ensures Step(s, a).skips == s.skips && Owed(Step(s, a), fd) <= Owed(s, fd)
  {
    var s' := Step(s, a);
    assert s'.ufds == s.ufds && s'.phase == s.phase && (fd in s'.deleted <==> fd in s.deleted);
    assert Ahead(s', fd) <==> Ahead(s, fd);
    hide Inv, Ahead;
  }

  lemma PollOwes(s: State, a: Action, fd: int)
    requires Inv(s) && s.deleting != Some(fd)
    requires a.Rebuild? || a.PollReturns? || a.PollTimesOut? || a.Fetch? || a.Finish?
    ensures Step(s, a).deleting != Some(fd)
    ensures Step(s, a).skips == s.skips && Owed(Step(s, a), fd) <= Owed(s, fd)
  {
    hide Listing, Lists, Safe, Tracked;
  }

  /** Once its entry has been served a descriptor has no later one. */
  lemma ServedIsPast(s: State)
    requires Inv(s) && s.phase.Fetched?
    ensures var i := s.phase.i; i < |s.ufds| && !Ahead(Step(s, Serve), s.ufds[i].fd)
    ensures forall fd :: Ahead(Step(s, Serve), fd) ==> Ahead(s, fd)
  {
    hide Safe, Lists;
    var s', i := Step(s, Serve), s.phase.i;
    assert |s'.ufds| == |s.ufds| && s'.phase == Dispatching(i + 1);
    assert forall j | 0 <= j < |s.ufds| :: s'.ufds[j].fd == s.ufds[j].fd;
  }

  lemma ServeOwes(s: State, fd: int)
    requires Inv(s) && s.deleting != Some(fd)
    ensures Step(s, Serve).deleting != Some(fd)
    ensures Count(Step(s, Serve).skips, fd) + Owed(Step(s, Serve), fd) <= Count(s.skips, fd) + Owed(s, fd)
  {
    if s.phase.Fetched? {
      ServedIsPast(s);
      assert Ahead(s, s.ufds[s.phase.i].fd);
      hide Inv, Ahead;
      var s' := Step(s, Serve);
      if s'.skips != s.skips {
        assert s'.skips == s.skips + [s.ufds[s.phase.i].fd];
        assert s'.skips[..|s'.skips| - 1] == s.skips;
      }
    }
  }

  lemma StepOwes(s: State, a: Action, fd: int)
    requires Inv(s) && s.deleting != Some(fd) && a != DelErase(fd)
    ensures Step(s, a).deleting != Some(fd)
    ensures Count(Step(s, a).skips, fd) + Owed(Step(s, a), fd) <= Count(s.skips, fd) + Owed(s, fd)
  {
    hide Step, Inv, Owed;
    match a
    case Serve => ServeOwes(s, fd);
    case Rebuild => PollOwes(s, a, fd);
    case PollReturns(_) => PollOwes(s, a, fd);
    case PollTimesOut => PollOwes(s, a, fd);
    case Fetch => PollOwes(s, a, fd);
    case Finish => PollOwes(s, a, fd);
    case _ => EnvOwes(s, a, fd);
  }

  lemma {:induction false} RunOwes(s: State, run: seq<Action>, fd: int)
    requires Inv(s) && s.deleting != Some(fd)
    requires forall i | 0 <= i < |run| :: run[i] != DelErase(fd)
    ensures Count(Run(s, run).skips, fd) + Owed(Run(s, run), fd) <= Count(s.skips, fd) + Owed(s, fd)
    decreases |run|
  {
    if run != [] {
      StepOwes(s, run[0], fd);
      StepKeeps(s, run[0]);
      hide Step, Inv, Owed;
      RunOwes(Step(s, run[0]), run[1..], fd);
    }
  }

  /** From any reachable state on, as long as `fd` itself is not deleted, at most one error on it is
      held back, however many updates are made; none if it is not on the list of deleted ones. */
  lemma HeldBackOnce(pipe: int, before: seq<Action>, run: seq<Action>, fd: int)
    requires Run(Initial(pipe), before).deleting != Some(fd)
    requires forall i | 0 <= i < |run| :: run[i] != DelErase(fd)
    ensures var s := Run(Initial(pipe), before);
            Count(Run(Initial(pipe), before + run).skips, fd) <= Count(s.skips, fd) + if fd in s.deleted then 1 else 0
  {
    InitialInv(pipe);
    RunKeeps(Initial(pipe), before);
    RunAppend(Initial(pipe), before, run);
    RunOwes(Run(Initial(pipe), before), run, fd);
  }

  // ---------------------------------------------------------------- exactly when readiness is not stale

  /** A deletion of `fd` that takes effect. */
  predicate DeletesNow(s: State, a: Action, fd: int) {
    a == DelErase(fd) && s.deleting.None? && fd >= 0 && fd in s.info
  }

  ghost predicate Deletes(s: State, run: seq<Action>, fd: int)
    decreases |run|
  {
    run != [] && (DeletesNow(s, run[0], fd) || Deletes(Step(s, run[0]), run[1..], fd))
  }

  ghost predicate Holds(s: State, fd: int, reg: nat) {
    fd in s.info && s.info[fd].reg == reg
  }

  /** A registration that is in use goes only by deletion, and never comes back: numbers are not used again. */
  lemma HoldsStep(s: State, a: Action, fd: int, reg: nat)
    requires reg < s.nextReg
    ensures reg < Step(s, a).nextReg
    ensures Holds(s, fd, reg) ==> (Holds(Step(s, a), fd, reg) <==> !DeletesNow(s, a, fd))
    ensures !Holds(s, fd, reg) ==> !Holds(Step(s, a), fd, reg)
  {
    hide Listing;
  }

  lemma {:induction false} GoneForGood(s: State, run: seq<Action>, fd: int, reg: nat)
    requires reg < s.nextReg && !Holds(s, fd, reg)
    ensures !Holds(Run(s, run), fd, reg)
    decreases |run|
  {
    if run != [] {
      HoldsStep(s, run[0], fd, reg);
      hide Step, Holds;
      GoneForGood(Step(s, run[0]), run[1..], fd, reg);
    }
  }

  /** After any run a descriptor still has its registration iff no deletion of it took effect. */
  lemma {:induction false} HeldUnlessDeleted(s: State, run: seq<Action>, fd: int, reg: nat)
    requires reg < s.nextReg && Holds(s, fd, reg)
    ensures Holds(Run(s, run), fd, reg) <==> !Deletes(s, run, fd)
    decreases |run|
  {
    if run != [] {
      HoldsStep(s, run[0], fd, reg);
      hide Step, Holds, DeletesNow;
      if DeletesNow(s, run[0], fd) {
        GoneForGood(Step(s, run[0]), run[1..], fd, reg);
      } else {
        HeldUnlessDeleted(Step(s, run[0]), run[1..], fd, reg);
      }
    }
  }

  /** The run does not end the update it is part of. */
  predicate WithinUpdate(run: seq<Action>) {
    forall k | 0 <= k < |run| :: run[k] != Finish && run[k] != PollTimesOut
  }

  lemma ChangesStayOut(s: State, a: Action)
    requires a.AddSocket? || a.DelErase? || a.DelRecord? || a.AddEvents? || a.DelEvents?
    ensures var t := Step(s, a);
            t.phase == s.phase && t.snap == s.snap && t.ufds == s.ufds && t.calls == s.calls
  {
  }

  lemma SameUpdateStep(s: State, a: Action)
    requires !s.phase.Idle? && a != Finish && a != PollTimesOut
    ensures var t := Step(s, a);
            && !t.phase.Idle? && t.snap == s.snap && |t.ufds| == |s.ufds|
            && (forall i | 0 <= i < |s.ufds| :: t.ufds[i].fd == s.ufds[i].fd)
            && (s.phase.Fetched? && a != Serve ==> t.phase == s.phase && t.ufds == s.ufds && t.calls == s.calls)
  {
    hide Listing;
    if a.AddSocket? || a.DelErase? || a.DelRecord? || a.AddEvents? || a.DelEvents? {
      ChangesStayOut(s, a);
      hide Step;
    }
  }

  lemma {:induction false} SameUpdate(s: State, run: seq<Action>)
    requires !s.phase.Idle? && WithinUpdate(run)
    ensures var t := Run(s, run);
            && !t.phase.Idle? && t.snap == s.snap && |t.ufds| == |s.ufds|
            && (forall i | 0 <= i < |s.ufds| :: t.ufds[i].fd == s.ufds[i].fd)
            && (s.phase.Fetched? && Serve !in run ==> t.phase == s.phase && t.ufds == s.ufds && t.calls == s.calls)
    decreases |run|
  {
    if run != [] {
      SameUpdateStep(s, run[0]);
      hide Step;
      SameUpdate(Step(s, run[0]), run[1..]);
    }
  }

  /** What a fetched entry is served with: its registration when fetched, and its registration when polled. */
  lemma CallIs(s: State)
    requires s.phase.Fetched? && s.phase.i < |s.ufds| && s.ufds[s.phase.i].fd in s.snap
    requires Step(s, Serve).calls != s.calls
    ensures var fd := s.ufds[s.phase.i].fd;
            && |Step(s, Serve).calls| == |s.calls| + 1
            && Step(s, Serve).calls[|s.calls|].fd == fd
            && Step(s, Serve).calls[|s.calls|].reg == s.phase.reg
            && Step(s, Serve).calls[|s.calls|].polled == s.snap[fd]
  {
  }

  lemma FetchIs(s: State)
    requires s.phase.Dispatching? && Step(s, Fetch).phase.Fetched?
    ensures s.phase.i < |s.ufds|
    ensures var fd, t := s.ufds[s.phase.i].fd, Step(s, Fetch);
            && fd in s.info && t.phase.i == s.phase.i && t.phase.reg == s.info[fd].reg
            && t.ufds == s.ufds && t.snap == s.snap
  {
  }

  /** The update that begins in s has reached t, is about to fetch an entry there, and then serves it in v. */
  ghost predicate Serves(s: State, mid: seq<Action>, late: seq<Action>) {
    && WithinUpdate(mid) && WithinUpdate(late) && Serve !in late
    && var t := Run(Step(s, Rebuild), mid);
    && t.phase.Dispatching? && Step(t, Fetch).phase.Fetched?
    && var v := Run(Step(t, Fetch), late);
    && Step(v, Serve).calls != v.calls
  }

  /** The condition for every call, with or without an error: within one update, begun in any reachable state,
      a function is called for the registration that was polled iff no deletion of the descriptor took effect
      between building the array and fetching its entry. Deletions after the fetch do not matter. */
  lemma ReadinessExact(s: State, mid: seq<Action>, late: seq<Action>)
    requires Inv(s) && s.phase.Idle? && s.deleting.None? && Serves(s, mid, late)
    ensures var t := Run(Step(s, Rebuild), mid);
            var v := Run(Step(t, Fetch), late);
            && t.phase.i < |t.ufds|
            && |Step(v, Serve).calls| == |v.calls| + 1
            && var c, fd := Step(v, Serve).calls[|v.calls|], t.ufds[t.phase.i].fd;
            && c.fd == fd && fd in s.info && c.polled == s.info[fd].reg
            && (c.reg == c.polled <==> !Deletes(Step(s, Rebuild), mid, fd))
  {
    var begun := Step(s, Rebuild);
    BegunIs(s);
    hide Step, Inv;
    var t := Run(begun, mid);
    SameUpdate(begun, mid);
    FetchIs(t);
    var u := Step(t, Fetch);
    SameUpdate(u, late);
    var i, fd := t.phase.i, t.ufds[t.phase.i].fd;
    assert begun.ufds[i].fd == fd;
    CallIs(Run(u, late));
    HeldUnlessDeleted(begun, mid, fd, s.info[fd].reg);
  }

  lemma BegunIs(s: State)
    requires Inv(s) && s.phase.Idle? && s.deleting.None?
    ensures var t := Step(s, Rebuild);
            && t.phase.Polling? && t.info == s.info && t.nextReg == s.nextReg
            && t.snap == (map fd | fd in s.info :: s.info[fd].reg)
            && (forall i | 0 <= i < |t.ufds| :: t.ufds[i].fd in s.info)
            && (forall fd | fd in s.info :: s.info[fd].reg < t.nextReg)
  {
    ListingIs(s.info);
    hide Listing;
  }

  // ---------------------------------------------------------------- what is reported arrives

  /** What serving an entry does: an error on a descriptor that was deleted meanwhile is held back; otherwise
      the function fetched is called iff an error or something watched was reported, and with exactly that. */
  lemma ServeExact(s: State)
    requires s.phase.Fetched? && s.phase.i < |s.ufds|
    ensures var p, t := s.ufds[s.phase.i], Step(s, Serve);
            && t.phase == Dispatching(s.phase.i + 1)
            && (p.revents * ERRORS != {} && p.fd in s.deleted ==>
                  t.calls == s.calls && t.skips == s.skips + [p.fd])
            && (p.revents * ERRORS == {} || p.fd !in s.deleted ==>
                  && t.skips == s.skips
                  && (t.calls == s.calls <==> p.revents * (s.phase.events + ERRORS) == {}))
            && (t.calls != s.calls ==>
                  && |t.calls| == |s.calls| + 1 && s.calls <= t.calls
                  && var c := t.calls[|s.calls|];
                  && c.fd == p.fd && c.reg == s.phase.reg
                  && forall f :: f in c.revents <==> f in p.revents && (f in s.phase.events || f in ERRORS))
  {
    var p := s.ufds[s.phase.i];
    assert p.revents * (s.phase.events + ERRORS) == s.phase.events * p.revents + p.revents * ERRORS;
  }

  /** What fetching an entry does: it is passed over iff nothing was reported or nobody is registered. */
  lemma FetchExact(s: State)
    requires s.phase.Dispatching? && s.phase.i < |s.ufds| && s.deleting.None?
    ensures var p, t := s.ufds[s.phase.i], Step(s, Fetch);
            t == s.(phase := if p.revents != {} && p.fd in s.info
                             then Fetched(s.phase.i, s.info[p.fd].reg, s.info[p.fd].events)
                             else Dispatching(s.phase.i + 1))
  {
  }

  /** A flag reported on an entry, for a registration that watches it, is still to be handed over. */
  ghost predicate Awaits(s: State, i: nat, p: PollFd, reg: nat, f: Flag) {
    && i < |s.ufds| && s.ufds[i] == p && f in p.revents
    && Holds(s, p.fd, reg) && (f in ERRORS || f in s.info[p.fd].events)
    && p.fd !in s.deleted && s.deleting != Some(p.fd)
    && match s.phase
       case Dispatching(j) => j <= i
       case Fetched(j, r, events) => j <= i && (j == i ==> r == reg && (f in ERRORS || f in events))
       case _ => false
  }

  /** Since call number `from`, the registration was called with the flag and with all errors reported. */
  ghost predicate HandedOver(s: State, from: nat, p: PollFd, reg: nat, f: Flag) {
    exists k :: from <= k < |s.calls| && Carries(s.calls[k], p, reg, f)
  }

  predicate Carries(c: Call, p: PollFd, reg: nat, f: Flag) {
    c.fd == p.fd && c.reg == reg && f in c.revents && c.revents * ERRORS == p.revents * ERRORS
  }

  /** An action of others that takes the registration or its interest in the flag away. */
  predicate Disturbs(s: State, a: Action, fd: int, f: Flag) {
    DeletesNow(s, a, fd) || (f !in ERRORS && a.DelEvents? && a.fd == fd && f in a.events)
  }

  ghost predicate Undisturbed(s: State, run: seq<Action>, fd: int, f: Flag)
    decreases |run|
  {
    run != [] ==> !Disturbs(s, run[0], fd, f) && Undisturbed(Step(s, run[0]), run[1..], fd, f)
  }

  lemma CallsGrow(s: State, a: Action)
    ensures s.calls <= Step(s, a).calls
  {
    hide Listing;
  }

  lemma AwaitsServe(s: State, i: nat, p: PollFd, reg: nat, f: Flag)
    requires Awaits(s, i, p, reg, f) && s.phase.Fetched?
    ensures Awaits(Step(s, Serve), i, p, reg, f) || HandedOver(Step(s, Serve), |s.calls|, p, reg, f)
  {
    ServeExact(s);
    if s.phase.i == i {
      assert f in p.revents * (s.phase.events + ERRORS);
      assert Step(s, Serve).calls != s.calls;
      var c := Step(s, Serve).calls[|s.calls|];
      hide Step;
      assert c.revents * ERRORS == p.revents * ERRORS;
      assert Carries(c, p, reg, f);
    }
  }

  lemma AwaitsStep(s: State, a: Action, i: nat, p: PollFd, reg: nat, f: Flag)
    requires Awaits(s, i, p, reg, f) && !Disturbs(s, a, p.fd, f)
    ensures Awaits(Step(s, a), i, p, reg, f) || HandedOver(Step(s, a), |s.calls|, p, reg, f)
  {
    if a == Serve && s.phase.Fetched? {
      AwaitsServe(s, i, p, reg, f);
    }
    hide Listing, ServeEntry, HandedOver;
  }

  lemma {:induction false} AwaitsRun(s: State, run: seq<Action>, i: nat, p: PollFd, reg: nat, f: Flag)
    requires Awaits(s, i, p, reg, f) && Undisturbed(s, run, p.fd, f)
    ensures Awaits(Run(s, run), i, p, reg, f) || HandedOver(Run(s, run), |s.calls|, p, reg, f)
    decreases |run|
  {
    hide Step, Awaits, Disturbs, Carries;
    if run != [] {
      var t := Step(s, run[0]);
      AwaitsStep(s, run[0], i, p, reg, f);
      CallsGrow(s, run[0]);
      if Awaits(t, i, p, reg, f) {
        AwaitsRun(t, run[1..], i, p, reg, f);
      } else {
        HandedOverStays(t, run[1..], |s.calls|, p, reg, f);
      }
    }
  }

  lemma {:induction false} HandedOverStays(s: State, run: seq<Action>, from: nat, p: PollFd, reg: nat, f: Flag)
    requires HandedOver(s, from, p, reg, f)
    ensures HandedOver(Run(s, run), from, p, reg, f)
    decreases |run|
  {
    hide Step, Carries;
    if run != [] {
      CallsGrow(s, run[0]);
      var k :| from <= k < |s.calls| && Carries(s.calls[k], p, reg, f);
      assert Step(s, run[0]).calls[k] == s.calls[k];
      HandedOverStays(Step(s, run[0]), run[1..], from, p, reg, f);
    }
  }

  /** Whatever poll reports on a registration is handed to it: for every entry, every flag that it watches or that
      is an error, and every interleaving that reaches the end of the update, unless the registration or its
      interest in the flag is taken away, or its descriptor was on the list of deleted ones. */
  lemma ReportsArrive(s: State, revents: seq<set<Flag>>, run: seq<Action>, i: nat, f: Flag)
    requires Inv(s) && s.phase.Polling? && |revents| == |s.ufds| && i < |s.ufds| && f in revents[i]
    requires var fd := s.ufds[i].fd;
             && fd !in s.deleted && s.deleting != Some(fd)
             && (f in ERRORS || (fd in s.info && f in s.info[fd].events))
             && Undisturbed(Step(s, PollReturns(revents)), run, fd, f)
    requires var t := Run(Step(s, PollReturns(revents)), run); t.phase.Idle? || t.phase == Dispatching(|t.ufds|)
    ensures s.ufds[i].fd in s.snap
    ensures HandedOver(Run(Step(s, PollReturns(revents)), run), |s.calls|,
                       s.ufds[i].(revents := revents[i]), s.snap[s.ufds[i].fd], f)
  {
    assert revents[i] != {};
    var t, p := Step(s, PollReturns(revents)), s.ufds[i].(revents := revents[i]);
    assert t.ufds[i] == p && t.phase == Dispatching(0) && t.calls == s.calls;
    assert Awaits(t, i, p, s.snap[p.fd], f);
    hide Step, Inv;
    AwaitsRun(t, run, i, p, s.snap[p.fd], f);
  }

  // ---------------------------------------------------------------- what is not promised

  const READABLE: set<Flag> := {PollIn}

  /** Descriptors 3 (the signal pipe) and 7 polled, 7 readable. */
  const POLLED: State :=
    State(map[3 := SocketInfo(3, READABLE, 0), 7 := SocketInfo(7, READABLE, 1)], [], true,
          [PollFd(3, READABLE, {}), PollFd(7, READABLE, READABLE)], 2, None, Dispatching(0),
          map[3 := 0, 7 := 1], [], [])

  /** Then 7 is closed, and its number given to a new connection, before it is served. */
  const REUSED: State :=
    State(map[3 := SocketInfo(3, READABLE, 0), 7 := SocketInfo(7, READABLE, 2)], [7], true,
          [PollFd(3, READABLE, {}), PollFd(7, READABLE, READABLE)], 3, None, Dispatching(1),
          map[3 := 0, 7 := 1], [], [])

  lemma ListingOfTwo(info: map<int, SocketInfo>)
    requires info.Keys == {3, 7}
    ensures Listing(info) == [PollFd(3, info[3].events, {}), PollFd(7, info[7].events, {})]
  {
    ListingFirst(info, {3, 7}, 3);
    assert {3, 7} - {3} == {7} && {7} - {7} == {};
    ListingFirst(info, {7}, 7);
  }

  lemma ReachWatched()
    ensures var s := Step(Step(Initial(3), AddSocket(7)), AddEvents(7, READABLE));
            s == POLLED.(ufds := [], phase := Idle, snap := map[])
  {
    var none: set<Flag> := {};
    assert none + READABLE == READABLE;
    assert Step(Step(Initial(3), AddSocket(7)), AddEvents(7, READABLE)).info == POLLED.info;
  }

  lemma ReachBegun()
    ensures Step(POLLED.(ufds := [], phase := Idle, snap := map[]), Rebuild)
            == POLLED.(ufds := [PollFd(3, READABLE, {}), PollFd(7, READABLE, {})], phase := Polling)
  {
    assert POLLED.info.Keys == {3, 7};
    ListingOfTwo(POLLED.info);
    hide Listing;
  }

  lemma ReachPolled()
    ensures Step(Step(Step(Step(Initial(3), AddSocket(7)), AddEvents(7, READABLE)), Rebuild),
                 PollReturns([{}, READABLE])) == POLLED
  {
    ReachWatched();
    ReachBegun();
    hide Initial;
    var revents: seq<set<Flag>> := [{}, READABLE];
    assert PollIn in revents[1];
    assert revents[1] != {};
    var s := POLLED.(ufds := [PollFd(3, READABLE, {}), PollFd(7, READABLE, {})], phase := Polling);
    assert Step(s, PollReturns([{}, READABLE])) == POLLED;
    hide Step;
  }

  lemma ReachReused()
    ensures Step(Step(Step(Step(Step(POLLED, Fetch), DelErase(7)), DelRecord), AddSocket(7)), AddEvents(7, READABLE))
            == REUSED
  {
    var none: set<Flag> := {};
    assert none + READABLE == READABLE;
    var s := Step(Step(Step(POLLED, Fetch), DelErase(7)), DelRecord);
    assert s == POLLED.(info := map[3 := SocketInfo(3, READABLE, 0)], deleted := [7], phase := Dispatching(1));
    var t := Step(Step(s, AddSocket(7)), AddEvents(7, READABLE));
    assert t.info == REUSED.info;
  }

  lemma ServeReused()
    ensures Step(Step(REUSED, Fetch), Serve).calls == [Call(7, 2, READABLE, 1)]
  {
    assert PollIn in READABLE * READABLE && PollIn !in ERRORS;
    assert READABLE * (READABLE + ERRORS) == READABLE && READABLE * ERRORS == {};
  }

  /** Readiness without an error is not protected: the new registration of 7 is called for the old
      one's readable event. */
  lemma StaleReadiness()
    ensures var s := Step(Step(Step(Step(Initial(3), AddSocket(7)), AddEvents(7, READABLE)), Rebuild),
                          PollReturns([{}, READABLE]));
            var t := Step(Step(Step(Step(Step(s, Fetch), DelErase(7)), DelRecord), AddSocket(7)),
                          AddEvents(7, READABLE));
            Step(Step(t, Fetch), Serve).calls == [Call(7, 2, READABLE, 1)]
  {
    hide Step, POLLED, REUSED;
    ReachPolled();
    ReachReused();
    ServeReused();
  }

  const WATCHED: State := POLLED.(ufds := [], phase := Idle, snap := map[])
  const REUSE: seq<Action> :=
    [PollReturns([{}, READABLE]), Fetch, DelErase(7), DelRecord, AddSocket(7), AddEvents(7, READABLE)]

  lemma RunReuse(s: State)
    ensures Run(s, REUSE) == Step(Step(Step(Step(Step(Step(s, REUSE[0]), Fetch), DelErase(7)), DelRecord),
                                       AddSocket(7)), AddEvents(7, READABLE))
  {
    hide Step;
    RunSnoc(s, [], REUSE[0]);
    RunSnoc(s, REUSE[..1], Fetch);
    RunSnoc(s, REUSE[..2], DelErase(7));
    RunSnoc(s, REUSE[..3], DelRecord);
    RunSnoc(s, REUSE[..4], AddSocket(7));
    RunSnoc(s, REUSE[..5], AddEvents(7, READABLE));
    assert REUSE[..1] == [] + [REUSE[0]] && REUSE[..2] == REUSE[..1] + [Fetch];
    assert REUSE[..3] == REUSE[..2] + [DelErase(7)] && REUSE[..4] == REUSE[..3] + [DelRecord];
    assert REUSE[..5] == REUSE[..4] + [AddSocket(7)] && REUSE == REUSE[..5] + [AddEvents(7, READABLE)];
  }

  lemma ReuseEnds()
    ensures Run(Step(WATCHED, Rebuild), REUSE) == REUSED
  {
    RunReuse(Step(WATCHED, Rebuild));
    ReachWatched();
    ReachPolled();
    ReachReused();
    hide Step, Run;
  }

  lemma WatchedInv()
    ensures Inv(WATCHED)
  {
  }

  lemma ReusedFetches()
    ensures REUSED.phase.Dispatching? && Step(REUSED, Fetch).phase.Fetched? && Step(REUSED, Fetch).calls == []
    ensures Run(Step(REUSED, Fetch), []) == Step(REUSED, Fetch)
    ensures REUSED.ufds[REUSED.phase.i].fd == 7
  {
  }

  lemma ServesReused()
    ensures WithinUpdate(REUSE) && Serves(WATCHED, REUSE, [])
  {
    ReuseEnds();
    ReusedFetches();
    ServeReused();
    hide Step, Run, WATCHED, REUSED;
  }

  /** That run is one the exact condition speaks about, and on it the deletion is what makes the difference. */
  lemma StaleByDeletion()
    ensures Inv(WATCHED) && Serves(WATCHED, REUSE, []) && Deletes(Step(WATCHED, Rebuild), REUSE, 7)
  {
    WatchedInv();
    ServesReused();
    ReadinessExact(WATCHED, REUSE, []);
    ReuseEnds();
    ReusedFetches();
    ServeReused();
    hide Step, Run, Inv, Serves, Deletes, REUSED, REUSE;
  }
}
