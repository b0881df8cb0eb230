/** What every run of an ICE agent keeps: the selected pair is a nominated, succeeded pair of
    the checklist, and stays the selected pair until a restart. */
module IceSafety {
  import Bytes
  import opened Wrappers
  import opened IceCandidate
  import opened IceAgent

  datatype Event =
    | AddLocal(c: Candidate)
    | AddRemote(c: Candidate)
    | Start(now: nat, controlling: bool, remoteUfrag: string, remotePwd: string)
    | Contact(clock: Clock)
    | Inbound(clock: Clock, m: Message, local: Candidate, source: SocketAddr)
    | Restart(now: nat, ufrag: string, pwd: string, gathering: bool)
    | Close

  /** The check loop runs from the start to the close; sockets are read once either has
      happened. */
  predicate Enabled(s: State, e: Event) {
    match e
    case Contact(_) => s.started && !s.closed
    case Inbound(_, _, _, _) => s.started || s.closed
    case _ => true
  }

  function Step(s: State, e: Event): State
    requires InBounds(s)
  {
    match e
    case AddLocal(c) => AddLocalSpec(s, c)
    case AddRemote(c) => AddRemoteSpec(s, c)
    case Start(now, controlling, ufrag, pwd) => StartSpec(s, now, controlling, ufrag, pwd).0
    case Contact(clock) => ContactSpec(s, clock)
    case Inbound(clock, m, local, source) => InboundSpec(s, clock, m, local, source)
    case Restart(now, ufrag, pwd, gathering) => RestartSpec(s, now, ufrag, pwd, gathering).0
    case Close => CloseSpec(s).0
  }

  predicate Restarts(s: State, e: Event) {
    e.Restart? && RestartSpec(s, e.now, e.ufrag, e.pwd, e.gathering).1.Ok?
  }

  function RemoteAddr(s: State, i: nat): SocketAddr
    requires i < |s.checklist|
  {
    s.checklist[i].remote.Addr()
  }

  /** The pairs: in the checklist, succeeded, and the selected one marked nominated. */
  predicate PairsSafe(s: State) {
    && InBounds(s)
    && (s.selected.Some? ==> s.checklist[s.selected.value].state == Succeeded && s.checklist[s.selected.value].nominated)
    && (s.nominated.Some? ==> s.checklist[s.nominated.value].state == Succeeded)
  }

  /** The roles: only a controlling agent nominates, it asks only the nominated pair's remote
      address to be used, and what it selects has that address. */
  predicate RolesSafe(s: State)
    requires InBounds(s)
  {
    && (!s.controlling ==> s.nominated.None?)
    && (s.controlling && s.selected.Some? ==>
          s.nominated.Some? && RemoteAddr(s, s.selected.value) == RemoteAddr(s, s.nominated.value))
    && (forall i :: 0 <= i < |s.pending| && s.pending[i].isUseCandidate ==>
          s.nominated.Some? && s.pending[i].destination == RemoteAddr(s, s.nominated.value))
    && (!s.started && !s.closed ==> s.pending == [] && s.nominated.None?)
  }

  /** The connection state: connected or disconnected only with a selected pair, and with one
      only these, failed or closed. */
  predicate ConnectionSafe(s: State) {
    && (s.connection == Connected || s.connection == Disconnected ==> s.selected.Some?)
    && (s.selected.Some? ==> s.connection in {Connected, Disconnected, ConnectionState.Failed, ConnectionState.Closed})
    && (!s.started && !s.closed ==> s.selected.None?)
  }

  predicate Safe(s: State): (safe: bool)
    ensures safe ==> InBounds(s)
  {
    PairsSafe(s) && RolesSafe(s) && ConnectionSafe(s)
  }

  /** What no step but a restart changes: pairs keep their candidates and their success, the
      selected and the nominated pair stay what they are. */
  predicate Keeps(s: State, t: State) {
    && |s.checklist| <= |t.checklist|
    && (forall i :: 0 <= i < |s.checklist| ==>
          && t.checklist[i].local == s.checklist[i].local && t.checklist[i].remote == s.checklist[i].remote
          && (s.checklist[i].state == Succeeded ==> t.checklist[i].state == Succeeded)
          && (s.checklist[i].nominated ==> t.checklist[i].nominated))
    && (s.selected.Some? ==> t.selected == s.selected)
    && (s.nominated.Some? ==> t.nominated == s.nominated)
    && t.config == s.config && (s.started ==> t.started && t.controlling == s.controlling) && (s.closed ==> t.closed)
  }

  lemma KeepsIsTransitive(s: State, t: State, u: State)
    requires Keeps(s, t) && Keeps(t, u)
    ensures Keeps(s, u)
  {
  }

  // ---------------------------------------------------------------- small steps

  /** Exactly the requests younger than the timeout stay pending. */
  lemma {:induction false} UnexpiredSubset(pending: seq<BindingRequest>, now: nat)
    ensures forall r :: r in Unexpired(pending, now) <==> r in pending && now < r.timestamp + MAX_BINDING_REQUEST_TIMEOUT
  {
    if pending != [] {
      UnexpiredSubset(pending[1..], now);
      assert pending == [pending[0]] + pending[1..];
    }
  }

  /** A pair after n rounds of checks without an answer. */
  function Rounds(p: Pair, max: Bytes.U16, n: nat): Pair {
    if n == 0 then p else PingOne(Rounds(p, max, n - 1), max).0
  }

  /** An unanswered pair is checked once more often than the limit says, and fails in the round
      after that; with a limit of 65535 the count wraps and it never fails. */
  lemma {:induction false} UnansweredPairFails(p: Pair, max: Bytes.U16, n: nat)
    requires p.state == Waiting && p.requests == 0 && n > 0
    ensures var q := Rounds(p, max, n);
      && (q.state == PairState.Failed <==> max < 0xFFFF && n > max + 1)
      && (q.state == PairState.Failed || q.state == InProgress)
      && q.requests == if max == 0xFFFF then n % 0x1_0000 else Bytes.Min(n, max + 1)
  {
    if n > 1 {
      UnansweredPairFails(p, max, n - 1);
    }
  }

  predicate Fits(s: State, r: BindingRequest)
    requires InBounds(s)
  {
    r.isUseCandidate ==> s.nominated.Some? && r.destination == RemoteAddr(s, s.nominated.value)
  }

  lemma FewerPending(s: State, pending: seq<BindingRequest>)
    requires Safe(s) && forall r :: r in pending ==> r in s.pending
    ensures Safe(s.(pending := pending)) && Keeps(s, s.(pending := pending))
  {
    forall i | 0 <= i < |pending| && pending[i].isUseCandidate
      ensures s.nominated.Some? && pending[i].destination == RemoteAddr(s, s.nominated.value)
    {
      assert pending[i] in s.pending;
    }
    assert pending != [] ==> pending[0] in s.pending;
  }

  lemma SendKeeps(s: State, now: nat, id: Option<TransactionId>, remote: Candidate, useCandidate: bool)
    requires Safe(s) && (s.started || s.closed)
    requires useCandidate ==> s.nominated.Some? && remote.Addr() == RemoteAddr(s, s.nominated.value)
    ensures var t := Send(s, now, id, remote, useCandidate); Safe(t) && Keeps(s, t) && t == s.(pending := t.pending)
  {
    UnexpiredSubset(s.pending, now);
    FewerPending(s, Unexpired(s.pending, now));
  }

  lemma {:induction false} SendAllKeeps(s: State, clock: Clock, remotes: seq<Candidate>, n: nat)
    requires Safe(s) && (s.started || s.closed) && n <= |remotes|
    ensures var t := SendAll(s, clock, remotes, n); Safe(t) && Keeps(s, t) && t == s.(pending := t.pending)
  {
    hide Safe, Send, Keeps;
    if n > 0 {
      SendAllKeeps(s, clock, remotes, n - 1);
      var t := SendAll(s, clock, remotes, n - 1);
      SendKeeps(t, clock.now, clock.ids(n - 1), remotes[n - 1], false);
      KeepsIsTransitive(s, t, SendAll(s, clock, remotes, n));
    } else {
      assert Keeps(s, s) by { KeepsItself(s); }
    }
  }

  lemma KeepsItself(s: State)
    ensures Keeps(s, s)
  {
  }

  lemma PingKeeps(s: State, clock: Clock)
    requires Safe(s) && (s.started || s.closed)
    ensures Safe(PingAll(s, clock)) && Keeps(s, PingAll(s, clock))
  {
    hide SendAll;
    var (list, remotes) := PingList(s.checklist, s.config.maxBindingRequests);
    var t := s.(checklist := list);
    assert Keeps(s, t);
    SendAllKeeps(t, clock, remotes, |remotes|);
    KeepsIsTransitive(s, t, PingAll(s, clock));
  }

  lemma ValidateKeeps(s: State, silence: nat)
    requires Safe(s) && !s.closed
    ensures var t := ValidateSelected(s, silence); Safe(t) && Keeps(s, t) && t.started == s.started && t.closed == s.closed
  {
  }

  lemma KeepaliveKeeps(s: State, clock: Clock)
    requires Safe(s) && (s.started || s.closed)
    ensures Safe(CheckKeepalive(s, clock)) && Keeps(s, CheckKeepalive(s, clock))
  {
    hide Safe, Send, Keeps;
    KeepsItself(s);
    if s.selected.Some? {
      SendKeeps(s, clock.now, clock.ids(0), s.checklist[s.selected.value].remote, false);
    }
  }

  lemma NominateKeeps(s: State, clock: Clock)
    requires Safe(s) && (s.started || s.closed)
    ensures Safe(NominatePair(s, clock)) && Keeps(s, NominatePair(s, clock))
  {
    hide Safe, Send, Keeps;
    KeepsItself(s);
    if s.nominated.Some? {
      SendKeeps(s, clock.now, clock.ids(0), s.checklist[s.nominated.value].remote, true);
    }
  }

  /** Nominating is for a controlling agent that has neither nominated nor selected. */
  lemma NominatedIsSafe(s: State, i: nat, list: seq<Pair>)
    requires Safe(s) && s.controlling && s.nominated.None? && s.selected.None? && (s.started || s.closed)
    requires i < |s.checklist| && s.checklist[i].state == Succeeded
    requires list == s.checklist || list == s.checklist[i := s.checklist[i].(nominated := true)]
    ensures var t := s.(nominated := Some(i), checklist := list); Safe(t) && Keeps(s, t)
  {
  }

  lemma SelectedIsSafe(s: State, i: nat)
    requires Safe(s) && s.selected.None? && (s.started || s.closed)
    requires i < |s.checklist| && s.checklist[i].state == Succeeded
    requires s.controlling ==> s.nominated.Some? && RemoteAddr(s, i) == RemoteAddr(s, s.nominated.value)
    ensures Safe(SetSelected(s, i)) && Keeps(s, SetSelected(s, i))
  {
  }

  lemma SucceededIsSafe(s: State, i: nat)
    requires Safe(s) && i < |s.checklist|
    ensures var t := s.(checklist := s.checklist[i := s.checklist[i].(state := Succeeded)]); Safe(t) && Keeps(s, t)
  {
  }

  lemma MorePairs(s: State, pairs: seq<Pair>)
    requires Safe(s)
    ensures var t := s.(checklist := s.checklist + pairs); Safe(t) && Keeps(s, t)
  {
    var t := s.(checklist := s.checklist + pairs);
    assert forall i :: 0 <= i < |s.checklist| ==> t.checklist[i] == s.checklist[i];
  }

  // ---------------------------------------------------------------- handlers

  lemma ContactKeeps(s: State, clock: Clock)
    requires Safe(s) && s.started && !s.closed
    ensures Safe(ContactSpec(s, clock)) && Keeps(s, ContactSpec(s, clock))
  {
    hide ContactCandidates, Safe, Keeps, UpdateConnection;
    ClockIsSafe(s, s.checkingSince, ConnectionState.Failed);
    var since := if s.connection == Checking && s.lastState != Checking then clock.now else s.checkingSince;
    var s1 := s.(checkingSince := since);
    ClockIsSafe(s, since, s.lastState);
    ContactCandidatesKeeps(s1, clock);
    var s2 := ContactCandidates(s1, clock);
    KeepsIsTransitive(s, s1, s2);
    ClockIsSafe(s2, s2.checkingSince, s2.connection);
    KeepsIsTransitive(s, s2, s2.(lastState := s2.connection));
    if s.connection == Checking {
      FailingIsSafe(s1);
      KeepsIsTransitive(s, s1, UpdateConnection(s1, ConnectionState.Failed).(lastState := ConnectionState.Failed));
    }
  }

  lemma ClockIsSafe(s: State, since: nat, last: ConnectionState)
    requires Safe(s)
    ensures var t := s.(checkingSince := since, lastState := last); Safe(t) && Keeps(s, t)
  {
  }

  lemma FailingIsSafe(s: State)
    requires Safe(s) && !s.closed
    ensures var t := UpdateConnection(s, ConnectionState.Failed).(lastState := ConnectionState.Failed); Safe(t) && Keeps(s, t)
  {
  }

  lemma ContactCandidatesKeeps(s: State, clock: Clock)
    requires Safe(s) && s.started && !s.closed
    ensures Safe(ContactCandidates(s, clock)) && Keeps(s, ContactCandidates(s, clock))
  {
    hide Safe, Keeps, PingAll, CheckKeepalive, ValidateSelected, NominatePair, Nominate, Best;
    if s.controlling && s.selected.None? {
      if s.nominated.Some? {
        NominateKeeps(s, clock);
      } else {
        var best := Best(s.checklist, Valid);
        PingKeeps(s, clock);
        if best.Some? {
          var t := Nominate(s, best.value);
          BestValidIsSafe(s, best.value);
          NominateKeeps(t, clock);
          KeepsIsTransitive(s, t, NominatePair(t, clock));
        }
      }
    } else {
      PingKeeps(s, clock);
      ValidateKeeps(s, clock.silence);
      var t := ValidateSelected(s, clock.silence);
      KeepaliveKeeps(t, clock);
      KeepsIsTransitive(s, t, CheckKeepalive(t, clock));
    }
  }

  lemma BestValidIsSafe(s: State, i: nat)
    requires Safe(s) && s.controlling && s.nominated.None? && s.selected.None? && s.started
    requires EarliestBest(s.checklist, Valid, i)
    ensures var t := Nominate(s, i); Safe(t) && Keeps(s, t) && t.started
  {
    hide Safe, Keeps;
    NominatedIsSafe(s, i, s.checklist[i := s.checklist[i].(nominated := true)]);
  }

  lemma SuccessKeeps(s: State, clock: Clock, id: TransactionId, local: Candidate, remote: Candidate)
    requires Safe(s) && (s.started || s.closed)
    ensures var t := SuccessResponse(s, clock, id, local, remote, remote.Addr()); Safe(t) && Keeps(s, t)
  {
    hide Safe, Keeps, Unexpired, FindRequest, FindPair, SetSelected;
    var source := remote.Addr();
    var live := Unexpired(s.pending, clock.now);
    UnexpiredSubset(s.pending, clock.now);
    FewerPending(s, live);
    var r := FindRequest(live, id);
    if r.Some? {
      var request := live[r.value];
      var s1 := s.(pending := Without(live, r.value));
      FewerPending(s, Without(live, r.value));
      var i := FindPair(s.checklist, local, remote);
      if request.destination == source && i.Some? {
        SucceededIsSafe(s1, i.value);
        var s2 := s1.(checklist := s.checklist[i.value := s.checklist[i.value].(state := Succeeded)]);
        KeepsIsTransitive(s, s1, s2);
        if s.controlling && request.isUseCandidate && s.selected.None? {
          PendingFits(s, request);
          SelectedIsSafe(s2, i.value);
          KeepsIsTransitive(s, s2, SetSelected(s2, i.value));
        }
      }
    }
  }

  lemma PendingFits(s: State, r: BindingRequest)
    requires Safe(s) && r in s.pending
    ensures Fits(s, r)
  {
  }

  lemma RequestControllingKeeps(s: State, clock: Clock, local: Candidate, remote: Candidate)
    requires Safe(s) && s.controlling && (s.started || s.closed)
    ensures var t := RequestControlling(s, clock, local, remote); Safe(t) && Keeps(s, t)
  {
    hide Safe, Keeps, FindPair, Best, NominatePair;
    KeepsItself(s);
    MorePairs(s, [NewPair(local, remote, s.controlling)]);
    var i := FindPair(s.checklist, local, remote);
    if i.Some? && s.checklist[i.value].state == Succeeded && s.nominated.None? && s.selected.None? {
      NominatedIsSafe(s, i.value, s.checklist);
      var t := s.(nominated := i);
      NominateKeeps(t, clock);
      KeepsIsTransitive(s, t, NominatePair(t, clock));
    }
  }

  lemma RequestControlledKeeps(s: State, clock: Clock, useCandidate: bool, local: Candidate, remote: Candidate)
    requires Safe(s) && !s.controlling && (s.started || s.closed)
    ensures var t := RequestControlled(s, clock, useCandidate, local, remote); Safe(t) && Keeps(s, t)
  {
    hide Safe, Keeps, FindPair, Send, SetSelected;
    KeepsItself(s);
    MorePairs(s, [NewPair(local, remote, s.controlling)]);
    var s1 := if FindPair(s.checklist, local, remote).Some? then s
              else s.(checklist := s.checklist + [NewPair(local, remote, s.controlling)]);
    var i := FindPair(s1.checklist, local, remote);
    SendKeeps(s1, clock.now, clock.ids(0), remote, false);
    KeepsIsTransitive(s, s1, Send(s1, clock.now, clock.ids(0), remote, false));
    if i.Some? && s1.checklist[i.value].state == Succeeded && s1.selected.None? {
      SelectedIsSafe(s1, i.value);
      KeepsIsTransitive(s, s1, SetSelected(s1, i.value));
    }
  }

  lemma InboundKeeps(s: State, clock: Clock, m: Message, local: Candidate, source: SocketAddr)
    requires Safe(s) && (s.started || s.closed)
    ensures var t := InboundSpec(s, clock, m, local, source); Safe(t) && Keeps(s, t)
  {
    hide Safe, Keeps, SuccessResponse, RequestControlling, RequestControlled, FindAddr;
    KeepsItself(s);
    var remote := FindAddr(Of(s.remote, local.networkType), source);
    if remote.Some? {
      SuccessKeeps(s, clock, m.id, local, remote.value);
      if s.controlling {
        RequestControllingKeeps(s, clock, local, remote.value);
      } else {
        RequestControlledKeeps(s, clock, m.useCandidate, local, remote.value);
      }
    }
  }

  lemma AddLocalKeeps(s: State, c: Candidate)
    requires Safe(s)
    ensures Safe(AddLocalSpec(s, c)) && Keeps(s, AddLocalSpec(s, c))
  {
    hide Known, Pairs, Safe, Keeps, Push;
    var remotes := Of(s.remote, c.networkType);
    KeepsItself(s);
    MorePairs(s, Pairs(Repeat(c, |remotes|), remotes, s.controlling));
    MoreCandidates(s, s.(checklist := s.checklist + Pairs(Repeat(c, |remotes|), remotes, s.controlling)),
                   Push(s.local, c), s.remote);
  }

  lemma AddRemoteKeeps(s: State, c: Candidate)
    requires Safe(s)
    ensures Safe(AddRemoteSpec(s, c)) && Keeps(s, AddRemoteSpec(s, c))
  {
    hide Known, Pairs, Safe, Keeps, Push;
    var locals := Of(s.local, c.networkType);
    KeepsItself(s);
    MorePairs(s, Pairs(locals, Repeat(c, |locals|), s.controlling));
    MoreCandidates(s, s.(checklist := s.checklist + Pairs(locals, Repeat(c, |locals|), s.controlling)),
                   s.local, Push(s.remote, c));
  }

  lemma MoreCandidates(s: State, t: State, local: Candidates, remote: Candidates)
    requires Safe(t) && Keeps(s, t)
    ensures var u := t.(local := local, remote := remote); Safe(u) && Keeps(s, u)
  {
  }

  /** Every step keeps the agent safe and, but for a restart, keeps its pairs. */
  lemma StepKeeps(s: State, e: Event)
    requires Safe(s) && Enabled(s, e)
    ensures Safe(Step(s, e))
    ensures !Restarts(s, e) ==> Keeps(s, Step(s, e))
  {
    hide ContactSpec, InboundSpec, AddLocalSpec, AddRemoteSpec;
    match e
    case AddLocal(c) => AddLocalKeeps(s, c);
    case AddRemote(c) => AddRemoteKeeps(s, c);
    case Start(now, controlling, ufrag, pwd) => StartKeeps(s, now, controlling, ufrag, pwd);
    case Contact(clock) => ContactKeeps(s, clock);
    case Inbound(clock, m, local, source) => InboundKeeps(s, clock, m, local, source);
    case Restart(now, ufrag, pwd, gathering) =>
    case Close =>
  }

  lemma StartKeeps(s: State, now: nat, controlling: bool, ufrag: string, pwd: string)
    requires Safe(s)
    ensures var t := StartSpec(s, now, controlling, ufrag, pwd).0; Safe(t) && Keeps(s, t)
  {
  }

  // ---------------------------------------------------------------- runs

  /** The state after a run, and whether every event of it could happen. */
  function Run(s: State, events: seq<Event>): (r: (State, bool))
    requires Safe(s)
    ensures Safe(r.0)
    decreases |events|
  {
    if events == [] then (s, true)
    else if !Enabled(s, events[0]) then (s, false)
    else
      StepKeeps(s, events[0]);
      Run(Step(s, events[0]), events[1..])
  }

  /** No restart succeeds in the run. */
  predicate NoRestart(s: State, events: seq<Event>)
    requires Safe(s)
    decreases |events|
  {
    events != [] && Enabled(s, events[0]) ==>
      && !Restarts(s, events[0])
      && (StepKeeps(s, events[0]);
          NoRestart(Step(s, events[0]), events[1..]))
  }

  lemma InitialIsSafe(config: Config, controlling: bool)
    ensures Safe(Initial(config, controlling))
  {
  }

  /** In every reachable state a selected pair is a succeeded, nominated pair of the checklist;
      it exists whenever the state is connected or disconnected; and in the controlling role it
      has the remote address of the nominated pair, since every pending request to use a pair
      went there. */
  lemma SelectedPairIsSafe(config: Config, controlling: bool, events: seq<Event>)
    ensures Safe(Initial(config, controlling))
    ensures var s := Run(Initial(config, controlling), events).0;
      && InBounds(s)
      && (s.selected.Some? ==>
            && s.checklist[s.selected.value].state == Succeeded && s.checklist[s.selected.value].nominated
            && (s.controlling ==> s.nominated.Some? && RemoteAddr(s, s.selected.value) == RemoteAddr(s, s.nominated.value)))
      && (forall i :: 0 <= i < |s.pending| && s.pending[i].isUseCandidate ==>
            s.controlling && s.nominated.Some? && s.pending[i].destination == RemoteAddr(s, s.nominated.value))
      && (s.connection == Connected || s.connection == Disconnected ==> s.selected.Some?)
  {
    InitialIsSafe(config, controlling);
  }

  /** From any reachable state on, the selected and the nominated pair stay as they are for as
      long as no restart succeeds, and a succeeded pair stays succeeded. */
  lemma {:induction false} SelectedStaysUntilRestart(s: State, events: seq<Event>)
    requires Safe(s) && NoRestart(s, events)
    ensures Keeps(s, Run(s, events).0)
    decreases |events|
  {
    hide Safe, Keeps, Step, Restarts, Enabled;
    if events == [] {
      KeepsItself(s);
    } else if Enabled(s, events[0]) {
      StepKeeps(s, events[0]);
      var t := Step(s, events[0]);
      SelectedStaysUntilRestart(t, events[1..]);
      KeepsIsTransitive(s, t, Run(t, events[1..]).0);
    } else {
      KeepsItself(s);
    }
  }
}
