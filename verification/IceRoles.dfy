/** The role that a pair remembers is the one the agent had when the pair was formed. When is
    it still the agent's, and what follows for the ranking of the checklist. */
module IceRoles {
  import opened Wrappers
  import opened IceCandidate
  import opened IceAgent
  import opened IceSafety

  /** Every pair remembers the agent's role. */
  predicate RolesCurrent(s: State) {
    forall i :: 0 <= i < |s.checklist| ==> !IsStale(s.checklist[i], s.controlling)
  }

  /** The role stays; old pairs keep the role they remember, new ones remember the agent's. */
  predicate Inherits(s: State, t: State) {
    && t.controlling == s.controlling && |s.checklist| <= |t.checklist|
    && forall i :: 0 <= i < |t.checklist| ==>
         t.checklist[i].controlling == if i < |s.checklist| then s.checklist[i].controlling else s.controlling
  }

  lemma InheritsIsTransitive(s: State, t: State, u: State)
    requires Inherits(s, t) && Inherits(t, u)
    ensures Inherits(s, u)
  {
  }

  lemma InheritsItself(s: State)
    ensures Inherits(s, s)
  {
  }

  lemma InheritingIsCurrent(s: State, t: State)
    requires Inherits(s, t)
    ensures RolesCurrent(t) <==> RolesCurrent(s)
  {
    if RolesCurrent(t) {
      forall i | 0 <= i < |s.checklist| ensures !IsStale(s.checklist[i], s.controlling) {
        assert !IsStale(t.checklist[i], t.controlling);
      }
    }
  }

  // ---------------------------------------------------------------- steps that pass the roles on

  /** Nothing but the checklist's other fields has changed. */
  lemma SameRolesInherit(s: State, t: State)
    requires t.controlling == s.controlling && |t.checklist| == |s.checklist|
    requires forall i :: 0 <= i < |s.checklist| ==> t.checklist[i].controlling == s.checklist[i].controlling
    ensures Inherits(s, t)
  {
  }

  lemma AddingInherits(s: State, c: Candidate)
    ensures Inherits(s, AddLocalSpec(s, c)) && Inherits(s, AddRemoteSpec(s, c))
  {
    hide Known, Push, Inherits;
    InheritsItself(s);
    var remotes, locals := Of(s.remote, c.networkType), Of(s.local, c.networkType);
    PairsInherit(s, AddLocalSpec(s, c), Repeat(c, |remotes|), remotes);
    PairsInherit(s, AddRemoteSpec(s, c), locals, Repeat(c, |locals|));
  }

  lemma PairsInherit(s: State, t: State, locals: seq<Candidate>, remotes: seq<Candidate>)
    requires |locals| == |remotes| && t.controlling == s.controlling
    ensures t.checklist == s.checklist + Pairs(locals, remotes, s.controlling) ==> Inherits(s, t)
  {
  }

  lemma {:induction false} SendAllInherits(s: State, clock: Clock, remotes: seq<Candidate>, n: nat)
    requires n <= |remotes|
    ensures var t := SendAll(s, clock, remotes, n); t.checklist == s.checklist && t.controlling == s.controlling
  {
    if n > 0 {
      SendAllInherits(s, clock, remotes, n - 1);
    }
  }

  lemma PingInherits(s: State, clock: Clock)
    ensures Inherits(s, PingAll(s, clock))
  {
    hide SendAll;
    var (list, remotes) := PingList(s.checklist, s.config.maxBindingRequests);
    SendAllInherits(s.(checklist := list), clock, remotes, |remotes|);
  }

  lemma SendInherits(s: State, now: nat, id: Option<TransactionId>, remote: Candidate, useCandidate: bool)
    ensures Inherits(s, Send(s, now, id, remote, useCandidate))
  {
    hide Unexpired;
  }

  lemma SelectingInherits(s: State, i: nat)
    requires i < |s.checklist|
    ensures Inherits(s, SetSelected(s, i))
  {
  }

  lemma OnePairInherits(s: State, local: Candidate, remote: Candidate)
    ensures Inherits(s, s.(checklist := s.checklist + [NewPair(local, remote, s.controlling)]))
  {
  }

  lemma ValidatingInherits(s: State, silence: nat)
    ensures var t := ValidateSelected(s, silence);
      Inherits(s, t) && t.selected == s.selected && t.checklist == s.checklist
  {
  }

  lemma KeepaliveInherits(s: State, clock: Clock)
    requires s.selected.Some? ==> s.selected.value < |s.checklist|
    ensures Inherits(s, CheckKeepalive(s, clock))
  {
    hide Send, Inherits;
    InheritsItself(s);
    if s.selected.Some? {
      SendInherits(s, clock.now, clock.ids(0), s.checklist[s.selected.value].remote, false);
    }
  }

  lemma NominatingInherits(s: State, clock: Clock)
    requires InBounds(s)
    ensures Inherits(s, NominatePair(s, clock))
  {
    hide Send, Inherits;
    InheritsItself(s);
    if s.nominated.Some? {
      SendInherits(s, clock.now, clock.ids(0), s.checklist[s.nominated.value].remote, true);
    }
  }

  lemma NominationInherits(s: State, clock: Clock, i: nat)
    requires InBounds(s) && i < |s.checklist|
    ensures InBounds(Nominate(s, i)) && Inherits(s, NominatePair(Nominate(s, i), clock))
  {
    hide NominatePair;
    NominatingInherits(Nominate(s, i), clock);
  }

  lemma CandidatesInherit(s: State, clock: Clock)
    requires InBounds(s)
    ensures Inherits(s, ContactCandidates(s, clock))
  {
    hide PingAll, Best, CheckKeepalive, ValidateSelected, NominatePair, Nominate, PairNominatable, Inherits;
    PingInherits(s, clock);
    NominatingInherits(s, clock);
    ValidatingInherits(s, clock.silence);
    var t := ValidateSelected(s, clock.silence);
    KeepaliveInherits(t, clock);
    InheritsIsTransitive(s, t, CheckKeepalive(t, clock));
    var best := Best(s.checklist, Valid);
    if best.Some? {
      NominationInherits(s, clock, best.value);
    }
  }

  lemma ContactInherits(s: State, clock: Clock)
    requires InBounds(s)
    ensures Inherits(s, ContactSpec(s, clock))
  {
    hide ContactCandidates;
    if s.connection != ConnectionState.Failed {
      var s1 := if s.connection == Checking && s.lastState != Checking then s.(checkingSince := clock.now) else s;
      CandidatesInherit(s1, clock);
    }
  }

  lemma InboundInherits(s: State, clock: Clock, m: Message, local: Candidate, source: SocketAddr)
    requires InBounds(s)
    ensures Inherits(s, InboundSpec(s, clock, m, local, source))
  {
    hide FindAddr, FindPair, FindRequest, Unexpired, Best, PairNominatable, SuccessResponse, RequestControlling,
      RequestControlled, Inherits;
    InheritsItself(s);
    var remote := FindAddr(Of(s.remote, local.networkType), source);
    if remote.Some? {
      SuccessInherits(s, clock, m.id, local, remote.value, source);
      RequestInherits(s, clock, m.useCandidate, local, remote.value);
    }
  }

  lemma SuccessInherits(s: State, clock: Clock, id: TransactionId, local: Candidate, remote: Candidate,
                        source: SocketAddr)
    requires InBounds(s)
    ensures Inherits(s, SuccessResponse(s, clock, id, local, remote, source))
  {
    hide FindPair, FindRequest, Unexpired, Without, SetSelected, Inherits;
    var pending := Unexpired(s.pending, clock.now);
    SameRolesInherit(s, s.(pending := pending));
    var r := FindRequest(pending, id);
    if r.Some? {
      var s1 := s.(pending := Without(pending, r.value));
      SameRolesInherit(s, s1);
      var i := FindPair(s.checklist, local, remote);
      if i.Some? {
        SucceedingInherits(s, s1, i.value);
      }
    }
  }

  lemma SucceedingInherits(s: State, s1: State, i: nat)
    requires s1.controlling == s.controlling && s1.checklist == s.checklist && i < |s.checklist|
    ensures var s2 := s1.(checklist := s.checklist[i := s.checklist[i].(state := Succeeded)]);
      Inherits(s, s2) && Inherits(s, SetSelected(s2, i))
  {
    hide SetSelected, Inherits;
    var s2 := s1.(checklist := s.checklist[i := s.checklist[i].(state := Succeeded)]);
    SameRolesInherit(s, s2);
    SelectingInherits(s2, i);
    InheritsIsTransitive(s, s2, SetSelected(s2, i));
  }

  lemma RequestInherits(s: State, clock: Clock, useCandidate: bool, local: Candidate, remote: Candidate)
    requires InBounds(s)
    ensures Inherits(s, RequestControlling(s, clock, local, remote))
    ensures Inherits(s, RequestControlled(s, clock, useCandidate, local, remote))
  {
    hide FindPair, Best, PairNominatable, Inherits, Send, SetSelected;
    InheritsItself(s);
    OnePairInherits(s, local, remote);
    var i := FindPair(s.checklist, local, remote);
    if i.Some? {
      var t := s.(nominated := i);
      SameRolesInherit(s, t);
      SendInherits(t, clock.now, clock.ids(0), t.checklist[i.value].remote, true);
      InheritsIsTransitive(s, t, NominatePair(t, clock));
    }
    var s1 := if i.Some? then s else s.(checklist := s.checklist + [NewPair(local, remote, s.controlling)]);
    var j := FindPair(s1.checklist, local, remote);
    SendInherits(s1, clock.now, clock.ids(0), remote, false);
    InheritsIsTransitive(s, s1, Send(s1, clock.now, clock.ids(0), remote, false));
    if j.Some? {
      SelectingInherits(s1, j.value);
      InheritsIsTransitive(s, s1, SetSelected(s1, j.value));
    }
  }

  // ---------------------------------------------------------------- which step breaks it

  predicate Starts(s: State, e: Event) {
    e.Start? && StartSpec(s, e.now, e.controlling, e.remoteUfrag, e.remotePwd).1.Ok?
  }

  /** An accepted start makes the roles current exactly when every pair remembers its role; a
      restart makes them current, having dropped the pairs; any other step leaves them as
      current or stale as they were. */
  lemma RolesAfterStep(s: State, e: Event)
    requires Safe(s) && Enabled(s, e)
    ensures RolesCurrent(Step(s, e)) <==>
      if Starts(s, e) then forall i :: 0 <= i < |s.checklist| ==> s.checklist[i].controlling == e.controlling
      else Restarts(s, e) || RolesCurrent(s)
  {
    hide AddLocalSpec, AddRemoteSpec, ContactSpec, InboundSpec, RolesCurrent, Inherits;
    if Starts(s, e) {
      StartedRoles(s, e);
    } else if Restarts(s, e) {
      RestartedRoles(s, e);
    } else {
      OthersInherit(s, e);
      InheritingIsCurrent(s, Step(s, e));
    }
  }

  lemma StartedRoles(s: State, e: Event)
    requires Safe(s) && Starts(s, e)
    ensures RolesCurrent(Step(s, e)) <==>
      forall i :: 0 <= i < |s.checklist| ==> s.checklist[i].controlling == e.controlling
  {
    hide Safe;
    SafeInBounds(s);
    var t := Step(s, e);
    assert t.checklist == s.checklist && t.controlling == e.controlling;
  }

  lemma SafeInBounds(s: State)
    requires Safe(s)
    ensures InBounds(s)
  {
  }

  lemma RestartedRoles(s: State, e: Event)
    requires Safe(s) && Restarts(s, e)
    ensures RolesCurrent(Step(s, e))
  {
  }

  lemma OthersInherit(s: State, e: Event)
    requires Safe(s) && Enabled(s, e) && !Starts(s, e) && !Restarts(s, e)
    ensures Inherits(s, Step(s, e))
  {
    hide AddLocalSpec, AddRemoteSpec, ContactSpec, InboundSpec, Inherits, Safe;
    SafeInBounds(s);
    InheritsItself(s);
    match e
    case AddLocal(c) => AddingInherits(s, c);
    case AddRemote(c) => AddingInherits(s, c);
    case Start(_, _, _, _) =>
    case Contact(clock) => ContactInherits(s, clock);
    case Inbound(clock, m, local, source) => InboundInherits(s, clock, m, local, source);
    case Restart(_, _, _, _) =>
    case Close => SameRolesInherit(s, Step(s, e));
  }

  // ---------------------------------------------------------------- runs

  /** An accepted start that gives the agent another role while it has pairs already. */
  predicate TurnsStale(s: State, e: Event) {
    Starts(s, e) && s.checklist != [] && e.controlling != s.controlling
  }

  /** Whether, in a run, such a start is the last word: no restart has succeeded since. */
  predicate StaleAfter(s: State, stale: bool, events: seq<Event>)
    requires Safe(s)
    decreases |events|
  {
    if events == [] || !Enabled(s, events[0]) then stale
    else
      StepKeeps(s, events[0]);
      StaleAfter(Step(s, events[0]), !Restarts(s, events[0]) && (stale || TurnsStale(s, events[0])), events[1..])
  }

  /** One step keeps count: before the start roles are current, and it is accepted once. */
  lemma StepKeepsCount(s: State, stale: bool, e: Event)
    requires Safe(s) && Enabled(s, e)
    requires RolesCurrent(s) <==> !stale
    requires !s.started ==> !stale
    ensures var t, stale' := Step(s, e), !Restarts(s, e) && (stale || TurnsStale(s, e));
      && (RolesCurrent(t) <==> !stale')
      && (!t.started ==> !stale')
  {
    hide Safe, Step, Restarts;
    RolesAfterStep(s, e);
    StartedOnce(s, e);
    if Starts(s, e) {
      assert forall i :: 0 <= i < |s.checklist| ==> s.checklist[i].controlling == s.controlling;
      if e.controlling != s.controlling && s.checklist != [] {
        assert s.checklist[0].controlling != e.controlling;
      }
    }
  }

  lemma StartedOnce(s: State, e: Event)
    requires Safe(s) && Enabled(s, e)
    ensures Starts(s, e) ==> !s.started && Step(s, e).started && !Restarts(s, e)
    ensures !Restarts(s, e) ==> (s.started ==> Step(s, e).started)
    ensures TurnsStale(s, e) ==> Starts(s, e)
  {
    hide Safe, Step, Restarts, Keeps;
    StepKeeps(s, e);
    if !Restarts(s, e) {
      KeepsStarted(s, Step(s, e));
    }
    if Starts(s, e) {
      StartStarts(s, e);
    }
  }

  lemma KeepsStarted(s: State, t: State)
    requires Keeps(s, t)
    ensures s.started ==> t.started
  {
  }

  lemma StartStarts(s: State, e: Event)
    requires Safe(s) && Starts(s, e)
    ensures !s.started && Step(s, e).started && !Restarts(s, e)
  {
    hide Safe;
    SafeInBounds(s);
  }

  lemma {:induction false} RolesInRun(s: State, stale: bool, events: seq<Event>)
    requires Safe(s) && (RolesCurrent(s) <==> !stale) && (!s.started ==> !stale)
    ensures RolesCurrent(Run(s, events).0) <==> !StaleAfter(s, stale, events)
    decreases |events|
  {
    hide Safe, Step, Restarts, TurnsStale, RolesCurrent, Enabled;
    if events != [] && Enabled(s, events[0]) {
      StepKeeps(s, events[0]);
      StepKeepsCount(s, stale, events[0]);
      RolesInRun(Step(s, events[0]), !Restarts(s, events[0]) && (stale || TurnsStale(s, events[0])), events[1..]);
    }
  }

  /** In every run of a new agent all pairs remember the agent's role unless it was started in
      another role when it had pairs already, and has not been restarted since. */
  lemma RolesCurrentExactly(config: Config, controlling: bool, events: seq<Event>)
    ensures Safe(Initial(config, controlling))
    ensures var s := Initial(config, controlling);
      RolesCurrent(Run(s, events).0) <==> !StaleAfter(s, false, events)
  {
    InitialIsSafe(config, controlling);
    RolesInRun(Initial(config, controlling), false, events);
  }

  /** As long as that has not happened, and priorities are at most 2^31, the checklist ranks as
      the standard has it. */
  lemma RunRanksAsStandard(config: Config, controlling: bool, events: seq<Event>, i: nat, j: nat)
    requires Safe(Initial(config, controlling)) && !StaleAfter(Initial(config, controlling), false, events)
    requires var list := Run(Initial(config, controlling), events).0.checklist;
      && i < |list| && j < |list|
      && Within(list[i], 0x8000_0000) && Within(list[j], 0x8000_0000)
    ensures var s := Run(Initial(config, controlling), events).0;
      RankAlike(s.checklist[i], s.checklist[j], s.controlling)
  {
    hide Safe, StaleAfter, Run, RankAlike, Within;
    RolesCurrentExactly(config, controlling, events);
    var s := Run(Initial(config, controlling), events).0;
    RankAlikeExactly(s.checklist[i], s.checklist[j], s.controlling);
  }

  // ---------------------------------------------------------------- a run that ends stale

  /** A new controlled agent with candidates and pairs added. */
  function Adding(config: Config, locals: seq<Candidate>, remotes: seq<Candidate>, list: seq<Pair>): State {
    Initial(config, false).(
      local := if locals == [] then map[] else map[Udp4 := locals],
      remote := if remotes == [] then map[] else map[Udp4 := remotes],
      checklist := list)
  }

  lemma AddsLocal(config: Config, locals: seq<Candidate>, remotes: seq<Candidate>, list: seq<Pair>, c: Candidate)
    requires c.networkType == Udp4 && !Known(locals, c)
    ensures AddLocalSpec(Adding(config, locals, remotes, list), c)
         == Adding(config, locals + [c], remotes, list + Pairs(Repeat(c, |remotes|), remotes, false))
  {
    hide Known, Pairs;
    var s := Adding(config, locals, remotes, list);
    assert Of(s.local, Udp4) == locals && Of(s.remote, Udp4) == remotes;
    assert Push(s.local, c) == map[Udp4 := locals + [c]];
  }

  lemma AddsRemote(config: Config, locals: seq<Candidate>, remotes: seq<Candidate>, list: seq<Pair>, c: Candidate)
    requires c.networkType == Udp4 && !Known(remotes, c)
    ensures AddRemoteSpec(Adding(config, locals, remotes, list), c)
         == Adding(config, locals, remotes + [c], list + Pairs(locals, Repeat(c, |locals|), false))
  {
    hide Known, Pairs;
    var s := Adding(config, locals, remotes, list);
    assert Of(s.local, Udp4) == locals && Of(s.remote, Udp4) == remotes;
    assert Push(s.remote, c) == map[Udp4 := remotes + [c]];
  }

  const FILED_FIRST := [
    AddLocal(At(1, 5)), AddLocal(At(2, 3)), AddRemote(At(1, 3)), AddRemote(At(2, 5)), Start(0, true, "u", "p")]

  const STALE_PAIRS := [
    NewPair(At(1, 5), At(1, 3), false), NewPair(At(2, 3), At(1, 3), false),
    NewPair(At(1, 5), At(2, 5), false), NewPair(At(2, 3), At(2, 5), false)]

  /** Candidates first, then the start as controlling, of an agent made as controlled: all four
      pairs are stale. The first has another priority at the other end, where it is formed by
      an agent in its role, and it ranks below the last though the standard has it above. */
  lemma StaleRun(config: Config)
    ensures Safe(Initial(config, false)) && StaleAfter(Initial(config, false), false, FILED_FIRST)
    ensures var s := Run(Initial(config, false), FILED_FIRST).0;
      && s.controlling && s.checklist == STALE_PAIRS
      && var p, q := s.checklist[0], s.checklist[3];
         && IsStale(p, s.controlling) && IsStale(q, s.controlling)
         && PairPriority(p) != PairPriority(NewPair(p.remote, p.local, !s.controlling))
         && PairPriority(p) < PairPriority(q)
         && RfcPairPriority(q, s.controlling) < RfcPairPriority(p, s.controlling)
  {
    hide Safe, Run, PairPriority, RfcPairPriority;
    InitialIsSafe(config, false);
    StaleRunEnds(config);
    StalePriorities();
  }

  lemma StalePriorities()
    ensures var p, q := STALE_PAIRS[0], STALE_PAIRS[3];
      && PairPriority(p) != PairPriority(NewPair(p.remote, p.local, false))
      && PairPriority(p) < PairPriority(q) && RfcPairPriority(q, true) < RfcPairPriority(p, true)
  {
  }

  lemma StaleRunEnds(config: Config)
    requires Safe(Initial(config, false))
    ensures StaleAfter(Initial(config, false), false, FILED_FIRST)
    ensures var t := Run(Initial(config, false), FILED_FIRST).0; t.controlling && t.checklist == STALE_PAIRS
  {
    hide Safe, Run, StaleAfter, AddLocalSpec, AddRemoteSpec, Adding;
    var a, b, c, d, e := At(1, 5), At(2, 3), At(1, 3), At(2, 5), FILED_FIRST;
    var s0 := Adding(config, [], [], []);
    assert s0 == Initial(config, false) by { AddingNothing(config); }
    AddsLocal(config, [], [], [], a);
    AddsLocal(config, [a], [], [], b);
    AddsRemote(config, [a, b], [], [], c);
    AddsRemote(config, [a, b], [c], STALE_PAIRS[..2], d);
    PairsFormed();
    var s1, s2 := Adding(config, [a], [], []), Adding(config, [a, b], [], []);
    var s3, s4 := Adding(config, [a, b], [c], STALE_PAIRS[..2]), Adding(config, [a, b], [c, d], STALE_PAIRS);
    assert [] + [a] == [a] && [a] + [b] == [a, b] && [] + [c] == [c] && [c] + [d] == [c, d];
    RunAdds(s0, e, s1);
    RunAdds(s1, e[1..], s2);
    assert e[1..][1..] == e[2..] && e[2..][1..] == e[3..] && e[3..][1..] == e[4..];
    RunAdds(s2, e[2..], s3);
    RunAdds(s3, e[3..], s4);
    RunStarts(config, s4, e[4..]);
  }

  lemma AddingNothing(config: Config)
    ensures Adding(config, [], [], []) == Initial(config, false)
  {
  }

  lemma PairsFormed()
    ensures var a, b, c, d := At(1, 5), At(2, 3), At(1, 3), At(2, 5);
      && [] + Pairs(Repeat(a, 0), [], false) == [] && [] + Pairs(Repeat(b, 0), [], false) == []
      && [] + Pairs([a, b], Repeat(c, 2), false) == STALE_PAIRS[..2]
      && STALE_PAIRS[..2] + Pairs([a, b], Repeat(d, 2), false) == STALE_PAIRS
  {
  }

  lemma RunAdds(s: State, events: seq<Event>, t: State)
    requires Safe(s) && events != [] && (events[0].AddLocal? || events[0].AddRemote?)
    requires t == if events[0].AddLocal? then AddLocalSpec(s, events[0].c) else AddRemoteSpec(s, events[0].c)
    ensures Safe(t) && Run(s, events) == Run(t, events[1..])
    ensures StaleAfter(s, false, events) == StaleAfter(t, false, events[1..])
  {
    hide Safe, AddLocalSpec, AddRemoteSpec;
    SafeInBounds(s);
    StepKeeps(s, events[0]);
  }

  lemma RunStarts(config: Config, s: State, events: seq<Event>)
    requires Safe(s) && events == [Start(0, true, "u", "p")]
    requires s == Adding(config, [At(1, 5), At(2, 3)], [At(1, 3), At(2, 5)], STALE_PAIRS)
    ensures StaleAfter(s, false, events)
    ensures var t := Run(s, events).0; t.controlling && t.checklist == STALE_PAIRS
  {
    hide Safe;
    SafeInBounds(s);
    StepKeeps(s, events[0]);
    assert TurnsStale(s, events[0]);
    var t := Step(s, events[0]);
    assert events[1..] == [];
    assert Run(t, []) == (t, true);
    assert StaleAfter(t, true, []);
  }
}
