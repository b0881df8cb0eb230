/** What a step of an ICE agent does, and exactly when: which message it lets in, when it
    selects and nominates a pair, what becomes of the connection state, of a pair's state and
    of the requests that are waiting for an answer. */
module IceEffects {
  import opened Bytes
  import opened Wrappers
  import opened IceCandidate
  import opened IceAgent
  import opened IceSafety
  import opened IceChecklist

  // ---------------------------------------------------------------- what is let in

  /** The remote candidate that a datagram comes from. */
  function From(s: State, e: Event): Option<Candidate>
    requires e.Inbound?
  {
    FindAddr(Of(s.remote, e.local.networkType), e.source)
  }

  /** A binding message is looked into when it comes from a known remote candidate, its
      integrity is right, and it is not of an agent in the same role; a controlling agent is not
      told which candidate to use. */
  predicate Admitted(s: State, e: Event) {
    && e.Inbound? && e.m.binding && e.m.authentic && From(s, e).Some?
    && (s.controlling ==> !e.m.controlling && !e.m.useCandidate)
    && (!s.controlling ==> !e.m.controlled)
  }

  /** The pair of the candidate it was read on and the one it comes from. */
  function Hit(s: State, e: Event): Option<nat>
    requires Admitted(s, e)
  {
    FindPair(s.checklist, e.local, From(s, e).value)
  }

  predicate Live(r: BindingRequest, now: nat) { now < r.timestamp + MAX_BINDING_REQUEST_TIMEOUT }

  /** The first pending request with the id that has not timed out. */
  predicate IsAnswered(pending: seq<BindingRequest>, now: nat, id: TransactionId, k: nat) {
    && k < |pending| && Live(pending[k], now) && pending[k].transactionId == id
    && forall j :: 0 <= j < k && Live(pending[j], now) ==> pending[j].transactionId != id
  }

  /** A response to such a request from where that was sent. */
  predicate Answers(s: State, e: Event, k: nat) {
    && Admitted(s, e) && e.m.class_ == Success
    && IsAnswered(s.pending, e.clock.now, e.m.id, k) && s.pending[k].destination == e.source
  }

  lemma {:induction false} FindsLive(pending: seq<BindingRequest>, now: nat, id: TransactionId)
    ensures var live := Unexpired(pending, now); var r := FindRequest(live, id);
      && (r.Some? ==> exists k: nat :: IsAnswered(pending, now, id, k) && pending[k] == live[r.value])
      && (r.None? ==> forall k: nat :: !IsAnswered(pending, now, id, k))
    ensures forall k: nat, l: nat :: IsAnswered(pending, now, id, k) && IsAnswered(pending, now, id, l) ==> k == l
  {
    if pending != [] {
      var first, rest := pending[0], pending[1..];
      FindsLive(rest, now, id);
      var live := Unexpired(pending, now);
      if Live(first, now) {
        assert live[0] == first && live[1..] == Unexpired(rest, now);
        if first.transactionId == id {
          assert IsAnswered(pending, now, id, 0) && pending[0] == live[0];
          assert FindRequest(live, id) == Some(0);
        } else {
          AnsweredTail(pending, now, id);
        }
      } else {
        assert live == [] + Unexpired(rest, now) == Unexpired(rest, now);
        AnsweredTail(pending, now, id);
      }
    }
  }

  lemma AnsweredTail(pending: seq<BindingRequest>, now: nat, id: TransactionId)
    requires pending != [] && (Live(pending[0], now) ==> pending[0].transactionId != id)
    ensures forall k: nat :: IsAnswered(pending, now, id, k + 1) <==> IsAnswered(pending[1..], now, id, k)
    ensures !IsAnswered(pending, now, id, 0)
    ensures forall k: nat :: k > 0 && IsAnswered(pending, now, id, k) ==> IsAnswered(pending[1..], now, id, k - 1)
  {
    forall k: nat ensures IsAnswered(pending, now, id, k + 1) <==> IsAnswered(pending[1..], now, id, k) {
      assert forall j :: 0 <= j < |pending[1..]| ==> pending[1..][j] == pending[j + 1];
      assert forall j :: 0 < j < |pending| ==> pending[j] == pending[1..][j - 1];
    }
    forall k: nat | k > 0 && IsAnswered(pending, now, id, k) ensures IsAnswered(pending[1..], now, id, k - 1) {
      assert IsAnswered(pending, now, id, k - 1 + 1);
    }
  }

  // ---------------------------------------------------------------- selection

  /** A controlled agent is asked to use a pair that has succeeded. */
  predicate IsUsed(s: State, e: Event) {
    && Admitted(s, e) && !s.controlling && e.m.class_ == Request && e.m.useCandidate
    && Hit(s, e).Some? && s.checklist[Hit(s, e).value].state == Succeeded
  }

  /** A controlling agent has its request to use a pair answered. */
  ghost predicate ConfirmsUse(s: State, e: Event) {
    && Admitted(s, e) && s.controlling && Hit(s, e).Some?
    && exists k: nat :: Answers(s, e, k) && s.pending[k].isUseCandidate
  }

  /** The pair at i is selected: it is marked nominated, has succeeded, and the agent is
      connected. Nothing else has changed but what is pending. */
  predicate IsSelected(s: State, t: State, i: nat) {
    && i < |s.checklist|
    && t == s.(selected := Some(i), connection := Connected, pending := t.pending,
               checklist := s.checklist[i := s.checklist[i].(state := Succeeded, nominated := true)])
  }

  /** An agent that has selected no pair selects one in these two ways and no other, and it is
      the pair that the message came in on. */
  lemma SelectsExactly(s: State, e: Event)
    requires Safe(s) && Enabled(s, e) && s.selected.None?
    ensures Step(s, e).selected.Some? <==> IsUsed(s, e) || ConfirmsUse(s, e)
    ensures Step(s, e).selected.Some? ==> IsSelected(s, Step(s, e), Hit(s, e).value)
  {
    hide FindAddr, FindPair, SuccessResponse, RequestControlling, RequestControlled, AddLocalSpec, AddRemoteSpec,
      ContactSpec, IsSelected, Answers, Safe;
    SelectedIs(s, Step(s, e));
    match e {
      case AddLocal(c) => AddsSelectNone(s, c);
      case AddRemote(c) => AddsSelectNone(s, c);
      case Contact(clock) => ContactSelectsNone(s, clock);
      case Inbound(clock, m, local, source) =>
        if Admitted(s, e) {
          var remote := From(s, e).value;
          if m.class_ == Success {
            ResponseEffect(s, e);
          } else if m.class_ == Request && s.controlling {
            RequestSelectsNone(s, clock, local, remote);
            NoAnswer(s, e);
          } else if m.class_ == Request {
            ControlledEffect(s, e);
          } else {
            NoAnswer(s, e);
          }
        }
      case Start(_, _, _, _) =>
      case Restart(_, _, _, _) =>
      case Close =>
    }
  }

  lemma SelectedIs(s: State, t: State)
    ensures forall i: nat :: IsSelected(s, t, i) ==> t.selected == Some(i)
  {
  }

  lemma NoAnswer(s: State, e: Event)
    requires e.Inbound? && e.m.class_ != Success
    ensures forall k: nat :: !Answers(s, e, k)
  {
    hide Admitted, IsAnswered;
  }

  lemma SetSelectedIs(s: State, t: State, i: nat)
    requires i < |s.checklist| && s.connection != Connected
    requires t.checklist == s.checklist[i := s.checklist[i].(state := Succeeded)]
    requires t == s.(checklist := t.checklist, pending := t.pending)
    ensures IsSelected(s, SetSelected(t, i), i) && SetSelected(t, i).pending == t.pending
  {
  }

  /** With nothing selected it is not connected. */
  lemma NotConnected(s: State)
    requires Safe(s) && s.selected.None?
    ensures s.connection != Connected && InBounds(s)
  {
  }

  /** Which handler an admitted message gets to. */
  lemma Dispatch(s: State, e: Event)
    requires InBounds(s) && Admitted(s, e)
    ensures var remote := From(s, e).value;
      && (e.m.class_ == Success ==> Step(s, e) == SuccessResponse(s, e.clock, e.m.id, e.local, remote, e.source))
      && (e.m.class_ == Request && s.controlling ==> Step(s, e) == RequestControlling(s, e.clock, e.local, remote))
      && (e.m.class_ == Request && !s.controlling ==>
            Step(s, e) == RequestControlled(s, e.clock, e.m.useCandidate, e.local, remote))
  {
    hide SuccessResponse, RequestControlling, RequestControlled, FindAddr;
  }

  /** What an admitted response does. */
  lemma ResponseEffect(s: State, e: Event)
    requires Safe(s) && Admitted(s, e) && e.m.class_ == Success
    ensures var t := Step(s, e);
      && (s.selected.None? && ConfirmsUse(s, e) ==> IsSelected(s, t, Hit(s, e).value))
      && (!(s.selected.None? && ConfirmsUse(s, e)) ==>
            t == s.(pending := t.pending,
                    checklist := if Hit(s, e).Some? && exists k: nat :: Answers(s, e, k)
                                 then s.checklist[Hit(s, e).value := s.checklist[Hit(s, e).value].(state := Succeeded)]
                                 else s.checklist))
  {
    hide FindPair, Unexpired, FindRequest, SetSelected, Without, Safe, IsSelected, Step, From;
    Dispatch(s, e);
    var live := Unexpired(s.pending, e.clock.now);
    FindsLive(s.pending, e.clock.now, e.m.id);
    var r, i := FindRequest(live, e.m.id), Hit(s, e);
    if r.Some? {
      var k: nat :| IsAnswered(s.pending, e.clock.now, e.m.id, k) && s.pending[k] == live[r.value];
      assert live[r.value].destination == e.source ==> Answers(s, e, k);
      if i.Some? && s.selected.None? {
        NotConnected(s);
        var list := s.checklist[i.value := s.checklist[i.value].(state := Succeeded)];
      var t := s.(pending := Without(live, r.value), checklist := list);
        SetSelectedIs(s, t, i.value);
      }
    }
  }

  /** What an admitted request does to a controlled agent. */
  lemma ControlledEffect(s: State, e: Event)
    requires Safe(s) && Admitted(s, e) && e.m.class_ == Request && !s.controlling
    ensures var t := Step(s, e);
      && (s.selected.None? && IsUsed(s, e) ==> IsSelected(s, t, Hit(s, e).value) && t.pending == s.pending)
      && (s.selected.Some? && IsUsed(s, e) ==> t == s)
      && (!IsUsed(s, e) ==>
            t == s.(pending := AndSent(s.pending, e.clock.now, e.clock.ids(0), From(s, e).value.Addr(), false),
                    checklist := if Hit(s, e).Some? then s.checklist
                                 else s.checklist + [NewPair(e.local, From(s, e).value, false)]))
  {
    hide FindPair, Unexpired, SetSelected, Safe, IsSelected, Step, From;
    Dispatch(s, e);
    var remote, i := From(s, e).value, Hit(s, e);
    if i.Some? {
      if s.selected.None? && s.checklist[i.value].state == Succeeded {
        NotConnected(s);
        SetSelectedIs(s, s, i.value);
      }
    } else {
      NewPairIsFound(s.checklist, e.local, remote, s.controlling);
    }
  }

  /** A pair that was not there is found once it has been added, and has not succeeded. */
  lemma {:induction false} NewPairIsFound(list: seq<Pair>, local: Candidate, remote: Candidate, controlling: bool)
    requires FindPair(list, local, remote).None?
    ensures FindPair(list + [NewPair(local, remote, controlling)], local, remote) == Some(|list|)
  {
    hide Equal;
    var all := list + [NewPair(local, remote, controlling)];
    assert Equal(local, local) && Equal(remote, remote) by { EqualItself(local); EqualItself(remote); }
    var i := FindPair(all, local, remote);
    assert all[|list|].local == local && all[|list|].remote == remote;
    assert forall j :: 0 <= j < |list| ==> all[j] == list[j];
  }

  lemma EqualItself(c: Candidate)
    ensures Equal(c, c)
  {
  }

  /** The pending requests when one more has been sent, if it could be built. */
  function AndSent(pending: seq<BindingRequest>, now: nat, id: Option<TransactionId>, to: SocketAddr, use: bool)
    : seq<BindingRequest>
  {
    if id.None? then pending else Unexpired(pending, now) + [BindingRequest(now, id.value, to, use)]
  }

  // ---------------------------------------------------------------- the check loop

  /** It has been checking since an earlier round, for longer than the two timeouts. */
  predicate TimesOut(s: State, now: nat) {
    && s.connection == Checking && s.lastState == Checking
    && now > s.checkingSince + s.config.disconnectedTimeout + s.config.failedTimeout
  }

  /** A round of the loop that looks at the pairs. */
  predicate LooksAtPairs(s: State, e: Event) {
    e.Contact? && s.connection != ConnectionState.Failed && !TimesOut(s, e.clock.now)
  }

  /** Both candidates are host candidates, and the agent has waited long enough for others. */
  predicate Acceptable(s: State, now: nat, p: Pair) {
    && p.local.typ.Host? && p.remote.typ.Host?
    && now > s.startTime + s.config.hostAcceptanceMinWait
  }

  /** The earliest of the best succeeded pairs, and it can be nominated. */
  predicate IsNominee(s: State, now: nat, i: nat) {
    EarliestBest(s.checklist, Valid, i) && Acceptable(s, now, s.checklist[i])
  }

  /** A round in which every unanswered pair is checked again. */
  ghost predicate PingsAll(s: State, e: Event) {
    && LooksAtPairs(s, e) && s.selected.None?
    && (s.controlling ==> s.nominated.None? && forall i: nat :: !IsNominee(s, e.clock.now, i))
    && (!s.controlling ==> !s.config.lite)
  }

  /** The first round of checking starts the clock. */
  function CheckingSince(s: State, now: nat): nat {
    if s.connection == Checking && s.lastState != Checking then now else s.checkingSince
  }

  lemma NoneNominated(s: State, clock: Clock)
    ensures var best := Best(s.checklist, Valid);
      && (best.Some? && PairNominatable(s.startTime, s.config.hostAcceptanceMinWait, clock.now, s.checklist[best.value])
          <==> exists i: nat :: IsNominee(s, clock.now, i))
      && forall i: nat :: IsNominee(s, clock.now, i) ==> best == Some(i)
  {
    hide Best, PairPriority;
    var best := Best(s.checklist, Valid);
    forall i: nat | IsNominee(s, clock.now, i) ensures best == Some(i) {
      BestIsUnique(s.checklist, Valid, i);
    }
    if best.Some? && PairNominatable(s.startTime, s.config.hostAcceptanceMinWait, clock.now, s.checklist[best.value]) {
      assert IsNominee(s, clock.now, best.value);
    }
  }

  // ---------------------------------------------------------------- the requests of a round

  /** The candidates whose pairs are unanswered and have not been asked too often. */
  function Asked(list: seq<Pair>, max: U16): seq<Candidate> {
    if list == [] then []
    else
      (if (list[0].state == Waiting || list[0].state == InProgress) && list[0].requests <= max then [list[0].remote] else [])
      + Asked(list[1..], max)
  }

  lemma {:induction false} AskedLast(list: seq<Pair>, p: Pair, max: U16)
    ensures Asked(list + [p], max) == Asked(list, max) + Asked([p], max)
  {
    if list == [] {
      EmptyUnit([p]);
      EmptyUnit(Asked([p], max));
    } else {
      AskedLast(list[1..], p, max);
      assert (list + [p])[0] == list[0] && (list + [p])[1..] == list[1..] + [p];
    }
  }

  lemma {:induction false} PingsTheAsked(list: seq<Pair>, max: U16)
    ensures PingList(list, max).1 == Asked(list, max)
  {
    if list != [] {
      var n := |list| - 1;
      PingsTheAsked(list[..n], max);
      AskedLast(list[..n], list[n], max);
      assert list == list[..n] + [list[n]];
      assert [list[n]][1..] == [];
      assert Asked([list[n]], max) == if PingOne(list[n], max).1 then [list[n].remote] else [];
    }
  }

  /** The requests to the candidates, those that could be built. */
  function Built(clock: Clock, remotes: seq<Candidate>): seq<BindingRequest> {
    if remotes == [] then []
    else
      var n := |remotes| - 1;
      Built(clock, remotes[..n])
      + if clock.ids(n).Some? then [BindingRequest(clock.now, clock.ids(n).value, remotes[n].Addr(), false)] else []
  }

  lemma {:induction false} BuiltAreLive(clock: Clock, remotes: seq<Candidate>)
    ensures forall i :: 0 <= i < |Built(clock, remotes)| ==> Built(clock, remotes)[i].timestamp == clock.now
  {
    if remotes != [] {
      BuiltAreLive(clock, remotes[..|remotes| - 1]);
    }
  }

  lemma {:induction false} LiveStay(pending: seq<BindingRequest>, more: seq<BindingRequest>, now: nat)
    requires forall i :: 0 <= i < |more| ==> Live(more[i], now)
    ensures Unexpired(Unexpired(pending, now) + more, now) == Unexpired(pending, now) + more
    decreases |pending|, |more|
  {
    if pending != [] {
      var rest := Unexpired(pending[1..], now);
      LiveStay(pending[1..], more, now);
      if Live(pending[0], now) {
        Assoc([pending[0]], rest, more);
        UnexpiredCons(pending[0], rest + more, now);
      } else {
        EmptyUnit(rest);
      }
    } else {
      EmptyUnit(more);
      if more != [] {
        LiveStay([], more[1..], now);
        EmptyUnit(more[1..]);
        UnexpiredCons(more[0], more[1..], now);
        assert more == [more[0]] + more[1..];
      }
    }
  }

  lemma UnexpiredCons(r: BindingRequest, rest: seq<BindingRequest>, now: nat)
    requires Live(r, now)
    ensures Unexpired([r] + rest, now) == [r] + Unexpired(rest, now)
  {
    assert ([r] + rest)[1..] == rest;
  }

  /** What is pending when these have been sent: nothing that has timed out, unless none of
      them could be built. */
  function AllSent(pending: seq<BindingRequest>, now: nat, built: seq<BindingRequest>): seq<BindingRequest> {
    if built == [] then pending else Unexpired(pending, now) + built
  }

  lemma {:induction false} SendsAll(s: State, clock: Clock, remotes: seq<Candidate>, n: nat)
    requires n <= |remotes|
    ensures SendAll(s, clock, remotes, n)
         == s.(pending := AllSent(s.pending, clock.now, Built(clock, remotes[..n])))
  {
    hide Unexpired;
    if n > 0 {
      SendsAll(s, clock, remotes, n - 1);
      assert remotes[..n][..n - 1] == remotes[..n - 1];
      var before := Built(clock, remotes[..n - 1]);
      if clock.ids(n - 1).Some? {
        var one := [BindingRequest(clock.now, clock.ids(n - 1).value, remotes[n - 1].Addr(), false)];
        if before == [] {
          EmptyUnit(one);
        } else {
          BuiltAreLive(clock, remotes[..n - 1]);
          LiveStay(s.pending, before, clock.now);
          Assoc(Unexpired(s.pending, clock.now), before, one);
        }
      } else {
        EmptyUnit(before);
      }
    }
  }

  lemma PingEffect(s: State, clock: Clock)
    ensures var max := s.config.maxBindingRequests;
      PingAll(s, clock) == s.(checklist := PingList(s.checklist, max).0,
                              pending := AllSent(s.pending, clock.now, Built(clock, Asked(s.checklist, max))))
  {
    hide PingList, SendAll, Unexpired;
    var (list, remotes) := PingList(s.checklist, s.config.maxBindingRequests);
    PingsTheAsked(s.checklist, s.config.maxBindingRequests);
    SendsAll(s.(checklist := list), clock, remotes, |remotes|);
    assert remotes[..|remotes|] == remotes;
  }

  // ---------------------------------------------------------------- what a round does

  /** Silence of the selected pair. */
  function Heard(c: Config, silence: nat): ConnectionState {
    if c.failedTimeout != 0 && silence > c.failedTimeout + c.disconnectedTimeout then ConnectionState.Failed
    else if c.disconnectedTimeout != 0 && silence > c.disconnectedTimeout then Disconnected
    else Connected
  }

  function ConnectionAfterRound(s: State, clock: Clock): ConnectionState {
    if s.connection == ConnectionState.Failed || TimesOut(s, clock.now) then ConnectionState.Failed
    else if s.selected.Some? then Heard(s.config, clock.silence)
    else s.connection
  }

  /** A selected pair is kept alive when it has been idle, or silent, for the interval; a lite
      agent that is controlled does not. */
  predicate KeepsAlive(s: State, e: Event) {
    && LooksAtPairs(s, e) && s.selected.Some? && (s.controlling || !s.config.lite)
    && s.config.keepaliveInterval != 0
    && (e.clock.idle > s.config.keepaliveInterval || e.clock.silence > s.config.keepaliveInterval)
  }

  function WithClock(s: State, now: nat): State {
    s.(checkingSince := CheckingSince(s, now))
  }

  lemma RoundIs(s: State, e: Event)
    requires Safe(s) && e.Contact?
    ensures LooksAtPairs(s, e) ==>
      var t := ContactCandidates(WithClock(s, e.clock.now), e.clock); Step(s, e) == t.(lastState := t.connection)
    ensures !LooksAtPairs(s, e) ==>
      var t := Step(s, e);
      && t.connection == ConnectionState.Failed && t.lastState == ConnectionState.Failed
      && t.checklist == s.checklist && t.pending == s.pending && t.nominated == s.nominated && t.selected == s.selected
      && t.checkingSince == s.checkingSince
  {
    hide ContactCandidates, Safe, AddLocalSpec, AddRemoteSpec, InboundSpec, StartSpec, RestartSpec, CloseSpec;
  }

  lemma ValidatedIs(s: State, silence: nat)
    ensures var t := ValidateSelected(s, silence);
      t == if s.selected.Some? then s.(connection := Heard(s.config, silence), local := t.local, remote := t.remote) else s
  {
  }

  lemma KeptAliveIs(s: State, clock: Clock)
    requires InBounds(s) && s.selected.Some?
    ensures var i := s.config.keepaliveInterval;
      CheckKeepalive(s, clock)
      == if i != 0 && (clock.idle > i || clock.silence > i)
         then s.(pending := AndSent(s.pending, clock.now, clock.ids(0), RemoteAddr(s, s.selected.value), false))
         else s
  {
    hide Unexpired;
  }

  /** The connection state after a round, and the clock of the checking state. */
  lemma ConnectionExactly(s: State, e: Event)
    requires Safe(s) && Enabled(s, e) && e.Contact?
    ensures var t := Step(s, e);
      && t.connection == ConnectionAfterRound(s, e.clock) && t.lastState == t.connection
      && t.checkingSince == (if LooksAtPairs(s, e) then CheckingSince(s, e.clock.now) else s.checkingSince)
  {
    hide ContactCandidates, Safe, ContactSpec;
    RoundIs(s, e);
    CandidatesConnection(WithClock(s, e.clock.now), e.clock);
  }

  lemma CandidatesConnection(s: State, clock: Clock)
    requires InBounds(s)
    ensures var t := ContactCandidates(s, clock);
      && t.connection == (if s.selected.Some? then Heard(s.config, clock.silence) else s.connection)
      && t.checkingSince == s.checkingSince
  {
    hide Best, PingAll, Unexpired, PairNominatable, ValidateSelected, CheckKeepalive, NominatePair, Heard;
    PingEffect(s, clock);
    SendingKeepsConnection(s, clock);
    var best := Best(s.checklist, Valid);
    ValidatedIs(s, clock.silence);
    if s.selected.Some? {
      KeptAliveIs(ValidateSelected(s, clock.silence), clock);
    } else if best.Some? {
      SendingKeepsConnection(Nominate(s, best.value), clock);
    }
  }

  lemma SendingKeepsConnection(s: State, clock: Clock)
    requires InBounds(s)
    ensures NominatePair(s, clock) == s.(pending := NominatePair(s, clock).pending)
  {
    hide Unexpired;
  }

  /** With a pair selected a round sends one request at most, to keep that pair alive. */
  lemma KeepsAliveExactly(s: State, e: Event)
    requires Safe(s) && Enabled(s, e) && e.Contact? && s.selected.Some?
    ensures var t := Step(s, e);
      && t.selected == s.selected && t.nominated == s.nominated && t.checklist == s.checklist
      && t.pending == if KeepsAlive(s, e)
                      then AndSent(s.pending, e.clock.now, e.clock.ids(0), RemoteAddr(s, s.selected.value), false)
                      else s.pending
  {
    hide Best, PingAll, Unexpired, PairNominatable, ContactSpec, ValidateSelected, CheckKeepalive, AndSent, NominatePair;
    RoundIs(s, e);
    var s1 := WithClock(s, e.clock.now);
    ValidatedIs(s1, e.clock.silence);
    KeptAliveIs(ValidateSelected(s1, e.clock.silence), e.clock);
  }

  /** With none selected a controlling agent asks for the nominated pair again; or, having
      nominated none, nominates the earliest of the best succeeded pairs if it can be; or checks
      every pair that is unanswered. */
  lemma ControllingRound(s: State, e: Event)
    requires Safe(s) && Enabled(s, e) && LooksAtPairs(s, e) && s.selected.None? && s.controlling
    ensures var t, now, id := Step(s, e), e.clock.now, e.clock.ids(0);
      && (s.nominated.Some? ==>
            t.nominated == s.nominated && t.checklist == s.checklist
            && t.pending == AndSent(s.pending, now, id, RemoteAddr(s, s.nominated.value), true))
      && (forall i: nat :: s.nominated.None? && IsNominee(s, now, i) ==> HasNominated(s, e, t, i))
      && (PingsAll(s, e) ==> HasPinged(s, e, t))
  {
    hide Best, PingList, PingAll, Unexpired, PairNominatable, ContactSpec, IsNominee, Safe, HasNominated;
    RoundIs(s, e);
    var s1 := WithClock(s, e.clock.now);
    PingEffect(s1, e.clock);
    NoneNominated(s1, e.clock);
    SameNominees(s, s1);
    forall i: nat | s.nominated.None? && IsNominee(s, e.clock.now, i) ensures HasNominated(s, e, Step(s, e), i) {
      assert IsNominee(s1, e.clock.now, i);
      NominatesIt(s, e, i);
    }
  }

  predicate HasNominated(s: State, e: Event, t: State, i: nat)
    requires e.Contact?
  {
    && i < |s.checklist|
    && t.nominated == Some(i) && t.checklist == s.checklist[i := s.checklist[i].(nominated := true)]
    && t.pending == AndSent(s.pending, e.clock.now, e.clock.ids(0), RemoteAddr(s, i), true)
  }

  lemma NominatesIt(s: State, e: Event, i: nat)
    requires Safe(s) && LooksAtPairs(s, e) && s.selected.None? && s.controlling && s.nominated.None?
    requires i < |s.checklist| && Best(s.checklist, Valid) == Some(i)
    requires PairNominatable(s.startTime, s.config.hostAcceptanceMinWait, e.clock.now, s.checklist[i])
    ensures HasNominated(s, e, Step(s, e), i)
  {
    hide Best, Unexpired, PairNominatable, ContactSpec, Safe;
    RoundIs(s, e);
  }

  /** Every unanswered pair has been asked once more, or has failed. */
  predicate HasPinged(s: State, e: Event, t: State)
    requires e.Contact?
  {
    var max := s.config.maxBindingRequests;
    && t.nominated == s.nominated && |t.checklist| == |s.checklist|
    && (forall i :: 0 <= i < |s.checklist| ==> t.checklist[i] == PingOne(s.checklist[i], max).0)
    && t.pending == AllSent(s.pending, e.clock.now, Built(e.clock, Asked(s.checklist, max)))
  }

  lemma ControlledRound(s: State, e: Event)
    requires Safe(s) && Enabled(s, e) && LooksAtPairs(s, e) && s.selected.None? && !s.controlling
    ensures PingsAll(s, e) ==> HasPinged(s, e, Step(s, e))
    ensures !PingsAll(s, e) ==> Step(s, e) == s.(checkingSince := CheckingSince(s, e.clock.now), lastState := s.connection)
  {
    hide PingList, PingAll, Unexpired, ContactSpec, Safe;
    RoundIs(s, e);
    PingEffect(WithClock(s, e.clock.now), e.clock);
  }

  lemma SameNominees(s: State, t: State)
    requires t.checklist == s.checklist && t.startTime == s.startTime && t.config == s.config
    ensures forall now: nat, i: nat :: IsNominee(s, now, i) <==> IsNominee(t, now, i)
  {
    hide EarliestBest;
  }

  // ---------------------------------------------------------------- a request to a controlling agent

  /** It is for the earliest best pair that has not failed, which has succeeded and can be
      nominated; and nothing has been nominated or selected. */
  predicate NominatesOnRequest(s: State, e: Event) {
    && Admitted(s, e) && e.m.class_ == Request && s.controlling && s.nominated.None? && s.selected.None?
    && Hit(s, e).Some? && s.checklist[Hit(s, e).value].state == Succeeded
    && EarliestBest(s.checklist, Available, Hit(s, e).value)
    && Acceptable(s, e.clock.now, s.checklist[Hit(s, e).value])
  }

  lemma ControllingEffect(s: State, e: Event)
    requires Safe(s) && Distinct(s) && Admitted(s, e) && e.m.class_ == Request && s.controlling
    ensures Step(s, e) ==
      if Hit(s, e).None? then s.(checklist := s.checklist + [NewPair(e.local, From(s, e).value, true)])
      else if NominatesOnRequest(s, e) then
        s.(nominated := Hit(s, e),
           pending := AndSent(s.pending, e.clock.now, e.clock.ids(0), RemoteAddr(s, Hit(s, e).value), true))
      else s
  {
    hide FindPair, Unexpired, Best, Distinct, Equal, EarliestBest, Safe, Step, From;
    Dispatch(s, e);
    var i, best := Hit(s, e), Best(s.checklist, Available);
    if i.Some? {
      EqualItself(s.checklist[i.value].local);
      EqualItself(s.checklist[i.value].remote);
      if EarliestBest(s.checklist, Available, i.value) {
        BestIsUnique(s.checklist, Available, i.value);
      }
      if best.Some? {
        BestFits(s.checklist, best.value);
        if Equal(s.checklist[best.value].local, s.checklist[i.value].local)
           && Equal(s.checklist[best.value].remote, s.checklist[i.value].remote) {
          SamePlace(s, i.value, best.value);
        }
      }
    }
  }

  lemma BestFits(list: seq<Pair>, i: nat)
    requires EarliestBest(list, Available, i)
    ensures i < |list|
  {
  }

  // ---------------------------------------------------------------- nomination

  /** A round nominates the nominee there is. */
  predicate NominatesInRound(s: State, e: Event, i: nat) {
    && LooksAtPairs(s, e) && s.controlling && s.nominated.None? && s.selected.None?
    && IsNominee(s, e.clock.now, i)
  }

  /** An agent nominates in these two ways and no other. */
  lemma NominatesExactly(s: State, e: Event, i: nat)
    requires Safe(s) && Enabled(s, e) && Distinct(s) && s.nominated.None?
    ensures Step(s, e).nominated == Some(i) <==>
      NominatesInRound(s, e, i) || (NominatesOnRequest(s, e) && Hit(s, e) == Some(i))
  {
    hide FindAddr, FindPair, SuccessResponse, RequestControlling, RequestControlled, AddLocalSpec, AddRemoteSpec, Safe,
      ContactSpec, IsSelected, Answers, EarliestBest, Distinct, HasPinged, AndSent, IsNominee, Acceptable;
    match e {
      case AddLocal(c) => AddsNominateNone(s, c);
      case AddRemote(c) => AddsNominateNone(s, c);
      case Contact(clock) => RoundNominates(s, e, i);
      case Inbound(clock, m, local, source) =>
        if Admitted(s, e) {
          if m.class_ == Success {
            ResponseNominatesNone(s, clock, m.id, local, From(s, e).value, source);
          } else if m.class_ == Request && s.controlling {
            ControllingEffect(s, e);
          } else if m.class_ == Request {
            ControlledNominatesNone(s, clock, m.useCandidate, local, From(s, e).value);
          }
        }
      case Start(_, _, _, _) =>
      case Restart(_, _, _, _) =>
      case Close =>
    }
  }

  lemma RoundNominates(s: State, e: Event, i: nat)
    requires Safe(s) && Enabled(s, e) && e.Contact? && s.nominated.None?
    ensures Step(s, e).nominated == Some(i) <==> NominatesInRound(s, e, i)
  {
    hide ContactSpec, IsNominee, AndSent, Safe;
    NoneNominated(s, e.clock);
    if !LooksAtPairs(s, e) {
      RoundIs(s, e);
    } else if s.selected.Some? {
      KeepsAliveExactly(s, e);
    } else if s.controlling {
      ControllingRound(s, e);
      if j: nat :| IsNominee(s, e.clock.now, j) {
        assert HasNominated(s, e, Step(s, e), j);
      }
    } else {
      ControlledRound(s, e);
    }
  }

  // ---------------------------------------------------------------- what becomes of a pair

  predicate Unanswered(p: Pair) { p.state == Waiting || p.state == InProgress }

  /** It is the pair of an answer to a pending request, from where that went. */
  ghost predicate IsAnsweredBy(s: State, e: Event, i: nat) {
    Admitted(s, e) && Hit(s, e) == Some(i) && exists k: nat :: Answers(s, e, k)
  }

  /** What a step makes of a pair: it has succeeded when it had, or is answered now; it has
      failed when it had and is not answered, or when a round finds it unanswered and asked
      more often than the limit; it is counted when a round asks it again. */
  lemma PairExactly(s: State, e: Event, i: nat)
    requires Safe(s) && Enabled(s, e) && !Restarts(s, e) && Distinct(s) && i < |s.checklist|
    ensures var p, t := s.checklist[i], Step(s, e);
      && i < |t.checklist|
      && (t.checklist[i].state == Succeeded <==> p.state == Succeeded || IsAnsweredBy(s, e, i))
      && (t.checklist[i].state == PairState.Failed <==>
            || (p.state == PairState.Failed && !IsAnsweredBy(s, e, i))
            || (PingsAll(s, e) && Unanswered(p) && p.requests > s.config.maxBindingRequests))
      && (t.checklist[i].requests != p.requests <==>
            PingsAll(s, e) && Unanswered(p) && p.requests <= s.config.maxBindingRequests)
  {
    hide FindAddr, FindPair, SuccessResponse, RequestControlling, RequestControlled, AddLocalSpec, AddRemoteSpec, Safe,
      ContactSpec, Answers, EarliestBest, Distinct, AndSent, IsNominee, Acceptable;
    match e {
      case AddLocal(c) => AddsKeepPairs(s, c);
      case AddRemote(c) => AddsKeepPairs(s, c);
      case Contact(clock) => RoundOnPair(s, e, i);
      case Inbound(_, _, _, _) => InboundOnPair(s, e, i);
      case Start(_, _, _, _) =>
      case Restart(_, _, _, _) =>
      case Close =>
    }
  }

  lemma InboundOnPair(s: State, e: Event, i: nat)
    requires Safe(s) && Enabled(s, e) && e.Inbound? && Distinct(s) && i < |s.checklist|
    ensures var p, t := s.checklist[i], Step(s, e);
      && i < |t.checklist| && t.checklist[i].requests == p.requests
      && t.checklist[i].state == if IsAnsweredBy(s, e, i) then Succeeded else p.state
  {
    hide FindAddr, FindPair, InboundSpec, Safe, Answers, EarliestBest, Distinct, AndSent, Acceptable;
    if !Admitted(s, e) || (e.m.class_ != Success && e.m.class_ != Request) {
      OthersAreIgnored(s, e);
    }
    if e.m.class_ != Success {
      NoAnswer(s, e);
    }
    if Admitted(s, e) {
      if e.m.class_ == Success {
        ResponseEffect(s, e);
      } else if e.m.class_ == Request && s.controlling {
        ControllingEffect(s, e);
      } else if e.m.class_ == Request {
        ControlledEffect(s, e);
      }
    }
  }

  lemma AddsKeepPairs(s: State, c: Candidate)
    ensures s.checklist <= AddLocalSpec(s, c).checklist && s.checklist <= AddRemoteSpec(s, c).checklist
  {
    hide Known, Pairs, Push;
  }

  lemma RoundOnPair(s: State, e: Event, i: nat)
    requires Safe(s) && Enabled(s, e) && e.Contact? && i < |s.checklist|
    ensures var p, t := s.checklist[i], Step(s, e);
      && i < |t.checklist|
      && (PingsAll(s, e) ==> t.checklist[i] == PingOne(p, s.config.maxBindingRequests).0)
      && (!PingsAll(s, e) ==> t.checklist[i] == p.(nominated := t.checklist[i].nominated))
  {
    hide ContactSpec, IsNominee, AndSent, PingOne, Safe;
    if !LooksAtPairs(s, e) {
      RoundIs(s, e);
    } else if s.selected.Some? {
      KeepsAliveExactly(s, e);
    } else if s.controlling {
      ControllingRound(s, e);
      if j: nat :| s.nominated.None? && IsNominee(s, e.clock.now, j) {
        assert HasNominated(s, e, Step(s, e), j);
      }
    } else {
      ControlledRound(s, e);
    }
  }

  // ---------------------------------------------------------------- what becomes of the requests

  /** An admitted response takes the request it answers off the list, wherever it came from,
      and with it all that have timed out. */
  lemma ResponseClears(s: State, e: Event)
    requires Safe(s) && Admitted(s, e) && e.m.class_ == Success
    ensures forall k: nat :: IsAnswered(s.pending, e.clock.now, e.m.id, k) ==>
              Step(s, e).pending == Unexpired(s.pending[..k], e.clock.now) + Unexpired(s.pending[k + 1..], e.clock.now)
    ensures (forall k: nat :: !IsAnswered(s.pending, e.clock.now, e.m.id, k)) ==>
              Step(s, e).pending == Unexpired(s.pending, e.clock.now)
  {
    hide FindPair, Unexpired, FindRequest, Without, Safe, From, SuccessResponse, Step;
    Dispatch(s, e);
    ResponsePending(s, e.clock, e.m.id, e.local, From(s, e).value, e.source);
    FindsLive(s.pending, e.clock.now, e.m.id);
    forall k: nat | IsAnswered(s.pending, e.clock.now, e.m.id, k)
      ensures Step(s, e).pending == Unexpired(s.pending[..k], e.clock.now) + Unexpired(s.pending[k + 1..], e.clock.now)
    {
      TakesOff(s.pending, e.clock.now, e.m.id, k);
    }
  }

  lemma AnsweredFits(pending: seq<BindingRequest>, now: nat, id: TransactionId, k: nat)
    requires IsAnswered(pending, now, id, k)
    ensures k < |pending| && (k == 0 ==> Live(pending[0], now) && pending[0].transactionId == id)
    ensures k > 0 && Live(pending[0], now) ==> pending[0].transactionId != id
  {
  }

  lemma {:induction false} TakesOff(pending: seq<BindingRequest>, now: nat, id: TransactionId, k: nat)
    requires IsAnswered(pending, now, id, k)
    ensures var live := Unexpired(pending, now); var r := FindRequest(live, id);
      r.Some? && Without(live, r.value) == Unexpired(pending[..k], now) + Unexpired(pending[k + 1..], now)
    decreases k
  {
    hide FindRequest, Without, IsAnswered;
    AnsweredFits(pending, now, id, k);
    var rest := pending[1..];
    if k == 0 {
      FoundFirst(pending[0], Unexpired(rest, now));
      assert pending[..0] == [];
      EmptyUnit(Unexpired(rest, now));
    } else {
      assert pending[k + 1..] == rest[k..];
      AnsweredTail(pending, now, id);
      TakesOff(rest, now, id, k - 1);
      assert pending[..k][0] == pending[0] && pending[..k][1..] == rest[..k - 1];
      if Live(pending[0], now) {
        FoundBehind(pending[0], Unexpired(rest, now), id);
        Assoc([pending[0]], Unexpired(rest[..k - 1], now), Unexpired(rest[k..], now));
      } else {
        EmptyUnit(Unexpired(rest, now));
        EmptyUnit(Unexpired(rest[..k - 1], now));
      }
    }
  }

  lemma FoundBehind(first: BindingRequest, tail: seq<BindingRequest>, id: TransactionId)
    requires first.transactionId != id && FindRequest(tail, id).Some?
    ensures var r := FindRequest([first] + tail, id);
      r == Some(FindRequest(tail, id).value + 1) && Without([first] + tail, r.value) == [first] + Without(tail, r.value - 1)
  {
    hide Without;
    assert ([first] + tail)[1..] == tail;
    WithoutBehind(first, tail, FindRequest(tail, id).value);
  }

  lemma WithoutBehind(first: BindingRequest, tail: seq<BindingRequest>, r: nat)
    requires r < |tail|
    ensures Without([first] + tail, r + 1) == [first] + Without(tail, r)
  {
    var live := [first] + tail;
    assert live[..r + 1] == [first] + tail[..r] && live[r + 2..] == tail[r + 1..];
    Assoc([first], tail[..r], tail[r + 1..]);
  }

  lemma ResponsePending(s: State, clock: Clock, id: TransactionId, local: Candidate, remote: Candidate, source: SocketAddr)
    requires InBounds(s)
    ensures var live := Unexpired(s.pending, clock.now); var r := FindRequest(live, id);
      SuccessResponse(s, clock, id, local, remote, source).pending == if r.Some? then Without(live, r.value) else live
  {
    hide Unexpired, FindRequest, FindPair, Without, SetSelected;
    var live := Unexpired(s.pending, clock.now);
    var r, i := FindRequest(live, id), FindPair(s.checklist, local, remote);
    if r.Some? && i.Some? {
      var list := s.checklist[i.value := s.checklist[i.value].(state := Succeeded)];
      SelectingKeepsPending(s.(pending := Without(live, r.value), checklist := list), i.value);
    }
  }

  lemma SelectingKeepsPending(s: State, i: nat)
    requires i < |s.checklist|
    ensures SetSelected(s, i).pending == s.pending
  {
  }

  lemma FoundFirst(first: BindingRequest, tail: seq<BindingRequest>)
    ensures FindRequest([first] + tail, first.transactionId) == Some(0) && Without([first] + tail, 0) == tail
  {
    assert ([first] + tail)[1..] == tail;
  }

  /** Whatever else arrives changes nothing. */
  lemma OthersAreIgnored(s: State, e: Event)
    requires Safe(s) && e.Inbound? && !(Admitted(s, e) && (e.m.class_ == Success || e.m.class_ == Request))
    ensures Step(s, e) == s
  {
    hide FindAddr, SuccessResponse, RequestControlling, RequestControlled;
  }

  // ---------------------------------------------------------------- start, restart, close

  /** An agent is started once, with the credentials of the other side. */
  lemma StartExactly(s: State, now: nat, controlling: bool, ufrag: string, pwd: string)
    requires Safe(s)
    ensures var (t, r) := StartSpec(s, now, controlling, ufrag, pwd);
      && (r.Ok? <==> !s.started && !s.closed && |ufrag| > 0 && |pwd| > 0)
      && t == if r.Ok?
              then s.(started := true, controlling := controlling, connection := Checking,
                      startTime := if controlling then now else s.startTime)
              else s
  {
  }

  /** A restart takes a user name fragment of 24 bits and a password of 128, and leaves an
      agent without candidates, pairs and requests, checking if it was started. */
  lemma RestartExactly(s: State, now: nat, ufrag: string, pwd: string, gathering: bool)
    requires Safe(s)
    ensures var (t, r) := RestartSpec(s, now, ufrag, pwd, gathering);
      && (r.Ok? <==> |ufrag| >= 3 && |pwd| >= 16 && !gathering && !s.closed)
      && t == if r.Ok?
              then s.(local := map[], remote := map[], checklist := [], pending := [], selected := None, nominated := None,
                      connection := if s.connection == New then New else Checking,
                      startTime := if s.controlling then now else s.startTime)
              else s
  {
  }

  lemma CloseExactly(s: State)
    ensures var (t, r) := CloseSpec(s);
      && (r.Ok? <==> !s.closed)
      && t == if r.Ok? then s.(closed := true, connection := ConnectionState.Closed, local := map[], remote := map[]) else s
  {
  }

  // ---------------------------------------------------------------- new pairs

  /** A pair that a step forms waits to be checked, has not been asked or nominated, and
      remembers the agent's role. */
  lemma NewPairsAreFresh(s: State, e: Event, i: nat)
    requires Safe(s) && Enabled(s, e) && Distinct(s) && |s.checklist| <= i < |Step(s, e).checklist|
    ensures e.AddLocal? || e.AddRemote? || (e.Inbound? && Admitted(s, e) && e.m.class_ == Request && Hit(s, e).None?)
    ensures var p := Step(s, e).checklist[i];
      p.state == Waiting && p.requests == 0 && !p.nominated && p.controlling == s.controlling
  {
    hide FindAddr, FindPair, SuccessResponse, RequestControlling, RequestControlled, Safe, ContactSpec, Answers,
      EarliestBest, Distinct, AndSent, IsNominee, Acceptable, Known, Push, HasPinged, HasNominated;
    match e {
      case AddLocal(_) =>
      case AddRemote(_) =>
      case Contact(_) => RoundKeepsLength(s, e);
      case Inbound(clock, m, local, source) =>
        if Admitted(s, e) {
          if m.class_ == Success {
            ResponseEffect(s, e);
          } else if m.class_ == Request && s.controlling {
            ControllingEffect(s, e);
          } else if m.class_ == Request {
            ControlledEffect(s, e);
          }
        }
      case Start(_, _, _, _) =>
      case Restart(_, _, _, _) =>
      case Close =>
    }
  }

  lemma RoundKeepsLength(s: State, e: Event)
    requires Safe(s) && Enabled(s, e) && e.Contact?
    ensures |Step(s, e).checklist| == |s.checklist|
  {
    hide ContactSpec, IsNominee, AndSent, PingOne, Safe;
    if !LooksAtPairs(s, e) {
      RoundIs(s, e);
    } else if s.selected.Some? {
      KeepsAliveExactly(s, e);
    } else if s.controlling {
      ControllingRound(s, e);
      if j: nat :| s.nominated.None? && IsNominee(s, e.clock.now, j) {
        assert HasNominated(s, e, Step(s, e), j);
      }
    } else {
      ControlledRound(s, e);
    }
  }
}
