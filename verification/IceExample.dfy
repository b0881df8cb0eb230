/** Two runs of an ICE agent: a controlling one selects another pair than the one it nominated,
    and a controlled one connects. */
module IceExample {
  import opened Wrappers
  import opened IceCandidate
  import opened IceAgent
  import opened IceSafety

  const CONFIG := Config(false, 7, 0, 5000, 25000, 2000)
  const LOCAL_A := At(1, 5)
  const LOCAL_B := At(2, 3)
  const REMOTE := At(3, 4)

  function ClockAt(now: nat, firstId: nat): Clock {
    Clock(now, 0, 0, n => Some(firstId + n))
  }

  function SuccessOf(id: TransactionId): Message {
    Message(true, Success, false, false, false, id, true)
  }

  /** Both pairs are checked, the first answers and is nominated; then the answer to the
      nominating request is read on the second one's local candidate. */
  const EVENTS := [
    AddLocal(LOCAL_A), AddLocal(LOCAL_B), AddRemote(REMOTE), Start(0, true, "u", "p"),
    Contact(ClockAt(1, 0)),
    Inbound(ClockAt(2, 0), SuccessOf(0), LOCAL_A, REMOTE.Addr()),
    Contact(ClockAt(3, 7)),
    Inbound(ClockAt(4, 0), SuccessOf(7), LOCAL_B, REMOTE.Addr())]

  const PAIR_A := NewPair(LOCAL_A, REMOTE, true)
  const PAIR_B := NewPair(LOCAL_B, REMOTE, true)
  const REQUEST_A := BindingRequest(1, 0, REMOTE.Addr(), false)
  const REQUEST_B := BindingRequest(1, 1, REMOTE.Addr(), false)
  const NOMINATING := BindingRequest(3, 7, REMOTE.Addr(), true)

  function Checked(p: Pair): Pair { p.(state := InProgress, requests := 1) }

  function Answered(p: Pair): Pair { Checked(p).(state := Succeeded) }

  const WITH_A := Initial(CONFIG, true).(local := map[Udp4 := [LOCAL_A]])
  const WITH_B := Initial(CONFIG, true).(local := map[Udp4 := [LOCAL_A, LOCAL_B]])
  const WITH_PAIRS := WITH_B.(remote := map[Udp4 := [REMOTE]], checklist := [PAIR_A, PAIR_B])
  const STARTED := WITH_PAIRS.(started := true, connection := Checking)
  const CHECKED := STARTED.(
    checkingSince := 1, lastState := Checking, checklist := [Checked(PAIR_A), Checked(PAIR_B)], pending := [REQUEST_A, REQUEST_B])
  const ANSWERED := CHECKED.(checklist := [Answered(PAIR_A), Checked(PAIR_B)], pending := [REQUEST_B])
  const NOMINATED := ANSWERED.(
    nominated := Some(0), checklist := [Answered(PAIR_A).(nominated := true), Checked(PAIR_B)], pending := [REQUEST_B, NOMINATING])

  lemma Adds()
    ensures AddLocalSpec(Initial(CONFIG, true), LOCAL_A) == WITH_A
    ensures AddLocalSpec(WITH_A, LOCAL_B) == WITH_B
    ensures AddRemoteSpec(WITH_B, REMOTE) == WITH_PAIRS
  {
    assert [] + [LOCAL_A] == [LOCAL_A] && [LOCAL_A] + [LOCAL_B] == [LOCAL_A, LOCAL_B] && [] + [REMOTE] == [REMOTE];
    assert Pairs([LOCAL_A, LOCAL_B], Repeat(REMOTE, 2), true) == [PAIR_A, PAIR_B];
    var s := Initial(CONFIG, true);
    assert Push(s.local, LOCAL_A) == map[Udp4 := [LOCAL_A]];
    assert Push(WITH_A.local, LOCAL_B) == map[Udp4 := [LOCAL_A, LOCAL_B]];
    assert Push(WITH_B.remote, REMOTE) == map[Udp4 := [REMOTE]];
  }

  lemma Starts()
    ensures StartSpec(WITH_PAIRS, 0, true, "u", "p").0 == STARTED
  {
  }

  lemma Pings()
    ensures PingList(STARTED.checklist, 7) == (CHECKED.checklist, [REMOTE, REMOTE])
  {
    var list := STARTED.checklist;
    assert list[..1] == [PAIR_A] && [PAIR_A][..0] == [];
    assert PingList([], 7) == ([], []);
    assert [] + [Checked(PAIR_A)] == [Checked(PAIR_A)] && [] + [REMOTE] == [REMOTE];
    assert PingList([PAIR_A], 7) == ([Checked(PAIR_A)], [REMOTE]);
    assert [REMOTE] + [REMOTE] == [REMOTE, REMOTE];
    assert [Checked(PAIR_A)] + [Checked(PAIR_B)] == CHECKED.checklist;
  }

  lemma Sends(s: State)
    requires s.pending == []
    ensures SendAll(s, ClockAt(1, 0), [REMOTE, REMOTE], 2) == s.(pending := [REQUEST_A, REQUEST_B])
  {
    var clock := ClockAt(1, 0);
    assert Unexpired([], 1) == [];
    assert [REQUEST_A][1..] == [] && Unexpired([REQUEST_A], 1) == [REQUEST_A];
    assert [REQUEST_A] + [REQUEST_B] == [REQUEST_A, REQUEST_B];
    assert SendAll(s, clock, [REMOTE, REMOTE], 0) == s;
    assert SendAll(s, clock, [REMOTE, REMOTE], 1) == s.(pending := [REQUEST_A]);
  }

  lemma Checks()
    ensures ContactSpec(STARTED, ClockAt(1, 0)) == CHECKED
  {
    hide Best, PairPriority, PingList, SendAll;
    Pings();
    Sends(STARTED.(checkingSince := 1, checklist := CHECKED.checklist));
    assert Best(STARTED.checklist, Valid).None?;
  }

  lemma Answers()
    ensures InboundSpec(CHECKED, ClockAt(2, 0), SuccessOf(0), LOCAL_A, REMOTE.Addr()) == ANSWERED
  {
    var pending := CHECKED.pending;
    assert pending[1..] == [REQUEST_B] && [REQUEST_B][1..] == [];
    assert Unexpired([], 2) == [] && Unexpired([REQUEST_B], 2) == [REQUEST_B];
    assert Unexpired(pending, 2) == pending;
    assert Without(pending, 0) == [REQUEST_B];
    assert FindPair(CHECKED.checklist, LOCAL_A, REMOTE) == Some(0);
    assert FindAddr([REMOTE], REMOTE.Addr()) == Some(REMOTE);
  }

  lemma Nominates()
    ensures ContactSpec(ANSWERED, ClockAt(3, 7)) == NOMINATED
  {
    hide PairPriority;
    var list := ANSWERED.checklist;
    assert EarliestBest(list, Valid, 0);
    BestIsUnique(list, Valid, 0);
    assert Unexpired([], 3) == [] && [REQUEST_B][1..] == [] && Unexpired([REQUEST_B], 3) == [REQUEST_B];
    assert [REQUEST_B] + [NOMINATING] == [REQUEST_B, NOMINATING];
  }

  lemma Selects() returns (t: State)
    ensures InBounds(NOMINATED) && t == InboundSpec(NOMINATED, ClockAt(4, 0), SuccessOf(7), LOCAL_B, REMOTE.Addr())
    ensures t.controlling && t.nominated == Some(0) && t.selected == Some(1)
  {
    hide SuccessResponse, FindAddr, Unexpired, FindRequest, FindPair;
    t := InboundSpec(NOMINATED, ClockAt(4, 0), SuccessOf(7), LOCAL_B, REMOTE.Addr());
    Finds();
    ResponseSelects(NOMINATED, ClockAt(4, 0));
  }

  lemma ResponseSelects(s: State, clock: Clock)
    requires InBounds(s) && s.controlling && s.nominated == Some(0) && s.selected.None? && |s.checklist| == 2
    requires var live := Unexpired(s.pending, clock.now);
      FindRequest(live, 7) == Some(1) && live[1].isUseCandidate && live[1].destination == REMOTE.Addr()
    requires FindPair(s.checklist, LOCAL_B, REMOTE) == Some(1)
    ensures var t := SuccessResponse(s, clock, 7, LOCAL_B, REMOTE, REMOTE.Addr());
      t.controlling && t.nominated == Some(0) && t.selected == Some(1)
  {
    hide Unexpired, FindRequest, FindPair;
  }

  lemma Finds()
    ensures Unexpired(NOMINATED.pending, 4) == NOMINATED.pending && FindRequest(NOMINATED.pending, 7) == Some(1)
    ensures FindPair(NOMINATED.checklist, LOCAL_B, REMOTE) == Some(1) && FindAddr([REMOTE], REMOTE.Addr()) == Some(REMOTE)
  {
    var pending := NOMINATED.pending;
    assert pending[1..] == [NOMINATING] && [NOMINATING][1..] == [];
    assert Unexpired([], 4) == [] && Unexpired([NOMINATING], 4) == [NOMINATING];
    assert Unexpired(pending, 4) == pending;
    assert FindRequest(pending[1..], 7) == Some(0) && FindRequest(pending, 7) == Some(1);
    var list := NOMINATED.checklist;
    assert list[1..] == [Checked(PAIR_B)];
    assert FindPair(list[1..], LOCAL_B, REMOTE) == Some(0) && FindPair(list, LOCAL_B, REMOTE) == Some(1);
    assert FindAddr([REMOTE], REMOTE.Addr()) == Some(REMOTE);
  }

  lemma RunOne(s: State, events: seq<Event>, t: State)
    requires Safe(s) && events != [] && Enabled(s, events[0]) && t == Step(s, events[0])
    ensures Safe(t) && Run(s, events) == Run(t, events[1..])
  {
    hide Safe, Step, Enabled;
    StepKeeps(s, events[0]);
  }

  /** The selected pair need not be the nominated one. */
  lemma AnotherPairIsSelected()
    ensures Safe(Initial(CONFIG, true))
    ensures var (s, possible) := Run(Initial(CONFIG, true), EVENTS);
      possible && s.controlling && s.nominated == Some(0) && s.selected == Some(1)
  {
    hide Safe, Run, AddLocalSpec, AddRemoteSpec, StartSpec, ContactSpec, InboundSpec;
    InitialIsSafe(CONFIG, true);
    Adds();
    Starts();
    Checks();
    Answers();
    Nominates();
    var s := Selects();
    RunOne(Initial(CONFIG, true), EVENTS, WITH_A);
    RunOne(WITH_A, EVENTS[1..], WITH_B);
    Tails();
    RunOne(WITH_B, EVENTS[2..], WITH_PAIRS);
    RunOne(WITH_PAIRS, EVENTS[3..], STARTED);
    RunOne(STARTED, EVENTS[4..], CHECKED);
    RunOne(CHECKED, EVENTS[5..], ANSWERED);
    RunOne(ANSWERED, EVENTS[6..], NOMINATED);
    RunOne(NOMINATED, EVENTS[7..], s);
    assert Run(s, []) == (s, true) by { RunNone(s); }
  }

  lemma Tails()
    ensures forall i :: 1 <= i < 7 ==> EVENTS[i..][1..] == EVENTS[i + 1..]
    ensures EVENTS[7..][1..] == []
  {
  }

  lemma RunNone(s: State)
    requires Safe(s)
    ensures Run(s, []) == (s, true)
  {
  }

  // ---------------------------------------------------------------- a controlled agent connects

  /** A binding request that asks for the pair to be used. */
  const USE := Message(true, Request, true, false, true, 9, true)

  /** The one pair is checked and answers; then the controlling side asks for it to be used. */
  const CONTROLLED_EVENTS := [
    AddLocal(LOCAL_A), AddRemote(REMOTE), Start(0, false, "u", "p"),
    Contact(ClockAt(1, 0)),
    Inbound(ClockAt(2, 0), SuccessOf(0), LOCAL_A, REMOTE.Addr()),
    Inbound(ClockAt(3, 7), USE, LOCAL_A, REMOTE.Addr())]

  const PAIR_C := NewPair(LOCAL_A, REMOTE, false)

  const C_LOCAL := Initial(CONFIG, false).(local := map[Udp4 := [LOCAL_A]])
  const C_PAIRED := C_LOCAL.(remote := map[Udp4 := [REMOTE]], checklist := [PAIR_C])
  const C_STARTED := C_PAIRED.(started := true, connection := Checking)
  const C_CHECKED := C_STARTED.(
    checkingSince := 1, lastState := Checking, checklist := [Checked(PAIR_C)], pending := [REQUEST_A])
  const C_ANSWERED := C_CHECKED.(checklist := [Answered(PAIR_C)], pending := [])
  const C_CONNECTED := C_ANSWERED.(
    checklist := [Answered(PAIR_C).(nominated := true)], selected := Some(0), connection := Connected)

  lemma ControlledAdds()
    ensures AddLocalSpec(Initial(CONFIG, false), LOCAL_A) == C_LOCAL
    ensures AddRemoteSpec(C_LOCAL, REMOTE) == C_PAIRED
  {
    assert [] + [LOCAL_A] == [LOCAL_A] && [] + [REMOTE] == [REMOTE];
    assert Pairs([LOCAL_A], Repeat(REMOTE, 1), false) == [PAIR_C];
    var s := Initial(CONFIG, false);
    assert Push(s.local, LOCAL_A) == map[Udp4 := [LOCAL_A]];
    assert Push(C_LOCAL.remote, REMOTE) == map[Udp4 := [REMOTE]];
  }

  lemma ControlledStarts()
    ensures StartSpec(C_PAIRED, 0, false, "u", "p").0 == C_STARTED
  {
  }

  lemma ControlledChecks()
    ensures ContactSpec(C_STARTED, ClockAt(1, 0)) == C_CHECKED
  {
    var clock := ClockAt(1, 0);
    var s := C_STARTED.(checkingSince := 1, checklist := [Checked(PAIR_C)]);
    assert [PAIR_C][..0] == [] && PingList([], 7) == ([], []);
    assert [] + [Checked(PAIR_C)] == [Checked(PAIR_C)] && [] + [REMOTE] == [REMOTE];
    assert PingList([PAIR_C], 7) == ([Checked(PAIR_C)], [REMOTE]);
    assert Unexpired([], 1) == [] && [] + [REQUEST_A] == [REQUEST_A];
    assert SendAll(s, clock, [REMOTE], 0) == s;
    assert SendAll(s, clock, [REMOTE], 1) == s.(pending := [REQUEST_A]);
  }

  lemma ControlledAnswers()
    ensures InboundSpec(C_CHECKED, ClockAt(2, 0), SuccessOf(0), LOCAL_A, REMOTE.Addr()) == C_ANSWERED
  {
    var pending := C_CHECKED.pending;
    assert pending[1..] == [] && Unexpired([], 2) == [] && Unexpired(pending, 2) == pending;
    assert Without(pending, 0) == [];
    assert FindPair(C_CHECKED.checklist, LOCAL_A, REMOTE) == Some(0);
    assert FindAddr([REMOTE], REMOTE.Addr()) == Some(REMOTE);
  }

  lemma ControlledSelects()
    ensures InboundSpec(C_ANSWERED, ClockAt(3, 7), USE, LOCAL_A, REMOTE.Addr()) == C_CONNECTED
  {
    assert FindPair(C_ANSWERED.checklist, LOCAL_A, REMOTE) == Some(0);
    assert FindAddr([REMOTE], REMOTE.Addr()) == Some(REMOTE);
  }

  /** It is connected with that pair selected. */
  lemma ControlledAgentConnects()
    ensures Safe(Initial(CONFIG, false))
    ensures var (s, possible) := Run(Initial(CONFIG, false), CONTROLLED_EVENTS);
      possible && !s.controlling && s.connection == Connected && s.selected == Some(0) && s.checklist[0].nominated
  {
    hide Safe, Run, AddLocalSpec, AddRemoteSpec, StartSpec, ContactSpec, InboundSpec;
    InitialIsSafe(CONFIG, false);
    ControlledAdds();
    ControlledStarts();
    ControlledChecks();
    ControlledAnswers();
    ControlledSelects();
    var events := CONTROLLED_EVENTS;
    RunOne(Initial(CONFIG, false), events, C_LOCAL);
    ControlledTails();
    RunOne(C_LOCAL, events[1..], C_PAIRED);
    RunOne(C_PAIRED, events[2..], C_STARTED);
    RunOne(C_STARTED, events[3..], C_CHECKED);
    RunOne(C_CHECKED, events[4..], C_ANSWERED);
    RunOne(C_ANSWERED, events[5..], C_CONNECTED);
    assert Run(C_CONNECTED, []) == (C_CONNECTED, true) by { RunNone(C_CONNECTED); }
  }

  lemma ControlledTails()
    ensures forall i :: 1 <= i < 5 ==> CONTROLLED_EVENTS[i..][1..] == CONTROLLED_EVENTS[i + 1..]
    ensures CONTROLLED_EVENTS[5..][1..] == []
  {
  }
}
