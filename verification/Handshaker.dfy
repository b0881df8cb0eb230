/** The client's handshake state machine (section 4.2.4 of RFC 6347), and what holds in
    every run of it. Packets from the peer, timers and notifications are events. */
module Handshaker {
  import opened Bytes
  import opened Wrappers
  import H = Handshake
  import HC = HandshakeCache
  import Prf
  import opened Conn
  import opened Flights
  import T = Transcript

  datatype Phase = Preparing | Sending | Waiting | Finished

  datatype Client = Client(
    phase: Phase,
    flight: Flight,
    state: State,
    flights: seq<Packet>,
    items: seq<HC.Item>,
    completed: bool,
    failed: bool)

  const INITIAL := Client(Preparing, Flight1, INITIAL_STATE, [], [], false, false)

  /** Advance runs the next step of the handshake loop; SendError makes a send fail after n
      packets; Notify is the reader's signal that handshake messages were cached; Arrive is
      the reader caching one of the server's. */
  datatype Event = Advance | SendError(n: nat) | Timer | Notify | Arrive(item: HC.Item)

  // ---------------------------------------------------------------- steps

  /** generate, by flight: the packets, or None on an error that ends the handshake. */
  function Generate(env: Env, flight: Flight, s: State, items: seq<HC.Item>): Option<(State, seq<Packet>)> {
    match flight
    case Flight1 => var s' := s.(cookie := []); Some((s', ClientHelloPackets(env, s')))
    case Flight3 => Some((s, ClientHelloPackets(env, s)))
    case Flight5 =>
      match Generate5(env, s, items)
      case None => None
      case Some(g) => Some((g.state, Flight5Packets(g)))
  }

  function Prepare(env: Env, c: Client): Client {
    match Generate(env, c.flight, c.state, c.items)
    case None => c.(failed := true)
    case Some((s, pkts)) =>
      var (numbered, n) := NumberPackets(pkts, s.sendSequence);
      c.(flights := numbered, state := s.(sendSequence := n), phase := Sending)
  }

  function Send(c: Client): Client {
    c.(items := HC.PushAll(c.items, ItemsSent(c.flights)), phase := Waiting)
  }

  function ReadMessages(env: Env, c: Client): Client {
    var (s, outcome) := Parse(env, c.flight, c.state, c.items);
    match outcome
    case Fatal => c.(state := s, failed := true)
    case KeepReading => c.(state := s)
    case Next(next) =>
      if next == Flight5 && c.flight == Flight5 then c.(state := s, phase := Finished)
      else c.(state := s, flight := next, phase := Preparing)
  }

  function Step(env: Env, c: Client, e: Event): Client {
    if e.Arrive? then
      if e.item.isClient then c else c.(items := HC.PushSpec(c.items, e.item))
    else if c.failed || c.completed then c
    else match c.phase
      case Preparing => if e == Advance then Prepare(env, c) else c
      case Sending =>
        if e == Advance then Send(c)
        else if e.SendError? then
          c.(items := HC.PushAll(c.items, ItemsSent(c.flights[..Min(e.n, |c.flights|)])), failed := true)
        else c
      case Waiting =>
        if e == Timer then c.(phase := Sending)
        else if e == Notify then ReadMessages(env, c)
        else c
      case Finished => if e == Advance then c.(completed := true) else c
  }

  function Reach(env: Env, events: seq<Event>): Client {
    if events == [] then INITIAL
    else Step(env, Reach(env, events[..|events| - 1]), events[|events| - 1])
  }

  // ---------------------------------------------------------------- flights

  /** Flight 1 to 3 or straight to 5, flight 3 again or to 5, and flight 5 for good. */
  predicate LegalMove(a: Flight, b: Flight) {
    a == b || (a == Flight1 && b != Flight1) || (a == Flight3 && b == Flight5)
  }

  lemma FlightsMoveForward(env: Env, c: Client, e: Event)
    ensures LegalMove(c.flight, Step(env, c, e).flight)
  {
    hide HC.FullPullSpec, Generate5, HC.PushAll, NumberPackets, ClientHelloPackets;
  }

  // ---------------------------------------------------------------- receive sequence

  lemma RulesAreDistinct(env: Env)
    ensures HC.DistinctTypes(FLIGHT1_RULES) && HC.DistinctTypes(HELLO_VERIFY_RULES)
    ensures HC.DistinctTypes(ServerFlightRules(env)) && HC.DistinctTypes(SERVER_FINISHED_RULES)
  {
  }

  lemma PullMovesForward(env: Env, items: seq<HC.Item>, start: int, rules: seq<HC.Rule>)
    requires HC.DistinctTypes(rules) && HC.FullPullSpec(env.accepts, items, start, rules).Ok?
    ensures HC.FullPullSpec(env.accepts, items, start, rules).value.0 >= start
  {
    HC.FullPullIsGapFree(env.accepts, items, start, rules);
  }

  lemma PullMovesForwardIfOk(env: Env, items: seq<HC.Item>, start: int, rules: seq<HC.Rule>)
    requires HC.DistinctTypes(rules)
    ensures var r := HC.FullPullSpec(env.accepts, items, start, rules); r.Ok? ==> r.value.0 >= start
  {
    if HC.FullPullSpec(env.accepts, items, start, rules).Ok? {
      PullMovesForward(env, items, start, rules);
    }
  }

  lemma ParseMovesForward(env: Env, flight: Flight, s: State, items: seq<HC.Item>)
    ensures Parse(env, flight, s, items).0.recvSequence >= s.recvSequence
    ensures Parse(env, flight, s, items).0.sendSequence == s.sendSequence
  {
    hide HC.FullPullSpec;
    RulesAreDistinct(env);
    PullMovesForwardIfOk(env, items, s.recvSequence, FLIGHT1_RULES);
    PullMovesForwardIfOk(env, items, s.recvSequence, HELLO_VERIFY_RULES);
    PullMovesForwardIfOk(env, items, s.recvSequence, ServerFlightRules(env));
  }

  /** The receive sequence never decreases. */
  lemma ReceiveSequenceMovesForward(env: Env, c: Client, e: Event)
    ensures Step(env, c, e).state.recvSequence >= c.state.recvSequence
  {
    hide HC.FullPullSpec, HC.PushAll, NumberPackets, ClientHelloPackets, Parse, HC.PullAndMergeSpec, MarshalAll;
    if e == Notify {
      ParseMovesForward(env, c.flight, c.state, c.items);
    }
    if c.flight == Flight5 && e == Advance && c.phase == Preparing {
      GenerateKeeps(env, c.state, c.items);
    }
  }

  /** Flight 5 leaves the sequence numbers alone and does not forget the cipher suite. */
  lemma GenerateKeeps(env: Env, s: State, items: seq<HC.Item>)
    ensures var g := Generate5(env, s, items);
      g.Some? ==>
        && g.value.state.recvSequence == s.recvSequence && g.value.state.sendSequence == s.sendSequence
        && (g.value.state.suite.Some? <==> s.suite.Some?)
  {
    hide HC.PullAndMergeSpec, MarshalAll, HC.UnmarshalMessage, CertificateVerifyMessage;
  }

  // ---------------------------------------------------------------- cipher suite

  lemma {:induction false} MessagesHold(accepts: HC.BodyParser, p: seq<HC.Item>, out: Pulled, start: int)
    requires HC.GapFree(accepts, p, start)
    ensures forall t :: t in out ==> t in HC.Messages(accepts, p, out)
    ensures forall i :: 0 <= i < |p| ==> p[i].typ in HC.Messages(accepts, p, out)
    decreases |p|
  {
    hide HC.UnmarshalMessage;
    if p != [] {
      var m := HC.UnmarshalMessage(accepts, p[0].data).value;
      forall i | 0 <= i < |p[1..]|
        ensures var m' := HC.UnmarshalMessage(accepts, p[1..][i].data);
          m'.Some? && m'.value.header.messageSequence == (start + 1 + i) % 0x1_0000
      {
        assert p[1..][i] == p[i + 1];
      }
      MessagesHold(accepts, p[1..], out[p[0].typ := m], start + 1);
      forall i | 0 <= i < |p| ensures p[i].typ in HC.Messages(accepts, p, out) {
        if i > 0 {
          assert p[i] == p[1..][i - 1];
        }
      }
    }
  }

  lemma {:induction false} PullHolds(items: seq<HC.Item>, rules: seq<HC.Rule>, r: HC.Rule)
    requires r in rules && HC.Best(items, r).Some?
    ensures HC.Best(items, r).value in HC.Pull(items, rules)
  {
    if r != rules[0] {
      PullHolds(items, rules[1..], r);
    }
  }

  /** A pull that succeeds holds every mandatory message. */
  lemma MandatoryIsPulled(env: Env, items: seq<HC.Item>, start: int, rules: seq<HC.Rule>, r: HC.Rule)
    requires HC.DistinctTypes(rules) && r in rules && !r.optional
    requires HC.FullPullSpec(env.accepts, items, start, rules).Ok?
    ensures r.typ in HC.FullPullSpec(env.accepts, items, start, rules).value.1
  {
    HC.FullPullIsGapFree(env.accepts, items, start, rules);
    HC.BestMeans(items, r);
    PullHolds(items, rules, r);
    MessagesHold(env.accepts, HC.Pull(items, rules), map[], start);
  }

  lemma ServerHelloIsPulled(env: Env, items: seq<HC.Item>, start: int)
    requires HC.FullPullSpec(env.accepts, items, start, ServerFlightRules(env)).Ok?
    ensures H.ServerHello in HC.FullPullSpec(env.accepts, items, start, ServerFlightRules(env)).value.1
  {
    RulesAreDistinct(env);
    assert ServerFlightRules(env)[0] == Server(H.ServerHello, false);
    MandatoryIsPulled(env, items, start, ServerFlightRules(env), Server(H.ServerHello, false));
  }

  /** Whoever parses its way to flight 5 has chosen a cipher suite. */
  lemma ParseChoosesSuite(env: Env, flight: Flight, s: State, items: seq<HC.Item>)
    requires flight == Flight5 ==> s.suite.Some?
    ensures var (s', o) := Parse(env, flight, s, items); o == Next(Flight5) ==> s'.suite.Some?
  {
    hide HC.FullPullSpec;
    if HC.FullPullSpec(env.accepts, items, s.recvSequence, ServerFlightRules(env)).Ok? {
      ServerHelloIsPulled(env, items, s.recvSequence);
    }
  }

  // ---------------------------------------------------------------- invariant over runs

  /** The packets still to be sent, before flight 5, are ClientHello messages. */
  predicate HelloPackets(pkts: seq<Packet>, n: nat) {
    forall i :: 0 <= i < |pkts| ==>
      && pkts[i].content.HandshakeContent?
      && pkts[i].content.message.header.typ == H.ClientHello
      && pkts[i].content.message.header.messageSequence < n
  }

  /** Nothing has been computed that flight 5 computes. */
  predicate Fresh(s: State) {
    s.localVerifyData == [] && (s.suite.Some? ==> !s.suite.value.initialized)
  }

  predicate Invariant(c: Client) {
    && HC.UniqueKeys(c.items)
    && (c.flight != Flight5 || c.phase == Preparing ==> Fresh(c.state))
    && (c.flight == Flight5 ==> c.state.suite.Some?)
    && (c.flight != Flight5 || c.phase == Preparing ==> T.BeforeFlight5(c.items, c.state.sendSequence))
    && (c.flight != Flight5 && c.phase != Preparing ==> HelloPackets(c.flights, c.state.sendSequence))
    && (c.phase == Finished ==> c.flight == Flight5)
    && (c.completed ==> c.phase == Finished)
  }

  lemma {:induction false} HelloItems(pkts: seq<Packet>, n: nat)
    requires HelloPackets(pkts, n)
    ensures forall x :: x in ItemsSent(pkts) ==> x.isClient && x.typ == H.ClientHello && x.messageSequence < n
  {
    if pkts != [] {
      HelloItems(pkts[1..], n);
    }
  }

  lemma PushHellos(items: seq<HC.Item>, pkts: seq<Packet>, n: nat)
    requires HC.UniqueKeys(items) && T.BeforeFlight5(items, n) && HelloPackets(pkts, n)
    ensures HC.UniqueKeys(HC.PushAll(items, ItemsSent(pkts))) && T.BeforeFlight5(HC.PushAll(items, ItemsSent(pkts)), n)
  {
    HelloItems(pkts, n);
    HC.PushAllHolds(items, ItemsSent(pkts));
  }

  lemma PushKeepsUnique(items: seq<HC.Item>, x: HC.Item)
    requires HC.UniqueKeys(items)
    ensures HC.UniqueKeys(HC.PushSpec(items, x))
    ensures forall n: nat :: !x.isClient && T.BeforeFlight5(items, n) ==> T.BeforeFlight5(HC.PushSpec(items, x), n)
  {
  }

  lemma PrepareKeepsInvariant(env: Env, c: Client)
    requires Invariant(c) && c.phase == Preparing && !c.completed
    ensures Invariant(Prepare(env, c))
  {
    hide HC.UniqueKeys;
    if c.flight == Flight5 {
      hide Generate5, NumberPackets, Flight5Packets;
      GenerateKeeps(env, c.state, c.items);
    } else {
      hide H.MarshalHeader;
      var s := Generate(env, c.flight, c.state, c.items).value.0;
      var hello := ClientHelloPackets(env, s)[0];
      assert hello.content.HandshakeContent?;
      EmptyUnit([hello]);
      T.NumberCons(hello, [], s.sendSequence);
      assert NumberPackets([], s.sendSequence + 1) == ([], s.sendSequence + 1);
    }
  }

  lemma StepKeepsInvariant(env: Env, c: Client, e: Event)
    requires Invariant(c)
    ensures Invariant(Step(env, c, e))
  {
    hide Parse, Generate, HC.PushAll, HC.PushSpec, HC.UniqueKeys, Prepare, ItemsSent;
    match e {
      case Arrive(x) => PushKeepsUnique(c.items, x);
      case Advance =>
        if c.phase == Preparing && !c.completed {
          PrepareKeepsInvariant(env, c);
        } else if c.phase == Sending {
          PushFlight(c, c.flights);
        }
      case SendError(n) =>
        if c.phase == Sending {
          PushFlight(c, c.flights[..Min(n, |c.flights|)]);
        }
      case Timer =>
      case Notify =>
        ParseMovesForward(env, c.flight, c.state, c.items);
        ParseChoosesSuite(env, c.flight, c.state, c.items);
        ParseKeepsSuite(env, c.flight, c.state, c.items);
        ParseIsLegal(env, c.flight, c.state, c.items);
        if Fresh(c.state) {
          ParseKeepsFresh(env, c.flight, c.state, c.items);
        }
        Flight5Stays(env, c.state, c.items);
    }
  }

  lemma ParseKeepsFresh(env: Env, flight: Flight, s: State, items: seq<HC.Item>)
    requires Fresh(s)
    ensures Fresh(Parse(env, flight, s, items).0)
  {
    hide HC.FullPullSpec;
  }

  lemma Flight5Stays(env: Env, s: State, items: seq<HC.Item>)
    ensures Parse(env, Flight5, s, items).0 == s
    ensures var o := Parse(env, Flight5, s, items).1; o.Next? ==> o.flight == Flight5
  {
    hide HC.FullPullSpec;
  }

  lemma ParseIsLegal(env: Env, flight: Flight, s: State, items: seq<HC.Item>)
    ensures var o := Parse(env, flight, s, items).1; o.Next? ==> LegalMove(flight, o.flight)
  {
    hide HC.FullPullSpec;
  }

  lemma ParseKeepsSuite(env: Env, flight: Flight, s: State, items: seq<HC.Item>)
    ensures s.suite.Some? ==> Parse(env, flight, s, items).0.suite.Some?
  {
    hide HC.FullPullSpec;
  }

  lemma PushFlight(c: Client, pkts: seq<Packet>)
    requires Invariant(c) && c.phase == Sending && pkts <= c.flights
    ensures var items := HC.PushAll(c.items, ItemsSent(pkts));
      HC.UniqueKeys(items) && (c.flight != Flight5 ==> T.BeforeFlight5(items, c.state.sendSequence))
  {
    if c.flight == Flight5 {
      HC.PushAllHolds(c.items, ItemsSent(pkts));
    } else {
      PushHellos(c.items, pkts, c.state.sendSequence);
    }
  }

  lemma {:induction false} ReachInvariant(env: Env, events: seq<Event>)
    ensures Invariant(Reach(env, events))
  {
    if events != [] {
      ReachInvariant(env, events[..|events| - 1]);
      StepKeepsInvariant(env, Reach(env, events[..|events| - 1]), events[|events| - 1]);
    }
  }

  // ---------------------------------------------------------------- theorems about runs

  /** In every run: flights move forward only, the receive sequence never decreases, and a
      client in flight 5 has chosen a cipher suite. */
  lemma RunsMoveForward(env: Env, events: seq<Event>, i: nat)
    requires i < |events|
    ensures var c, c' := Reach(env, events[..i]), Reach(env, events[..i + 1]);
      && LegalMove(c.flight, c'.flight)
      && c.state.recvSequence <= c'.state.recvSequence
      && (c'.flight == Flight5 ==> c'.state.suite.Some?)
  {
    hide Step;
    assert events[..i + 1][..i] == events[..i];
    FlightsMoveForward(env, Reach(env, events[..i]), events[i]);
    ReceiveSequenceMovesForward(env, Reach(env, events[..i]), events[i]);
    ReachInvariant(env, events[..i + 1]);
  }

  /** The server's Finished, next in sequence, whose verify data is the PRF of the master
      secret over the transcript in the cache. */
  predicate IsVerifiedFinished(env: Env, s: State, items: seq<HC.Item>, x: HC.Item) {
    var m := HC.UnmarshalMessage(env.accepts, x.data);
    && HC.Matches(x, SERVER_FINISHED_RULES[0])
    && m.Some? && m.value.header.messageSequence == s.recvSequence % 0x1_0000
    && m.value.body == Prf.VerifyDataServer(env.crypto, s.master, HC.PullAndMergeSpec(items, TranscriptRules()))
  }

  predicate FinishedVerified(env: Env, c: Client) {
    c.state.suite.Some? && exists x :: x in c.items && IsVerifiedFinished(env, c.state, c.items, x)
  }

  lemma Parse5Verifies(env: Env, s: State, items: seq<HC.Item>)
    requires s.suite.Some? && Parse5(env, s, items) == Next(Flight5)
    ensures exists x :: x in items && IsVerifiedFinished(env, s, items, x)
  {
    hide TranscriptRules, HC.PullAndMergeSpec, HC.UnmarshalMessage;
    RulesAreDistinct(env);
    HC.FullPullIsGapFree(env.accepts, items, s.recvSequence, SERVER_FINISHED_RULES);
    var rule := SERVER_FINISHED_RULES[0];
    HC.BestMeans(items, rule);
    var x := HC.Best(items, rule).value;
    assert SERVER_FINISHED_RULES[1..] == [];
    assert HC.Pull(items, SERVER_FINISHED_RULES) == [x];
    assert [x][1..] == [] && [x][0] == x;
    var m := HC.UnmarshalMessage(env.accepts, x.data).value;
    assert HC.Messages(env.accepts, [x], map[]) == map[H.Finished := m];
  }

  /** The only step into Finished is one that verified the server's Finished. */
  lemma FinishesOnlyVerified(env: Env, c: Client, e: Event)
    requires Invariant(c) && c.phase != Finished && Step(env, c, e).phase == Finished
    ensures c.flight == Flight5 && FinishedVerified(env, c)
  {
    hide HC.FullPullSpec, HC.PushAll, Generate, NumberPackets, Parse5, HC.PushSpec;
    Parse5Verifies(env, c.state, c.items);
  }

  /** A run that marks the handshake complete has, at some earlier point in flight 5,
      verified the server's Finished against the transcript and the master secret. */
  lemma {:induction false} CompleteOnlyVerified(env: Env, events: seq<Event>) returns (i: nat)
    requires Reach(env, events).completed || Reach(env, events).phase == Finished
    ensures i < |events|
    ensures Reach(env, events[..i]).flight == Flight5 && FinishedVerified(env, Reach(env, events[..i]))
  {
    hide FinishedVerified, Parse, Generate, NumberPackets, HC.PushSpec, HC.PushAll;
    var init, e := events[..|events| - 1], events[|events| - 1];
    var c := Reach(env, init);
    if c.phase == Finished || c.completed {
      i := CompleteOnlyVerified(env, init);
      assert init[..i] == events[..i];
    } else {
      ReachInvariant(env, init);
      FinishesOnlyVerified(env, c, e);
      i := |init|;
    }
  }

  /** What flight 5 computes: the master secret, the signature and the verify data over the two
      transcripts. */
  predicate ComputedOver(env: Env, s: State, g: Generated, session: Bytes, finished: Bytes) {
    && g.state.master == (if s.extendedMasterSecret
                          then Prf.ExtendedMasterSecret(env.crypto, g.state.preMaster, env.crypto.sha256(session))
                          else Prf.MasterSecret(env.crypto, g.state.preMaster, env.clientRandom, s.serverRandom))
    && (g.verify.Some? ==> env.sign(session) == Some(g.verify.value.body))
    && g.state.localVerifyData == Prf.VerifyDataClient(env.crypto, g.state.master, finished)
  }

  /** In every run that generates flight 5, its secrets, signature and verify data are computed,
      and over the transcripts that the cache has once flight 5 is sent. */
  lemma RunsHashTheFuture(env: Env, events: seq<Event>)
    requires var c := Reach(env, events);
      && c.flight == Flight5 && c.phase == Preparing && !c.failed
      && c.state.sendSequence + 4 <= 0x1_0000 && Generate5(env, c.state, c.items).Some?
    ensures var c := Reach(env, events); var sent := Reach(env, events + [Advance] + [Advance]);
      && sent.phase == Waiting
      && ComputedOver(env, c.state, Generate5(env, c.state, c.items).value,
           HC.PullAndMergeSpec(sent.items, HC.SessionRules(0)),
           HC.PullAndMergeSpec(sent.items, T.BeforeFinishedRules()))
  {
    hide Step, Generate5, T.AfterFlight5, T.EntersFlight5, HC.PullAndMergeSpec, HC.SessionRules,
      T.BeforeFinishedRules, Prf.PHash, Prf.MasterSecret, Prf.ExtendedMasterSecret, Prf.VerifyDataClient,
      HC.UniqueKeys, T.BeforeFlight5;
    var c := Reach(env, events);
    ReachInvariant(env, events);
    ReachTwo(env, events, Advance, Advance);
    SendsFlight5(env, c);
    T.Flight5HashesTheFuture(env, c.state, c.items);
    assert c.state.suite == Some(Suite(false));
    if !c.state.extendedMasterSecret {
      T.ClientMaster(env, c.state, c.items);
    }
  }

  lemma ReachTwo(env: Env, events: seq<Event>, a: Event, b: Event)
    ensures Reach(env, events + [a] + [b]) == Step(env, Step(env, Reach(env, events), a), b)
  {
    hide Step;
    assert (events + [a])[..|events|] == events;
    assert (events + [a] + [b])[..|events| + 1] == events + [a];
  }

  lemma SendsFlight5(env: Env, c: Client)
    requires Invariant(c) && c.flight == Flight5 && c.phase == Preparing && !c.failed && !c.completed
    requires c.state.sendSequence + 4 <= 0x1_0000 && Generate5(env, c.state, c.items).Some?
    ensures T.EntersFlight5(env, c.state, c.items)
    ensures var sent := Step(env, Step(env, c, Advance), Advance);
      sent.phase == Waiting && sent.items == T.AfterFlight5(env, c.state, c.items)
  {
    hide Generate5, NumberPackets, Flight5Packets, ItemsSent, HC.PushAll;
    GenerateKeeps(env, c.state, c.items);
  }

  // ---------------------------------------------------------------- what the flights carry

  /** A HelloVerifyRequest that is accepted, by flight 1 or 3, is answered by a ClientHello
      with its cookie, and moves the receive sequence past it. */
  lemma CookieIsEchoed(env: Env, flight: Flight, s: State, items: seq<HC.Item>)
    requires flight != Flight5 && Parse(env, flight, s, items).1 == Next(Flight3)
    ensures var s' := Parse(env, flight, s, items).0;
      exists m: H.Message, rules: seq<HC.Rule> ::
        && (rules == FLIGHT1_RULES || rules == HELLO_VERIFY_RULES)
        && HC.FullPullSpec(env.accepts, items, s.recvSequence, rules).Ok?
        && HC.FullPullSpec(env.accepts, items, s.recvSequence, rules).value.0 == s'.recvSequence
        && H.HelloVerifyRequest in HC.FullPullSpec(env.accepts, items, s.recvSequence, rules).value.1
        && HC.FullPullSpec(env.accepts, items, s.recvSequence, rules).value.1[H.HelloVerifyRequest] == m
        && env.readHelloVerify(m.body).versionOk
        && Generate(env, Flight3, s', items)
           == Some((s', [Plaintext(H.NewMessage(H.ClientHello, env.clientHello(env.readHelloVerify(m.body).cookie)))]))
  {
    hide HC.FullPullSpec, ParseServerFlight;
    ServerFlightMovesOn(env, s, items);
    var r3 := HC.FullPullSpec(env.accepts, items, s.recvSequence, HELLO_VERIFY_RULES);
    var r1 := HC.FullPullSpec(env.accepts, items, s.recvSequence, FLIGHT1_RULES);
    if flight == Flight1 && !(r1.Ok? && H.ServerHello in r1.value.1) {
      var m := r1.value.1[H.HelloVerifyRequest];
    } else {
      var m := r3.value.1[H.HelloVerifyRequest];
    }
  }

  lemma ServerFlightMovesOn(env: Env, s: State, items: seq<HC.Item>)
    ensures ParseServerFlight(env, s, items).1 != Next(Flight3)
  {
    hide HC.FullPullSpec;
  }

  /** Flight 5 has a Certificate exactly when one was requested, and a CertificateVerify
      exactly when there is a certificate to it. */
  lemma CertificateOnlyIfRequested(env: Env, s: State, items: seq<HC.Item>)
    requires Generate5(env, s, items).Some?
    ensures var g := Generate5(env, s, items).value;
      && (g.certificate.Some? <==> s.remoteRequestedCertificate)
      && (g.verify.Some? <==> s.remoteRequestedCertificate && env.certificate.Some?)
      && (g.certificate.Some? ==> g.certificate.value.body == if env.certificate.Some? then env.certificate.value else env.emptyCertificate)
  {
    hide HC.PullAndMergeSpec, HC.UnmarshalMessage, MarshalAll;
  }

  // ---------------------------------------------------------------- retransmission

  lemma {:induction false} PushTaken(items: seq<HC.Item>, pushes: seq<HC.Item>)
    ensures forall x :: HC.Taken(items, x) || x in pushes ==> HC.Taken(HC.PushAll(items, pushes), x)
  {
    if pushes != [] {
      var init, last := pushes[..|pushes| - 1], pushes[|pushes| - 1];
      PushTaken(items, init);
      var before := HC.PushAll(items, init);
      forall x | HC.Taken(before, x) || x == last ensures HC.Taken(HC.PushSpec(before, last), x) {
        if HC.Taken(before, x) {
          var i :| 0 <= i < |before| && HC.SameKey(before[i], x);
          assert HC.SameKey(HC.PushSpec(before, last)[i], x);
        } else {
          assert HC.SameKey(HC.PushSpec(before, last)[|before|], x);
        }
      }
      assert pushes == init + [last];
    }
  }

  lemma {:induction false} PushAgain(items: seq<HC.Item>, pushes: seq<HC.Item>)
    requires forall x :: x in pushes ==> HC.Taken(items, x)
    ensures HC.PushAll(items, pushes) == items
  {
    hide HC.Taken;
    if pushes != [] {
      PushAgain(items, pushes[..|pushes| - 1]);
      assert pushes[|pushes| - 1] in pushes;
    }
  }

  /** A timeout sends the same packets again, with the same numbers, and leaves the client as
      it was: the cache already has their messages. */
  lemma RetransmissionChangesNothing(env: Env, c: Client)
    requires c.phase == Sending && !c.failed && !c.completed
    ensures var sent := Step(env, c, Advance); var again := Step(env, sent, Timer);
      again.phase == Sending && again.flights == c.flights && Step(env, again, Advance) == sent
  {
    hide HC.PushAll, ItemsSent, HC.Taken;
    var pushes := ItemsSent(c.flights);
    PushTaken(c.items, pushes);
    PushAgain(HC.PushAll(c.items, pushes), pushes);
  }

  // ---------------------------------------------------------------- failing

  /** A step ends the handshake with an error in three ways: a flight cannot be generated, a send
      fails, or parse finds what must not be. */
  lemma FailsExactly(env: Env, c: Client, e: Event)
    ensures Step(env, c, e).failed <==>
      || c.failed
      || (!c.completed && c.phase == Preparing && e == Advance && Generate(env, c.flight, c.state, c.items).None?)
      || (!c.completed && c.phase == Sending && e.SendError?)
      || (!c.completed && c.phase == Waiting && e == Notify && Parse(env, c.flight, c.state, c.items).1 == Fatal)
  {
    hide Parse, Generate, HC.PushAll, HC.PushSpec, NumberPackets;
  }

  /** After that, and after completion, a client does nothing but cache what it hears. */
  lemma {:induction false} EndedIsFinal(env: Env, events: seq<Event>, more: seq<Event>)
    requires Reach(env, events).failed || Reach(env, events).completed
    ensures var c, c' := Reach(env, events), Reach(env, events + more); c' == c.(items := c'.items)
  {
    hide HC.PushSpec;
    if more == [] {
      EmptyUnit(events);
    } else {
      var all := events + more;
      EndedIsFinal(env, events, more[..|more| - 1]);
      assert all[..|all| - 1] == events + more[..|more| - 1];
    }
  }
}
