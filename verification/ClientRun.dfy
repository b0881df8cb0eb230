/** The client as a whole: its handshake state machine drives the sender, and the records it
    hears fill the cache that the state machine reads. */
module ClientRun {
  import opened Bytes
  import opened Wrappers
  import RL = RecordLayer
  import H = Handshake
  import FB = FragmentBuffer
  import HC = HandshakeCache
  import opened Conn
  import opened Delivery
  import opened Network
  import F = Flights
  import T = Transcript
  import S = Handshaker
  import E = Endpoints
  import X = Exchange

  /** What the handshake loop does of itself; whether a send fails is up to the sender. */
  type LoopEvent = e: S.Event | e.Advance? || e.Timer? || e.Notify? witness S.Advance

  /** A step of the loop, or a record for the reader. */
  datatype Input = Loop(e: LoopEvent) | Hear(raw: Bytes)

  datatype Peer = Peer(client: S.Client, lsn: seq<nat>, buffer: FB.State)

  const START := Peer(S.INITIAL, [], FB.State(map[], 0))

  predicate Alive(c: S.Client) {
    !c.failed && !c.completed
  }

  predicate IsSending(c: S.Client, e: S.Event) {
    e.Advance? && c.phase == S.Sending && Alive(c)
  }

  predicate IsPreparing(env: F.Env, c: S.Client, i: Input) {
    i == Loop(S.Advance) && c.phase == S.Preparing && Alive(c) && S.Generate(env, c.flight, c.state, c.items).Some?
  }

  function StepPeer(env: F.Env, mtu: nat, p: Peer, i: Input): Peer
    requires mtu > 0 && AllSendable(p.client.flights)
  {
    match i
    case Loop(e) =>
      if !IsSending(p.client, e) then p.(client := S.Step(env, p.client, e))
      else
        var (s, r) := SendAll(SendState(p.lsn, p.client.items), p.client.flights, mtu, true);
        p.(lsn := s.lsn,
           client := p.client.(items := s.items, phase := if r.Ok? then S.Waiting else S.Sending, failed := r.Err?))
    case Hear(raw) =>
      var (buffer, outs) := Receive(p.buffer, raw);
      p.(buffer := buffer, client := p.client.(items := CacheAll(env.accepts, p.client.items, outs, false)))
  }

  // ---------------------------------------------------------------- packets made by prepare

  /** Handshake packets carry whole messages; the others fit a record. */
  predicate Fine(p: Packet) {
    && p.version == RL.PROTOCOL_VERSION1_2
    && match p.content
       case HandshakeContent(m) => m.Whole()
       case Plain(_, payload) => 0 < |payload| < 0x1_0000
  }

  predicate AllFine(pkts: seq<Packet>) {
    forall i :: 0 <= i < |pkts| ==> Fine(pkts[i])
  }

  /** The handshake messages of a batch. */
  function MessagesIn(pkts: seq<Packet>): seq<Sent> {
    if pkts == [] then []
    else
      (match pkts[0].content
       case HandshakeContent(m) => [Sent(m, pkts[0].epoch)]
       case Plain(_, _) => []) + MessagesIn(pkts[1..])
  }

  lemma MessagesAreFine(ms: seq<H.Message>)
    requires forall i :: 0 <= i < |ms| ==> ms[i].Whole()
    ensures AllFine(F.Packets(ms))
  {
  }

  lemma GeneratesFine(env: F.Env, c: S.Client)
    requires S.Generate(env, c.flight, c.state, c.items).Some?
    ensures AllFine(S.Generate(env, c.flight, c.state, c.items).value.1)
    ensures S.Generate(env, c.flight, c.state, c.items).value.0.sendSequence == c.state.sendSequence
  {
    hide F.Generate5;
    if c.flight == F.Flight5 {
      T.GeneratedIsNumbered(env, c.state, c.items);
      S.GenerateKeeps(env, c.state, c.items);
      MessagesAreFine(F.Generate5(env, c.state, c.items).value.Messages());
    }
  }

  lemma {:induction false} NumberingIsFine(pkts: seq<Packet>, n: nat)
    requires AllFine(pkts)
    ensures var (numbered, n') := F.NumberPackets(pkts, n); var ms := MessagesIn(numbered);
      && AllFine(numbered) && n' == n + |ms|
      && forall i :: 0 <= i < |ms| ==> ms[i].message.Whole() && ms[i].message.header.messageSequence == (n + i) % 0x1_0000
  {
    if pkts != [] {
      var rest := pkts[1..];
      var numbered := F.NumberPackets(pkts, n).0;
      match pkts[0].content {
        case Plain(_, _) =>
          NumberingIsFine(rest, n);
          var more := F.NumberPackets(rest, n).0;
          assert numbered[0] == pkts[0] && numbered[1..] == more;
          EmptyUnit(MessagesIn(more));
        case HandshakeContent(m) =>
          NumberingIsFine(rest, n + 1);
          var more := F.NumberPackets(rest, n + 1).0;
          assert numbered[1..] == more;
          var ms := MessagesIn(numbered);
          assert ms[0].message == H.Renumbered(m, n) && ms[1..] == MessagesIn(more);
          forall i | 0 < i < |ms|
            ensures ms[i].message.Whole() && ms[i].message.header.messageSequence == (n + i) % 0x1_0000
          {
            assert ms[i] == MessagesIn(more)[i - 1];
          }
      }
    }
  }

  lemma FineIsSendable(pkts: seq<Packet>)
    requires AllFine(pkts)
    ensures AllSendable(pkts)
  {
    forall i | 0 <= i < |pkts| ensures Sendable(pkts[i]) {
      assert Fine(pkts[i]);
    }
  }

  /** The flights of the next state are those of prepare, or the old ones. */
  lemma FlightsAfter(env: F.Env, mtu: nat, p: Peer, i: Input)
    requires mtu > 0 && AllFine(p.client.flights) && AllSendable(p.client.flights)
    ensures var c, c' := p.client, StepPeer(env, mtu, p, i).client;
      if IsPreparing(env, c, i) then
        var (s, pkts) := S.Generate(env, c.flight, c.state, c.items).value;
        && (c'.flights, c'.state.sendSequence) == F.NumberPackets(pkts, c.state.sendSequence)
        && c'.phase == S.Sending && c'.flight == c.flight && c'.failed == c.failed && c'.items == c.items
      else c'.flights == c.flights && c'.state.sendSequence == c.state.sendSequence
    ensures AllFine(StepPeer(env, mtu, p, i).client.flights)
    ensures AllSendable(StepPeer(env, mtu, p, i).client.flights)
  {
    hide F.NumberPackets, S.Generate, SendAll, Receive, CacheAll, F.Parse, Fine, HC.PushAll, F.ItemsSent;
    var c := p.client;
    S.ParseMovesForward(env, c.flight, c.state, c.items);
    if IsPreparing(env, c, i) {
      GeneratesFine(env, c);
      NumberingIsFine(S.Generate(env, c.flight, c.state, c.items).value.1, c.state.sendSequence);
    }
    FineIsSendable(StepPeer(env, mtu, p, i).client.flights);
  }

  /** The client after a run of inputs. */
  function Play(env: F.Env, mtu: nat, inputs: seq<Input>): (p: Peer)
    requires mtu > 0
    ensures AllFine(p.client.flights) && AllSendable(p.client.flights)
  {
    hide *;
    if inputs == [] then
      StartIsFine();
      START
    else
      var p := Play(env, mtu, inputs[..|inputs| - 1]);
      FlightsAfter(env, mtu, p, inputs[|inputs| - 1]);
      StepPeer(env, mtu, p, inputs[|inputs| - 1])
  }

  lemma StartIsFine()
    ensures AllFine(START.client.flights) && AllSendable(START.client.flights)
  {
  }

  // ---------------------------------------------------------------- it is a run of the state machine

  function Arrivals(xs: seq<HC.Item>): seq<S.Event> {
    seq(|xs|, i requires 0 <= i < |xs| => S.Arrive(xs[i]))
  }

  /** The events of a run: what happened to each send, and each message the reader cached. */
  function Events(env: F.Env, mtu: nat, inputs: seq<Input>): seq<S.Event>
    requires mtu > 0
  {
    if inputs == [] then []
    else
      var p := Play(env, mtu, inputs[..|inputs| - 1]);
      var s := SendState(p.lsn, p.client.items);
      Events(env, mtu, inputs[..|inputs| - 1]) +
      match inputs[|inputs| - 1]
      case Loop(e) =>
        if IsSending(p.client, e) && SendAll(s, p.client.flights, mtu, true).1.Err?
        then [S.SendError(X.Tried(s, p.client.flights, mtu, true))]
        else [e]
      case Hear(raw) => Arrivals(E.Parsed(env.accepts, Receive(p.buffer, raw).1, false))
  }

  lemma {:induction false} ParsedIsTheServers(accepts: HC.BodyParser, outs: seq<(Bytes, U16)>)
    ensures forall i :: 0 <= i < |E.Parsed(accepts, outs, false)| ==> !E.Parsed(accepts, outs, false)[i].isClient
  {
    hide HC.UnmarshalMessage;
    if outs != [] {
      ParsedIsTheServers(accepts, outs[1..]);
    }
  }

  lemma {:induction false} ReachArrivals(env: F.Env, events: seq<S.Event>, xs: seq<HC.Item>)
    requires forall i :: 0 <= i < |xs| ==> !xs[i].isClient
    ensures var c := S.Reach(env, events); S.Reach(env, events + Arrivals(xs)) == c.(items := HC.PushAll(c.items, xs))
  {
    hide HC.PushSpec;
    if xs == [] {
      EmptyUnit(events);
    } else {
      var init := xs[..|xs| - 1];
      ReachArrivals(env, events, init);
      var all := events + Arrivals(xs);
      assert all[..|all| - 1] == events + Arrivals(init) && all[|all| - 1] == S.Arrive(xs[|xs| - 1]);
    }
  }

  lemma ReachOne(env: F.Env, events: seq<S.Event>, e: S.Event)
    ensures S.Reach(env, events + [e]) == S.Step(env, S.Reach(env, events), e)
  {
    hide S.Step;
    assert (events + [e])[..|events|] == events;
  }

  lemma SendingIsAStep(env: F.Env, p: Peer, mtu: nat, e: LoopEvent)
    requires mtu > 0 && AllSendable(p.client.flights) && IsSending(p.client, e)
    ensures var s := SendState(p.lsn, p.client.items);
      var event := if SendAll(s, p.client.flights, mtu, true).1.Err? then S.SendError(X.Tried(s, p.client.flights, mtu, true)) else e;
      StepPeer(env, mtu, p, Loop(e)).client == S.Step(env, p.client, event)
  {
    hide SendAll, HC.PushAll, ItemsSentBy;
    var s := SendState(p.lsn, p.client.items);
    var n := X.Tried(s, p.client.flights, mtu, true);
    X.SendingCaches(s, p.client.flights, mtu, true);
    assert p.client.flights[..|p.client.flights|] == p.client.flights;
  }

  /** Whatever it hears and whatever becomes of its sends, the client is one that the state
      machine can reach. */
  lemma {:induction false} PlayIsReach(env: F.Env, mtu: nat, inputs: seq<Input>)
    requires mtu > 0
    ensures S.Reach(env, Events(env, mtu, inputs)) == Play(env, mtu, inputs).client
  {
    hide SendAll, Receive, CacheAll, S.Step, E.Parsed, X.Tried, HC.PushAll, AllFine, AllSendable;
    if inputs != [] {
      var init, i := inputs[..|inputs| - 1], inputs[|inputs| - 1];
      PlayIsReach(env, mtu, init);
      var p, events := Play(env, mtu, init), Events(env, mtu, init);
      match i {
        case Loop(e) =>
          var s := SendState(p.lsn, p.client.items);
          if IsSending(p.client, e) {
            SendingIsAStep(env, p, mtu, e);
          }
          var event := if IsSending(p.client, e) && SendAll(s, p.client.flights, mtu, true).1.Err?
                       then S.SendError(X.Tried(s, p.client.flights, mtu, true)) else e;
          ReachOne(env, events, event);
        case Hear(raw) =>
          var outs := Receive(p.buffer, raw).1;
          ParsedIsTheServers(env.accepts, outs);
          E.CacheAllPushes(env.accepts, p.client.items, outs, false);
          ReachArrivals(env, events, E.Parsed(env.accepts, outs, false));
      }
    }
  }

  // ---------------------------------------------------------------- it is an endpoint

  /** The calls it makes to the sender and the records it hears. */
  function Activities(env: F.Env, mtu: nat, inputs: seq<Input>): seq<E.Activity>
    requires mtu > 0
  {
    if inputs == [] then []
    else
      var p := Play(env, mtu, inputs[..|inputs| - 1]);
      Activities(env, mtu, inputs[..|inputs| - 1]) +
      match inputs[|inputs| - 1]
      case Loop(e) => if IsSending(p.client, e) then [E.Sends(p.client.flights)] else []
      case Hear(raw) => [E.Receives(raw)]
  }

  function ConfigOf(env: F.Env, mtu: nat): E.Config {
    E.Config(true, mtu, env.accepts)
  }

  lemma LoopKeepsItems(env: F.Env, c: S.Client, e: LoopEvent)
    requires !IsSending(c, e)
    ensures S.Step(env, c, e).items == c.items
  {
    hide F.Parse, S.Generate, F.NumberPackets, HC.PushAll;
  }

  lemma OneMoreActivity(cfg: E.Config, acts: seq<E.Activity>, a: E.Activity)
    requires E.Allowed(cfg, acts) && (a.Sends? ==> AllSendable(a.pkts))
    ensures E.Allowed(cfg, acts + [a]) && E.After(cfg, acts + [a]) == E.Act(cfg, E.After(cfg, acts), a)
    ensures E.Calls(acts + [a]) == E.Calls(acts) + if a.Sends? then [a.pkts] else []
    ensures E.Raws(acts + [a]) == E.Raws(acts) + if a.Receives? then [a.raw] else []
  {
    hide E.Act;
    assert (acts + [a])[..|acts + [a]| - 1] == acts;
  }

  lemma {:induction false} PlayIsEndpoint(env: F.Env, mtu: nat, inputs: seq<Input>)
    requires mtu > 0
    ensures var cfg, p := ConfigOf(env, mtu), Play(env, mtu, inputs);
      && E.Allowed(cfg, Activities(env, mtu, inputs))
      && E.After(cfg, Activities(env, mtu, inputs)) == E.Endpoint(p.lsn, p.client.items, p.buffer)
  {
    hide SendAll, Receive, CacheAll, S.Step, E.After, AllFine, AllSendable, E.Allowed;
    if inputs == [] {
      NothingYet(ConfigOf(env, mtu));
    } else {
      var init, i := inputs[..|inputs| - 1], inputs[|inputs| - 1];
      PlayIsEndpoint(env, mtu, init);
      var p, acts := Play(env, mtu, init), Activities(env, mtu, init);
      match i {
        case Loop(e) =>
          if IsSending(p.client, e) {
            OneMoreActivity(ConfigOf(env, mtu), acts, E.Sends(p.client.flights));
          } else {
            EmptyUnit(acts);
            LoopKeepsItems(env, p.client, e);
          }
        case Hear(raw) =>
          OneMoreActivity(ConfigOf(env, mtu), acts, E.Receives(raw));
      }
    }
  }

  lemma NothingYet(cfg: E.Config)
    requires cfg.mtu > 0
    ensures E.Allowed(cfg, []) && E.After(cfg, []) == E.NEW
  {
  }

  // ---------------------------------------------------------------- the messages it prepares

  /** Every message prepared so far, in order. */
  function Prepared(env: F.Env, mtu: nat, inputs: seq<Input>): seq<Sent>
    requires mtu > 0
  {
    if inputs == [] then []
    else
      var init, i := inputs[..|inputs| - 1], inputs[|inputs| - 1];
      Prepared(env, mtu, init) +
      if IsPreparing(env, Play(env, mtu, init).client, i) then MessagesIn(Play(env, mtu, inputs).client.flights) else []
  }

  predicate CountsFrom(ms: seq<Sent>, n: nat) {
    forall i :: 0 <= i < |ms| ==>
      ms[i].message.Whole() && ms[i].message.header.messageSequence == (n + i) % 0x1_0000
  }

  lemma CountsOn(a: seq<Sent>, b: seq<Sent>)
    requires CountsFrom(a, 0) && CountsFrom(b, |a|)
    ensures CountsFrom(a + b, 0)
  {
  }

  /** They are numbered from 0, as many as the send sequence says. */
  lemma {:induction false} PreparedAreNumbered(env: F.Env, mtu: nat, inputs: seq<Input>)
    requires mtu > 0
    ensures var ms := Prepared(env, mtu, inputs);
      && |ms| == Play(env, mtu, inputs).client.state.sendSequence && CountsFrom(ms, 0)
      && (|ms| < 0x1_0000 ==> Numbered(ms))
  {
    hide StepPeer, S.Generate, F.NumberPackets, AllFine, AllSendable, CountsFrom, IsPreparing, MessagesIn;
    if inputs == [] {
      assert CountsFrom([], 0) by { NothingCounts(); }
    } else {
      var init, i := inputs[..|inputs| - 1], inputs[|inputs| - 1];
      var p := Play(env, mtu, init);
      PreparedAreNumbered(env, mtu, init);
      FlightsAfter(env, mtu, p, i);
      if IsPreparing(env, p.client, i) {
        MadeByPrepare(env, mtu, p, i);
        CountsOn(Prepared(env, mtu, init), MessagesIn(StepPeer(env, mtu, p, i).client.flights));
      } else {
        EmptyUnit(Prepared(env, mtu, init));
      }
    }
    CountedIsNumbered(Prepared(env, mtu, inputs));
  }

  lemma NothingCounts()
    ensures CountsFrom([], 0)
  {
  }

  lemma CountedIsNumbered(ms: seq<Sent>)
    requires CountsFrom(ms, 0)
    ensures |ms| < 0x1_0000 ==> Numbered(ms)
  {
  }

  lemma MadeByPrepare(env: F.Env, mtu: nat, p: Peer, i: Input)
    requires mtu > 0 && AllFine(p.client.flights) && AllSendable(p.client.flights) && IsPreparing(env, p.client, i)
    ensures var c' := StepPeer(env, mtu, p, i).client; var ms := MessagesIn(c'.flights);
      && CountsFrom(ms, p.client.state.sendSequence)
      && c'.state.sendSequence == p.client.state.sendSequence + |ms|
  {
    hide StepPeer, S.Generate, F.NumberPackets, AllFine, AllSendable, MessagesIn;
    var c := p.client;
    FlightsAfter(env, mtu, p, i);
    GeneratesFine(env, c);
    NumberingIsFine(S.Generate(env, c.flight, c.state, c.items).value.1, c.state.sendSequence);
  }

  lemma {:induction false} BatchIsListed(before: seq<Sent>, pkts: seq<Packet>)
    requires AllFine(pkts) && CountsFrom(MessagesIn(pkts), |before|) && |before| + |MessagesIn(pkts)| < 0x1_0000
    ensures GoodBatch(before + MessagesIn(pkts), pkts)
    ensures forall k :: |before| <= k < |before| + |MessagesIn(pkts)| ==> Includes(pkts, k)
    decreases |pkts|
  {
    if pkts != [] {
      var rest := pkts[1..];
      var ms := MessagesIn(pkts);
      assert Fine(pkts[0]);
      match pkts[0].content {
        case Plain(_, _) =>
          EmptyUnit(MessagesIn(rest));
          BatchIsListed(before, rest);
        case HandshakeContent(m) =>
          var first := Sent(m, pkts[0].epoch);
          assert ms[0] == first && ms[1..] == MessagesIn(rest);
          CountsTail(ms, |before|);
          BatchIsListed(before + [first], rest);
          Assoc(before, [first], MessagesIn(rest));
          assert (before + ms)[|before|] == first;
      }
      GoodCons(before + ms, pkts);
      IncludesCons(pkts, |before|, |before| + |ms|);
    }
  }

  lemma CountsTail(ms: seq<Sent>, n: nat)
    requires CountsFrom(ms, n) && ms != []
    ensures CountsFrom(ms[1..], n + 1)
  {
    forall i | 0 <= i < |ms[1..]|
      ensures ms[1..][i].message.Whole() && ms[1..][i].message.header.messageSequence == (n + 1 + i) % 0x1_0000
    {
      assert ms[1..][i] == ms[i + 1];
    }
  }

  lemma GoodCons(ms: seq<Sent>, pkts: seq<Packet>)
    requires pkts != [] && GoodPacket(ms, pkts[0]) && GoodBatch(ms, pkts[1..])
    ensures GoodBatch(ms, pkts)
  {
    hide GoodPacket;
    forall i | 0 <= i < |pkts| ensures GoodPacket(ms, pkts[i]) {
      if i > 0 {
        assert pkts[1..][i - 1] == pkts[i];
      }
    }
  }

  lemma IncludesCons(pkts: seq<Packet>, from: nat, to: nat)
    requires pkts != []
    requires var from' := if pkts[0].content.HandshakeContent? then from + 1 else from;
      forall k :: from' <= k < to ==> Includes(pkts[1..], k)
    requires pkts[0].content.HandshakeContent? ==> pkts[0].content.message.header.messageSequence == from
    ensures forall k :: from <= k < to ==> Includes(pkts, k)
  {
    forall k | from <= k < to ensures Includes(pkts, k) {
      if Includes(pkts[1..], k) {
        var i :| 0 <= i < |pkts[1..]| && pkts[1..][i].content.HandshakeContent?
                 && pkts[1..][i].content.message.header.messageSequence == k;
        assert pkts[i + 1] == pkts[1..][i];
      }
    }
  }

  lemma GoodWithMore(ms: seq<Sent>, more: seq<Sent>, pkts: seq<Packet>)
    requires GoodBatch(ms, pkts)
    ensures GoodBatch(ms + more, pkts)
  {
    forall i | 0 <= i < |pkts| ensures GoodPacket(ms + more, pkts[i]) {
      assert GoodPacket(ms, pkts[i]);
    }
  }

  lemma CallsWithMore(ms: seq<Sent>, more: seq<Sent>, calls: seq<seq<Packet>>)
    requires GoodCalls(ms, calls)
    ensures GoodCalls(ms + more, calls)
  {
    hide GoodBatch;
    forall i | 0 <= i < |calls| ensures GoodBatch(ms + more, calls[i]) {
      GoodWithMore(ms, more, calls[i]);
    }
  }

  lemma NumberedPart(ms: seq<Sent>, more: seq<Sent>)
    requires Numbered(ms + more)
    ensures Numbered(ms)
  {
    forall k | 0 <= k < |ms| ensures ms[k].message.Whole() && ms[k].message.header.messageSequence == k {
      assert ms[k] == (ms + more)[k];
    }
  }

  /** Whatever it has handed to the sender, or is about to, is on that list. */
  lemma {:induction false} CallsAreListed(env: F.Env, mtu: nat, inputs: seq<Input>)
    requires mtu > 0 && Numbered(Prepared(env, mtu, inputs))
    ensures var ms := Prepared(env, mtu, inputs);
      && GoodBatch(ms, Play(env, mtu, inputs).client.flights)
      && GoodCalls(ms, E.Calls(Activities(env, mtu, inputs)))
  {
    hide StepPeer, AllFine, AllSendable, GoodBatch, GoodCalls, E.Calls, MessagesIn, Numbered, IsPreparing, IsSending;
    if inputs == [] {
      NothingListed();
    } else {
      var init, i := inputs[..|inputs| - 1], inputs[|inputs| - 1];
      var p, before := Play(env, mtu, init), Prepared(env, mtu, init);
      var added := if IsPreparing(env, p.client, i) then MessagesIn(Play(env, mtu, inputs).client.flights) else [];
      NumberedPart(before, added);
      CallsAreListed(env, mtu, init);
      FlightsAfter(env, mtu, p, i);
      GoodWithMore(before, added, p.client.flights);
      CallsWithMore(before, added, E.Calls(Activities(env, mtu, init)));
      OneMoreListed(env, mtu, inputs, before + added);
      if IsPreparing(env, p.client, i) {
        PreparedAreNumbered(env, mtu, init);
        MadeByPrepare(env, mtu, p, i);
        assert |before + added| < 0x1_0000 by { ShortList(before + added); }
        BatchIsListed(before, Play(env, mtu, inputs).client.flights);
      }
    }
  }

  lemma ShortList(ms: seq<Sent>)
    requires Numbered(ms)
    ensures |ms| < 0x1_0000
  {
  }

  lemma NothingListed()
    ensures GoodBatch([], START.client.flights) && GoodCalls([], E.Calls([]))
  {
  }

  lemma OneMoreListed(env: F.Env, mtu: nat, inputs: seq<Input>, ms: seq<Sent>)
    requires mtu > 0 && inputs != []
    requires var init := inputs[..|inputs| - 1];
      GoodCalls(ms, E.Calls(Activities(env, mtu, init))) && GoodBatch(ms, Play(env, mtu, init).client.flights)
    ensures GoodCalls(ms, E.Calls(Activities(env, mtu, inputs)))
  {
    hide AllFine, AllSendable, GoodBatch, IsSending, Play;
    var init, i := inputs[..|inputs| - 1], inputs[|inputs| - 1];
    var p, acts := Play(env, mtu, init), Activities(env, mtu, init);
    match i {
      case Loop(e) =>
        if IsSending(p.client, e) {
          assert (acts + [E.Sends(p.client.flights)])[..|acts|] == acts;
        } else {
          EmptyUnit(acts);
        }
      case Hear(raw) =>
        assert (acts + [E.Receives(raw)])[..|acts|] == acts;
        EmptyUnit(E.Calls(acts));
    }
  }

  // ---------------------------------------------------------------- what has been sent

  lemma SentWithMore(calls: seq<seq<Packet>>, pkts: seq<Packet>, mtu: nat, isClient: bool, k: nat)
    requires mtu > 0 && RunSendable(calls) && AllSendable(pkts) && SentIn(calls, mtu, isClient, k)
    ensures RunSendable(calls + [pkts]) && SentIn(calls + [pkts], mtu, isClient, k)
  {
    hide SendAll, SendRun, Includes, AllSendable;
    var i :| 0 <= i < |calls| && Includes(calls[i], k)
             && SendAll(SendRun(calls[..i], mtu, isClient).0, calls[i], mtu, isClient).1.Ok?;
    var more := calls + [pkts];
    assert more[..i] == calls[..i] && more[i] == calls[i];
  }

  lemma LastIsSent(cfg: E.Config, acts: seq<E.Activity>, pkts: seq<Packet>, k: nat)
    requires E.Allowed(cfg, acts) && AllSendable(pkts) && Includes(pkts, k)
    requires var e := E.After(cfg, acts); SendAll(SendState(e.lsn, e.items), pkts, cfg.mtu, cfg.isClient).1.Ok?
    ensures RunSendable(E.Calls(acts) + [pkts]) && SentIn(E.Calls(acts) + [pkts], cfg.mtu, cfg.isClient, k)
  {
    hide SendAll, SendRun, Includes, AllSendable, E.Calls, E.After;
    E.EmitsItsCalls(cfg, acts);
    var e, calls := E.After(cfg, acts), E.Calls(acts);
    var s := SendRun(calls, cfg.mtu, cfg.isClient).0;
    E.SendIgnoresItems(e.lsn, e.items, s.items, pkts, cfg.mtu, cfg.isClient);
    var more := calls + [pkts];
    assert more[..|calls|] == calls && more[|calls|] == pkts;
  }

  /** Message k went out in a batch that did not fail, or is in the batch about to. */
  predicate SentOrDue(env: F.Env, mtu: nat, inputs: seq<Input>, k: nat)
    requires mtu > 0 && RunSendable(E.Calls(Activities(env, mtu, inputs)))
  {
    var c := Play(env, mtu, inputs).client;
    || SentIn(E.Calls(Activities(env, mtu, inputs)), mtu, true, k)
    || (c.phase == S.Sending && Includes(c.flights, k))
  }

  lemma Sendables(env: F.Env, mtu: nat, inputs: seq<Input>)
    requires mtu > 0
    ensures RunSendable(E.Calls(Activities(env, mtu, inputs)))
  {
    PlayIsEndpoint(env, mtu, inputs);
    E.CallsAreSendable(ConfigOf(env, mtu), Activities(env, mtu, inputs));
  }

  lemma StillSentOrDue(env: F.Env, mtu: nat, inputs: seq<Input>, k: nat)
    requires mtu > 0 && inputs != [] && !Play(env, mtu, inputs).client.failed
    requires RunSendable(E.Calls(Activities(env, mtu, inputs[..|inputs| - 1])))
    requires SentOrDue(env, mtu, inputs[..|inputs| - 1], k)
    ensures RunSendable(E.Calls(Activities(env, mtu, inputs))) && SentOrDue(env, mtu, inputs, k)
  {
    hide AllFine, AllSendable, SendAll, Receive, CacheAll, SentIn, Includes, F.Parse, F.NumberPackets, S.Generate,
      E.After, E.Allowed, RunSendable, HC.PushAll, F.ItemsSent, Play, E.Calls;
    Sendables(env, mtu, inputs);
    var init, i := inputs[..|inputs| - 1], inputs[|inputs| - 1];
    var p, acts := Play(env, mtu, init), Activities(env, mtu, init);
    PlayStep(env, mtu, inputs);
    PlayIsEndpoint(env, mtu, init);
    var cfg, calls := ConfigOf(env, mtu), E.Calls(acts);
    match i {
      case Loop(e) =>
        if IsSending(p.client, e) {
          OneMoreActivity(cfg, acts, E.Sends(p.client.flights));
          if SentIn(calls, mtu, true, k) {
            SentWithMore(calls, p.client.flights, mtu, true, k);
          } else {
            LastIsSent(cfg, acts, p.client.flights, k);
          }
        } else {
          EmptyUnit(acts);
        }
      case Hear(raw) =>
        OneMoreActivity(cfg, acts, E.Receives(raw));
        EmptyUnit(calls);
    }
  }

  lemma PlayStep(env: F.Env, mtu: nat, inputs: seq<Input>)
    requires mtu > 0 && inputs != []
    ensures Play(env, mtu, inputs) == StepPeer(env, mtu, Play(env, mtu, inputs[..|inputs| - 1]), inputs[|inputs| - 1])
  {
    hide StepPeer, AllFine, AllSendable;
  }

  /** A client that has not failed has sent every message it prepared, or is about to. */
  lemma {:induction false} PreparedIsSent(env: F.Env, mtu: nat, inputs: seq<Input>, k: nat)
    requires mtu > 0 && Numbered(Prepared(env, mtu, inputs)) && k < |Prepared(env, mtu, inputs)|
    requires !Play(env, mtu, inputs).client.failed
    ensures RunSendable(E.Calls(Activities(env, mtu, inputs))) && SentOrDue(env, mtu, inputs, k)
  {
    hide AllFine, AllSendable, RunSendable, SentOrDue, Numbered, MessagesIn, IsPreparing, StepPeer;
    if inputs != [] {
      var init, i := inputs[..|inputs| - 1], inputs[|inputs| - 1];
      var p, before := Play(env, mtu, init), Prepared(env, mtu, init);
      PlayStep(env, mtu, inputs);
      FailingIsFinal(env, mtu, p, i);
      var added := if IsPreparing(env, p.client, i) then MessagesIn(Play(env, mtu, inputs).client.flights) else [];
      NumberedPart(before, added);
      if k < |before| {
        PreparedIsSent(env, mtu, init, k);
        StillSentOrDue(env, mtu, inputs, k);
      } else {
        PreparedAreNumbered(env, mtu, init);
        MadeByPrepare(env, mtu, p, i);
        FlightsAfter(env, mtu, p, i);
        ShortList(before + added);
        BatchIsListed(before, Play(env, mtu, inputs).client.flights);
        Sendables(env, mtu, inputs);
        DueNow(env, mtu, inputs, k);
      }
    }
  }

  lemma DueNow(env: F.Env, mtu: nat, inputs: seq<Input>, k: nat)
    requires mtu > 0 && RunSendable(E.Calls(Activities(env, mtu, inputs)))
    requires Play(env, mtu, inputs).client.phase == S.Sending && Includes(Play(env, mtu, inputs).client.flights, k)
    ensures SentOrDue(env, mtu, inputs, k)
  {
    hide Play, SentIn, Includes;
  }

  lemma FailingIsFinal(env: F.Env, mtu: nat, p: Peer, i: Input)
    requires mtu > 0 && AllSendable(p.client.flights)
    ensures p.client.failed ==> StepPeer(env, mtu, p, i).client.failed
  {
    hide SendAll, Receive, CacheAll, F.Parse, S.Generate;
  }

  // ---------------------------------------------------------------- flight 5 is the last

  /** Flight 5 has been prepared. */
  predicate InFlight5(c: S.Client) {
    c.flight == F.Flight5 && c.phase != S.Preparing
  }

  lemma Flight5Remains(env: F.Env, mtu: nat, p: Peer, i: Input)
    requires mtu > 0 && AllFine(p.client.flights) && AllSendable(p.client.flights) && InFlight5(p.client)
    ensures var q := StepPeer(env, mtu, p, i);
      && InFlight5(q.client) && !IsPreparing(env, p.client, i)
      && q.client.state == p.client.state
  {
    hide SendAll, Receive, CacheAll, F.Parse, S.Generate, AllFine, AllSendable, HC.PushAll;
    S.Flight5Stays(env, p.client.state, p.client.items);
    FlightsAfter(env, mtu, p, i);
  }

  /** Whatever happens then, no further message is prepared. */
  lemma {:induction false} NothingMoreIsPrepared(env: F.Env, mtu: nat, inputs: seq<Input>, more: seq<Input>)
    requires mtu > 0 && InFlight5(Play(env, mtu, inputs).client)
    ensures Prepared(env, mtu, inputs + more) == Prepared(env, mtu, inputs)
    ensures InFlight5(Play(env, mtu, inputs + more).client)
    ensures Play(env, mtu, inputs + more).client.state == Play(env, mtu, inputs).client.state
    decreases |more|
  {
    hide StepPeer, AllFine, AllSendable, IsPreparing, InFlight5, MessagesIn;
    if more == [] {
      EmptyUnit(inputs);
    } else {
      var all, init, i := inputs + more, more[..|more| - 1], more[|more| - 1];
      assert all[..|all| - 1] == inputs + init && all[|all| - 1] == i;
      NothingMoreIsPrepared(env, mtu, inputs, init);
      PlayStep(env, mtu, all);
      Flight5Remains(env, mtu, Play(env, mtu, inputs + init), i);
      EmptyUnit(Prepared(env, mtu, inputs + init));
    }
  }

  lemma {:induction false} ItemsAreThose(pkts: seq<Packet>)
    ensures ItemsSentBy(pkts, true) == X.ItemsOf(MessagesIn(pkts), true)
  {
    hide H.MarshalHeader;
    if pkts != [] {
      ItemsAreThose(pkts[1..]);
      match pkts[0].content {
        case Plain(_, _) => EmptyUnit(MessagesIn(pkts[1..]));
        case HandshakeContent(m) =>
          assert X.ItemsOf(MessagesIn(pkts), true)
              == [ItemOf(m, pkts[0].epoch, true)] + X.ItemsOf(MessagesIn(pkts[1..]), true);
      }
    }
  }
}
