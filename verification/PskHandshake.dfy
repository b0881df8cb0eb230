/** A pre-shared key handshake between the two ends: a run that meets everything the
    end-to-end theorems ask of one. */
module PskHandshake {
  import opened Bytes
  import opened Wrappers
  import RL = RecordLayer
  import H = Handshake
  import HC = HandshakeCache
  import Prf
  import opened Conn
  import opened Delivery
  import opened Network
  import F = Flights
  import T = Transcript
  import S = Handshaker
  import SF = ServerFlight
  import SA = ServerAccepts
  import E = Endpoints
  import X = Exchange
  import opened ClientRun
  import opened EndToEnd
  import ET = ExchangeText

  function PskEnv(crypto: Prf.Crypto): F.Env {
    F.Env(crypto, (t, b) => true, true, [], None, [], c => [], k => [], b => F.HelloVerify(true, []),
          (b, e) => Some(F.ServerHello([], false)), b => Some(F.KeyShare([], [])), b => true, t => None)
  }

  function Empty(typ: H.HandshakeType, n: nat): H.Message {
    H.Renumbered(H.NewMessage(typ, []), n)
  }

  const HELLO_LIST := [Sent(Empty(H.ServerHello, 0), 0), Sent(Empty(H.ServerHelloDone, 1), 0)]
  const HELLO_PACKETS := [F.Plaintext(Empty(H.ServerHello, 0)), F.Plaintext(Empty(H.ServerHelloDone, 1))]

  // ---------------------------------------------------------------- the server's side

  /** Numbers last for any batch that this handshake sends. */
  ghost predicate Below(lsn: seq<nat>, limit: nat) {
    forall e: nat :: NextNumber(lsn, e) <= limit
  }

  const STEP: nat := 0x100_0001

  lemma {:induction false} FragmentCount(m: H.Message, mtu: nat, from: nat)
    requires mtu > 0 && from <= |m.body| < 0x100_0000
    ensures |FragmentsFrom(m, mtu, from)| <= |m.body| - from + 1
    decreases |m.body| - from
  {
    hide FragmentAt;
    if |m.body| - from > mtu {
      FragmentCount(m, mtu, from + mtu);
    }
  }

  lemma {:induction false} StampsAll(frags: seq<Bytes>, version: RL.ProtocolVersion, epoch: U16, next: nat)
    requires next + |frags| <= RL.MAX_SEQUENCE_NUMBER
    ensures StampAll(frags, version, epoch, next).0.Ok? && StampAll(frags, version, epoch, next).1 == next + |frags|
  {
    if frags != [] {
      StampsAll(frags[1..], version, epoch, next + 1);
    }
  }

  lemma SendsOne(s: SendState, p: Packet, mtu: nat, isClient: bool, limit: nat)
    requires mtu > 0 && Sendable(p) && Below(s.lsn, limit) && limit + STEP <= RL.MAX_SEQUENCE_NUMBER
    ensures var (s', r) := SendOne(s, p, mtu, isClient); r.Ok? && Below(s'.lsn, limit + STEP)
  {
    hide H.MarshalHeader, HC.PushSpec, FragmentsFrom, StampAll;
    var lsn := Grow(s.lsn, p.epoch);
    assert lsn[p.epoch] == NextNumber(s.lsn, p.epoch);
    if p.content.HandshakeContent? {
      var frags := FragmentsFrom(p.content.message, mtu, 0);
      FragmentCount(p.content.message, mtu, 0);
      StampsAll(frags, p.version, p.epoch, lsn[p.epoch]);
    }
    var s' := SendOne(s, p, mtu, isClient).0;
    forall e: nat ensures NextNumber(s'.lsn, e) <= limit + STEP {
      assert NextNumber(s.lsn, e) <= limit;
    }
  }

  lemma {:induction false} SendsBatch(s: SendState, pkts: seq<Packet>, mtu: nat, isClient: bool, limit: nat)
    requires mtu > 0 && AllSendable(pkts) && Below(s.lsn, limit) && limit + |pkts| * STEP <= RL.MAX_SEQUENCE_NUMBER
    ensures var (s', r) := SendAll(s, pkts, mtu, isClient); r.Ok? && Below(s'.lsn, limit + |pkts| * STEP)
    decreases |pkts|
  {
    hide SendOne, Below;
    if pkts != [] {
      SendsOne(s, pkts[0], mtu, isClient, limit);
      SendsBatch(SendOne(s, pkts[0], mtu, isClient).0, pkts[1..], mtu, isClient, limit + STEP);
    }
  }

  lemma HellosAreSent(mtu: nat)
    requires mtu > 0
    ensures AllSendable(HELLO_PACKETS) && SendAll(SendState([], []), HELLO_PACKETS, mtu, false).1.Ok?
  {
    SendsBatch(SendState([], []), HELLO_PACKETS, mtu, false, 0);
  }

  function Hearing(raws: seq<Bytes>): seq<E.Activity> {
    seq(|raws|, i requires 0 <= i < |raws| => E.Receives(raws[i]))
  }

  lemma HearingOne(cfg: E.Config, acts: seq<E.Activity>, raw: Bytes)
    requires E.Allowed(cfg, acts)
    ensures var all := acts + [E.Receives(raw)];
      && E.Allowed(cfg, all) && E.Calls(all) == E.Calls(acts) && E.Emits(cfg, all) == E.Emits(cfg, acts)
      && E.Raws(all) == E.Raws(acts) + [raw]
  {
    hide SendAll, Receive, CacheAll;
    assert (acts + [E.Receives(raw)])[..|acts|] == acts;
    EmptyUnit(E.Calls(acts));
    EmptyUnit(E.Emits(cfg, acts));
  }

  lemma {:induction false} HearingSendsNothing(cfg: E.Config, acts: seq<E.Activity>, raws: seq<Bytes>)
    requires E.Allowed(cfg, acts)
    ensures E.Allowed(cfg, acts + Hearing(raws))
    ensures E.Calls(acts + Hearing(raws)) == E.Calls(acts)
    ensures E.Emits(cfg, acts + Hearing(raws)) == E.Emits(cfg, acts)
    ensures E.Raws(acts + Hearing(raws)) == E.Raws(acts) + raws
    decreases |raws|
  {
    hide E.After, E.Act, E.Allowed, E.Calls, E.Raws, E.Emits;
    if raws == [] {
      EmptyUnit(acts);
      EmptyUnit(E.Raws(acts));
    } else {
      var init, raw := raws[..|raws| - 1], raws[|raws| - 1];
      HearingSendsNothing(cfg, acts, init);
      assert acts + Hearing(raws) == acts + Hearing(init) + [E.Receives(raw)];
      HearingOne(cfg, acts + Hearing(init), raw);
      Assoc(E.Raws(acts), init, [raw]);
      assert init + [raw] == raws;
    }
  }

  function ServerActs(raws: seq<Bytes>): seq<E.Activity> {
    [E.Sends(HELLO_PACKETS)] + Hearing(raws)
  }

  lemma HellosAreListed()
    ensures Numbered(HELLO_LIST) && GoodBatch(HELLO_LIST, HELLO_PACKETS) && DoneIsLast(HELLO_LIST)
    ensures forall k :: 0 <= k < |HELLO_LIST| ==> Includes(HELLO_PACKETS, k)
    ensures forall k :: 0 <= k < |HELLO_LIST| ==> HELLO_LIST[k].message.header.typ.HasParser()
  {
    assert HELLO_LIST[0].message.header.messageSequence == 0 && HELLO_LIST[1].message.header.messageSequence == 1;
    assert GoodPacket(HELLO_LIST, HELLO_PACKETS[0]) && GoodPacket(HELLO_LIST, HELLO_PACKETS[1]);
    assert HELLO_PACKETS[0].content.message.header.messageSequence == 0;
    assert HELLO_PACKETS[1].content.message.header.messageSequence == 1;
  }

  lemma FirstCall(mtu: nat, k: nat)
    requires mtu > 0 && Includes(HELLO_PACKETS, k)
    ensures RunSendable([HELLO_PACKETS]) && SentIn([HELLO_PACKETS], mtu, false, k)
  {
    hide SendAll, Includes;
    HellosAreSent(mtu);
    var calls := [HELLO_PACKETS];
    assert calls[..0] == [] && SendRun([], mtu, false).0 == SendState([], []);
    assert Includes(calls[0], k) && SendAll(SendRun(calls[..0], mtu, false).0, calls[0], mtu, false).1.Ok?;
  }

  /** It sends its two messages, and then hears whatever it hears. */
  lemma HelloServer(cfg: E.Config, raws: seq<Bytes>)
    requires GoodMtu(cfg.mtu) && !cfg.isClient && forall t, b :: cfg.accepts(t, b)
    ensures IsServer(cfg, ServerActs(raws), HELLO_LIST) && DoneIsLast(HELLO_LIST) && E.Allowed(cfg, ServerActs(raws))
    ensures E.Raws(ServerActs(raws)) == raws && E.Emits(cfg, ServerActs(raws)) == E.Emits(cfg, ServerActs([]))
  {
    hide SendAll, Datagrams, H.MarshalHeader, GoodBatch, Numbered, Includes, SentIn, DoneIsLast, E.Emits;
    var first := [E.Sends(HELLO_PACKETS)];
    HellosAreSent(cfg.mtu);
    HellosAreListed();
    assert first[..0] == [];
    assert E.Calls([]) == [] && E.Raws([]) == [];
    assert E.Calls(first) == [HELLO_PACKETS] && E.Raws(first) == [];
    HearingSendsNothing(cfg, first, raws);
    HearingSendsNothing(cfg, first, []);
    assert [] + raws == raws;
    forall k | 0 <= k < |HELLO_LIST| ensures SentIn([HELLO_PACKETS], cfg.mtu, false, k) {
      FirstCall(cfg.mtu, k);
    }
  }

  // ---------------------------------------------------------------- the client's side

  const FIRST_INPUTS := [Loop(S.Advance), Loop(S.Advance)]

  lemma FirstFlight(env: F.Env, mtu: nat)
    requires mtu > 0 && env.clientHello([]) == []
    ensures var p := Play(env, mtu, FIRST_INPUTS); var hello := Empty(H.ClientHello, 0);
      && p.client == S.Client(S.Waiting, F.Flight1, F.INITIAL_STATE.(sendSequence := 1), [F.Plaintext(hello)], p.client.items, false, false)
      && Prepared(env, mtu, FIRST_INPUTS) == [Sent(hello, 0)]
      && E.Raws(Activities(env, mtu, FIRST_INPUTS)) == []
      && Below(p.lsn, STEP)
  {
    hide SendAll, H.MarshalHeader, AllFine, AllSendable;
    var hello := Empty(H.ClientHello, 0);
    var packet := F.Plaintext(hello);
    var one := [Loop(S.Advance)];
    assert FIRST_INPUTS[..1] == one && one[..0] == [];
    var c := START.client;
    var unnumbered := F.ClientHelloPackets(env, F.INITIAL_STATE)[0];
    EmptyUnit([unnumbered]);
    T.NumberCons(unnumbered, [], 0);
    assert F.NumberPackets([], 1) == ([], 1);
    assert F.NumberPackets([unnumbered], 0) == ([packet], 1);
    PlayStep(env, mtu, one);
    assert Play(env, mtu, []) == START;
    var p1 := Play(env, mtu, one);
    assert p1.client == S.Client(S.Sending, F.Flight1, F.INITIAL_STATE.(sendSequence := 1), [packet], [], false, false);
    PlayStep(env, mtu, FIRST_INPUTS);
    SendsBatch(SendState([], []), [packet], mtu, true, 0);
    assert MessagesIn([]) == [];
    assert MessagesIn([packet]) == [Sent(hello, 0)];
    assert Prepared(env, mtu, []) == [];
    assert Prepared(env, mtu, one) == [Sent(hello, 0)];
    assert Activities(env, mtu, []) == [];
    assert Activities(env, mtu, one) == [];
    assert Activities(env, mtu, FIRST_INPUTS) == [E.Sends([packet])];
    assert [E.Sends([packet])][..0] == [];
  }

  function Hears(raws: seq<Bytes>): seq<Input> {
    seq(|raws|, i requires 0 <= i < |raws| => Hear(raws[i]))
  }

  lemma OneMoreHeard(env: F.Env, mtu: nat, inputs: seq<Input>, raw: Bytes)
    requires mtu > 0
    ensures var p, p' := Play(env, mtu, inputs), Play(env, mtu, inputs + [Hear(raw)]);
      p'.client == p.client.(items := p'.client.items) && p'.lsn == p.lsn
    ensures Prepared(env, mtu, inputs + [Hear(raw)]) == Prepared(env, mtu, inputs)
    ensures Activities(env, mtu, inputs + [Hear(raw)]) == Activities(env, mtu, inputs) + [E.Receives(raw)]
  {
    hide Receive, CacheAll, AllFine, AllSendable, MessagesIn, Play;
    var all := inputs + [Hear(raw)];
    assert all[..|all| - 1] == inputs;
    PlayStep(env, mtu, all);
    EmptyUnit(Prepared(env, mtu, inputs));
  }

  lemma {:induction false} HearingOnlyCaches(env: F.Env, mtu: nat, inputs: seq<Input>, raws: seq<Bytes>)
    requires mtu > 0
    ensures var p, p' := Play(env, mtu, inputs), Play(env, mtu, inputs + Hears(raws));
      p'.client == p.client.(items := p'.client.items) && p'.lsn == p.lsn
    ensures Prepared(env, mtu, inputs + Hears(raws)) == Prepared(env, mtu, inputs)
    ensures Activities(env, mtu, inputs + Hears(raws)) == Activities(env, mtu, inputs) + Hearing(raws)
    decreases |raws|
  {
    hide Play, Prepared, Activities, AllFine, AllSendable;
    if raws == [] {
      EmptyUnit(inputs);
      EmptyUnit(Activities(env, mtu, inputs));
    } else {
      var init, raw := raws[..|raws| - 1], raws[|raws| - 1];
      HearingOnlyCaches(env, mtu, inputs, init);
      assert inputs + Hears(raws) == inputs + Hears(init) + [Hear(raw)];
      OneMoreHeard(env, mtu, inputs + Hears(init), raw);
      Assoc(Activities(env, mtu, inputs), Hearing(init), [E.Receives(raw)]);
      assert Hearing(init) + [E.Receives(raw)] == Hearing(raws);
    }
  }

  const HELLO := Empty(H.ClientHello, 0)
  const SERVER_HELLO := Empty(H.ServerHello, 0)
  const DONE_MESSAGE := Empty(H.ServerHelloDone, 1)

  /** The cache of a client that has heard the server's two messages. */
  ghost predicate HasHellos(items: seq<HC.Item>) {
    forall x :: x in items <==>
      x == ItemOf(HELLO, 0, true) || x == ItemOf(SERVER_HELLO, 0, false) || x == ItemOf(DONE_MESSAGE, 0, false)
  }

  lemma HeldIsHellos(items: seq<HC.Item>)
    requires Holds(items, [Sent(HELLO, 0)], HELLO_LIST, 2, true)
    ensures HasHellos(items)
  {
    hide HC.UniqueKeys, H.MarshalHeader;
    assert HELLO_LIST[..2] == HELLO_LIST;
    var own, theirs := X.ItemsOf([Sent(HELLO, 0)], true), X.ItemsOf(HELLO_LIST, false);
    assert own[0] == ItemOf(HELLO, 0, true);
    assert theirs[0] == ItemOf(SERVER_HELLO, 0, false) && theirs[1] == ItemOf(DONE_MESSAGE, 0, false);
  }

  lemma BestHellos(items: seq<HC.Item>, r: HC.Rule)
    requires HasHellos(items)
    ensures r == F.Server(H.ServerHello, true) || r == F.Server(H.ServerHello, false) ==> HC.Best(items, r) == Some(ItemOf(SERVER_HELLO, 0, false))
    ensures r == F.Server(H.ServerHelloDone, false) ==> HC.Best(items, r) == Some(ItemOf(DONE_MESSAGE, 0, false))
    ensures !r.isClient && r.typ != H.ServerHello && r.typ != H.ServerHelloDone ==> HC.Best(items, r) == None
  {
    hide H.MarshalHeader;
    HC.BestMeans(items, r);
    assert ItemOf(SERVER_HELLO, 0, false) in items && ItemOf(DONE_MESSAGE, 0, false) in items;
  }

  lemma HelloRulesPull(items: seq<HC.Item>, x: HC.Item, y: HC.Item)
    requires HC.Best(items, F.Server(H.HelloVerifyRequest, true)) == None
    requires HC.Best(items, F.Server(H.ServerHello, true)) == Some(x)
    requires HC.Best(items, F.Server(H.ServerHello, false)) == Some(x)
    requires HC.Best(items, F.Server(H.ServerKeyExchange, true)) == None
    requires HC.Best(items, F.Server(H.ServerHelloDone, false)) == Some(y)
    ensures HC.Pull(items, F.FLIGHT1_RULES) == [x]
    ensures HC.Pull(items, F.HELLO_VERIFY_RULES) == []
    ensures HC.Pull(items, F.PSK_RULES) == [x, y]
    ensures !HC.MissesMandatory(items, F.PSK_RULES)
  {
    hide HC.Best;
    assert HC.Pull(items, []) == [];
    var r1, r2, r3 := F.FLIGHT1_RULES, F.HELLO_VERIFY_RULES, F.PSK_RULES;
    assert r1[1..] == [r1[1]] && [r1[1]][1..] == [] && r2[1..] == [];
    assert r3[1..] == [r3[1], r3[2]] && [r3[1], r3[2]][1..] == [r3[2]] && [r3[2]][1..] == [];
    assert HC.Pull(items, [r1[1]]) == [x];
    assert HC.Pull(items, [r3[2]]) == [y];
    assert HC.Pull(items, [r3[1], r3[2]]) == [y];
  }

  /** The three pulls of flight 1. */
  lemma HelloPulls(env: F.Env, items: seq<HC.Item>)
    requires HasHellos(items) && forall t, b :: env.accepts(t, b)
    ensures HC.FullPullSpec(env.accepts, items, 0, F.FLIGHT1_RULES) == Ok((1, map[H.ServerHello := SERVER_HELLO]))
    ensures HC.FullPullSpec(env.accepts, items, 0, F.HELLO_VERIFY_RULES) == Ok((0, map[]))
    ensures HC.FullPullSpec(env.accepts, items, 0, F.PSK_RULES)
         == Ok((2, map[H.ServerHello := SERVER_HELLO, H.ServerHelloDone := DONE_MESSAGE]))
  {
    hide HC.Best, HC.Pull, H.MarshalHeader, HC.UnmarshalMessage, HC.FullPullSpec, HasHellos;
    var x, y := ItemOf(SERVER_HELLO, 0, false), ItemOf(DONE_MESSAGE, 0, false);
    HC.ParsesBack(env.accepts, SERVER_HELLO);
    HC.ParsesBack(env.accepts, DONE_MESSAGE);
    BestHellos(items, F.Server(H.HelloVerifyRequest, true));
    BestHellos(items, F.Server(H.ServerHello, true));
    BestHellos(items, F.Server(H.ServerHello, false));
    BestHellos(items, F.Server(H.ServerKeyExchange, true));
    BestHellos(items, F.Server(H.ServerHelloDone, false));
    HelloRulesPull(items, x, y);
    HC.FullPullIsGapFree(env.accepts, items, 0, F.FLIGHT1_RULES);
    HC.FullPullIsGapFree(env.accepts, items, 0, F.HELLO_VERIFY_RULES);
    HC.FullPullIsGapFree(env.accepts, items, 0, F.PSK_RULES);
    MessagesOfTwo(env, x, y);
  }

  lemma MessagesOfTwo(env: F.Env, x: HC.Item, y: HC.Item)
    requires HC.UnmarshalMessage(env.accepts, x.data).Some? && HC.UnmarshalMessage(env.accepts, y.data).Some?
    ensures HC.Messages(env.accepts, [x], map[]) == map[x.typ := HC.UnmarshalMessage(env.accepts, x.data).value]
    ensures HC.Messages(env.accepts, [x, y], map[])
         == map[x.typ := HC.UnmarshalMessage(env.accepts, x.data).value, y.typ := HC.UnmarshalMessage(env.accepts, y.data).value]
  {
    hide HC.UnmarshalMessage;
    var m, n := HC.UnmarshalMessage(env.accepts, x.data).value, HC.UnmarshalMessage(env.accepts, y.data).value;
    assert [x, y][1..] == [y] && [y][1..] == [] && [x][1..] == [];
    assert HC.Messages(env.accepts, [], map[x.typ := m]) == map[x.typ := m];
    assert HC.Messages(env.accepts, [], map[x.typ := m][y.typ := n]) == map[x.typ := m][y.typ := n];
    assert HC.Messages(env.accepts, [y], map[x.typ := m]) == map[x.typ := m][y.typ := n];
  }

  const AT_FLIGHT5 := F.INITIAL_STATE.(sendSequence := 1, recvSequence := 2, suite := Some(F.Suite(false)))

  lemma HellosParse(crypto: Prf.Crypto, c: S.Client)
    requires HasHellos(c.items)
    requires c == S.Client(S.Waiting, F.Flight1, F.INITIAL_STATE.(sendSequence := 1), c.flights, c.items, false, false)
    ensures S.Step(PskEnv(crypto), c, S.Notify) == c.(state := AT_FLIGHT5, flight := F.Flight5, phase := S.Preparing)
  {
    hide HC.FullPullSpec, H.MarshalHeader, HasHellos, HC.Best;
    HelloPulls(PskEnv(crypto), c.items);
  }

  lemma HellosGenerate(crypto: Prf.Crypto, items: seq<HC.Item>)
    requires HasHellos(items)
    ensures var g := F.Generate5(PskEnv(crypto), AT_FLIGHT5, items);
      g.Some? && g.value.state.preMaster == [] && g.value.certificate.None? && g.value.verify.None?
  {
    hide H.MarshalHeader, HasHellos, HC.Best, HC.SessionHashSpec, Prf.MasterSecret, Prf.ExtendedMasterSecret,
      F.MarshalAll, Prf.VerifyDataClient, HC.UnmarshalMessage, F.TranscriptRules;
    BestHellos(items, F.SERVER_KEY_EXCHANGE_RULES[0]);
    assert F.SERVER_KEY_EXCHANGE_RULES[1..] == [] && HC.Pull(items, []) == [];
    assert HC.Pull(items, F.SERVER_KEY_EXCHANGE_RULES) == [];
  }

  /** So it goes on to flight 5, and can generate it. */
  lemma HellosLeadToFlight5(crypto: Prf.Crypto, c: S.Client)
    requires HasHellos(c.items)
    requires c == S.Client(S.Waiting, F.Flight1, F.INITIAL_STATE.(sendSequence := 1), c.flights, c.items, false, false)
    ensures var env, c' := PskEnv(crypto), S.Step(PskEnv(crypto), c, S.Notify);
      && Ready(env, c') && c'.state == AT_FLIGHT5
      && var g := F.Generate5(env, c'.state, c'.items).value;
         g.state.preMaster == [] && g.certificate.None? && g.verify.None?
  {
    hide HasHellos, S.Step, F.Generate5;
    HellosParse(crypto, c);
    HellosGenerate(crypto, c.items);
  }

  // ---------------------------------------------------------------- the run

  function ServerConfig(crypto: Prf.Crypto, mtu: nat): E.Config {
    E.Config(false, mtu, PskEnv(crypto).accepts)
  }

  /** The records of the server's flight. */
  function HelloRaws(crypto: Prf.Crypto, serverMtu: nat): seq<Bytes>
    requires GoodMtu(serverMtu)
  {
    HelloServer(ServerConfig(crypto, serverMtu), []);
    RL.UnpackAll(E.Emits(ServerConfig(crypto, serverMtu), ServerActs([])))
  }

  /** The client up to flight 5: it sends its hello, hears the server and reads. */
  function UpToFlight5(crypto: Prf.Crypto, serverMtu: nat): seq<Input>
    requires GoodMtu(serverMtu)
  {
    FIRST_INPUTS + Hears(HelloRaws(crypto, serverMtu)) + [Loop(S.Notify)]
  }

  /** Hearing everything fills its cache with both messages. */
  lemma ClientHears(crypto: Prf.Crypto, mtu: nat, serverMtu: nat)
    requires GoodMtu(mtu) && GoodMtu(serverMtu)
    ensures var p := Play(PskEnv(crypto), mtu, FIRST_INPUTS + Hears(HelloRaws(crypto, serverMtu)));
      && HasHellos(p.client.items) && Below(p.lsn, STEP)
      && p.client == S.Client(S.Waiting, F.Flight1, F.INITIAL_STATE.(sendSequence := 1), p.client.flights, p.client.items, false, false)
      && Prepared(PskEnv(crypto), mtu, FIRST_INPUTS + Hears(HelloRaws(crypto, serverMtu))) == [Sent(HELLO, 0)]
      && E.Raws(Activities(PskEnv(crypto), mtu, FIRST_INPUTS + Hears(HelloRaws(crypto, serverMtu)))) == HelloRaws(crypto, serverMtu)
  {
    hide AllFine, AllSendable, Play, Prepared, Activities, E.Emits, RL.UnpackAll, Holds, HasHellos, H.MarshalHeader,
      E.Calls, E.Allowed, SendAll, DatagramRun, E.AllFrom;
    var env, cfg, raws := PskEnv(crypto), ServerConfig(crypto, serverMtu), HelloRaws(crypto, serverMtu);
    var inputs := FIRST_INPUTS + Hears(raws);
    HelloServer(cfg, []);
    FirstFlight(env, mtu);
    HearingOnlyCaches(env, mtu, FIRST_INPUTS, raws);
    PlayIsEndpoint(env, mtu, FIRST_INPUTS);
    HearingSendsNothing(ConfigOf(env, mtu), Activities(env, mtu, FIRST_INPUTS), raws);
    assert [] + raws == raws;
    var acts := ServerActs([]);
    assert HeardFrom(raws, cfg, acts);
    var n := ClientHolds(env, mtu, inputs, cfg, acts, HELLO_LIST);
    HeardIsFrom(HELLO_LIST, cfg, acts, raws);
    E.EmitsItsCalls(cfg, acts);
    E.ReleasesAll(ConfigOf(env, mtu), Activities(env, mtu, inputs), HELLO_LIST, E.Calls(acts), serverMtu, false);
    HeldIsHellos(Play(env, mtu, inputs).client.items);
  }

  lemma ReachesFlight5(crypto: Prf.Crypto, mtu: nat, serverMtu: nat)
    requires GoodMtu(mtu) && GoodMtu(serverMtu)
    ensures var env, inputs := PskEnv(crypto), UpToFlight5(crypto, serverMtu); var p := Play(env, mtu, inputs);
      && Ready(env, p.client) && Below(p.lsn, STEP) && p.client.state == AT_FLIGHT5
      && (var g := F.Generate5(env, p.client.state, p.client.items).value;
          g.state.preMaster == [] && g.certificate.None? && g.verify.None?)
      && Prepared(env, mtu, inputs) == [Sent(HELLO, 0)]
      && E.Raws(Activities(env, mtu, inputs)) == HelloRaws(crypto, serverMtu)
  {
    hide AllFine, AllSendable, Play, HelloRaws, HasHellos, H.MarshalHeader, S.Step, Below, E.Raws, F.Generate5;
    var env, inputs := PskEnv(crypto), UpToFlight5(crypto, serverMtu);
    var init := FIRST_INPUTS + Hears(HelloRaws(crypto, serverMtu));
    ClientHears(crypto, mtu, serverMtu);
    assert inputs[..|inputs| - 1] == init && inputs[|inputs| - 1] == Loop(S.Notify);
    PlayStep(env, mtu, inputs);
    HellosLeadToFlight5(crypto, Play(env, mtu, init).client);
    EmptyUnit(Prepared(env, mtu, init));
    EmptyUnit(Activities(env, mtu, init));
  }

  lemma {:induction false} NumberingKeepsCount(pkts: seq<Packet>, n: nat)
    ensures |F.NumberPackets(pkts, n).0| == |pkts|
  {
    if pkts != [] {
      match pkts[0].content {
        case Plain(_, _) => NumberingKeepsCount(pkts[1..], n);
        case HandshakeContent(_) => NumberingKeepsCount(pkts[1..], n + 1);
      }
    }
  }

  /** Two more turns send flight 5. */
  lemma SendsFlight5(env: F.Env, mtu: nat, inputs: seq<Input>)
    requires mtu > 0
    requires var p := Play(env, mtu, inputs); Ready(env, p.client) && Below(p.lsn, STEP)
    ensures var c := Play(env, mtu, inputs + [Loop(S.Advance)] + [Loop(S.Advance)]).client;
      Alive(c) && c.phase == S.Waiting
    ensures E.Raws(Activities(env, mtu, inputs + [Loop(S.Advance)] + [Loop(S.Advance)])) == E.Raws(Activities(env, mtu, inputs))
  {
    hide AllFine, AllSendable, Play, F.Generate5, F.NumberPackets, SendAll, Below;
    var p := Play(env, mtu, inputs);
    var next := inputs + [Loop(S.Advance)];
    var whole := next + [Loop(S.Advance)];
    assert next[..|next| - 1] == inputs && next[|next| - 1] == Loop(S.Advance);
    assert whole[..|whole| - 1] == next && whole[|whole| - 1] == Loop(S.Advance);
    PlayStep(env, mtu, next);
    PlayStep(env, mtu, whole);
    FlightsAfter(env, mtu, p, Loop(S.Advance));
    var q := Play(env, mtu, next);
    NumberingKeepsCount(F.Flight5Packets(F.Generate5(env, p.client.state, p.client.items).value), p.client.state.sendSequence);
    SendsBatch(SendState(q.lsn, q.client.items), q.client.flights, mtu, true, STEP);
    var acts := Activities(env, mtu, inputs);
    EmptyUnit(acts);
    assert (acts + [E.Sends(q.client.flights)])[..|acts|] == acts;
    EmptyUnit(E.Raws(acts));
  }

  /** What flight 5 carries parses, since everything does here. */
  lemma AllParse(env: F.Env, c: S.Client)
    requires Ready(env, c) && T.EntersFlight5(env, c.state, c.items) && forall t, b :: env.accepts(t, b)
    ensures var sent := Flight5Sent(env, c);
      |sent| <= 4 && forall k :: 0 <= k < |sent| ==> X.Parses(env.accepts, sent[k])
  {
    hide F.Generate5, Flight5Sent, T.BeforeFlight5, T.AfterFlight5, HC.UniqueKeys;
    Flight5Order(env, c);
    var g, sent := F.Generate5(env, c.state, c.items).value, Flight5Sent(env, c);
    forall k | 0 <= k < |sent| ensures X.Parses(env.accepts, sent[k]) {
      if k < |sent| - 1 {
        assert sent[k] == Sent(g.Messages()[k], 0);
      }
    }
  }

  /** The records of the client's messages, flight 5 included. */
  function ClientRaws(crypto: Prf.Crypto, mtu: nat, serverMtu: nat): seq<Bytes>
    requires GoodMtu(mtu) && GoodMtu(serverMtu)
  {
    var env, sent := PskEnv(crypto), UpToFlight5(crypto, serverMtu) + [Loop(S.Advance)] + [Loop(S.Advance)];
    PlayIsEndpoint(env, mtu, sent);
    RL.UnpackAll(E.Emits(ConfigOf(env, mtu), Activities(env, mtu, sent)))
  }

  /** What a client emits it emits whatever it hears afterwards. */
  lemma ClientEmits(crypto: Prf.Crypto, mtu: nat, serverMtu: nat, extra: seq<Bytes>)
    requires GoodMtu(mtu) && GoodMtu(serverMtu)
    ensures var env := PskEnv(crypto);
      var sent := UpToFlight5(crypto, serverMtu) + [Loop(S.Advance)] + [Loop(S.Advance)];
      var p, p', acts := Play(env, mtu, sent), Play(env, mtu, sent + Hears(extra)), Activities(env, mtu, sent + Hears(extra));
      && E.Allowed(ConfigOf(env, mtu), acts)
      && RL.UnpackAll(E.Emits(ConfigOf(env, mtu), acts)) == ClientRaws(crypto, mtu, serverMtu)
      && E.Raws(acts) == E.Raws(Activities(env, mtu, sent)) + extra
      && p'.client == p.client.(items := p'.client.items)
  {
    hide AllFine, AllSendable, Play, Activities, E.Emits, RL.UnpackAll, E.Raws, E.Allowed, UpToFlight5;
    var env, sent := PskEnv(crypto), UpToFlight5(crypto, serverMtu) + [Loop(S.Advance)] + [Loop(S.Advance)];
    PlayIsEndpoint(env, mtu, sent);
    HearingOnlyCaches(env, mtu, sent, extra);
    HearingSendsNothing(ConfigOf(env, mtu), Activities(env, mtu, sent), extra);
  }

  /** There is such a run: a client that gets to flight 5 over the network and sends it, and a
      server that hears all of it; whatever the client hears then. */
  lemma HandshakeHappens(crypto: Prf.Crypto, mtu: nat, serverMtu: nat, extra: seq<Bytes>)
    requires GoodMtu(mtu) && GoodMtu(serverMtu)
    ensures var env, cfg := PskEnv(crypto), ServerConfig(crypto, serverMtu);
      var inputs, rest := UpToFlight5(crypto, serverMtu), [Loop(S.Advance)] + Hears(extra);
      var acts := ServerActs(ClientRaws(crypto, mtu, serverMtu));
      && Joined(env, mtu, inputs, rest, cfg, acts, HELLO_LIST)
      && AllHeard(env, mtu, inputs + [Loop(S.Advance)] + rest, cfg, acts)
      && SF.SeesFlight5(env, Play(env, mtu, inputs).client.state, Play(env, mtu, inputs).client.items, E.After(cfg, acts).items)
      && ET.FlightAt(HELLO_LIST, 0, 1)
  {
    hide AllFine, AllSendable, Play, Prepared, Activities, HelloRaws, UpToFlight5, H.MarshalHeader, Ready, S.Step,
      Below, E.Raws, E.Emits, RL.UnpackAll, E.Allowed, IsServer, Flight5Sent, X.Parses, E.After, SF.SeesFlight5,
      ServerActs, HasDone, T.EntersFlight5, ClientRaws;
    var env, cfg := PskEnv(crypto), ServerConfig(crypto, serverMtu);
    var inputs, rest := UpToFlight5(crypto, serverMtu), [Loop(S.Advance)] + Hears(extra);
    var whole := inputs + [Loop(S.Advance)] + rest;
    assert whole == inputs + [Loop(S.Advance)] + [Loop(S.Advance)] + Hears(extra);
    ReachesFlight5(crypto, mtu, serverMtu);
    var c := Play(env, mtu, inputs).client;
    ClientEmits(crypto, mtu, serverMtu, extra);
    var raws := ClientRaws(crypto, mtu, serverMtu);
    var acts := ServerActs(raws);
    HelloServer(cfg, raws);
    HelloServer(cfg, []);
    EntersWhenReady(env, mtu, inputs);
    AllParse(env, c);
    PreparesFlight5(env, mtu, inputs, rest);
    PreparedAreNumbered(env, mtu, whole);
    SendsFlight5(env, mtu, inputs);
    HelloRawsAre(crypto, serverMtu);
    HelloParses(env);
    var cms := Prepared(env, mtu, whole);
    assert cms[0] == Sent(HELLO, 0) && forall k :: 0 < k < |cms| ==> cms[k] == Flight5Sent(env, c)[k - 1];
    assert forall k :: 0 <= k < |cms| ==> X.Parses(env.accepts, cms[k]);
    assert HeardFrom(E.Raws(Activities(env, mtu, inputs)), cfg, acts);
    ServerSeesAll(env, mtu, inputs, rest, cfg, acts, HELLO_LIST);
  }

  lemma HelloParses(env: F.Env)
    requires forall t, b :: env.accepts(t, b)
    ensures X.Parses(env.accepts, Sent(HELLO, 0))
  {
  }

  lemma HelloRawsAre(crypto: Prf.Crypto, serverMtu: nat)
    requires GoodMtu(serverMtu)
    ensures E.Allowed(ServerConfig(crypto, serverMtu), ServerActs([]))
    ensures HelloRaws(crypto, serverMtu) == RL.UnpackAll(E.Emits(ServerConfig(crypto, serverMtu), ServerActs([])))
  {
    hide E.Emits, RL.UnpackAll;
    HelloServer(ServerConfig(crypto, serverMtu), []);
  }

  // ---------------------------------------------------------------- the server goes on, the client finishes

  function PskServerEnv(crypto: Prf.Crypto): SF.ServerEnv {
    SF.ServerEnv(crypto, PskEnv(crypto).accepts, SF.NoClientCert, b => Some([]), b => false, b => true, (t, v, c) => true, None,
                 b => true, [], [])
  }

  const SERVER_STATE := SF.State(1, Some(F.Suite(false)), false, [], None, false, [])

  /** The one message that a server with all of flight 5 can take for the client's Finished. */
  lemma FinishedIsNext(env: F.Env, c: S.Client, server: seq<HC.Item>, hellos: seq<Sent>, sms: seq<Sent>)
    requires Ready(env, c) && T.EntersFlight5(env, c.state, c.items)
    requires var cms := hellos + Flight5Sent(env, c);
      Numbered(cms) && Holds(server, sms, cms, |cms|, false) && forall k :: 0 <= k < |cms| ==> X.Parses(env.accepts, cms[k])
    requires HellosThen(hellos, Flight5Sent(env, c))
    ensures var m := HC.MessageFor(env.accepts, server, SA.FINISHED_RULE);
      && m.Some? && m.value.header.typ == H.Finished
      && m.value.header.messageSequence == |hellos| + |Flight5Sent(env, c)| - 1
  {
    hide F.Generate5, Flight5Sent, Holds, HellosThen, HC.Best, T.BeforeFlight5, H.MarshalHeader, T.AfterFlight5,
      HC.UniqueKeys, X.Parses, HC.UnmarshalMessage;
    var flight5 := Flight5Sent(env, c);
    Flight5Order(env, c);
    var last := |flight5| - 1;
    var f := flight5[last];
    assert (hellos + flight5)[|hellos| + last] == f;
    X.DeliveredParses(env.accepts, f);
    ThereInFlight5(server, hellos, flight5, sms, |hellos + flight5|, last);
    HC.BestMeans(server, SA.FINISHED_RULE);
    var x := HC.Best(server, SA.FINISHED_RULE).value;
    var k := PartOfFlight5(server, hellos, flight5, sms, |hellos + flight5|, x);
    assert k == last;
  }

  /** This server goes on to flight 6. */
  lemma GoesOn(crypto: Prf.Crypto, c: S.Client, server: seq<HC.Item>)
    requires Ready(PskEnv(crypto), c) && c.state == AT_FLIGHT5
    requires var env, cms := PskEnv(crypto), [Sent(HELLO, 0)] + Flight5Sent(PskEnv(crypto), c);
      && T.EntersFlight5(env, c.state, c.items)
      && Numbered(cms) && Holds(server, HELLO_LIST, cms, |cms|, false)
      && (forall k :: 0 <= k < |cms| ==> X.Parses(env.accepts, cms[k]))
      && HellosThen([Sent(HELLO, 0)], Flight5Sent(env, c))
      && var g := F.Generate5(env, c.state, c.items).value; g.certificate.None? && g.verify.None?
    ensures SF.Parse4(PskServerEnv(crypto), SERVER_STATE, server, []).2 == SF.Next6
  {
    hide F.Generate5, Flight5Sent, Holds, HellosThen, HC.Best, HC.Pull, T.BeforeFlight5, H.MarshalHeader,
      T.AfterFlight5, HC.UniqueKeys, X.Parses, HC.UnmarshalMessage, HC.FullPullSpec, SF.Parse4, HC.PullAndMergeSpec,
      Numbered;
    var env, hellos := PskEnv(crypto), [Sent(HELLO, 0)];
    var g, flight5 := F.Generate5(env, c.state, c.items).value, Flight5Sent(env, c);
    PullsFlight5(env, c, server, hellos, HELLO_LIST);
    HasOneOf(env, c, server, hellos, HELLO_LIST, 0, g.certificate);
    HasOneOf(env, c, server, hellos, HELLO_LIST, 1, Some(g.exchange));
    HasOneOf(env, c, server, hellos, HELLO_LIST, 2, g.verify);
    Flight5Order(env, c);
    HC.FullPullIsGapFree(env.accepts, server, 1, T.FLIGHT4_RULES);
    HC.ParsesBack(env.accepts, g.exchange);
    FinishedIsNext(env, c, server, hellos, HELLO_LIST);
    assert |g.Messages()| == 1;
    assert HC.PushAll(server, []) == server;
    SA.Enters6Exactly(PskServerEnv(crypto), SERVER_STATE, server, []);
  }

  /** The server once it has sent its Finished too. */
  lemma FinishedServer(cfg: E.Config, acts: seq<E.Activity>, f: H.Message)
    requires IsServer(cfg, acts, HELLO_LIST) && E.Calls(acts) == [HELLO_PACKETS] && forall t, b :: cfg.accepts(t, b)
    requires f.Whole() && f.header.typ == H.Finished && f.header.messageSequence == 2
    ensures var packets := [F.CHANGE_CIPHER_SPEC, Packet(RL.PROTOCOL_VERSION1_2, 1, HandshakeContent(f))];
      && IsServer(cfg, acts + [E.Sends(packets)], HELLO_LIST + [Sent(f, 1)])
      && E.Allowed(cfg, acts + [E.Sends(packets)])
      && exists more :: E.Emits(cfg, acts + [E.Sends(packets)]) == E.Emits(cfg, acts) + more
  {
    hide SendAll, SendOne, Datagrams, H.MarshalHeader, Includes, SentIn, GoodBatch, Below, E.After, E.Calls;
    var packets := [F.CHANGE_CIPHER_SPEC, Packet(RL.PROTOCOL_VERSION1_2, 1, HandshakeContent(f))];
    var sms, calls, all := HELLO_LIST + [Sent(f, 1)], E.Calls(acts), acts + [E.Sends(packets)];
    HellosAreListed();
    HellosAreSent(cfg.mtu);
    OneMoreActivity(cfg, acts, E.Sends(packets));
    CallsWithMore(HELLO_LIST, [Sent(f, 1)], calls);
    FinishedIsListed(f);
    forall k | 0 <= k < 2 ensures SentIn(calls + [packets], cfg.mtu, false, k) {
      SentWithMore(calls, packets, cfg.mtu, false, k);
    }
    NumbersLeft(cfg, acts);
    var e := E.After(cfg, acts);
    SendsBatch(SendState(e.lsn, e.items), packets, cfg.mtu, false, 2 * STEP);
    LastIsSent(cfg, acts, packets, 2);
    assert all[..|all| - 1] == acts;
    var more := Datagrams(SendAll(SendState(e.lsn, e.items), packets, cfg.mtu, false).1.value, cfg.mtu);
    assert E.Emits(cfg, all) == E.Emits(cfg, acts) + more;
  }

  lemma FinishedIsListed(f: H.Message)
    requires f.Whole() && f.header.typ == H.Finished && f.header.messageSequence == 2
    ensures var packets := [F.CHANGE_CIPHER_SPEC, Packet(RL.PROTOCOL_VERSION1_2, 1, HandshakeContent(f))];
      && GoodBatch(HELLO_LIST + [Sent(f, 1)], packets) && Includes(packets, 2) && AllSendable(packets)
      && Numbered(HELLO_LIST + [Sent(f, 1)])
  {
    var packets := [F.CHANGE_CIPHER_SPEC, Packet(RL.PROTOCOL_VERSION1_2, 1, HandshakeContent(f))];
    HellosAreListed();
    var sms := HELLO_LIST + [Sent(f, 1)];
    assert sms[2] == Sent(f, 1) && sms[0] == HELLO_LIST[0] && sms[1] == HELLO_LIST[1];
    assert packets[1].content.message.header.messageSequence == 2;
    assert GoodPacket(sms, packets[0]) && GoodPacket(sms, packets[1]);
  }

  lemma NumbersLeft(cfg: E.Config, acts: seq<E.Activity>)
    requires E.Allowed(cfg, acts) && !cfg.isClient && E.Calls(acts) == [HELLO_PACKETS]
    ensures Below(E.After(cfg, acts).lsn, 2 * STEP)
  {
    hide SendAll, E.After, E.Calls;
    E.EmitsItsCalls(cfg, acts);
    SendsBatch(SendState([], []), HELLO_PACKETS, cfg.mtu, false, 0);
    var calls := [HELLO_PACKETS];
    assert calls[..0] == [] && SendRun([], cfg.mtu, false).0 == SendState([], []);
  }

  /** The server of this run after it has heard flight 5. */
  function ServerUpTo(crypto: Prf.Crypto, mtu: nat, serverMtu: nat): seq<E.Activity>
    requires GoodMtu(mtu) && GoodMtu(serverMtu)
  {
    ServerActs(ClientRaws(crypto, mtu, serverMtu))
  }

  lemma ServerGoesOn(crypto: Prf.Crypto, mtu: nat, serverMtu: nat)
    requires GoodMtu(mtu) && GoodMtu(serverMtu)
    ensures var cfg, acts := ServerConfig(crypto, serverMtu), ServerUpTo(crypto, mtu, serverMtu);
      && IsServer(cfg, acts, HELLO_LIST) && E.Allowed(cfg, acts) && E.Calls(acts) == [HELLO_PACKETS]
      && SF.Parse4(PskServerEnv(crypto), SERVER_STATE, E.After(cfg, acts).items, []).2 == SF.Next6
  {
    hide AllFine, AllSendable, Play, Prepared, Activities, UpToFlight5, H.MarshalHeader, Ready, Below, E.Raws,
      E.Emits, RL.UnpackAll, E.Allowed, IsServer, Flight5Sent, X.Parses, E.After, SF.SeesFlight5, HasDone,
      T.EntersFlight5, ClientRaws, Joined, AllHeard, SF.Parse4, Holds, HellosThen, Numbered, F.Generate5;
    var env, cfg, acts := PskEnv(crypto), ServerConfig(crypto, serverMtu), ServerUpTo(crypto, mtu, serverMtu);
    var inputs, rest := UpToFlight5(crypto, serverMtu), [Loop(S.Advance)] + Hears([]);
    HandshakeHappens(crypto, mtu, serverMtu, []);
    HelloServer(cfg, ClientRaws(crypto, mtu, serverMtu));
    HelloCalls(cfg, ClientRaws(crypto, mtu, serverMtu));
    ReachesFlight5(crypto, mtu, serverMtu);
    JoinedIsReady(env, mtu, inputs, rest, cfg, acts, HELLO_LIST);
    JoinedHears(env, mtu, inputs, rest, cfg, acts, HELLO_LIST);
    PreparesFlight5(env, mtu, inputs, rest);
    var n, m := BothHold(env, mtu, inputs, rest, cfg, acts, HELLO_LIST);
    var all := ServerHoldsAll(env, mtu, inputs + [Loop(S.Advance)] + rest, cfg, acts, HELLO_LIST);
    GoesOn(crypto, Play(env, mtu, inputs).client, E.After(cfg, acts).items);
  }

  lemma HelloCalls(cfg: E.Config, raws: seq<Bytes>)
    requires cfg.mtu > 0
    ensures E.Calls(ServerActs(raws)) == [HELLO_PACKETS]
  {
    hide SendAll;
    var first := [E.Sends(HELLO_PACKETS)];
    HellosAreSent(cfg.mtu);
    assert first[..0] == [] && E.Calls([]) == [];
    HearingSendsNothing(cfg, first, raws);
  }

  lemma JoinedHears(env: F.Env, mtu: nat, inputs: seq<Input>, rest: seq<Input>,
                    cfg: E.Config, acts: seq<E.Activity>, sms: seq<Sent>)
    requires Joined(env, mtu, inputs, rest, cfg, acts, sms)
    ensures var whole := inputs + [Loop(S.Advance)] + rest;
      && E.Allowed(ConfigOf(env, mtu), Activities(env, mtu, whole))
      && HeardFrom(E.Raws(acts), ConfigOf(env, mtu), Activities(env, mtu, whole))
  {
    hide Play, Prepared, Numbered, X.Parses, AllFine, AllSendable, E.Raws, IsServer;
  }

  /** The server's Finished, and all it does to send it. */
  function FinishedOf(crypto: Prf.Crypto, mtu: nat, serverMtu: nat): H.Message
    requires GoodMtu(mtu) && GoodMtu(serverMtu)
  {
    ServerGoesOn(crypto, mtu, serverMtu);
    var server := E.After(ServerConfig(crypto, serverMtu), ServerUpTo(crypto, mtu, serverMtu)).items;
    var (t, after, _) := SF.Parse4(PskServerEnv(crypto), SERVER_STATE, server, []);
    SF.ServerFinished(PskServerEnv(crypto), t, after, 2)
  }

  function ServerThrough(crypto: Prf.Crypto, mtu: nat, serverMtu: nat): seq<E.Activity>
    requires GoodMtu(mtu) && GoodMtu(serverMtu)
  {
    ServerUpTo(crypto, mtu, serverMtu)
    + [E.Sends([F.CHANGE_CIPHER_SPEC, Packet(RL.PROTOCOL_VERSION1_2, 1, HandshakeContent(FinishedOf(crypto, mtu, serverMtu)))])]
  }

  lemma ServerIsThrough(crypto: Prf.Crypto, mtu: nat, serverMtu: nat)
    requires GoodMtu(mtu) && GoodMtu(serverMtu)
    ensures var cfg, sent := ServerConfig(crypto, serverMtu), ServerThrough(crypto, mtu, serverMtu);
      && IsServer(cfg, sent, HELLO_LIST + [Sent(FinishedOf(crypto, mtu, serverMtu), 1)]) && E.Allowed(cfg, sent)
      && forall raw :: raw in HelloRaws(crypto, serverMtu) ==> raw in RL.UnpackAll(E.Emits(cfg, sent))
  {
    hide E.Emits, RL.UnpackAll, IsServer, E.Allowed, HelloRaws, ClientRaws, E.Calls, SF.Parse4, E.After, FinishedOf,
      ServerActs;
    var cfg, acts := ServerConfig(crypto, serverMtu), ServerUpTo(crypto, mtu, serverMtu);
    ServerGoesOn(crypto, mtu, serverMtu);
    FinishedIsWhole(crypto, mtu, serverMtu);
    FinishedServer(cfg, acts, FinishedOf(crypto, mtu, serverMtu));
    HelloServer(cfg, ClientRaws(crypto, mtu, serverMtu));
    HelloServer(cfg, []);
    HelloRawsAre(crypto, serverMtu);
    var sent := ServerThrough(crypto, mtu, serverMtu);
    var more :| E.Emits(cfg, sent) == E.Emits(cfg, acts) + more;
    UnpackAllAppend(E.Emits(cfg, acts), more);
  }

  lemma FinishedIsWhole(crypto: Prf.Crypto, mtu: nat, serverMtu: nat)
    requires GoodMtu(mtu) && GoodMtu(serverMtu)
    ensures var f := FinishedOf(crypto, mtu, serverMtu);
      f.Whole() && f.header.typ == H.Finished && f.header.messageSequence == 2
  {
    hide SF.Parse4, E.After, ServerUpTo, SF.Generate6;
  }

  /** The whole run: client and server, with these two configurations, over datagrams of any
      sizes, with any hash and HMAC, finish the handshake with one master secret. */
  lemma HandshakeFinishes(crypto: Prf.Crypto, mtu: nat, serverMtu: nat) returns (inputs: seq<Input>)
    requires GoodMtu(mtu) && GoodMtu(serverMtu)
    ensures var env, cfg := PskEnv(crypto), ServerConfig(crypto, serverMtu);
      var acts, sent := ServerUpTo(crypto, mtu, serverMtu), ServerThrough(crypto, mtu, serverMtu);
      && E.Allowed(cfg, acts) && E.Allowed(cfg, sent) && E.Allowed(ConfigOf(env, mtu), Activities(env, mtu, inputs))
      && HeardFrom(E.Raws(Activities(env, mtu, inputs)), cfg, sent)
      && HeardFrom(E.Raws(acts), ConfigOf(env, mtu), Activities(env, mtu, inputs))
      && S.Step(env, Play(env, mtu, inputs).client, S.Notify).phase == S.Finished
      && Play(env, mtu, inputs).client.state.master
         == SF.Parse4(PskServerEnv(crypto), SERVER_STATE, E.After(cfg, acts).items, []).0.master
  {
    hide AllFine, AllSendable, Play, Prepared, Activities, UpToFlight5, H.MarshalHeader, Ready, Below, E.Raws,
      E.Emits, RL.UnpackAll, E.Allowed, IsServer, Flight5Sent, X.Parses, E.After, SF.SeesFlight5, HasDone,
      T.EntersFlight5, ClientRaws, Joined, AllHeard, SF.Parse4, Holds, Numbered, F.Generate5, ServerUpTo,
      ServerThrough, S.Step, HelloRaws, UpToDone, SF.ServerFinished, HC.PushAll;
    var env, cfg, env4 := PskEnv(crypto), ServerConfig(crypto, serverMtu), PskServerEnv(crypto);
    var acts, sent, f := ServerUpTo(crypto, mtu, serverMtu), ServerThrough(crypto, mtu, serverMtu), FinishedOf(crypto, mtu, serverMtu);
    ServerIsThrough(crypto, mtu, serverMtu);
    ServerGoesOn(crypto, mtu, serverMtu);
    var extra := RL.UnpackAll(E.Emits(cfg, sent));
    var first, rest := UpToFlight5(crypto, serverMtu), [Loop(S.Advance)] + Hears(extra);
    inputs := first + [Loop(S.Advance)] + rest;
    assert inputs == first + [Loop(S.Advance)] + [Loop(S.Advance)] + Hears(extra);
    HappensUpTo(crypto, mtu, serverMtu, extra);
    JoinedIsReady(env, mtu, first, rest, cfg, acts, HELLO_LIST);
    JoinedHears(env, mtu, first, rest, cfg, acts, HELLO_LIST);
    ReachesFlight5(crypto, mtu, serverMtu);
    SendsFlight5(env, mtu, first);
    ClientEmits(crypto, mtu, serverMtu, extra);
    HeardThrough(crypto, mtu, serverMtu, E.Raws(Activities(env, mtu, inputs)));
    HasFinished(crypto, mtu, serverMtu, inputs);
    PskIsAlike(crypto, Play(env, mtu, first).client);
    HellosEndWithDone();
    NothingQueued(E.After(cfg, acts).items);
    HandshakeCompletes(env, mtu, first, rest, cfg, acts, HELLO_LIST, env4, SERVER_STATE, [], acts, sent);
  }

  lemma HappensUpTo(crypto: Prf.Crypto, mtu: nat, serverMtu: nat, extra: seq<Bytes>)
    requires GoodMtu(mtu) && GoodMtu(serverMtu)
    ensures Joined(PskEnv(crypto), mtu, UpToFlight5(crypto, serverMtu), [Loop(S.Advance)] + Hears(extra),
                   ServerConfig(crypto, serverMtu), ServerUpTo(crypto, mtu, serverMtu), HELLO_LIST)
  {
    hide Joined, AllHeard, UpToFlight5, ServerActs, SF.SeesFlight5, E.After, Play, AllFine, AllSendable;
    HandshakeHappens(crypto, mtu, serverMtu, extra);
  }

  lemma HeardThrough(crypto: Prf.Crypto, mtu: nat, serverMtu: nat, raws: seq<Bytes>)
    requires GoodMtu(mtu) && GoodMtu(serverMtu)
    requires E.Allowed(ServerConfig(crypto, serverMtu), ServerThrough(crypto, mtu, serverMtu))
    requires raws == HelloRaws(crypto, serverMtu)
                     + RL.UnpackAll(E.Emits(ServerConfig(crypto, serverMtu), ServerThrough(crypto, mtu, serverMtu)))
    ensures HeardFrom(raws, ServerConfig(crypto, serverMtu), ServerThrough(crypto, mtu, serverMtu))
  {
    hide E.Emits, RL.UnpackAll, E.Allowed, HelloRaws, ServerThrough, IsServer;
    ServerIsThrough(crypto, mtu, serverMtu);
  }

  /** The client that has heard it all has the server's Finished. */
  lemma HasFinished(crypto: Prf.Crypto, mtu: nat, serverMtu: nat, inputs: seq<Input>)
    requires GoodMtu(mtu) && GoodMtu(serverMtu) && Numbered(Prepared(PskEnv(crypto), mtu, inputs))
    requires E.Allowed(ServerConfig(crypto, serverMtu), ServerThrough(crypto, mtu, serverMtu))
    requires var c := Play(PskEnv(crypto), mtu, inputs).client; !c.failed && c.phase != S.Sending
    requires var cfg, sent := ServerConfig(crypto, serverMtu), ServerThrough(crypto, mtu, serverMtu);
      var raws := E.Raws(Activities(PskEnv(crypto), mtu, inputs));
      HeardFrom(raws, cfg, sent) && forall raw :: raw in RL.UnpackAll(E.Emits(cfg, sent)) ==> raw in raws
    ensures ItemOf(FinishedOf(crypto, mtu, serverMtu), 1, false) in Play(PskEnv(crypto), mtu, inputs).client.items
  {
    hide AllFine, AllSendable, Play, Prepared, Activities, H.MarshalHeader, E.Raws, E.Emits, RL.UnpackAll, E.Allowed,
      IsServer, X.Parses, ServerThrough, FinishedOf, HeardFrom, Numbered, E.Calls, GoodCalls, DatagramRun, E.AllFrom,
      E.Released, SentIn, RunSendable;
    var env, cfg, sent := PskEnv(crypto), ServerConfig(crypto, serverMtu), ServerThrough(crypto, mtu, serverMtu);
    var sms := HELLO_LIST + [Sent(FinishedOf(crypto, mtu, serverMtu), 1)];
    ServerIsThrough(crypto, mtu, serverMtu);
    var n := ClientHolds(env, mtu, inputs, cfg, sent, sms);
    ServerHasSent(cfg, sent, sms);
    HeardIsFrom(sms, cfg, sent, E.Raws(Activities(env, mtu, inputs)));
    E.EmitsItsCalls(cfg, sent);
    E.ReleasesAll(ConfigOf(env, mtu), Activities(env, mtu, inputs), sms, E.Calls(sent), serverMtu, false);
    assert sms[2] == Sent(FinishedOf(crypto, mtu, serverMtu), 1);
    AtItem(sms, n, false, 2);
  }

  lemma ServerHasSent(cfg: E.Config, acts: seq<E.Activity>, sms: seq<Sent>)
    requires IsServer(cfg, acts, sms)
    ensures Numbered(sms) && GoodCalls(sms, E.Calls(acts)) && RunSendable(E.Calls(acts))
    ensures forall k :: 0 <= k < |sms| ==> SentIn(E.Calls(acts), cfg.mtu, false, k)
  {
    hide Numbered, GoodCalls, E.Calls, SentIn, X.Parses, E.Allowed, RunSendable;
  }

  lemma PskIsAlike(crypto: Prf.Crypto, c: S.Client)
    requires Ready(PskEnv(crypto), c) && c.state == AT_FLIGHT5
    requires F.Generate5(PskEnv(crypto), c.state, c.items).value.state.preMaster == []
    ensures Alike(PskEnv(crypto), c, PskServerEnv(crypto), SERVER_STATE)
  {
    hide F.Generate5;
  }

  lemma HellosEndWithDone()
    ensures UpToDone(HELLO_LIST)
  {
  }

  lemma NothingQueued(items: seq<HC.Item>)
    ensures HC.PushAll(items, []) == items
  {
  }
}
