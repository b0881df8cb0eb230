/** What the transcripts of a handshake consist of: the messages exchanged, in the order of
    their numbers, from the last ClientHello on. */
module ExchangeText {
  import opened Bytes
  import opened Wrappers
  import H = Handshake
  import HC = HandshakeCache
  import Prf
  import opened Conn
  import opened Delivery
  import opened Network
  import F = Flights
  import T = Transcript
  import S = Handshaker
  import SF = ServerFlight
  import E = Endpoints
  import X = Exchange
  import opened ClientRun
  import opened EndToEnd

  /** The messages, whole, one behind the other. */
  function TextOf(ms: seq<Sent>): Bytes {
    Concat(Marshals(ms))
  }

  function Marshals(ms: seq<Sent>): seq<Bytes> {
    seq(|ms|, i requires 0 <= i < |ms| => ms[i].message.Marshal())
  }

  lemma TextAppend(a: seq<Sent>, b: seq<Sent>)
    ensures TextOf(a + b) == TextOf(a) + TextOf(b)
  {
    hide H.MarshalHeader, Concat;
    assert Marshals(a + b) == Marshals(a) + Marshals(b);
    ConcatAppend(Marshals(a), Marshals(b));
  }

  lemma TextOfOne(sent: Sent)
    ensures TextOf([sent]) == sent.message.Marshal()
  {
    hide H.MarshalHeader;
    assert Marshals([sent]) == [sent.message.Marshal()] && [sent.message.Marshal()][1..] == [];
    assert Concat([]) == [];
    EmptyUnit(sent.message.Marshal());
  }

  lemma {:induction false} MergeIsText(ms: seq<Sent>, isClient: bool)
    ensures HC.Merge(X.ItemsOf(ms, isClient)) == TextOf(ms)
  {
    hide H.MarshalHeader;
    if ms == [] {
      assert Marshals(ms) == [];
    } else {
      MergeIsText(ms[1..], isClient);
      assert X.ItemsOf(ms, isClient)[1..] == X.ItemsOf(ms[1..], isClient);
      assert Marshals(ms)[1..] == Marshals(ms[1..]);
    }
  }

  // ---------------------------------------------------------------- the server's flight on its list

  /** The order of the server's flight in section 7.3 of RFC 5246. */
  function Rank(typ: H.HandshakeType): nat {
    match typ
    case ServerHello => 0
    case Certificate => 1
    case ServerKeyExchange => 2
    case CertificateRequest => 3
    case ServerHelloDone => 4
    case _ => 5
  }

  /** From ServerHello at a to ServerHelloDone at z, each message of a later kind than the one
      before, and no such messages before or behind. */
  predicate FlightAt(sms: seq<Sent>, a: nat, z: nat) {
    && a <= z < |sms|
    && sms[a].message.header.typ == H.ServerHello && sms[z].message.header.typ == H.ServerHelloDone
    && (forall i :: 0 <= i < |sms| ==> (IsServerHello(sms[i]) <==> a <= i <= z))
    && (forall i, j :: a <= i < j <= z ==> Rank(sms[i].message.header.typ) < Rank(sms[j].message.header.typ))
  }

  function ServerRules(): seq<HC.Rule> {
    T.EarlyRules()[1..]
  }

  lemma {:induction false} PlaceAt(x: HC.Item, rules: seq<HC.Rule>, i: nat)
    requires i < |rules| && HC.Matches(x, rules[i]) && forall j :: 0 <= j < i ==> !HC.Matches(x, rules[j])
    ensures HC.Place(x, rules) == i && HC.MatchesAny(x, rules)
    decreases i
  {
    hide HC.Matches;
    if i > 0 {
      assert rules[1..][i - 1] == rules[i];
      assert forall j :: 0 <= j < i - 1 ==> rules[1..][j] == rules[j + 1];
      PlaceAt(x, rules[1..], i - 1);
    }
  }

  lemma PlaceIsRank(x: HC.Item)
    requires !x.isClient && x.epoch == 0 && Rank(x.typ) < 5
    ensures HC.Place(x, ServerRules()) == Rank(x.typ) && HC.MatchesAny(x, ServerRules())
  {
    PlaceAt(x, ServerRules(), Rank(x.typ));
  }

  lemma ServersOnly(x: HC.Item)
    requires HC.MatchesAny(x, ServerRules())
    ensures !x.isClient && x.epoch == 0 && Rank(x.typ) < 5
  {
    var i :| 0 <= i < |ServerRules()| && HC.Matches(x, ServerRules()[i]);
  }

  /** A client that has the server's flight up to ServerHelloDone has it whole. */
  lemma FlightIsHeld(items: seq<HC.Item>, hellos: seq<Sent>, sms: seq<Sent>, n: nat, a: nat, z: nat)
    requires Holds(items, hellos, sms, n, true) && FlightAt(sms, a, z)
    requires exists d :: d in items && HC.Matches(d, DONE)
    ensures HC.AreThose(items, ServerRules(), X.ItemsOf(sms[a..z + 1], false))
  {
    hide HC.UniqueKeys, X.ItemsOf, H.MarshalHeader, HC.MatchesAny;
    var d :| d in items && HC.Matches(d, DONE);
    if d in X.ItemsOf(hellos, true) {
      var k := ItemAt(hellos, true, d);
    }
    var last := ItemAt(sms[..n], false, d);
    assert IsServerHello(sms[last]);
    assert last == z;
    var flight := sms[a..z + 1];
    forall x ensures x in X.ItemsOf(flight, false) <==> x in items && HC.MatchesAny(x, ServerRules()) {
      if x in X.ItemsOf(flight, false) {
        var k := ItemAt(flight, false, x);
        assert flight[k] == sms[a + k] && IsServerHello(sms[a + k]);
        AtItem(sms, n, false, a + k);
        PlaceIsRank(x);
      }
      if x in items && HC.MatchesAny(x, ServerRules()) {
        ServersOnly(x);
        if x in X.ItemsOf(hellos, true) {
          var k := ItemAt(hellos, true, x);
        }
        var k := ItemAt(sms[..n], false, x);
        assert IsServerHello(sms[k]) && sms[k] == flight[k - a];
        AtItem(flight, |flight|, false, k - a);
      }
    }
  }

  lemma FlightInOrder(sms: seq<Sent>, a: nat, z: nat)
    requires FlightAt(sms, a, z)
    ensures HC.InRuleOrder(X.ItemsOf(sms[a..z + 1], false), ServerRules())
  {
    hide H.MarshalHeader, HC.Place;
    var flight := sms[a..z + 1];
    var found := X.ItemsOf(flight, false);
    forall i | 0 <= i < |found| ensures HC.Place(found[i], ServerRules()) == Rank(flight[i].message.header.typ) {
      assert flight[i] == sms[a + i] && IsServerHello(sms[a + i]);
      PlaceIsRank(found[i]);
    }
  }

  lemma FlightFits(sms: seq<Sent>, a: nat, z: nat)
    requires FlightAt(sms, a, z)
    ensures a <= z < |sms|
  {
  }

  lemma ServerTextIs(items: seq<HC.Item>, hellos: seq<Sent>, sms: seq<Sent>, n: nat, a: nat, z: nat)
    requires Holds(items, hellos, sms, n, true) && FlightAt(sms, a, z)
    requires exists d :: d in items && HC.Matches(d, DONE)
    ensures HC.PullAndMergeSpec(items, ServerRules()) == TextOf(sms[a..z + 1])
  {
    hide HC.Pull, Holds, FlightAt, HC.AreThose, HC.InRuleOrder, HC.Merge, TextOf;
    FlightFits(sms, a, z);
    FlightIsHeld(items, hellos, sms, n, a, z);
    FlightInOrder(sms, a, z);
    assert HC.RulesApart(ServerRules());
    HC.PullIsInOrder(items, ServerRules(), X.ItemsOf(sms[a..z + 1], false));
    MergeIsText(sms[a..z + 1], false);
  }

  // ---------------------------------------------------------------- the last ClientHello

  /** Plaintext ClientHello messages, at least one. */
  predicate AreHellos(hellos: seq<Sent>) {
    && hellos != []
    && forall i :: 0 <= i < |hellos| ==> hellos[i].epoch == 0 && hellos[i].message.header.typ == H.ClientHello
  }

  function Last(hellos: seq<Sent>): Sent
    requires hellos != []
  {
    hellos[|hellos| - 1]
  }

  lemma HelloTextIs(items: seq<HC.Item>, hellos: seq<Sent>, sms: seq<Sent>, n: nat)
    requires Holds(items, hellos, sms, n, true) && AreHellos(hellos) && Numbered(hellos)
    ensures HC.Best(items, HC.Rule(H.ClientHello, 0, true, false)) == Some(ItemOf(Last(hellos).message, 0, true))
  {
    hide HC.Best, X.ItemsOf, H.MarshalHeader;
    var k := |hellos| - 1;
    AtItem(hellos, |hellos|, true, k);
    var x := ItemOf(hellos[k].message, 0, true);
    assert x in items;
    forall y | y in items && y.typ == H.ClientHello && y.epoch == 0 && y.isClient
      ensures y.messageSequence <= x.messageSequence
    {
      if y in X.ItemsOf(sms[..n], false) {
        var j := ItemAt(sms[..n], false, y);
      }
      var j := ItemAt(hellos, true, y);
    }
    assert HC.LastOf(items, H.ClientHello, 0, true, Some(x));
    HC.BestIsLast(items, HC.Rule(H.ClientHello, 0, true, false), Some(x));
  }

  /** Before flight 5 the transcript is the last ClientHello and the server's flight. */
  lemma EarlyTextIs(items: seq<HC.Item>, hellos: seq<Sent>, sms: seq<Sent>, n: nat, a: nat, z: nat)
    requires Holds(items, hellos, sms, n, true) && AreHellos(hellos) && Numbered(hellos) && FlightAt(sms, a, z)
    requires exists d :: d in items && HC.Matches(d, DONE)
    ensures HC.PullAndMergeSpec(items, T.EarlyRules()) == TextOf([Last(hellos)] + sms[a..z + 1])
  {
    hide HC.PullAndMergeSpec, Holds, FlightAt, HC.Best, TextOf, HC.Matches, H.MarshalHeader, Numbered;
    HelloTextIs(items, hellos, sms, n);
    ServerTextIs(items, hellos, sms, n, a, z);
    FlightFits(sms, a, z);
    HC.PullStarts(items, T.EarlyRules(), Some(ItemOf(Last(hellos).message, 0, true)));
    TextOfOne(Last(hellos));
    TextAppend([Last(hellos)], sms[a..z + 1]);
  }

  // ---------------------------------------------------------------- the hellos of a run

  /** A client up to the point of sending flight 5 has prepared nothing but plaintext
      ClientHello messages; once it has prepared its flight, the last has the cookie. */
  predicate HellosOf(env: F.Env, c: S.Client, ms: seq<Sent>) {
    c.flight != F.Flight5 || c.phase == S.Preparing ==>
      && (c.phase != S.Preparing || c.flight == F.Flight5 ==>
            ms != [] && Last(ms).message.body == env.clientHello(c.state.cookie))
      && forall i :: 0 <= i < |ms| ==> ms[i].epoch == 0 && ms[i].message.header.typ == H.ClientHello
  }

  lemma PreparesHello(env: F.Env, mtu: nat, p: Peer, i: Input)
    requires mtu > 0 && AllFine(p.client.flights) && AllSendable(p.client.flights)
    requires IsPreparing(env, p.client, i) && p.client.flight != F.Flight5
    ensures var c' := StepPeer(env, mtu, p, i).client; var ms := MessagesIn(c'.flights);
      && |ms| == 1 && ms[0].epoch == 0 && ms[0].message.header.typ == H.ClientHello
      && ms[0].message.body == env.clientHello(c'.state.cookie)
  {
    hide AllFine, AllSendable;
    var c := p.client;
    var s := S.Generate(env, c.flight, c.state, c.items).value.0;
    var hello := F.ClientHelloPackets(env, s)[0];
    EmptyUnit([hello]);
    T.NumberCons(hello, [], s.sendSequence);
    assert F.NumberPackets([], s.sendSequence + 1) == ([], s.sendSequence + 1);
    var numbered := StepPeer(env, mtu, p, i).client.flights;
    assert numbered[1..] == [] && MessagesIn([]) == [];
  }

  lemma StepKeepsHellos(env: F.Env, mtu: nat, p: Peer, i: Input, ms: seq<Sent>)
    requires mtu > 0 && AllFine(p.client.flights) && AllSendable(p.client.flights)
    requires HellosOf(env, p.client, ms) && !IsPreparing(env, p.client, i)
    ensures HellosOf(env, StepPeer(env, mtu, p, i).client, ms)
  {
    hide AllFine, AllSendable, F.Parse, F.NumberPackets, SendAll, Receive, CacheAll, S.Generate, HC.PushAll, F.ItemsSent;
    var c := p.client;
    S.Flight5Stays(env, c.state, c.items);
    ParseKeepsCookie(env, c.flight, c.state, c.items);
    S.ParseIsLegal(env, c.flight, c.state, c.items);
  }

  lemma ParseKeepsCookie(env: F.Env, flight: F.Flight, s: F.State, items: seq<HC.Item>)
    ensures var (s', o) := F.Parse(env, flight, s, items); o != F.Next(F.Flight3) ==> s'.cookie == s.cookie
  {
    hide HC.FullPullSpec;
  }

  lemma {:induction false} RunsPrepareHellos(env: F.Env, mtu: nat, inputs: seq<Input>)
    requires mtu > 0
    ensures HellosOf(env, Play(env, mtu, inputs).client, Prepared(env, mtu, inputs))
  {
    hide StepPeer, AllFine, AllSendable, HellosOf, IsPreparing, MessagesIn;
    if inputs == [] {
      NoHellosYet(env);
    } else {
      var init, i := inputs[..|inputs| - 1], inputs[|inputs| - 1];
      var p, before := Play(env, mtu, init), Prepared(env, mtu, init);
      RunsPrepareHellos(env, mtu, init);
      if IsPreparing(env, p.client, i) {
        OneMoreHello(env, mtu, p, i, before);
      } else {
        EmptyUnit(before);
        StepKeepsHellos(env, mtu, p, i, before);
      }
    }
  }

  lemma NoHellosYet(env: F.Env)
    ensures HellosOf(env, START.client, [])
  {
  }

  lemma OneMoreHello(env: F.Env, mtu: nat, p: Peer, i: Input, before: seq<Sent>)
    requires mtu > 0 && AllFine(p.client.flights) && AllSendable(p.client.flights)
    requires HellosOf(env, p.client, before) && IsPreparing(env, p.client, i)
    ensures var c' := StepPeer(env, mtu, p, i).client; HellosOf(env, c', before + MessagesIn(c'.flights))
  {
    hide StepPeer, AllFine, AllSendable, MessagesIn, S.Generate;
    FlightsAfter(env, mtu, p, i);
    if p.client.flight != F.Flight5 {
      PreparesHello(env, mtu, p, i);
    }
  }

  // ---------------------------------------------------------------- the transcripts

  /** The exchange up to flight 5: the last ClientHello and the server's flight. */
  function Before5(env: F.Env, mtu: nat, inputs: seq<Input>, sms: seq<Sent>, a: nat, z: nat): seq<Sent>
    requires mtu > 0 && a <= z < |sms| && Prepared(env, mtu, inputs) != []
  {
    [Last(Prepared(env, mtu, inputs))] + sms[a..z + 1]
  }

  /** How many of flight 5 a session covers: a Certificate, if there is one, and the key
      exchange. */
  function KeyMessages(env: F.Env, c: S.Client): nat
    requires Ready(env, c)
  {
    |F.Opt(F.Generate5(env, c.state, c.items).value.certificate)| + 1
  }

  lemma EarlyOfRun(env: F.Env, mtu: nat, inputs: seq<Input>, rest: seq<Input>,
                   cfg: E.Config, acts: seq<E.Activity>, sms: seq<Sent>, a: nat, z: nat)
    requires Joined(env, mtu, inputs, rest, cfg, acts, sms) && FlightAt(sms, a, z)
    ensures Prepared(env, mtu, inputs) != []
    ensures Last(Prepared(env, mtu, inputs)).message.body == env.clientHello(Play(env, mtu, inputs).client.state.cookie)
    ensures HC.PullAndMergeSpec(Play(env, mtu, inputs).client.items, T.EarlyRules())
         == TextOf(Before5(env, mtu, inputs, sms, a, z))
  {
    hide Joined, Play, Prepared, AllFine, AllSendable, F.Generate5, T.AfterFlight5, HasDone, Holds, HellosThen, Flight5Sent,
      T.EntersFlight5, FlightAt, HC.PullAndMergeSpec, TextOf, IsServer, Numbered, X.ItemsOf, E.After, X.Parses, DoneIsLast;
    JoinedIsReady(env, mtu, inputs, rest, cfg, acts, sms);
    var c, hellos := Play(env, mtu, inputs).client, Prepared(env, mtu, inputs);
    var n, m := BothHold(env, mtu, inputs, rest, cfg, acts, sms);
    RunsPrepareHellos(env, mtu, inputs);
    PreparesFlight5(env, mtu, inputs, rest);
    NumberedPart(hellos, Flight5Sent(env, c));
    DoneIsThere(env, c.state.recvSequence, c.items);
    FlightFits(sms, a, z);
    EarlyTextIs(c.items, hellos, sms, n, a, z);
  }

  lemma {:induction false} MarshalAllIsText(ms: seq<H.Message>, sent: seq<Sent>)
    requires |sent| == |ms| && forall i :: 0 <= i < |ms| ==> sent[i].message == ms[i]
    ensures F.MarshalAll(ms) == TextOf(sent)
  {
    hide H.MarshalHeader;
    if ms == [] {
      assert Marshals(sent) == [];
    } else {
      MarshalAllIsText(ms[1..], sent[1..]);
      assert Marshals(sent)[1..] == Marshals(sent[1..]);
    }
  }

  /** The transcripts of flight 5, over the client's cache once it has been sent. */
  lemma TextsOfFlight5(env: F.Env, c: S.Client, before: seq<Sent>)
    requires Ready(env, c) && T.EntersFlight5(env, c.state, c.items)
    requires HC.PullAndMergeSpec(c.items, T.EarlyRules()) == TextOf(before)
    ensures var after, sent := T.AfterFlight5(env, c.state, c.items), Flight5Sent(env, c);
      && KeyMessages(env, c) < |sent|
      && HC.PullAndMergeSpec(after, HC.SessionRules(0)) == TextOf(before + sent[..KeyMessages(env, c)])
      && HC.PullAndMergeSpec(after, T.BeforeFinishedRules()) == TextOf(before + sent[..|sent| - 1])
      && HC.PullAndMergeSpec(after, F.TranscriptRules()) == TextOf(before + sent)
  {
    hide F.Generate5, T.AfterFlight5, HC.PullAndMergeSpec, TextOf, Flight5Sent, F.MarshalAll, H.MarshalHeader, T.BeforeFlight5,
      T.Joined, HC.UniqueKeys;
    var g, after, sent := F.Generate5(env, c.state, c.items).value, T.AfterFlight5(env, c.state, c.items), Flight5Sent(env, c);
    var m, k := c.state.sendSequence + |g.Messages()|, KeyMessages(env, c);
    Flight5Order(env, c);
    T.Flight5Joins(env, c.state, c.items);
    T.FutureTranscripts(c.items, g, m, after);
    T.NothingYet(c.items, m);
    var keys := F.Opt(g.certificate) + [g.exchange];
    assert keys == g.Messages()[..k];
    MarshalAllIsText(keys, sent[..k]);
    MarshalAllIsText(g.Messages(), sent[..|sent| - 1]);
    TextAppend(before, sent[..k]);
    TextAppend(before, sent[..|sent| - 1]);
    FinishedIsPulled(env, c);
    TextAppend(before + sent[..|sent| - 1], [Last(sent)]);
    TextOfOne(Last(sent));
    assert before + sent == (before + sent[..|sent| - 1]) + [Last(sent)];
  }

  lemma FinishedIsPulled(env: F.Env, c: S.Client)
    requires Ready(env, c) && T.EntersFlight5(env, c.state, c.items)
    ensures var after, sent := T.AfterFlight5(env, c.state, c.items), Flight5Sent(env, c);
      && sent != []
      && HC.PullAndMergeSpec(after, F.TranscriptRules())
         == HC.PullAndMergeSpec(after, T.BeforeFinishedRules()) + Last(sent).message.Marshal()
  {
    hide F.Generate5, T.AfterFlight5, HC.PullAndMergeSpec, Flight5Sent, H.MarshalHeader, HC.UniqueKeys, HC.Best, X.ItemsOf;
    var g, after, sent := F.Generate5(env, c.state, c.items).value, T.AfterFlight5(env, c.state, c.items), Flight5Sent(env, c);
    Flight5Order(env, c);
    Flight5IsSent(env, c);
    var x := ItemOf(Last(sent).message, 1, true);
    AtItem(sent, |sent|, true, |sent| - 1);
    forall y | y in after && HC.Matches(y, F.CLIENT_FINISHED_RULE) ensures y == x {
      if y in X.ItemsOf(sent, true) {
        var k := ItemAt(sent, true, y);
        assert k == |sent| - 1;
      }
    }
    T.PullTheOnly(after, F.CLIENT_FINISHED_RULE, x);
    T.PullSingle(after, F.CLIENT_FINISHED_RULE);
    T.PullAppend(after, T.BeforeFinishedRules(), [F.CLIENT_FINISHED_RULE]);
    assert F.TranscriptRules() == T.BeforeFinishedRules() + [F.CLIENT_FINISHED_RULE];
  }

  /** Over any network, what the client computes for flight 5, before any of it is sent: the
      master secret and the signature over everything exchanged from the last ClientHello to
      ClientKeyExchange, the verify data over that and CertificateVerify, each message whole
      and in the order of the numbers. */
  lemma ClientHashesTheExchange(env: F.Env, mtu: nat, inputs: seq<Input>, rest: seq<Input>,
                                cfg: E.Config, acts: seq<E.Activity>, sms: seq<Sent>, a: nat, z: nat)
    requires Joined(env, mtu, inputs, rest, cfg, acts, sms) && FlightAt(sms, a, z)
    ensures Prepared(env, mtu, inputs) != []
    ensures Last(Prepared(env, mtu, inputs)).message.body == env.clientHello(Play(env, mtu, inputs).client.state.cookie)
    ensures var c := Play(env, mtu, inputs).client;
      var before, sent := Before5(env, mtu, inputs, sms, a, z), Flight5Sent(env, c);
      && KeyMessages(env, c) < |sent|
      && S.ComputedOver(env, c.state, F.Generate5(env, c.state, c.items).value,
                        TextOf(before + sent[..KeyMessages(env, c)]), TextOf(before + sent[..|sent| - 1]))
  {
    hide Joined, Play, Prepared, AllFine, AllSendable, F.Generate5, T.AfterFlight5, HasDone, Holds, HellosThen, Flight5Sent,
      T.EntersFlight5, FlightAt, HC.PullAndMergeSpec, TextOf, IsServer, E.After, DoneIsLast, Prf.PHash, Prf.MasterSecret,
      Prf.ExtendedMasterSecret, Prf.VerifyDataClient;
    JoinedIsReady(env, mtu, inputs, rest, cfg, acts, sms);
    var c := Play(env, mtu, inputs).client;
    var n, m := BothHold(env, mtu, inputs, rest, cfg, acts, sms);
    EarlyOfRun(env, mtu, inputs, rest, cfg, acts, sms, a, z);
    FlightFits(sms, a, z);
    TextsOfFlight5(env, c, Before5(env, mtu, inputs, sms, a, z));
    T.Flight5HashesTheFuture(env, c.state, c.items);
    if !c.state.extendedMasterSecret {
      T.ClientMaster(env, c.state, c.items);
    }
  }

  /** And what the server hashes and checks the signature over, once it can read the client's
      key exchange, is the same text. */
  lemma ServerHashesTheExchange(env: F.Env, mtu: nat, inputs: seq<Input>, rest: seq<Input>,
                                cfg: E.Config, acts: seq<E.Activity>, sms: seq<Sent>, start: nat, a: nat, z: nat)
    requires Joined(env, mtu, inputs, rest, cfg, acts, sms) && FlightAt(sms, a, z) && start < 0x1_0000
    requires HC.FullPullSpec(env.accepts, E.After(cfg, acts).items, start, T.FLIGHT4_RULES).Ok?
    ensures Prepared(env, mtu, inputs) != []
    ensures var c := Play(env, mtu, inputs).client; var sent := Flight5Sent(env, c);
      && KeyMessages(env, c) < |sent|
      && HC.PullAndMergeSpec(E.After(cfg, acts).items, HC.SessionRules(0))
         == TextOf(Before5(env, mtu, inputs, sms, a, z) + sent[..KeyMessages(env, c)])
  {
    hide Joined, Play, Prepared, AllFine, AllSendable, F.Generate5, T.AfterFlight5, HasDone, Holds, HellosThen, Flight5Sent,
      T.EntersFlight5, FlightAt, HC.PullAndMergeSpec, TextOf, IsServer, E.After, DoneIsLast, HC.FullPullSpec, HC.MatchesAny;
    JoinedIsReady(env, mtu, inputs, rest, cfg, acts, sms);
    var c := Play(env, mtu, inputs).client;
    var n, m := BothHold(env, mtu, inputs, rest, cfg, acts, sms);
    EarlyOfRun(env, mtu, inputs, rest, cfg, acts, sms, a, z);
    FlightFits(sms, a, z);
    TextsOfFlight5(env, c, Before5(env, mtu, inputs, sms, a, z));
    ServerSeesFlight5(env, mtu, inputs, rest, cfg, acts, sms, start);
    T.ServerAgreesOnSession(env, c.state, c.items, E.After(cfg, acts).items);
  }

  /** With all of flight 5, a server has the same messages for every rule of the transcript as
      the client once it has sent it. */
  lemma AllOfFlight5(items: seq<HC.Item>, after: seq<HC.Item>, server: seq<HC.Item>, hellos: seq<Sent>, flight5: seq<Sent>,
                     sms: seq<Sent>, n: nat, x: HC.Item)
    requires Holds(items, hellos, sms, n, true) && Holds(server, sms, hellos + flight5, |hellos + flight5|, false)
    requires forall y :: y in after <==> y in items || y in X.ItemsOf(flight5, true)
    requires exists d :: d in items && HC.Matches(d, DONE)
    requires DoneIsLast(sms) && HC.MatchesAny(x, F.TranscriptRules())
    ensures x in server <==> x in after
  {
    hide HC.UniqueKeys, H.MarshalHeader, X.ItemsOf, HC.MatchesAny, DoneIsLast;
    var cms := hellos + flight5;
    assert cms[..|cms|] == cms;
    ItemsOfAppend(hellos, flight5, x);
    if x.isClient {
      ServersAre(sms, x);
      ServersAre(sms[..n], x);
    } else {
      ClientsAre(flight5, x);
      EarlyIfServers(x);
      ServerHellosAgree(items, server, hellos, cms, sms, n, |cms|, x);
    }
  }

  lemma ItemsOfAppend(a: seq<Sent>, b: seq<Sent>, x: HC.Item)
    ensures x in X.ItemsOf(a + b, true) <==> x in X.ItemsOf(a, true) || x in X.ItemsOf(b, true)
  {
    hide ItemOf;
    assert X.ItemsOf(a + b, true) == X.ItemsOf(a, true) + X.ItemsOf(b, true);
  }

  lemma ServersAre(ms: seq<Sent>, x: HC.Item)
    ensures x in X.ItemsOf(ms, false) ==> !x.isClient
  {
    hide H.MarshalHeader;
  }

  lemma ClientsAre(ms: seq<Sent>, x: HC.Item)
    ensures x in X.ItemsOf(ms, true) ==> x.isClient
  {
    hide H.MarshalHeader;
  }

  lemma EarlyIfServers(x: HC.Item)
    requires HC.MatchesAny(x, F.TranscriptRules()) && !x.isClient
    ensures HC.MatchesAny(x, T.EarlyRules())
  {
    var i :| 0 <= i < |F.TranscriptRules()| && HC.Matches(x, F.TranscriptRules()[i]);
    assert i < 6 && T.EarlyRules()[i] == F.TranscriptRules()[i];
  }

  /** The server's Finished, made once flight 4 has been parsed, covers the whole exchange: the
      last ClientHello, the server's flight, and the client's flight 5 to its Finished. */
  lemma ServersFinishedCoversTheExchange(env: F.Env, mtu: nat, inputs: seq<Input>, rest: seq<Input>,
                                         cfg: E.Config, acts: seq<E.Activity>, sms: seq<Sent>, a: nat, z: nat,
                                         env4: SF.ServerEnv, sv: SF.State, queued: seq<HC.Item>, read: seq<E.Activity>)
    requires Joined(env, mtu, inputs, rest, cfg, acts, sms) && FlightAt(sms, a, z)
    requires SF.Parse4(env4, sv, E.After(cfg, acts).items, queued).2 == SF.Next6
    requires var whole := inputs + [Loop(S.Advance)] + rest;
      && E.Allowed(ConfigOf(env, mtu), Activities(env, mtu, whole))
      && IsServer(cfg, read, sms) && HeardFrom(E.Raws(read), ConfigOf(env, mtu), Activities(env, mtu, whole))
      && E.After(cfg, read).items == HC.PushAll(E.After(cfg, acts).items, queued)
    ensures Prepared(env, mtu, inputs) != []
    ensures var c := Play(env, mtu, inputs).client; var (t, after, _) := SF.Parse4(env4, sv, E.After(cfg, acts).items, queued);
      var text := TextOf(Before5(env, mtu, inputs, sms, a, z) + Flight5Sent(env, c));
      && HC.PullAndMergeSpec(after, F.TranscriptRules()) == text
      && (t.suite.Some? && t.localVerifyData == [] ==> forall n: nat ::
            SF.ServerFinished(env4, t, after, n).body == Prf.VerifyDataServer(env4.crypto, t.master, text))
  {
    hide Joined, Play, Prepared, AllFine, AllSendable, F.Generate5, T.AfterFlight5, HasDone, Holds, HellosThen, Flight5Sent,
      T.EntersFlight5, FlightAt, HC.PullAndMergeSpec, TextOf, IsServer, E.After, DoneIsLast, HC.MatchesAny, SF.Parse4,
      HC.PushAll, Activities, E.Raws, HeardFrom, E.Allowed, HC.Matches, Prf.VerifyDataServer, F.TranscriptRules,
      HC.UniqueKeys, X.ItemsOf, Numbered, X.Parses, GoodCalls, H.MarshalHeader, SF.ServerFinished;
    JoinedIsReady(env, mtu, inputs, rest, cfg, acts, sms);
    var whole := inputs + [Loop(S.Advance)] + rest;
    var c := Play(env, mtu, inputs).client;
    var hellos, flight5 := Prepared(env, mtu, inputs), Flight5Sent(env, c);
    var n, m0 := BothHold(env, mtu, inputs, rest, cfg, acts, sms);
    EarlyOfRun(env, mtu, inputs, rest, cfg, acts, sms, a, z);
    FlightFits(sms, a, z);
    TextsOfFlight5(env, c, Before5(env, mtu, inputs, sms, a, z));
    PreparesFlight5(env, mtu, inputs, rest);
    CallsAreListed(env, mtu, whole);
    var m := ServerHolds(cfg, read, sms, ConfigOf(env, mtu), Activities(env, mtu, whole), hellos + flight5);
    NextNeedsFinished(env4, sv, E.After(cfg, acts).items, queued);
    ServerIsAllowed(cfg, read, sms);
    var server, after := E.After(cfg, read).items, T.AfterFlight5(env, c.state, c.items);
    var x :| x in server && HC.Matches(x, F.CLIENT_FINISHED_RULE);
    FinishedIsHeld(env, c, server, hellos, sms, m, x);
    DoneIsThere(env, c.state.recvSequence, c.items);
    HoldsWithin(server, hellos + flight5, sms, m);
    forall y | HC.MatchesAny(y, F.TranscriptRules()) ensures y in server <==> y in after {
      AllOfFlight5(c.items, after, server, hellos, flight5, sms, n, y);
    }
    UniqueAfter(env, c);
    HC.PullDependsOnMatching(server, after, F.TranscriptRules());
    SamePulled(server, after, F.TranscriptRules());
    var t := SF.Parse4(env4, sv, E.After(cfg, acts).items, queued).0;
    if t.suite.Some? && t.localVerifyData == [] {
      forall k: nat
        ensures SF.ServerFinished(env4, t, server, k).body
             == Prf.VerifyDataServer(env4.crypto, t.master, HC.PullAndMergeSpec(server, F.TranscriptRules()))
      {
        FinishedBody(env4, t, server, k);
      }
    }
  }

  lemma SamePulled(a: seq<HC.Item>, b: seq<HC.Item>, rules: seq<HC.Rule>)
    requires HC.Pull(a, rules) == HC.Pull(b, rules)
    ensures HC.PullAndMergeSpec(a, rules) == HC.PullAndMergeSpec(b, rules)
  {
    hide HC.Pull;
  }

  lemma FinishedBody(env: SF.ServerEnv, s: SF.State, items: seq<HC.Item>, k: nat)
    requires s.suite.Some? && s.localVerifyData == []
    ensures SF.ServerFinished(env, s, items, k).body
         == Prf.VerifyDataServer(env.crypto, s.master, HC.PullAndMergeSpec(items, F.TranscriptRules()))
  {
    hide HC.PullAndMergeSpec, F.TranscriptRules, Prf.VerifyDataServer;
  }

  lemma ServerIsAllowed(cfg: E.Config, acts: seq<E.Activity>, sms: seq<Sent>)
    requires IsServer(cfg, acts, sms)
    ensures E.Allowed(cfg, acts)
  {
    hide E.Allowed;
  }

  lemma UniqueAfter(env: F.Env, c: S.Client)
    requires Ready(env, c) && T.EntersFlight5(env, c.state, c.items)
    ensures HC.UniqueKeys(T.AfterFlight5(env, c.state, c.items))
  {
    hide F.Generate5, T.AfterFlight5, HC.UniqueKeys, T.BeforeFlight5, T.Typed;
    T.Flight5Joins(env, c.state, c.items);
  }
}
