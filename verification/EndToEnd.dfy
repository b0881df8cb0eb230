/** Client and server joined by a network that loses, repeats and reorders datagrams: what the
    handshake theorems assume of the two caches, derived from what the two ends did. */
module EndToEnd {
  import opened Bytes
  import opened Wrappers
  import RL = RecordLayer
  import H = Handshake
  import HC = HandshakeCache
  import Prf
  import opened Conn
  import opened Delivery
  import opened Network
  import F = Flights
  import T = Transcript
  import S = Handshaker
  import SF = ServerFlight
  import E = Endpoints
  import X = Exchange
  import opened ClientRun

  // ---------------------------------------------------------------- one end's cache

  /** A cache with one end's own messages and the first n of the peer's, and nothing else. */
  ghost predicate Holds(items: seq<HC.Item>, own: seq<Sent>, peer: seq<Sent>, n: nat, isClient: bool) {
    && n <= |peer| && HC.UniqueKeys(items)
    && forall x :: x in items <==> x in X.ItemsOf(own, isClient) || x in X.ItemsOf(peer[..n], !isClient)
  }

  /** A server, and the list of everything it has sent. */
  ghost predicate IsServer(cfg: E.Config, acts: seq<E.Activity>, sms: seq<Sent>) {
    && GoodMtu(cfg.mtu) && !cfg.isClient && E.Allowed(cfg, acts)
    && Numbered(sms) && GoodCalls(sms, E.Calls(acts)) && RunSendable(E.Calls(acts))
    && (forall k :: 0 <= k < |sms| ==> SentIn(E.Calls(acts), cfg.mtu, false, k))
    && (forall k :: 0 <= k < |sms| ==> X.Parses(cfg.accepts, sms[k]))
  }

  /** Records out of datagrams that an endpoint has emitted. */
  predicate HeardFrom(raws: seq<Bytes>, cfg: E.Config, acts: seq<E.Activity>)
    requires E.Allowed(cfg, acts)
  {
    forall i :: 0 <= i < |raws| ==> raws[i] in RL.UnpackAll(E.Emits(cfg, acts))
  }

  lemma HeardIsFrom(ms: seq<Sent>, cfg: E.Config, acts: seq<E.Activity>, raws: seq<Bytes>)
    requires GoodMtu(cfg.mtu) && E.Allowed(cfg, acts) && Numbered(ms) && GoodCalls(ms, E.Calls(acts))
    requires HeardFrom(raws, cfg, acts)
    ensures E.AllFrom(ms, cfg.mtu, raws)
  {
    hide RL.UnpackAll, E.Emits, DatagramRun, Numbered, GoodCalls, E.Calls, E.AllFrom, E.Allowed;
    E.EmitsItsCalls(cfg, acts);
    E.SentRecordsAreFrom(ms, E.Calls(acts), cfg.mtu, cfg.isClient, raws);
  }

  /** The server's cache, whatever of the client's records it heard, in whatever order. */
  lemma ServerHolds(cfg: E.Config, acts: seq<E.Activity>, sms: seq<Sent>, peer: E.Config, theirs: seq<E.Activity>,
                    cms: seq<Sent>)
    returns (n: nat)
    requires IsServer(cfg, acts, sms)
    requires GoodMtu(peer.mtu) && E.Allowed(peer, theirs) && Numbered(cms) && GoodCalls(cms, E.Calls(theirs))
    requires HeardFrom(E.Raws(acts), peer, theirs)
    requires forall k :: 0 <= k < |cms| ==> X.Parses(cfg.accepts, cms[k])
    ensures n == |E.Released(cfg, acts)| && Holds(E.After(cfg, acts).items, sms, cms, n, false)
  {
    hide E.After, E.Calls, E.Raws, HeardFrom, E.Allowed, E.AllFrom, E.Released, GoodCalls, Numbered, SentIn,
      RunSendable, X.Parses, H.MarshalHeader, HC.UniqueKeys;
    HeardIsFrom(cms, peer, theirs, E.Raws(acts));
    E.CacheHolds(cfg, acts, sms, cms, peer.mtu);
    n := |E.Released(cfg, acts)|;
  }

  /** The client's cache when it has sent all it prepared. */
  lemma ClientHolds(env: F.Env, mtu: nat, inputs: seq<Input>, cfg: E.Config, acts: seq<E.Activity>, sms: seq<Sent>)
    returns (n: nat)
    requires GoodMtu(mtu) && IsServer(cfg, acts, sms) && cfg.accepts == env.accepts
    requires Numbered(Prepared(env, mtu, inputs))
    requires !Play(env, mtu, inputs).client.failed && Play(env, mtu, inputs).client.phase != S.Sending
    requires HeardFrom(E.Raws(Activities(env, mtu, inputs)), cfg, acts)
    ensures E.Allowed(ConfigOf(env, mtu), Activities(env, mtu, inputs))
    ensures n == |E.Released(ConfigOf(env, mtu), Activities(env, mtu, inputs))|
    ensures Holds(Play(env, mtu, inputs).client.items, Prepared(env, mtu, inputs), sms, n, true)
  {
    hide E.After, E.Calls, E.Raws, HeardFrom, E.Allowed, E.AllFrom, E.Released, GoodCalls, GoodBatch, Numbered,
      SentIn, RunSendable, X.Parses, H.MarshalHeader, HC.UniqueKeys, Prepared, Play, Activities, AllFine, AllSendable;
    var ms, own := Prepared(env, mtu, inputs), Activities(env, mtu, inputs);
    CallsAreListed(env, mtu, inputs);
    PlayIsEndpoint(env, mtu, inputs);
    HeardIsFrom(sms, cfg, acts, E.Raws(own));
    E.CacheHolds(ConfigOf(env, mtu), own, ms, sms, cfg.mtu);
    n := |E.Released(ConfigOf(env, mtu), own)|;
    forall k | 0 <= k < |ms| ensures SentIn(E.Calls(own), mtu, true, k) {
      PreparedIsSent(env, mtu, inputs, k);
    }
  }

  // ---------------------------------------------------------------- the client has the server's flight

  const DONE := F.Server(H.ServerHelloDone, false)

  /** The ServerHelloDone that the client's receive sequence is just past. */
  predicate IsDone(env: F.Env, recvSequence: int, x: HC.Item) {
    var m := HC.UnmarshalMessage(env.accepts, x.data);
    HC.Matches(x, DONE) && m.Some? && m.value.header.messageSequence == (recvSequence - 1) % 0x1_0000
  }

  ghost predicate HasDone(env: F.Env, recvSequence: int, items: seq<HC.Item>) {
    exists x :: x in items && IsDone(env, recvSequence, x)
  }

  lemma {:induction false} PullEndsWith(items: seq<HC.Item>, rules: seq<HC.Rule>)
    requires rules != [] && HC.Best(items, rules[|rules| - 1]).Some?
    ensures var p := HC.Pull(items, rules); p != [] && p[|p| - 1] == HC.Best(items, rules[|rules| - 1]).value
  {
    hide HC.Best;
    if |rules| > 1 {
      PullEndsWith(items, rules[1..]);
    } else {
      assert rules[1..] == [] && HC.Pull(items, []) == [];
    }
  }

  /** A client that goes on to flight 5 has pulled the server's flight up to that message. */
  lemma ParseSeesDone(env: F.Env, flight: F.Flight, s: F.State, items: seq<HC.Item>)
    requires flight != F.Flight5 && F.Parse(env, flight, s, items).1 == F.Next(F.Flight5)
    ensures HasDone(env, F.Parse(env, flight, s, items).0.recvSequence, items)
  {
    hide HC.FullPullSpec, HC.Best, HC.Pull, HC.UnmarshalMessage, HC.Messages;
    var rules := F.ServerFlightRules(env);
    assert rules[|rules| - 1] == DONE;
    var r := HC.FullPullSpec(env.accepts, items, s.recvSequence, rules);
    assert r.Ok?;
    T.MandatoryPulled(env.accepts, items, s.recvSequence, rules, |rules| - 1);
    HC.BestMeans(items, DONE);
    PullEndsWith(items, rules);
    S.RulesAreDistinct(env);
    HC.FullPullIsGapFree(env.accepts, items, s.recvSequence, rules);
    var p := HC.Pull(items, rules);
    assert F.Parse(env, flight, s, items).0.recvSequence == r.value.0 == s.recvSequence + |p|;
    assert IsDone(env, s.recvSequence + |p|, p[|p| - 1]);
  }

  /** In every run, a client in flight 5 has it in its cache. */
  lemma {:induction false} Flight5HasDone(env: F.Env, events: seq<S.Event>)
    requires S.Reach(env, events).flight == F.Flight5
    ensures HasDone(env, S.Reach(env, events).state.recvSequence, S.Reach(env, events).items)
  {
    hide S.Invariant, S.Step, HasDone;
    if events != [] {
      var init, e := events[..|events| - 1], events[|events| - 1];
      var c := S.Reach(env, init);
      S.ReachInvariant(env, init);
      if c.flight == F.Flight5 {
        Flight5HasDone(env, init);
        StepKeepsDone(env, c, e);
      } else {
        StepFindsDone(env, c, e);
      }
    }
  }

  lemma StepFindsDone(env: F.Env, c: S.Client, e: S.Event)
    requires c.flight != F.Flight5 && S.Step(env, c, e).flight == F.Flight5
    ensures HasDone(env, S.Step(env, c, e).state.recvSequence, S.Step(env, c, e).items)
  {
    hide F.Parse, HasDone, HC.PushAll, HC.PushSpec, S.Generate, F.NumberPackets, F.ItemsSent;
    ParseSeesDone(env, c.flight, c.state, c.items);
  }

  lemma StepKeepsDone(env: F.Env, c: S.Client, e: S.Event)
    requires S.Invariant(c) && c.flight == F.Flight5 && HasDone(env, c.state.recvSequence, c.items)
    ensures HasDone(env, S.Step(env, c, e).state.recvSequence, S.Step(env, c, e).items)
  {
    hide HC.PushAll, IsDone, F.Parse, F.Generate5, F.NumberPackets, F.ItemsSent, F.Flight5Packets;
    var x :| x in c.items && IsDone(env, c.state.recvSequence, x);
    HC.PushAllHolds(c.items, F.ItemsSent(c.flights));
    if e.SendError? {
      HC.PushAllHolds(c.items, F.ItemsSent(c.flights[..Min(e.n, |c.flights|)]));
    }
    S.GenerateKeeps(env, c.state, c.items);
    S.Flight5Stays(env, c.state, c.items);
    assert x in S.Step(env, c, e).items;
  }

  lemma DoneIsThere(env: F.Env, recvSequence: int, items: seq<HC.Item>)
    requires HasDone(env, recvSequence, items)
    ensures exists d :: d in items && HC.Matches(d, DONE)
  {
  }

  // ---------------------------------------------------------------- the caches agree

  /** The server's messages that the early part of the transcript covers. */
  predicate IsServerHello(sent: Sent) {
    sent.epoch == 0 &&
    (sent.message.header.typ == H.ServerHello || sent.message.header.typ == H.Certificate
     || sent.message.header.typ == H.ServerKeyExchange || sent.message.header.typ == H.CertificateRequest
     || sent.message.header.typ == H.ServerHelloDone)
  }

  /** The server sends none of them after ServerHelloDone. */
  predicate DoneIsLast(sms: seq<Sent>) {
    forall i, j :: 0 <= i < j < |sms| && IsServerHello(sms[i]) && sms[i].message.header.typ == H.ServerHelloDone ==>
      !IsServerHello(sms[j])
  }

  /** Client messages: nothing but ClientHello first, and none of them after. */
  predicate HellosThen(hellos: seq<Sent>, flight5: seq<Sent>) {
    && (forall i :: 0 <= i < |hellos| ==> hellos[i].message.header.typ == H.ClientHello)
    && (forall i :: 0 <= i < |flight5| ==> flight5[i].message.header.typ != H.ClientHello)
  }

  lemma EarlyIs(x: HC.Item)
    requires HC.MatchesAny(x, T.EarlyRules())
    ensures x.epoch == 0
    ensures x.isClient ==> x.typ == H.ClientHello
    ensures !x.isClient ==> (x.typ == H.ServerHello || x.typ == H.Certificate || x.typ == H.ServerKeyExchange
                             || x.typ == H.CertificateRequest || x.typ == H.ServerHelloDone)
  {
    var i :| 0 <= i < |T.EarlyRules()| && HC.Matches(x, T.EarlyRules()[i]);
  }

  lemma ItemAt(ms: seq<Sent>, isClient: bool, x: HC.Item) returns (k: nat)
    requires x in X.ItemsOf(ms, isClient)
    ensures k < |ms| && x == ItemOf(ms[k].message, ms[k].epoch, isClient)
  {
    hide ItemOf;
    k :| 0 <= k < |ms| && X.ItemsOf(ms, isClient)[k] == x;
  }

  lemma AtItem(ms: seq<Sent>, n: nat, isClient: bool, k: nat)
    requires k < n <= |ms|
    ensures ItemOf(ms[k].message, ms[k].epoch, isClient) in X.ItemsOf(ms[..n], isClient)
    ensures ItemOf(ms[k].message, ms[k].epoch, isClient) in X.ItemsOf(ms, isClient)
  {
    hide ItemOf;
    assert X.ItemsOf(ms[..n], isClient)[k] == ItemOf(ms[k].message, ms[k].epoch, isClient);
    assert X.ItemsOf(ms, isClient)[k] == ItemOf(ms[k].message, ms[k].epoch, isClient);
  }

  /** Of the server's hello messages the client has all: ServerHelloDone is there, and what is
      released is released in order. */
  lemma ServerHellosAgree(items: seq<HC.Item>, server: seq<HC.Item>, hellos: seq<Sent>, cms: seq<Sent>,
                          sms: seq<Sent>, n: nat, m: nat, x: HC.Item)
    requires Holds(items, hellos, sms, n, true) && Holds(server, sms, cms, m, false)
    requires exists d :: d in items && HC.Matches(d, DONE)
    requires DoneIsLast(sms) && HC.MatchesAny(x, T.EarlyRules()) && !x.isClient
    ensures x in server <==> x in items
  {
    hide HC.MatchesAny, HC.UniqueKeys, X.ItemsOf, H.MarshalHeader;
    EarlyIs(x);
    if x in items {
      if x in X.ItemsOf(hellos, true) {
        var k := ItemAt(hellos, true, x);
      }
      var k := ItemAt(sms[..n], false, x);
      AtItem(sms, n, false, k);
    }
    if x in server {
      if x in X.ItemsOf(cms[..m], true) {
        var k := ItemAt(cms[..m], true, x);
      }
      var j := ItemAt(sms, false, x);
      var d :| d in items && HC.Matches(d, DONE);
      if d in X.ItemsOf(hellos, true) {
        var k := ItemAt(hellos, true, d);
      }
      var i := ItemAt(sms[..n], false, d);
      assert j <= i;
      AtItem(sms, n, false, j);
    }
  }

  /** Of the client's ClientHello messages the server has all: the key exchange comes after
      them. */
  lemma ClientHellosAgree(items: seq<HC.Item>, server: seq<HC.Item>, hellos: seq<Sent>, flight5: seq<Sent>,
                          sms: seq<Sent>, n: nat, m: nat, x: HC.Item)
    requires Holds(items, hellos, sms, n, true) && Holds(server, sms, hellos + flight5, m, false)
    requires HellosThen(hellos, flight5)
    requires exists y :: y in server && HC.Matches(y, T.CLIENT_KEY_EXCHANGE_RULE)
    requires HC.MatchesAny(x, T.EarlyRules()) && x.isClient
    ensures x in server <==> x in items
  {
    hide HC.MatchesAny, HC.UniqueKeys, X.ItemsOf, H.MarshalHeader;
    EarlyIs(x);
    var cms := hellos + flight5;
    if x in server {
      if x in X.ItemsOf(sms, false) {
        var k := ItemAt(sms, false, x);
      }
      var k := ItemAt(cms[..m], true, x);
      assert k < |hellos|;
      AtItem(hellos, |hellos|, true, k);
    }
    if x in items {
      if x in X.ItemsOf(sms[..n], false) {
        var k := ItemAt(sms[..n], false, x);
      }
      var j := ItemAt(hellos, true, x);
      var y :| y in server && HC.Matches(y, T.CLIENT_KEY_EXCHANGE_RULE);
      if y in X.ItemsOf(sms, false) {
        var k := ItemAt(sms, false, y);
      }
      var i := ItemAt(cms[..m], true, y);
      assert i >= |hellos|;
      assert cms[j] == hellos[j];
      AtItem(cms, m, true, j);
    }
  }

  // ---------------------------------------------------------------- flight 5

  /** The client is about to prepare flight 5, and can. */
  predicate Ready(env: F.Env, c: S.Client) {
    && c.flight == F.Flight5 && c.phase == S.Preparing && Alive(c)
    && c.state.sendSequence + 4 <= 0x1_0000 && F.Generate5(env, c.state, c.items).Some?
  }

  /** Its messages as prepare numbers them. */
  function Flight5Sent(env: F.Env, c: S.Client): seq<Sent>
    requires Ready(env, c)
  {
    MessagesIn(F.NumberPackets(F.Flight5Packets(F.Generate5(env, c.state, c.items).value), c.state.sendSequence).0)
  }

  /** From then on the list of prepared messages is what it was, and flight 5. */
  lemma PreparesFlight5(env: F.Env, mtu: nat, inputs: seq<Input>, rest: seq<Input>)
    requires mtu > 0 && Ready(env, Play(env, mtu, inputs).client)
    ensures Prepared(env, mtu, inputs + [Loop(S.Advance)] + rest)
         == Prepared(env, mtu, inputs) + Flight5Sent(env, Play(env, mtu, inputs).client)
  {
    hide F.Generate5, F.Flight5Packets, F.NumberPackets, MessagesIn, AllFine, AllSendable, Play, StepPeer;
    var next := inputs + [Loop(S.Advance)];
    assert next[..|next| - 1] == inputs && next[|next| - 1] == Loop(S.Advance);
    var p := Play(env, mtu, inputs);
    PlayStep(env, mtu, next);
    FlightsAfter(env, mtu, p, Loop(S.Advance));
    NothingMoreIsPrepared(env, mtu, next, rest);
  }

  lemma EntersWhenReady(env: F.Env, mtu: nat, inputs: seq<Input>)
    requires mtu > 0 && Ready(env, Play(env, mtu, inputs).client)
    ensures var c := Play(env, mtu, inputs).client;
      && T.EntersFlight5(env, c.state, c.items) && HasDone(env, c.state.recvSequence, c.items)
      && c.state.suite == Some(F.Suite(false)) && c.state.localVerifyData == []
  {
    hide F.Generate5, AllFine, AllSendable, Play, HasDone, HC.UniqueKeys, T.BeforeFlight5, Events;
    PlayIsReach(env, mtu, inputs);
    S.ReachInvariant(env, Events(env, mtu, inputs));
    Flight5HasDone(env, Events(env, mtu, inputs));
  }

  /** The cache after sending holds these messages and no others of the client's. */
  lemma Flight5IsSent(env: F.Env, c: S.Client)
    requires Ready(env, c) && T.EntersFlight5(env, c.state, c.items)
    ensures var after := T.AfterFlight5(env, c.state, c.items); var sent := Flight5Sent(env, c);
      && (forall x :: x in after <==> x in c.items || x in X.ItemsOf(sent, true))
      && (forall i :: 0 <= i < |sent| ==> sent[i].message.header.typ != H.ClientHello)
  {
    hide F.Generate5, F.Flight5Packets, F.NumberPackets, MessagesIn, T.Added, H.MarshalHeader, T.BeforeFlight5,
      T.AfterFlight5;
    var g := F.Generate5(env, c.state, c.items).value;
    var n := c.state.sendSequence + |g.Messages()|;
    var sent := Flight5Sent(env, c);
    T.PredictedNumbersHold(env, c.state, c.items);
    T.Flight5Joins(env, c.state, c.items);
    ItemsAreThose(F.NumberPackets(F.Flight5Packets(g), c.state.sendSequence).0);
    assert X.ItemsOf(sent, true) == T.Flight5Items(g, n);
    forall i | 0 <= i < |sent| ensures sent[i].message.header.typ != H.ClientHello {
      AtItem(sent, |sent|, true, i);
      T.Flight5Members(g, n, ItemOf(sent[i].message, sent[i].epoch, true));
    }
  }

  lemma AllHellos(items: seq<HC.Item>, hellos: seq<Sent>, sms: seq<Sent>, n: nat, sendSequence: nat)
    requires Holds(items, hellos, sms, n, true) && T.BeforeFlight5(items, sendSequence)
    ensures forall i :: 0 <= i < |hellos| ==> hellos[i].message.header.typ == H.ClientHello
  {
    hide HC.UniqueKeys, X.ItemsOf, H.MarshalHeader;
    forall i | 0 <= i < |hellos| ensures hellos[i].message.header.typ == H.ClientHello {
      AtItem(hellos, |hellos|, true, i);
    }
  }

  // ---------------------------------------------------------------- flight 5 at the server

  lemma Flight5Order(env: F.Env, c: S.Client)
    requires Ready(env, c) && T.EntersFlight5(env, c.state, c.items)
    ensures var g := F.Generate5(env, c.state, c.items).value; var sent := Flight5Sent(env, c);
      && T.Typed(g) && T.NumberedFrom(g.Messages(), c.state.sendSequence)
      && |sent| == |g.Messages()| + 1
      && (forall i :: 0 <= i < |g.Messages()| ==> sent[i] == Sent(g.Messages()[i], 0))
      && sent[|sent| - 1].epoch == 1 && sent[|sent| - 1].message.header.typ == H.Finished
  {
    hide F.Generate5, F.NumberPackets, T.BeforeFlight5, T.AfterFlight5, H.MarshalHeader;
    var g := F.Generate5(env, c.state, c.items).value;
    T.PredictedNumbersHold(env, c.state, c.items);
    T.Flight5Joins(env, c.state, c.items);
    T.GeneratedIsNumbered(env, c.state, c.items);
    var finished := Packet(RL.PROTOCOL_VERSION1_2, 1, HandshakeContent(T.FinishedMessage(g, c.state.sendSequence + |g.Messages()|)));
    MessagesOn(g.Messages(), [F.CHANGE_CIPHER_SPEC, finished]);
    MessagesLast(F.CHANGE_CIPHER_SPEC, finished);
  }

  lemma MessagesLast(ccs: Packet, finished: Packet)
    requires ccs.content.Plain? && finished.content.HandshakeContent?
    ensures MessagesIn([ccs, finished]) == [Sent(finished.content.message, finished.epoch)]
  {
    assert [ccs, finished][1..] == [finished] && [finished][1..] == [];
    assert MessagesIn([]) == [];
    assert MessagesIn([finished]) == [Sent(finished.content.message, finished.epoch)];
  }

  lemma {:induction false} MessagesOn(ms: seq<H.Message>, rest: seq<Packet>)
    ensures var all := MessagesIn(F.Packets(ms) + rest);
      && |all| == |ms| + |MessagesIn(rest)| && all[|ms|..] == MessagesIn(rest)
      && forall i :: 0 <= i < |ms| ==> all[i] == Sent(ms[i], 0)
  {
    if ms == [] {
      assert F.Packets(ms) + rest == rest;
    } else {
      MessagesOn(ms[1..], rest);
      T.PacketsCons(ms, rest);
      var more := F.Packets(ms[1..]) + rest;
      assert ([F.Plaintext(ms[0])] + more)[1..] == more;
      var all := MessagesIn(F.Packets(ms) + rest);
      assert all[0] == Sent(ms[0], 0) && all[1..] == MessagesIn(more);
      assert all[|ms|..] == all[1..][|ms| - 1..];
      forall i | 0 <= i < |ms| ensures all[i] == Sent(ms[i], 0) {
        if i > 0 {
          assert all[i] == all[1..][i - 1];
        }
      }
    }
  }

  /** Where a flight 5 message of a type is, and which it is. */
  lemma PlaceOf(g: F.Generated, sent: seq<Sent>, k: nat)
    requires T.Typed(g) && |sent| == |g.Messages()| + 1 && sent[|sent| - 1].epoch == 1
    requires forall i :: 0 <= i < |g.Messages()| ==> sent[i] == Sent(g.Messages()[i], 0)
    requires k < |sent| && sent[k].epoch == 0
    ensures var m := sent[k].message;
      && (m.header.typ == H.Certificate ==> k == 0 && g.certificate == Some(m))
      && (m.header.typ == H.ClientKeyExchange ==> k == |F.Opt(g.certificate)| && m == g.exchange)
      && (m.header.typ == H.CertificateVerify ==> g.verify == Some(m))
  {
  }

  lemma PartOfFlight5(server: seq<HC.Item>, hellos: seq<Sent>, flight5: seq<Sent>, sms: seq<Sent>, m: nat, x: HC.Item)
    returns (k: nat)
    requires Holds(server, sms, hellos + flight5, m, false) && HellosThen(hellos, flight5)
    requires x in server && x.isClient && x.typ != H.ClientHello
    ensures k < |flight5| && |hellos| + k < m && x == ItemOf(flight5[k].message, flight5[k].epoch, true)
  {
    hide HC.UniqueKeys, X.ItemsOf, H.MarshalHeader;
    if x in X.ItemsOf(sms, false) {
      var j := ItemAt(sms, false, x);
    }
    var j := ItemAt((hellos + flight5)[..m], true, x);
    assert j >= |hellos|;
    k := j - |hellos|;
  }

  lemma ThereInFlight5(server: seq<HC.Item>, hellos: seq<Sent>, flight5: seq<Sent>, sms: seq<Sent>, m: nat, k: nat)
    requires Holds(server, sms, hellos + flight5, m, false) && k < |flight5| && |hellos| + k < m
    ensures ItemOf(flight5[k].message, flight5[k].epoch, true) in server
  {
    hide HC.UniqueKeys, X.ItemsOf, H.MarshalHeader;
    AtItem(hellos + flight5, m, true, |hellos| + k);
  }

  /** A pull of flight 5 that succeeds starts at the client's send sequence: the first message
      it finds is the first of flight 5. */
  lemma PullStartsAtFlight5(env: F.Env, c: S.Client, server: seq<HC.Item>, hellos: seq<Sent>, sms: seq<Sent>, m: nat,
                            start: nat)
    requires Ready(env, c) && T.EntersFlight5(env, c.state, c.items)
    requires Holds(server, sms, hellos + Flight5Sent(env, c), m, false) && HellosThen(hellos, Flight5Sent(env, c))
    requires start < 0x1_0000 && HC.FullPullSpec(env.accepts, server, start, T.FLIGHT4_RULES).Ok?
    ensures start == c.state.sendSequence
  {
    hide F.Generate5, Flight5Sent, Holds, HellosThen, HC.FullPullSpec, HC.Best, HC.Pull, T.BeforeFlight5,
      H.MarshalHeader, T.AfterFlight5, HC.UniqueKeys;
    var g, flight5, rules := F.Generate5(env, c.state, c.items).value, Flight5Sent(env, c), T.FLIGHT4_RULES;
    Flight5Order(env, c);
    T.ExchangeNumber(g, c.state.sendSequence);
    T.MandatoryPulled(env.accepts, server, start, rules, 1);
    HC.BestMeans(server, rules[0]);
    HC.BestMeans(server, rules[1]);
    var x := HC.Best(server, rules[1]).value;
    var k := PartOfFlight5(server, hellos, flight5, sms, m, x);
    PlaceOf(g, flight5, k);
    var first := HC.Best(server, rules[0]);
    match g.certificate {
      case Some(cert) =>
        ThereInFlight5(server, hellos, flight5, sms, m, 0);
        assert g.Messages()[0] == cert && HC.Matches(ItemOf(cert, 0, true), rules[0]);
        assert first.Some?;
      case None =>
    }
    match first {
      case Some(y) =>
        var j := PartOfFlight5(server, hellos, flight5, sms, m, y);
        PlaceOf(g, flight5, j);
        assert g.Messages()[0] == g.certificate.value;
        PullFirstFirst(server, rules, y);
        T.FirstPulledIsStart(env.accepts, server, start, rules, g.certificate.value);
      case None =>
        T.PullSecondFirst(server, rules, x);
        T.FirstPulledIsStart(env.accepts, server, start, rules, g.exchange);
    }
  }

  lemma PullFirstFirst(items: seq<HC.Item>, rules: seq<HC.Rule>, x: HC.Item)
    requires |rules| > 0 && HC.Best(items, rules[0]) == Some(x)
    ensures |HC.Pull(items, rules)| > 0 && HC.Pull(items, rules)[0] == x
  {
  }

  lemma BestIs(items: seq<HC.Item>, r: HC.Rule, m: Option<H.Message>)
    requires m.Some? ==> ItemOf(m.value, 0, true) in items && HC.Matches(ItemOf(m.value, 0, true), r)
    requires forall x :: x in items && HC.Matches(x, r) ==> m.Some? && x == ItemOf(m.value, 0, true)
    ensures HC.Best(items, r) == if m.Some? then Some(ItemOf(m.value, 0, true)) else None
  {
    hide H.MarshalHeader;
    HC.BestMeans(items, r);
  }

  /** A server that heard all of flight 5 pulls it whole. */
  lemma PullsFlight5(env: F.Env, c: S.Client, server: seq<HC.Item>, hellos: seq<Sent>, sms: seq<Sent>)
    requires Ready(env, c) && T.EntersFlight5(env, c.state, c.items)
    requires var cms := hellos + Flight5Sent(env, c);
      Holds(server, sms, cms, |cms|, false) && forall k :: 0 <= k < |cms| ==> X.Parses(env.accepts, cms[k])
    requires HellosThen(hellos, Flight5Sent(env, c))
    ensures HC.Pull(server, T.FLIGHT4_RULES) == T.Added(F.Generate5(env, c.state, c.items).value.Messages())
    ensures HC.FullPullSpec(env.accepts, server, c.state.sendSequence, T.FLIGHT4_RULES).Ok?
  {
    hide F.Generate5, Flight5Sent, Holds, HellosThen, HC.FullPullSpec, HC.Best, T.BeforeFlight5, H.MarshalHeader,
      T.AfterFlight5, HC.UniqueKeys, X.Parses, HC.UnmarshalMessage;
    var g, flight5, rules := F.Generate5(env, c.state, c.items).value, Flight5Sent(env, c), T.FLIGHT4_RULES;
    Flight5Order(env, c);
    HasOneOf(env, c, server, hellos, sms, 0, g.certificate);
    HasOneOf(env, c, server, hellos, sms, 1, Some(g.exchange));
    HasOneOf(env, c, server, hellos, sms, 2, g.verify);
    PullThree(server, g);
    HC.FullPullIsGapFree(env.accepts, server, c.state.sendSequence, rules);
    var ms := g.Messages();
    forall i | 0 <= i < |ms| ensures HC.UnmarshalMessage(env.accepts, T.Added(ms)[i].data) == Some(ms[i]) {
      assert (hellos + flight5)[|hellos| + i] == flight5[i] == Sent(ms[i], 0);
      X.DeliveredParses(env.accepts, Sent(ms[i], 0));
    }
  }

  lemma PullThree(server: seq<HC.Item>, g: F.Generated)
    requires HC.Best(server, T.FLIGHT4_RULES[0]) == if g.certificate.Some? then Some(ItemOf(g.certificate.value, 0, true)) else None
    requires HC.Best(server, T.FLIGHT4_RULES[1]) == Some(ItemOf(g.exchange, 0, true))
    requires HC.Best(server, T.FLIGHT4_RULES[2]) == if g.verify.Some? then Some(ItemOf(g.verify.value, 0, true)) else None
    ensures HC.Pull(server, T.FLIGHT4_RULES) == T.Added(g.Messages())
    ensures !HC.MissesMandatory(server, T.FLIGHT4_RULES)
  {
    hide HC.Best, H.MarshalHeader;
    var rules := T.FLIGHT4_RULES;
    assert rules[1..][0] == rules[1] && rules[1..][1..] == rules[2..] && rules[2..][0] == rules[2] && rules[2..][1..] == [];
    assert HC.Pull(server, []) == [];
    EmptyUnit(T.Added(F.Opt(g.verify)));
    assert HC.Pull(server, rules[2..]) == T.Added(F.Opt(g.verify));
    assert HC.Pull(server, rules[1..]) == [ItemOf(g.exchange, 0, true)] + T.Added(F.Opt(g.verify));
    T.AddedAppend(F.Opt(g.certificate), [g.exchange]);
    T.AddedAppend(F.Opt(g.certificate) + [g.exchange], F.Opt(g.verify));
    assert T.Added([g.exchange]) == [ItemOf(g.exchange, 0, true)];
    Assoc(T.Added(F.Opt(g.certificate)), [ItemOf(g.exchange, 0, true)], T.Added(F.Opt(g.verify)));
  }

  lemma HasOneOf(env: F.Env, c: S.Client, server: seq<HC.Item>, hellos: seq<Sent>, sms: seq<Sent>, i: nat,
                 m: Option<H.Message>)
    requires Ready(env, c) && T.EntersFlight5(env, c.state, c.items)
    requires var cms := hellos + Flight5Sent(env, c); Holds(server, sms, cms, |cms|, false)
    requires HellosThen(hellos, Flight5Sent(env, c))
    requires var g := F.Generate5(env, c.state, c.items).value;
      (i, m) in {(0, g.certificate), (1, Some(g.exchange)), (2, g.verify)}
    ensures HC.Best(server, T.FLIGHT4_RULES[i]) == if m.Some? then Some(ItemOf(m.value, 0, true)) else None
  {
    hide F.Generate5, Flight5Sent, Holds, HellosThen, HC.Best, T.BeforeFlight5, H.MarshalHeader, T.AfterFlight5,
      HC.UniqueKeys;
    var g, flight5, r := F.Generate5(env, c.state, c.items).value, Flight5Sent(env, c), T.FLIGHT4_RULES[i];
    Flight5Order(env, c);
    if m.Some? {
      var k := if i == 0 then 0 else if i == 1 then |F.Opt(g.certificate)| else |F.Opt(g.certificate)| + 1;
      assert g.Messages()[k] == m.value;
      ThereInFlight5(server, hellos, flight5, sms, |hellos + flight5|, k);
    }
    forall x | x in server && HC.Matches(x, r) ensures m.Some? && x == ItemOf(m.value, 0, true) {
      var k := PartOfFlight5(server, hellos, flight5, sms, |hellos + flight5|, x);
      PlaceOf(g, flight5, k);
    }
    BestIs(server, r, m);
  }

  // ---------------------------------------------------------------- the theorem

  /** A client that gets to flight 5, a server, and a network between them: the client has
      heard only records of the server's datagrams, the server only records of the client's,
      each lost, repeated and reordered at will. rest is whatever the client does later. */
  ghost predicate Joined(env: F.Env, mtu: nat, inputs: seq<Input>, rest: seq<Input>,
                         cfg: E.Config, acts: seq<E.Activity>, sms: seq<Sent>)
  {
    var whole := inputs + [Loop(S.Advance)] + rest;
    && GoodMtu(mtu) && Ready(env, Play(env, mtu, inputs).client)
    && IsServer(cfg, acts, sms) && cfg.accepts == env.accepts && DoneIsLast(sms)
    && Numbered(Prepared(env, mtu, whole))
    && (forall k :: 0 <= k < |Prepared(env, mtu, whole)| ==> X.Parses(env.accepts, Prepared(env, mtu, whole)[k]))
    && HeardFrom(E.Raws(Activities(env, mtu, inputs)), cfg, acts)
    && E.Allowed(ConfigOf(env, mtu), Activities(env, mtu, whole))
    && HeardFrom(E.Raws(acts), ConfigOf(env, mtu), Activities(env, mtu, whole))
  }

  /** The two caches, of a client about to send flight 5 and of the server it is sent to. */
  lemma BothHold(env: F.Env, mtu: nat, inputs: seq<Input>, rest: seq<Input>,
                 cfg: E.Config, acts: seq<E.Activity>, sms: seq<Sent>)
    returns (n: nat, m: nat)
    requires Joined(env, mtu, inputs, rest, cfg, acts, sms)
    ensures var c := Play(env, mtu, inputs).client; var hellos, flight5 := Prepared(env, mtu, inputs), Flight5Sent(env, c);
      && Holds(c.items, hellos, sms, n, true)
      && Holds(E.After(cfg, acts).items, sms, hellos + flight5, m, false)
      && HellosThen(hellos, flight5)
      && T.EntersFlight5(env, c.state, c.items) && HasDone(env, c.state.recvSequence, c.items)
      && c.state.suite == Some(F.Suite(false)) && c.state.localVerifyData == []
      && (forall x :: x in T.AfterFlight5(env, c.state, c.items) <==> x in c.items || x in X.ItemsOf(flight5, true))
  {
    hide E.After, E.Calls, E.Raws, HeardFrom, E.Allowed, GoodCalls, GoodBatch, Numbered, X.Parses, IsServer, Holds,
      Prepared, Play, Activities, AllFine, AllSendable, F.Generate5, T.AfterFlight5, HasDone, HC.UniqueKeys,
      Flight5Sent;
    var c := Play(env, mtu, inputs).client;
    var whole := inputs + [Loop(S.Advance)] + rest;
    var hellos, flight5 := Prepared(env, mtu, inputs), Flight5Sent(env, c);
    PreparesFlight5(env, mtu, inputs, rest);
    EntersWhenReady(env, mtu, inputs);
    Flight5IsSent(env, c);
    NumberedPart(hellos, flight5);
    n := ClientHolds(env, mtu, inputs, cfg, acts, sms);
    CallsAreListed(env, mtu, whole);
    m := ServerHolds(cfg, acts, sms, ConfigOf(env, mtu), Activities(env, mtu, whole), hellos + flight5);
    AllHellos(c.items, hellos, sms, n, c.state.sendSequence);
  }

  /** What the server's flight 4 is assumed to see of flight 5 it does see, as soon as its pull
      of the client's messages succeeds; and it has read as many messages before as the client
      sent before. */
  lemma ServerSeesFlight5(env: F.Env, mtu: nat, inputs: seq<Input>, rest: seq<Input>,
                          cfg: E.Config, acts: seq<E.Activity>, sms: seq<Sent>, start: nat)
    requires Joined(env, mtu, inputs, rest, cfg, acts, sms) && start < 0x1_0000
    requires HC.FullPullSpec(env.accepts, E.After(cfg, acts).items, start, T.FLIGHT4_RULES).Ok?
    ensures var c := Play(env, mtu, inputs).client;
      start == c.state.sendSequence && SF.SeesFlight5(env, c.state, c.items, E.After(cfg, acts).items)
  {
    hide E.After, IsServer, Joined, Prepared, Play, AllFine, AllSendable, F.Generate5, T.AfterFlight5, Flight5Sent,
      HC.FullPullSpec, HasDone, HC.MatchesAny, HC.Best, HellosThen, T.EntersFlight5, HC.Matches, DoneIsLast;
    JoinedIsReady(env, mtu, inputs, rest, cfg, acts, sms);
    var c, server := Play(env, mtu, inputs).client, E.After(cfg, acts).items;
    var n, m := BothHold(env, mtu, inputs, rest, cfg, acts, sms);
    var hellos, flight5 := Prepared(env, mtu, inputs), Flight5Sent(env, c);
    PullStartsAtFlight5(env, c, server, hellos, sms, m, start);
    DoneIsThere(env, c.state.recvSequence, c.items);
    T.MandatoryPulled(env.accepts, server, c.state.sendSequence, T.FLIGHT4_RULES, 1);
    HC.BestMeans(server, T.FLIGHT4_RULES[1]);
    forall x | HC.MatchesAny(x, T.EarlyRules()) ensures x in server <==> x in c.items {
      if x.isClient {
        ClientHellosAgree(c.items, server, hellos, flight5, sms, n, m, x);
      } else {
        ServerHellosAgree(c.items, server, hellos, hellos + flight5, sms, n, m, x);
      }
    }
    forall x | x in server && x.isClient ensures x in T.AfterFlight5(env, c.state, c.items) {
      SentByTheClient(c.items, server, hellos, flight5, sms, n, m, x);
    }
  }

  lemma JoinedIsReady(env: F.Env, mtu: nat, inputs: seq<Input>, rest: seq<Input>,
                      cfg: E.Config, acts: seq<E.Activity>, sms: seq<Sent>)
    requires Joined(env, mtu, inputs, rest, cfg, acts, sms)
    ensures GoodMtu(mtu) && Ready(env, Play(env, mtu, inputs).client)
    ensures IsServer(cfg, acts, sms) && E.Allowed(cfg, acts) && cfg.accepts == env.accepts && DoneIsLast(sms)
    ensures var cms := Prepared(env, mtu, inputs + [Loop(S.Advance)] + rest);
      Numbered(cms) && forall k :: 0 <= k < |cms| ==> X.Parses(env.accepts, cms[k])
  {
    hide Play, Prepared, Numbered, X.Parses, Activities, AllFine, AllSendable, E.Allowed, E.Raws;
  }

  lemma SentByTheClient(items: seq<HC.Item>, server: seq<HC.Item>, hellos: seq<Sent>, flight5: seq<Sent>,
                        sms: seq<Sent>, n: nat, m: nat, x: HC.Item)
    requires Holds(items, hellos, sms, n, true) && Holds(server, sms, hellos + flight5, m, false)
    requires x in server && x.isClient
    ensures x in items || x in X.ItemsOf(flight5, true)
  {
    hide HC.UniqueKeys, X.ItemsOf, H.MarshalHeader;
    var cms := hellos + flight5;
    if x in X.ItemsOf(sms, false) {
      var k := ItemAt(sms, false, x);
    }
    var k := ItemAt(cms[..m], true, x);
    if k < |hellos| {
      AtItem(hellos, |hellos|, true, k);
    } else {
      assert cms[k] == flight5[k - |hellos|];
      AtItem(flight5, |flight5|, true, k - |hellos|);
    }
  }

  /** The client has got rid of all it prepared, and the server has heard every record of it. */
  ghost predicate AllHeard(env: F.Env, mtu: nat, whole: seq<Input>, cfg: E.Config, acts: seq<E.Activity>)
    requires mtu > 0 && E.Allowed(cfg, acts) && E.Allowed(ConfigOf(env, mtu), Activities(env, mtu, whole))
  {
    var c := Play(env, mtu, whole).client;
    && !c.failed && c.phase != S.Sending
    && forall raw :: raw in RL.UnpackAll(E.Emits(ConfigOf(env, mtu), Activities(env, mtu, whole))) ==> raw in E.Raws(acts)
  }

  /** Then the pull does succeed. */
  lemma ServerSeesAll(env: F.Env, mtu: nat, inputs: seq<Input>, rest: seq<Input>,
                      cfg: E.Config, acts: seq<E.Activity>, sms: seq<Sent>)
    requires Joined(env, mtu, inputs, rest, cfg, acts, sms)
    requires AllHeard(env, mtu, inputs + [Loop(S.Advance)] + rest, cfg, acts)
    ensures var c := Play(env, mtu, inputs).client;
      SF.SeesFlight5(env, c.state, c.items, E.After(cfg, acts).items)
  {
    hide E.After, IsServer, Prepared, Play, AllFine, AllSendable, F.Generate5, T.AfterFlight5, Flight5Sent,
      HC.FullPullSpec, AllHeard, Holds, HasDone, HellosThen, T.EntersFlight5, DoneIsLast, HeardFrom, E.Allowed,
      E.Raws, Numbered, X.Parses, SF.SeesFlight5;
    JoinedIsReady(env, mtu, inputs, rest, cfg, acts, sms);
    var c, server := Play(env, mtu, inputs).client, E.After(cfg, acts).items;
    var n, m := BothHold(env, mtu, inputs, rest, cfg, acts, sms);
    var hellos := Prepared(env, mtu, inputs);
    PreparesFlight5(env, mtu, inputs, rest);
    var all := ServerHoldsAll(env, mtu, inputs + [Loop(S.Advance)] + rest, cfg, acts, sms);
    PullsFlight5(env, c, server, hellos, sms);
    SendSequenceFits(env, c);
    ServerSeesFlight5(env, mtu, inputs, rest, cfg, acts, sms, c.state.sendSequence);
  }

  lemma SendSequenceFits(env: F.Env, c: S.Client)
    requires Ready(env, c)
    ensures c.state.sendSequence < 0x1_0000
  {
  }

  /** The server's cache when it has heard all that a client prepared. */
  lemma ServerHoldsAll(env: F.Env, mtu: nat, whole: seq<Input>, cfg: E.Config, acts: seq<E.Activity>, sms: seq<Sent>)
    returns (all: nat)
    requires GoodMtu(mtu) && IsServer(cfg, acts, sms) && cfg.accepts == env.accepts
    requires Numbered(Prepared(env, mtu, whole))
    requires forall k :: 0 <= k < |Prepared(env, mtu, whole)| ==> X.Parses(env.accepts, Prepared(env, mtu, whole)[k])
    requires E.Allowed(ConfigOf(env, mtu), Activities(env, mtu, whole))
    requires HeardFrom(E.Raws(acts), ConfigOf(env, mtu), Activities(env, mtu, whole)) && AllHeard(env, mtu, whole, cfg, acts)
    ensures all == |Prepared(env, mtu, whole)|
    ensures Holds(E.After(cfg, acts).items, sms, Prepared(env, mtu, whole), all, false)
  {
    hide E.After, E.Calls, E.Raws, HeardFrom, E.Allowed, E.AllFrom, E.Released, GoodCalls, GoodBatch, Numbered,
      SentIn, RunSendable, X.Parses, H.MarshalHeader, HC.UniqueKeys, Prepared, Play, Activities, AllFine, AllSendable,
      RL.UnpackAll, DatagramRun, E.Emits;
    var cms, own, client := Prepared(env, mtu, whole), Activities(env, mtu, whole), ConfigOf(env, mtu);
    CallsAreListed(env, mtu, whole);
    all := ServerHolds(cfg, acts, sms, client, own, cms);
    HeardIsFrom(cms, client, own, E.Raws(acts));
    E.EmitsItsCalls(client, own);
    forall k | 0 <= k < |cms| ensures SentIn(E.Calls(own), mtu, true, k) {
      PreparedIsSent(env, mtu, whole, k);
    }
    E.ReleasesAll(cfg, acts, cms, E.Calls(own), mtu, true);
  }

  /** The client has heard every record of the server's. */
  ghost predicate AllAnswered(env: F.Env, mtu: nat, inputs: seq<Input>, cfg: E.Config, acts: seq<E.Activity>)
    requires mtu > 0 && E.Allowed(cfg, acts)
  {
    forall raw :: raw in RL.UnpackAll(E.Emits(cfg, acts)) ==> raw in E.Raws(Activities(env, mtu, inputs))
  }

  /** Once everything has crossed, in whatever order the two ends cached their own and the
      peer's messages, every transcript is the same on both sides. */
  lemma TranscriptsAgree(env: F.Env, mtu: nat, inputs: seq<Input>, cfg: E.Config, acts: seq<E.Activity>,
                         sms: seq<Sent>, rules: seq<HC.Rule>)
    requires GoodMtu(mtu) && IsServer(cfg, acts, sms) && cfg.accepts == env.accepts
    requires Numbered(Prepared(env, mtu, inputs))
    requires forall k :: 0 <= k < |Prepared(env, mtu, inputs)| ==> X.Parses(env.accepts, Prepared(env, mtu, inputs)[k])
    requires E.Allowed(ConfigOf(env, mtu), Activities(env, mtu, inputs))
    requires HeardFrom(E.Raws(acts), ConfigOf(env, mtu), Activities(env, mtu, inputs)) && AllHeard(env, mtu, inputs, cfg, acts)
    requires HeardFrom(E.Raws(Activities(env, mtu, inputs)), cfg, acts) && AllAnswered(env, mtu, inputs, cfg, acts)
    ensures HC.PullAndMergeSpec(Play(env, mtu, inputs).client.items, rules) == HC.PullAndMergeSpec(E.After(cfg, acts).items, rules)
  {
    hide E.After, E.Calls, E.Raws, HeardFrom, E.Allowed, E.AllFrom, E.Released, GoodCalls, GoodBatch, Numbered,
      SentIn, RunSendable, X.Parses, H.MarshalHeader, HC.UniqueKeys, Prepared, Play, Activities, AllFine, AllSendable,
      RL.UnpackAll, DatagramRun, E.Emits, HC.Matches;
    var own, client := Activities(env, mtu, inputs), ConfigOf(env, mtu);
    var m := ServerHoldsAll(env, mtu, inputs, cfg, acts, sms);
    var n := ClientHolds(env, mtu, inputs, cfg, acts, sms);
    HeardIsFrom(sms, cfg, acts, E.Raws(own));
    E.EmitsItsCalls(cfg, acts);
    E.ReleasesAll(client, own, sms, E.Calls(acts), cfg.mtu, false);
    var cms := Prepared(env, mtu, inputs);
    assert cms[..m] == cms && sms[..n] == sms;
    HC.PullDependsOnMatching(Play(env, mtu, inputs).client.items, E.After(cfg, acts).items, rules);
  }

  /** The two sides are configured alike, and agree on the pre-master secret, the randoms and
      the extension; the server has not computed its secrets yet. */
  ghost predicate Alike(env: F.Env, c: S.Client, env4: SF.ServerEnv, sv: SF.State)
    requires Ready(env, c)
  {
    var g := F.Generate5(env, c.state, c.items).value;
    && env4.crypto == env.crypto && env4.accepts == env.accepts
    && env4.clientRandom == env.clientRandom && env4.serverRandom == c.state.serverRandom
    && env4.preMaster(g.exchange.body) == Some(g.state.preMaster)
    && sv.extendedMasterSecret == c.state.extendedMasterSecret
    && sv.suite == Some(F.Suite(false)) && sv.localVerifyData == [] && 0 <= sv.recvSequence < 0x1_0000
  }

  /** Over any network, for every run of the client and whatever the server did: a server that
      goes on to flight 6 has the client's master secret. */
  lemma SecretsAgree(env: F.Env, mtu: nat, inputs: seq<Input>, rest: seq<Input>,
                     cfg: E.Config, acts: seq<E.Activity>, sms: seq<Sent>,
                     env4: SF.ServerEnv, sv: SF.State, queued: seq<HC.Item>)
    requires Joined(env, mtu, inputs, rest, cfg, acts, sms)
    requires Alike(env, Play(env, mtu, inputs).client, env4, sv)
    requires SF.Parse4(env4, sv, E.After(cfg, acts).items, queued).2 == SF.Next6
    ensures var c := Play(env, mtu, inputs).client; var (t, _, _) := SF.Parse4(env4, sv, E.After(cfg, acts).items, queued);
      t.suite == Some(F.Suite(true)) && t.master == F.Generate5(env, c.state, c.items).value.state.master
  {
    hide E.After, Joined, Play, AllFine, AllSendable, F.Generate5, HC.FullPullSpec, SF.SeesFlight5, HC.PushAll,
      SF.CheckVerify, SF.DeriveMaster, SF.TakeFinished;
    JoinedIsReady(env, mtu, inputs, rest, cfg, acts, sms);
    var c, server := Play(env, mtu, inputs).client, E.After(cfg, acts).items;
    EntersWhenReadyToo(env, mtu, inputs, rest, cfg, acts, sms);
    PulledIfNext(env4, sv, server, queued);
    ServerSeesFlight5(env, mtu, inputs, rest, cfg, acts, sms, sv.recvSequence);
    SF.MasterSecretsAgree(env, c.state, c.items, env4, sv, server, queued);
  }

  lemma EntersWhenReadyToo(env: F.Env, mtu: nat, inputs: seq<Input>, rest: seq<Input>,
                           cfg: E.Config, acts: seq<E.Activity>, sms: seq<Sent>)
    requires Joined(env, mtu, inputs, rest, cfg, acts, sms)
    ensures Play(env, mtu, inputs).client.state.suite == Some(F.Suite(false))
  {
    hide Play, AllFine, AllSendable, T.EntersFlight5, HasDone, IsServer, Prepared, Activities;
    EntersWhenReady(env, mtu, inputs);
  }

  lemma PulledIfNext(env: SF.ServerEnv, s: SF.State, items: seq<HC.Item>, queued: seq<HC.Item>)
    requires SF.Parse4(env, s, items, queued).2 == SF.Next6
    ensures HC.FullPullSpec(env.accepts, items, s.recvSequence, T.FLIGHT4_RULES).Ok?
  {
    hide HC.FullPullSpec, SF.CheckVerify, SF.DeriveMaster, SF.TakeFinished, HC.PushAll;
  }

  // ---------------------------------------------------------------- the server's Finished

  /** Up to flight 6 the server has sent ServerHelloDone last, and no Finished. */
  predicate UpToDone(sms: seq<Sent>) {
    && |sms| > 0 && IsServerHello(sms[|sms| - 1]) && sms[|sms| - 1].message.header.typ == H.ServerHelloDone
    && forall i :: 0 <= i < |sms| ==> sms[i].message.header.typ != H.Finished
  }

  /** The receive sequence of a client past ServerHelloDone is the length of the server's list. */
  lemma ReadUpToDone(env: F.Env, recvSequence: int, items: seq<HC.Item>, hellos: seq<Sent>, sms: seq<Sent>, n: nat)
    requires Holds(items, hellos, sms, n, true) && Numbered(sms) && UpToDone(sms) && DoneIsLast(sms)
    requires forall k :: 0 <= k < |sms| ==> X.Parses(env.accepts, sms[k])
    requires HasDone(env, recvSequence, items) && 0 <= recvSequence < 0x1_0000
    ensures recvSequence == |sms|
  {
    hide HC.UniqueKeys, X.ItemsOf, H.MarshalHeader, X.Parses, HC.UnmarshalMessage;
    var d :| d in items && IsDone(env, recvSequence, d);
    if d in X.ItemsOf(hellos, true) {
      var k := ItemAt(hellos, true, d);
    }
    var i := ItemAt(sms[..n], false, d);
    X.DeliveredParses(env.accepts, sms[i]);
    assert i == |sms| - 1;
  }

  /** A server past flight 4 has the client's Finished, the last message of flight 5, hence
      all of them. */
  lemma FinishedIsHeld(env: F.Env, c: S.Client, server: seq<HC.Item>, hellos: seq<Sent>, sms: seq<Sent>, m: nat,
                       x: HC.Item)
    requires Ready(env, c) && T.EntersFlight5(env, c.state, c.items)
    requires Holds(server, sms, hellos + Flight5Sent(env, c), m, false) && HellosThen(hellos, Flight5Sent(env, c))
    requires x in server && HC.Matches(x, F.CLIENT_FINISHED_RULE)
    ensures m == |hellos + Flight5Sent(env, c)|
  {
    hide F.Generate5, Flight5Sent, T.BeforeFlight5, H.MarshalHeader, T.AfterFlight5, HC.UniqueKeys, Holds, HellosThen;
    Flight5Order(env, c);
    var k := PartOfFlight5(server, hellos, Flight5Sent(env, c), sms, m, x);
    HoldsWithin(server, hellos + Flight5Sent(env, c), sms, m);
  }

  lemma HoldsWithin(server: seq<HC.Item>, cms: seq<Sent>, sms: seq<Sent>, m: nat)
    requires Holds(server, sms, cms, m, false)
    ensures m <= |cms| && HC.UniqueKeys(server)
  {
  }

  lemma NextNeedsFinished(env: SF.ServerEnv, s: SF.State, items: seq<HC.Item>, queued: seq<HC.Item>)
    requires SF.Parse4(env, s, items, queued).2 == SF.Next6
    ensures exists x :: x in HC.PushAll(items, queued) && HC.Matches(x, F.CLIENT_FINISHED_RULE)
    ensures SF.Parse4(env, s, items, queued).1 == HC.PushAll(items, queued)
    ensures SF.Parse4(env, s, items, queued).0.localVerifyData == s.localVerifyData
  {
    hide HC.FullPullSpec, HC.PushAll, HC.Best, HC.PullAndMergeSpec, HC.SessionHashSpec, Prf.MasterSecret,
      Prf.ExtendedMasterSecret;
    var after := HC.PushAll(items, queued);
    var seqNo := HC.FullPullSpec(env.accepts, items, s.recvSequence, T.FLIGHT4_RULES).value.0;
    T.MandatoryPulled(env.accepts, after, seqNo, SF.CLIENT_FINISHED_RULES, 0);
    HC.BestMeans(after, SF.CLIENT_FINISHED_RULES[0]);
  }

  /** With all of each other's messages, the two transcripts are over the same ones; the
      server's Finished is on neither. */
  lemma TranscriptsHold(items: seq<HC.Item>, server: seq<HC.Item>, cms: seq<Sent>, sms: seq<Sent>, f: H.Message,
                        x: HC.Item)
    requires Holds(items, cms, sms + [Sent(f, 1)], |sms| + 1, true) && Holds(server, sms, cms, |cms|, false)
    requires f.header.typ == H.Finished && HC.MatchesAny(x, F.TranscriptRules())
    ensures x in server <==> x in items
  {
    hide HC.UniqueKeys, X.ItemsOf, H.MarshalHeader;
    var all := sms + [Sent(f, 1)];
    assert cms[..|cms|] == cms && all[..|sms| + 1] == all;
    var i :| 0 <= i < |F.TranscriptRules()| && HC.Matches(x, F.TranscriptRules()[i]);
    if x in X.ItemsOf(all, false) {
      var k := ItemAt(all, false, x);
      assert k < |sms|;
      AtItem(sms, |sms|, false, k);
    }
    if x in X.ItemsOf(sms, false) {
      var k := ItemAt(sms, false, x);
      assert all[k] == sms[k];
      AtItem(all, |all|, false, k);
    }
  }

  /** The server's Finished is the only one the client's rule can find. */
  lemma OnlyFinished(items: seq<HC.Item>, cms: seq<Sent>, sms: seq<Sent>, f: H.Message, n: nat, x: HC.Item)
    requires Holds(items, cms, sms + [Sent(f, 1)], n, true) && UpToDone(sms)
    requires x in items && HC.Matches(x, F.SERVER_FINISHED_RULES[0])
    ensures x == ItemOf(f, 1, false) && n == |sms| + 1
  {
    hide HC.UniqueKeys, X.ItemsOf, H.MarshalHeader;
    var all := sms + [Sent(f, 1)];
    if x in X.ItemsOf(cms, true) {
      var k := ItemAt(cms, true, x);
    }
    var k := ItemAt(all[..n], false, x);
    assert k == |sms|;
  }

  /** What prepare leaves of the client's state, and what stays so. */
  lemma StateInFlight5(env: F.Env, mtu: nat, inputs: seq<Input>, rest: seq<Input>)
    requires mtu > 0 && Ready(env, Play(env, mtu, inputs).client)
    ensures var c, c' := Play(env, mtu, inputs).client, Play(env, mtu, inputs + [Loop(S.Advance)] + rest).client;
      && InFlight5(c')
      && c'.state.master == F.Generate5(env, c.state, c.items).value.state.master
      && c'.state.recvSequence == c.state.recvSequence
  {
    hide F.Generate5, F.Flight5Packets, F.NumberPackets, AllFine, AllSendable, Play;
    var next := inputs + [Loop(S.Advance)];
    assert next[..|next| - 1] == inputs && next[|next| - 1] == Loop(S.Advance);
    var c := Play(env, mtu, inputs).client;
    PlayStep(env, mtu, next);
    S.GenerateKeeps(env, c.state, c.items);
    NothingMoreIsPrepared(env, mtu, next, rest);
  }

  /** The server after flight 4: `read` is what it has done once the queued records are read,
      `sent` once it has sent flight 6; the client heard nothing but that. */
  ghost predicate Answered(env: F.Env, mtu: nat, whole: seq<Input>, cfg: E.Config, acts: seq<E.Activity>, sms: seq<Sent>,
                           queued: seq<HC.Item>, read: seq<E.Activity>, sent: seq<E.Activity>, f: H.Message)
    requires mtu > 0 && E.Allowed(cfg, acts)
  {
    && E.Allowed(ConfigOf(env, mtu), Activities(env, mtu, whole))
    && IsServer(cfg, read, sms) && HeardFrom(E.Raws(read), ConfigOf(env, mtu), Activities(env, mtu, whole))
    && E.After(cfg, read).items == HC.PushAll(E.After(cfg, acts).items, queued)
    && IsServer(cfg, sent, sms + [Sent(f, 1)]) && HeardFrom(E.Raws(Activities(env, mtu, whole)), cfg, sent)
  }

  /** A client that holds the server's Finished, made over a cache with the same messages and
      with the same secret, accepts it. */
  lemma AcceptsFinished(env: F.Env, s: F.State, items: seq<HC.Item>, env4: SF.ServerEnv, t: SF.State,
                        server: seq<HC.Item>,
                        cms: seq<Sent>, sms: seq<Sent>, n: nat)
    requires UpToDone(sms) && |sms| < 0x1_0000 && s.recvSequence == |sms|
    requires env4.crypto == env.crypto && t.master == s.master && t.suite.Some? && t.localVerifyData == []
    requires var f := SF.ServerFinished(env4, t, server, |sms|);
      && Holds(items, cms, sms + [Sent(f, 1)], n, true) && Holds(server, sms, cms, |cms|, false)
      && ItemOf(f, 1, false) in items && X.Parses(env.accepts, Sent(f, 1))
    ensures F.Parse5(env, s, items) == F.Next(F.Flight5)
  {
    hide UpToDone, Holds, HC.MatchesAny, HC.UniqueKeys, F.TranscriptRules, H.MarshalHeader, F.Parse5, Prf.PHash,
      HC.PullAndMergeSpec;
    var f := SF.ServerFinished(env4, t, server, |sms|);
    HoldsWithin(server, cms, sms, |cms|);
    HoldsUnique(items, cms, sms + [Sent(f, 1)], n);
    OnlyFinished(items, cms, sms, f, n, ItemOf(f, 1, false));
    forall x | x in items && HC.Matches(x, F.SERVER_FINISHED_RULES[0]) ensures x == ItemOf(f, 1, false) {
      OnlyFinished(items, cms, sms, f, n, x);
    }
    forall x | HC.MatchesAny(x, F.TranscriptRules()) ensures x in server <==> x in items {
      TranscriptsHold(items, server, cms, sms, f, x);
    }
    SF.Flight6IsAccepted(env, s, items, env4, t, server, |sms|);
  }

  lemma HoldsUnique(items: seq<HC.Item>, own: seq<Sent>, peer: seq<Sent>, n: nat)
    requires Holds(items, own, peer, n, true)
    ensures HC.UniqueKeys(items)
  {
  }

  lemma NotifyFinishes(env: F.Env, c: S.Client)
    requires Alive(c) && c.phase == S.Waiting && c.flight == F.Flight5
    requires F.Parse5(env, c.state, c.items) == F.Next(F.Flight5)
    ensures S.Step(env, c, S.Notify).phase == S.Finished
  {
    hide F.Parse5;
  }

  lemma AlikeMeans(env: F.Env, c: S.Client, env4: SF.ServerEnv, sv: SF.State)
    requires Ready(env, c) && Alike(env, c, env4, sv)
    ensures env4.crypto == env.crypto && sv.localVerifyData == []
  {
    hide F.Generate5;
  }

  /** What a server has on its list. */
  lemma ServersList(cfg: E.Config, acts: seq<E.Activity>, sms: seq<Sent>)
    requires IsServer(cfg, acts, sms)
    ensures Numbered(sms) && |sms| < 0x1_0000 && forall k :: 0 <= k < |sms| ==> X.Parses(cfg.accepts, sms[k])
  {
    hide GoodCalls, E.Allowed, E.Calls, SentIn, X.Parses;
  }

  /** The handshake completes: over any network, a client that hears the Finished of a server
      past flight 4 accepts it, with the master secret they share. */
  lemma HandshakeCompletes(env: F.Env, mtu: nat, inputs: seq<Input>, rest: seq<Input>,
                           cfg: E.Config, acts: seq<E.Activity>, sms: seq<Sent>,
                           env4: SF.ServerEnv, sv: SF.State, queued: seq<HC.Item>,
                           read: seq<E.Activity>, sent: seq<E.Activity>)
    requires Joined(env, mtu, inputs, rest, cfg, acts, sms) && UpToDone(sms)
    requires Alike(env, Play(env, mtu, inputs).client, env4, sv)
    requires 0 <= Play(env, mtu, inputs).client.state.recvSequence < 0x1_0000
    requires SF.Parse4(env4, sv, E.After(cfg, acts).items, queued).2 == SF.Next6
    requires var (t, after, _) := SF.Parse4(env4, sv, E.After(cfg, acts).items, queued);
      var whole, f := inputs + [Loop(S.Advance)] + rest, SF.ServerFinished(env4, t, after, |sms|);
      && Answered(env, mtu, whole, cfg, acts, sms, queued, read, sent, f)
      && var c := Play(env, mtu, whole).client;
         Alive(c) && c.phase == S.Waiting && ItemOf(f, 1, false) in c.items
    ensures var c := Play(env, mtu, inputs + [Loop(S.Advance)] + rest).client;
      && S.Step(env, c, S.Notify).phase == S.Finished
      && c.state.master == SF.Parse4(env4, sv, E.After(cfg, acts).items, queued).0.master
  {
    hide E.After, E.Raws, HeardFrom, Joined, Play, Activities, Prepared, AllFine, AllSendable, F.Generate5, SF.Parse4,
      SF.ServerFinished, IsServer, Alike, Ready, Holds, UpToDone, HC.MatchesAny, HC.PushAll, F.TranscriptRules,
      T.EntersFlight5, HasDone, Flight5Sent, HellosThen, H.MarshalHeader, F.Parse5, T.AfterFlight5, Numbered,
      GoodCalls, DoneIsLast, HC.UniqueKeys, E.Allowed;
    JoinedIsReady(env, mtu, inputs, rest, cfg, acts, sms);
    var whole := inputs + [Loop(S.Advance)] + rest;
    var c, c' := Play(env, mtu, inputs).client, Play(env, mtu, whole).client;
    var (t, after, _) := SF.Parse4(env4, sv, E.After(cfg, acts).items, queued);
    var f := SF.ServerFinished(env4, t, after, |sms|);
    var cms := Prepared(env, mtu, inputs) + Flight5Sent(env, c);
    SecretsAgree(env, mtu, inputs, rest, cfg, acts, sms, env4, sv, queued);
    StateInFlight5(env, mtu, inputs, rest);
    PreparesFlight5(env, mtu, inputs, rest);
    var n0, m0 := BothHold(env, mtu, inputs, rest, cfg, acts, sms);
    CallsAreListed(env, mtu, whole);
    var m := ServerHolds(cfg, read, sms, ConfigOf(env, mtu), Activities(env, mtu, whole), cms);
    var n := ClientHolds(env, mtu, whole, cfg, sent, sms + [Sent(f, 1)]);
    ServersList(cfg, acts, sms);
    ServersList(cfg, sent, sms + [Sent(f, 1)]);
    assert (sms + [Sent(f, 1)])[|sms|] == Sent(f, 1);
    ReadUpToDone(env, c.state.recvSequence, c.items, Prepared(env, mtu, inputs), sms, n0);
    NextNeedsFinished(env4, sv, E.After(cfg, acts).items, queued);
    var x :| x in after && HC.Matches(x, F.CLIENT_FINISHED_RULE);
    FinishedIsHeld(env, c, after, Prepared(env, mtu, inputs), sms, m, x);
    AlikeMeans(env, c, env4, sv);
    AcceptsFinished(env, c'.state, c'.items, env4, t, after, cms, sms, n);
    NotifyFinishes(env, c');
  }
}
