/** The client side of a DTLS connection as it runs: its state, flight and cache changed in
    place by the methods of the handshake loop. */
module ClientConn {
  import opened Bytes
  import opened Wrappers
  import H = Handshake
  import HC = HandshakeCache
  import Prf
  import opened Conn
  import opened Flights
  import opened Handshaker
  import X = Exchange

  lemma MarshalAllSnoc(ms: seq<H.Message>, m: H.Message)
    ensures MarshalAll(ms + [m]) == MarshalAll(ms) + m.Marshal()
    decreases |ms|
  {
    if ms == [] {
      assert [m][1..] == [];
      EmptyUnit(m.Marshal());
    } else {
      MarshalAllSnoc(ms[1..], m);
      assert (ms + [m])[0] == ms[0] && (ms + [m])[1..] == ms[1..] + [m];
      Assoc(ms[0].Marshal(), MarshalAll(ms[1..]), m.Marshal());
    }
  }

  /** The master secret is set before the server's key is checked. */
  function WithMaster(env: Env, s: State, items: seq<HC.Item>, sendingPlainText: Bytes): State {
    s.(master :=
         if s.suite.None? then s.master
         else if s.extendedMasterSecret then
           Prf.ExtendedMasterSecret(env.crypto, s.preMaster,
                                    HC.SessionHashSpec(env.crypto.sha256, items, 0, sendingPlainText))
         else Prf.MasterSecret(env.crypto, s.preMaster, env.clientRandom, s.serverRandom))
  }

  /** What is left of the state when flight 5 cannot be generated: as it was, if the server's
      key exchange cannot be read; with a master secret, if its key does not verify; with an
      initialized suite as well, if signing fails. */
  function Abandoned(env: Env, s: State, items: seq<HC.Item>): State {
    var sending := MarshalAll(Opt(CertificateMessage(env, s)) + [KeyExchangeMessage(env, s)]);
    match ReadServerKey(env, s, items)
    case None => s
    case Some((s1, serverKey)) =>
      match InitializeCipherSuite(env, s1, items, serverKey, sending)
      case None => WithMaster(env, s1, items, sending)
      case Some(s2) => s2
  }

  class ClientConn {
    const env: Env
    const cache: HC.HandshakeCache
    var phase: Phase
    var currentFlight: Flight
    var state: State
    var flights: seq<Packet>
    var completed: bool
    var failed: bool

    ghost function View(): Client
      reads this, cache
    {
      Client(phase, currentFlight, state, flights, cache.cache, completed, failed)
    }

    constructor (env: Env)
      ensures View() == INITIAL && this.env == env && fresh(cache)
    {
      this.env := env;
      cache := new HC.HandshakeCache();
      phase, currentFlight, state, flights := Preparing, Flight1, INITIAL_STATE, [];
      completed, failed := false, false;
    }

    // -------------------------------------------------------------- parse

    method HandleHelloVerify(seqNo: int, m: H.Message) returns (o: Outcome)
      modifies this`state
      ensures (state, o) == TakeHelloVerify(env, old(state), seqNo, m)
    {
      if m.header.typ != H.HelloVerifyRequest {
        return KeepReading;
      }
      var h := env.readHelloVerify(m.body);
      if !h.versionOk {
        return Fatal;
      }
      state := state.(cookie := h.cookie);
      state := state.(recvSequence := seqNo);
      return Next(Flight3);
    }

    method HandleServerHello(m: H.Message) returns (o: Option<Outcome>)
      modifies this`state
      ensures match o
        case Some(x) => forall msgs: Pulled | H.ServerHello in msgs && msgs[H.ServerHello] == m ::
          TakeServerHello(env, old(state), msgs) == (state, x)
        case None => forall msgs: Pulled | H.ServerHello in msgs && msgs[H.ServerHello] == m ::
          TakeServerHello(env, old(state), msgs) == TakeKeyExchange(env, state, msgs)
    {
      hide TakeKeyExchange;
      if m.header.typ != H.ServerHello {
        return Some(KeepReading);
      }
      var h := env.judgeServerHello(m.body, state.extendedMasterSecret);
      if h.None? {
        return Some(Fatal);
      }
      if h.value.extendedMasterSecret {
        state := state.(extendedMasterSecret := true);
      }
      state := state.(suite := Some(Suite(false)));
      state := state.(serverRandom := h.value.serverRandom);
      return None;
    }

    method ParseServerFlightNow() returns (o: Outcome)
      modifies this`state
      ensures (state, o) == ParseServerFlight(env, old(state), cache.cache)
    {
      hide HC.FullPullSpec, TakeCertificateRequest;
      var r := cache.FullPullMap(env.accepts, state.recvSequence, ServerFlightRules(env));
      if r.Err? {
        return KeepReading;
      }
      var (seqNo, msgs) := r.value;
      state := state.(recvSequence := seqNo);
      ghost var s0 := state;
      if H.ServerHello in msgs {
        var done := HandleServerHello(msgs[H.ServerHello]);
        if done.Some? {
          return done.value;
        }
      }
      assert TakeServerHello(env, s0, msgs) == TakeKeyExchange(env, state, msgs);
      if H.Certificate in msgs && msgs[H.Certificate].header.typ != H.Certificate {
        return KeepReading;
      }
      if H.ServerKeyExchange in msgs {
        if msgs[H.ServerKeyExchange].header.typ != H.ServerKeyExchange {
          return KeepReading;
        }
        var key := env.agreeKey(Some(msgs[H.ServerKeyExchange].body));
        if key.None? {
          return Fatal;
        }
        state := state.(preMaster := key.value.preMaster, publicKey := key.value.publicKey);
      }
      o := HandleCertificateRequest(msgs);
    }

    method HandleCertificateRequest(msgs: Pulled) returns (o: Outcome)
      modifies this`state
      ensures (state, o) == TakeCertificateRequest(old(state), msgs)
    {
      if H.CertificateRequest in msgs {
        if msgs[H.CertificateRequest].header.typ != H.CertificateRequest {
          return KeepReading;
        }
        state := state.(remoteRequestedCertificate := true);
      }
      return Next(Flight5);
    }

    method ParseFlight3() returns (o: Outcome)
      modifies this`state
      ensures (state, o) == Parse3(env, old(state), cache.cache)
    {
      hide HC.FullPullSpec, ParseServerFlight, TakeHelloVerify;
      var r := cache.FullPullMap(env.accepts, state.recvSequence, HELLO_VERIFY_RULES);
      if r.Ok? {
        var (seqNo, msgs) := r.value;
        if H.HelloVerifyRequest in msgs {
          o := HandleHelloVerify(seqNo, msgs[H.HelloVerifyRequest]);
          return;
        }
      }
      o := ParseServerFlightNow();
    }

    method ParseFlight1() returns (o: Outcome)
      modifies this`state
      ensures (state, o) == Parse1(env, old(state), cache.cache)
    {
      hide HC.FullPullSpec, Parse3, TakeHelloVerify;
      var r := cache.FullPullMap(env.accepts, state.recvSequence, FLIGHT1_RULES);
      if r.Err? {
        return KeepReading;
      }
      var (seqNo, msgs) := r.value;
      if H.ServerHello in msgs {
        o := ParseFlight3();
      } else if H.HelloVerifyRequest in msgs {
        o := HandleHelloVerify(seqNo, msgs[H.HelloVerifyRequest]);
      } else {
        o := KeepReading;
      }
    }

    method ParseFlight5() returns (o: Outcome)
      ensures o == Parse5(env, state, cache.cache)
    {
      hide HC.FullPullSpec, HC.PullAndMergeSpec, TranscriptRules;
      var r := cache.FullPullMap(env.accepts, state.recvSequence, SERVER_FINISHED_RULES);
      if r.Err? {
        return KeepReading;
      }
      var (_, msgs) := r.value;
      if H.Finished !in msgs || msgs[H.Finished].header.typ != H.Finished {
        return KeepReading;
      }
      var plainText := cache.PullAndMerge(TranscriptRules());
      if state.suite.Some? {
        var expected := Prf.VerifyDataServer(env.crypto, state.master, plainText);
        if expected != msgs[H.Finished].body {
          return Fatal;
        }
      }
      return Next(Flight5);
    }

    // -------------------------------------------------------------- generate, flight 5

    /** The packets not yet sent get the numbers they will be sent with, and are merged. */
    method PredictNumbers(pkts: seq<Packet>, ghost ms: seq<H.Message>) returns (numbered: seq<Packet>, merged: Bytes, next: nat)
      requires |ms| == |pkts|
      requires forall i :: 0 <= i < |pkts| ==>
        pkts[i].content.HandshakeContent? && ms[i] == H.Renumbered(pkts[i].content.message, state.sendSequence + i)
      requires forall i :: 0 <= i < |pkts| ==> pkts[i] == Plaintext(pkts[i].content.message)
      ensures numbered == Packets(ms) && merged == MarshalAll(ms) && next == state.sendSequence + |ms|
    {
      hide MarshalAll;
      numbered := pkts;
      merged := [];
      next := state.sendSequence;
      assert MarshalAll(ms[..0]) == [] by { NothingMarshalled(); }
      for i := 0 to |pkts|
        invariant |numbered| == |pkts| && next == state.sendSequence + i
        invariant forall j :: 0 <= j < i ==> numbered[j] == Plaintext(ms[j])
        invariant forall j :: i <= j < |pkts| ==> numbered[j] == pkts[j]
        invariant merged == MarshalAll(ms[..i])
      {
        var h := H.Renumbered(numbered[i].content.message, next);
        numbered := numbered[i := numbered[i].(content := HandshakeContent(h))];
        next := next + 1;
        MarshalAllSnoc(ms[..i], ms[i]);
        assert ms[..i] + [ms[i]] == ms[..i + 1];
        merged := merged + h.Marshal();
      }
      assert ms[..|ms|] == ms;
    }

    /** The server's key exchange, read back from the cache. */
    method ReadServerKeyNow() returns (serverKey: Option<Bytes>)
      modifies this`state
      ensures match ReadServerKey(env, old(state), cache.cache)
        case None => serverKey.None? && state == old(state)
        case Some((s, key)) => serverKey == Some(key) && state == s
    {
      hide HC.PullAndMergeSpec, HC.UnmarshalMessage;
      var data := cache.PullAndMerge(SERVER_KEY_EXCHANGE_RULES);
      if data == [] {
        var key := env.agreeKey(None);
        if key.None? {
          return None;
        }
        state := state.(preMaster := key.value.preMaster, publicKey := key.value.publicKey);
        return Some([]);
      }
      var m := HC.UnmarshalMessage(env.accepts, data);
      if m.None? || m.value.header.typ != H.ServerKeyExchange {
        return None;
      }
      return Some(m.value.body);
    }

    method InitializeCipherSuiteNow(serverKey: Bytes, sendingPlainText: Bytes) returns (ok: bool)
      modifies this`state
      ensures match InitializeCipherSuite(env, old(state), cache.cache, serverKey, sendingPlainText)
        case None => !ok && state == WithMaster(env, old(state), cache.cache, sendingPlainText)
        case Some(s) => ok && state == s
    {
      hide HC.SessionHashSpec;
      if state.suite.Some? && state.suite.value.initialized {
        return true;
      }
      if state.suite.Some? {
        if state.extendedMasterSecret {
          var hash := cache.SessionHash(env.crypto.sha256, 0, sendingPlainText);
          state := state.(master := Prf.ExtendedMasterSecret(env.crypto, state.preMaster, hash));
        } else {
          state := state.(master := Prf.MasterSecret(env.crypto, state.preMaster, env.clientRandom, state.serverRandom));
        }
      }
      if !env.hasPsk && !env.serverKeyVerifies(serverKey) {
        return false;
      }
      if state.suite.Some? {
        state := state.(suite := Some(Suite(true)));
      }
      return true;
    }

    method SignTranscript(merged: Bytes, next: nat) returns (verify: Result<Option<H.Message>, ()>)
      ensures verify == CertificateVerifyMessage(env, state, cache.cache, merged, next)
    {
      hide HC.PullAndMergeSpec;
      if !state.remoteRequestedCertificate || env.certificate.None? {
        return Ok(None);
      }
      var plainText := cache.PullAndMerge(HC.SessionRules(0));
      plainText := plainText + merged;
      var body := env.sign(plainText);
      if body.None? {
        return Err(());
      }
      return Ok(Some(H.Renumbered(H.NewMessage(H.CertificateVerify, body.value), next)));
    }

    method ComputeVerifyData(merged: Bytes)
      modifies this`state
      ensures state == FinishedState(env, old(state), cache.cache, merged)
    {
      hide HC.PullAndMergeSpec, TranscriptRules;
      if state.localVerifyData == [] {
        var plainText := cache.PullAndMerge(TranscriptRules());
        plainText := plainText + merged;
        if state.suite.Some? {
          state := state.(localVerifyData := Prf.VerifyDataClient(env.crypto, state.master, plainText));
        }
      }
    }

    /** The packets of the flight, or None on an error that ends the handshake. */
    method GenerateFlight5() returns (flight: Option<seq<Packet>>)
      modifies this`state
      ensures match Generate5(env, old(state), cache.cache)
        case None => flight.None? && state == Abandoned(env, old(state), cache.cache)
        case Some(g) => flight == Some(Flight5Packets(g)) && state == g.state
    {
      hide ReadServerKey, InitializeCipherSuite, CertificateVerifyMessage, FinishedState, MarshalAll, WithMaster;
      ghost var s0 := state;
      ghost var certificate, exchange := CertificateMessage(env, s0), KeyExchangeMessage(env, s0);
      ghost var keys := Opt(certificate) + [exchange];
      var pkts := [];
      if state.remoteRequestedCertificate {
        var body := if env.certificate.Some? then env.certificate.value else env.emptyCertificate;
        pkts := pkts + [Plaintext(H.NewMessage(H.Certificate, body))];
      }
      pkts := pkts + [Plaintext(H.NewMessage(H.ClientKeyExchange, env.clientKeyExchange(state.publicKey)))];
      var serverKey := ReadServerKeyNow();
      if serverKey.None? {
        return None;
      }
      ReadKeepsNumbers(env, s0, cache.cache);
      var merged, next;
      pkts, merged, next := PredictNumbers(pkts, keys);
      var ok := InitializeCipherSuiteNow(serverKey.value, merged);
      if !ok {
        return None;
      }
      var verify := SignTranscript(merged, next);
      if verify.Err? {
        return None;
      }
      ghost var all := keys + Opt(verify.value);
      EmptyUnit(keys);
      EmptyUnit(pkts);
      if verify.value.Some? {
        MarshalAllSnoc(keys, verify.value.value);
        merged := merged + verify.value.value.Marshal();
        pkts := pkts + [Plaintext(verify.value.value)];
      }
      assert pkts == Packets(all);
      pkts := pkts + [CHANGE_CIPHER_SPEC];
      ComputeVerifyData(merged);
      Assoc(Packets(all), [CHANGE_CIPHER_SPEC], [FinishedPacket(state)]);
      assert [CHANGE_CIPHER_SPEC] + [FinishedPacket(state)] == [CHANGE_CIPHER_SPEC, FinishedPacket(state)];
      assert merged == MarshalAll(all);
      ghost var g := Generated(state, certificate, exchange, verify.value);
      assert g.Messages() == all;
      assert Generate5(env, s0, cache.cache) == Some(g);
      return Some(pkts + [FinishedPacket(state)]);
    }

    // -------------------------------------------------------------- the loop

    method GenerateNow() returns (pkts: Option<seq<Packet>>)
      modifies this`state
      ensures match Generate(env, currentFlight, old(state), cache.cache)
        case None => pkts.None? && state == Abandoned(env, old(state), cache.cache)
        case Some((s, p)) => pkts == Some(p) && state == s
    {
      hide Generate5, Flight5Packets, Abandoned;
      match currentFlight {
        case Flight1 =>
          state := state.(cookie := []);
          return Some(ClientHelloPackets(env, state));
        case Flight3 =>
          return Some(ClientHelloPackets(env, state));
        case Flight5 =>
          pkts := GenerateFlight5();
      }
    }

    method PrepareNow()
      requires phase == Preparing && !failed
      modifies this
      ensures var c := Prepare(env, old(View()));
        View() == if c.failed then c.(flights := [], state := Abandoned(env, old(state), cache.cache)) else c
    {
      hide Generate, Abandoned;
      flights := [];
      var pkts := GenerateNow();
      if pkts.None? {
        failed := true;
        return;
      }
      flights := pkts.value;
      NumberFlights();
      phase := Sending;
    }

    /** The numbering loop of prepare. */
    method NumberFlights()
      modifies this`flights, this`state
      ensures var (numbered, n) := NumberPackets(old(flights), old(state).sendSequence);
        flights == numbered && state == old(state).(sendSequence := n)
    {
      ghost var all := flights;
      ghost var n0 := state.sendSequence;
      assert all[0..] == all;
      EmptyUnit(NumberPackets(all, n0).0);
      for i := 0 to |flights|
        invariant |flights| == |all| && flights[i..] == all[i..]
        invariant state == old(state).(sendSequence := state.sendSequence)
        invariant var rest := NumberPackets(all[i..], state.sendSequence);
          NumberPackets(all, n0) == (flights[..i] + rest.0, rest.1)
      {
        ghost var before := flights;
        var p := flights[i];
        assert p == flights[i..][0] == all[i..][0];
        assert all[i..][1..] == all[i + 1..];
        if p.content.HandshakeContent? {
          p := p.(content := HandshakeContent(H.Renumbered(p.content.message, state.sendSequence)));
          state := state.(sendSequence := state.sendSequence + 1);
        }
        flights := flights[i := p];
        assert flights[i + 1..] == before[i..][1..];
        assert flights[..i + 1] == before[..i] + [p];
        Assoc(before[..i], [p], NumberPackets(all[i + 1..], state.sendSequence).0);
      }
      EmptyUnit(flights);
      assert flights[..|flights|] == flights;
    }

    /** Each packet handed to the sender has its message cached. */
    method CacheSent(sent: seq<Packet>)
      modifies cache
      ensures cache.cache == HC.PushAll(old(cache.cache), ItemsSent(sent))
    {
      hide HC.PushSpec, H.MarshalHeader;
      assert sent[0..] == sent;
      for i := 0 to |sent|
        invariant HC.PushAll(cache.cache, ItemsSent(sent[i..])) == HC.PushAll(old(cache.cache), ItemsSent(sent))
      {
        assert sent[i..][0] == sent[i] && sent[i..][1..] == sent[i + 1..];
        var p := sent[i];
        EmptyUnit(ItemsSent(sent[i + 1..]));
        if p.content.HandshakeContent? {
          var m := p.content.message;
          X.PushAllCons(cache.cache, ItemOf(m, p.epoch, true), ItemsSent(sent[i + 1..]));
          var _ := cache.Push(m.Marshal(), p.epoch, m.header.messageSequence, m.header.typ, true);
        }
      }
    }

    method SendNow()
      requires phase == Sending
      modifies this`phase, cache
      ensures View() == Send(old(View()))
    {
      CacheSent(flights);
      phase := Waiting;
    }

    /** An error after n packets ends the handshake. */
    method SendFails(n: nat)
      requires phase == Sending
      modifies this`failed, cache
      ensures View() == old(View()).(items := HC.PushAll(old(cache.cache), ItemsSent(flights[..Min(n, |flights|)])), failed := true)
    {
      CacheSent(flights[..Min(n, |flights|)]);
      failed := true;
    }

    /** The reader's signal: parse what is cached. */
    method ReadNow()
      requires phase == Waiting
      modifies this
      ensures View() == ReadMessages(env, old(View()))
    {
      hide Parse1, Parse3, Parse5;
      var o;
      match currentFlight {
        case Flight1 => o := ParseFlight1();
        case Flight3 => o := ParseFlight3();
        case Flight5 => o := ParseFlight5();
      }
      match o {
        case Fatal =>
          failed := true;
        case KeepReading =>
        case Next(next) =>
          if next == Flight5 && currentFlight == Flight5 {
            phase := Finished;
          } else {
            currentFlight := next;
            phase := Preparing;
          }
      }
    }

    /** One event. A handshake that fails to generate its flight has returned, and leaves its
        packets dropped and its secrets half computed. */
    method Handle(e: Event)
      modifies this, cache
      ensures var c := Step(env, old(View()), e);
        View() == if c.failed && !old(failed) && old(phase) == Preparing
                  then c.(flights := [], state := Abandoned(env, old(state), old(cache.cache)))
                  else c
    {
      hide Abandoned, Prepare, Send, ReadMessages, HC.PushSpec, HC.PushAll, ItemsSent;
      if e.Arrive? {
        if !e.item.isClient {
          var x := e.item;
          var _ := cache.Push(x.data, x.epoch, x.messageSequence, x.typ, false);
        }
        return;
      }
      if failed || completed {
        return;
      }
      match phase {
        case Preparing =>
          if e == Advance {
            PrepareNow();
          }
        case Sending =>
          if e == Advance {
            SendNow();
          } else if e.SendError? {
            SendFails(e.n);
          }
        case Waiting =>
          if e == Timer {
            phase := Sending;
          } else if e == Notify {
            ReadNow();
          }
        case Finished =>
          if e == Advance {
            completed := true;
          }
      }
    }
  }

  lemma NothingMarshalled()
    ensures MarshalAll([]) == []
  {
  }

  lemma ReadKeepsNumbers(env: Env, s: State, items: seq<HC.Item>)
    ensures var r := ReadServerKey(env, s, items);
      r.Some? ==> r.value.0.sendSequence == s.sendSequence
  {
    hide HC.PullAndMergeSpec, HC.UnmarshalMessage;
  }
}
