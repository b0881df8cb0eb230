/** The server's flight 4: what it makes of the client's key exchange, CertificateVerify and
    Finished, and that it derives the client's secret over the client's transcript. */
module ServerFlight {
  import opened Bytes
  import opened Wrappers
  import RL = RecordLayer
  import H = Handshake
  import HC = HandshakeCache
  import Prf
  import opened Conn
  import F = Flights
  import T = Transcript
  import X = Exchange

  datatype ClientAuth = NoClientCert | RequireAnyClientCert | VerifyClientCertIfGiven

  /** Configuration, key agreement and certificate checks. */
  datatype ServerEnv = ServerEnv(
    crypto: Prf.Crypto,
    accepts: HC.BodyParser,
    clientAuth: ClientAuth,
    preMaster: Bytes -> Option<Bytes>,              // from the ClientKeyExchange body
    hasCertificates: Bytes -> bool,                 // whether a Certificate body names any
    schemeListed: Bytes -> bool,                    // of a CertificateVerify body
    signatureVerifies: (Bytes, Bytes, Bytes) -> bool, // text, CertificateVerify body, Certificate body
    chainVerifier: Option<Bytes -> bool>,
    peerAccepted: Bytes -> bool,
    clientRandom: Bytes,
    serverRandom: Bytes)

  datatype State = State(
    recvSequence: int,
    suite: Option<F.Suite>,
    extendedMasterSecret: bool,
    master: Bytes,
    peerCertificates: Option<Bytes>,
    peerVerified: bool,
    localVerifyData: H.Body)

  datatype Outcome = Next6 | KeepReading | Fatal

  const CLIENT_FINISHED_RULES := [HC.Rule(H.Finished, 1, true, false)]

  predicate NoCertificates(env: ServerEnv, s: State) {
    s.peerCertificates.None? || !env.hasCertificates(s.peerCertificates.value)
  }

  /** CertificateVerify: None when there is nothing to object to. */
  function CheckVerify(env: ServerEnv, s: State, items: seq<HC.Item>, msgs: F.Pulled): (State, Option<Outcome>) {
    if H.CertificateVerify !in msgs then (s, None)
    else
      var m := msgs[H.CertificateVerify];
      if m.header.typ != H.CertificateVerify then (s, Some(KeepReading))
      else if NoCertificates(env, s) then (s, Some(Fatal))
      else
        var cert := s.peerCertificates.value;
        if !env.schemeListed(m.body)
           || !env.signatureVerifies(HC.PullAndMergeSpec(items, HC.SessionRules(0)), m.body, cert) then (s, Some(Fatal))
        else
          var wanted := env.clientAuth.VerifyClientCertIfGiven?;
          if wanted && (env.chainVerifier.None? || !env.chainVerifier.value(cert)) then (s, Some(Fatal))
          else if !env.peerAccepted(cert) then (s, Some(Fatal))
          else (s.(peerVerified := wanted), None)
  }

  /** The master secret, once: over the session hash when it is extended. */
  function DeriveMaster(env: ServerEnv, s: State, items: seq<HC.Item>, exchange: Bytes): Option<State> {
    if s.suite.None? || s.suite.value.initialized then Some(s)
    else
      match env.preMaster(exchange)
      case None => None
      case Some(secret) =>
        Some(s.(suite := Some(F.Suite(true)),
                master := if s.extendedMasterSecret
                          then Prf.ExtendedMasterSecret(env.crypto, secret, HC.SessionHashSpec(env.crypto.sha256, items, 0, []))
                          else Prf.MasterSecret(env.crypto, secret, env.clientRandom, env.serverRandom)))
  }

  /** The client's Finished has to be next; its verify data is not compared. */
  function TakeFinished(env: ServerEnv, s: State, items: seq<HC.Item>, seqNo: int): (State, Outcome) {
    match HC.FullPullSpec(env.accepts, items, seqNo, CLIENT_FINISHED_RULES)
    case Err(_) => (s, KeepReading)
    case Ok((next, msgs)) =>
      var s := s.(recvSequence := next);
      if H.Finished !in msgs || msgs[H.Finished].header.typ != H.Finished then (s, KeepReading)
      else if env.clientAuth.RequireAnyClientCert? && NoCertificates(env, s) then (s, Fatal)
      else if env.clientAuth.VerifyClientCertIfGiven? && !NoCertificates(env, s) && !s.peerVerified then (s, Fatal)
      else (s, Next6)
  }

  /** parse; queued are the encrypted messages that can be read once the suite is ready. */
  function Parse4(env: ServerEnv, s: State, items: seq<HC.Item>, queued: seq<HC.Item>): (State, seq<HC.Item>, Outcome) {
    match HC.FullPullSpec(env.accepts, items, s.recvSequence, T.FLIGHT4_RULES)
    case Err(_) => (s, items, KeepReading)
    case Ok((seqNo, msgs)) =>
      if H.ClientKeyExchange !in msgs || msgs[H.ClientKeyExchange].header.typ != H.ClientKeyExchange then (s, items, KeepReading)
      else if H.Certificate in msgs && msgs[H.Certificate].header.typ != H.Certificate then (s, items, KeepReading)
      else
        var s1 := if H.Certificate in msgs then s.(peerCertificates := Some(msgs[H.Certificate].body)) else s;
        var (s2, objection) := CheckVerify(env, s1, items, msgs);
        if objection.Some? then (s2, items, objection.value)
        else
          match DeriveMaster(env, s2, items, msgs[H.ClientKeyExchange].body)
          case None => (s2, items, Fatal)
          case Some(s3) =>
            var after := HC.PushAll(items, queued);
            var (s4, o) := TakeFinished(env, s3, after, seqNo);
            (s4, after, o)
  }

  // ---------------------------------------------------------------- flight 6

  /** generate of flight 6: ChangeCipherSpec and the server's Finished. */
  function Generate6(env: ServerEnv, s: State, items: seq<HC.Item>): (State, seq<Packet>) {
    var s' := if s.localVerifyData != [] || s.suite.None? then s
              else s.(localVerifyData := Prf.VerifyDataServer(env.crypto, s.master, HC.PullAndMergeSpec(items, F.TranscriptRules())));
    (s', [F.CHANGE_CIPHER_SPEC, Packet(RL.PROTOCOL_VERSION1_2, 1, HandshakeContent(H.NewMessage(H.Finished, s'.localVerifyData)))])
  }

  /** The server's Finished once prepare has numbered the flight. */
  function ServerFinished(env: ServerEnv, s: State, items: seq<HC.Item>, n: nat): H.Message {
    H.Renumbered(H.NewMessage(H.Finished, Generate6(env, s, items).0.localVerifyData), n)
  }

  lemma Flight6IsNumbered(env: ServerEnv, s: State, items: seq<HC.Item>, n: nat)
    ensures F.NumberPackets(Generate6(env, s, items).1, n)
         == ([F.CHANGE_CIPHER_SPEC, Packet(RL.PROTOCOL_VERSION1_2, 1, HandshakeContent(ServerFinished(env, s, items, n)))], n + 1)
  {
    var finished := Generate6(env, s, items).1[1];
    T.NumberTail(finished, finished.(content := HandshakeContent(ServerFinished(env, s, items, n))), ServerFinished(env, s, items, n), n);
  }

  /** The client accepts the server's flight 6 when the two have the same master secret and
      the same transcript messages in their caches, in whatever order. */
  lemma Flight6IsAccepted(env: F.Env, s: F.State, items: seq<HC.Item>, env4: ServerEnv, sv: State,
                          server: seq<HC.Item>, n: nat)
    requires HC.UniqueKeys(items) && HC.UniqueKeys(server)
    requires forall x :: HC.MatchesAny(x, F.TranscriptRules()) ==> (x in server <==> x in items)
    requires env4.crypto == env.crypto && sv.master == s.master
    requires sv.suite.Some? && sv.localVerifyData == []
    requires s.recvSequence == n < 0x1_0000
    requires var f := ServerFinished(env4, sv, server, n);
      && env.accepts(H.Finished, f.body) && ItemOf(f, 1, false) in items
      && forall x :: x in items && HC.Matches(x, F.SERVER_FINISHED_RULES[0]) ==> x == ItemOf(f, 1, false)
    ensures F.Parse5(env, s, items) == F.Next(F.Flight5)
  {
    hide HC.Best, HC.Pull, HC.FullPullSpec, H.MarshalHeader, F.TranscriptRules, Prf.PHash;
    var f := ServerFinished(env4, sv, server, n);
    var rules := F.SERVER_FINISHED_RULES;
    OneRulePull(env.accepts, items, n, rules, f, 1, false);
    T.FinishedAgrees(env, s, items, server);
  }

  /** A pull by a single rule that only one cached message matches. */
  lemma OneRulePull(accepts: HC.BodyParser, items: seq<HC.Item>, start: nat, rules: seq<HC.Rule>, m: H.Message,
                    epoch: U16, isClient: bool)
    requires |rules| == 1 && !rules[0].optional && rules[0].typ == m.header.typ
    requires start < 0x1_0000 && m.header.messageSequence == start
    requires m.header.typ.HasParser() && accepts(m.header.typ, m.body)
    requires HC.Matches(ItemOf(m, epoch, isClient), rules[0]) && ItemOf(m, epoch, isClient) in items
    requires forall x :: x in items && HC.Matches(x, rules[0]) ==> x == ItemOf(m, epoch, isClient)
    ensures var r := HC.FullPullSpec(accepts, items, start, rules);
      r.Ok? && m.header.typ in r.value.1 && r.value.1[m.header.typ] == m
  {
    hide HC.Best, HC.FullPullSpec, HC.Messages, H.MarshalHeader;
    var x := ItemOf(m, epoch, isClient);
    HC.BestMeans(items, rules[0]);
    assert HC.Best(items, rules[0]) == Some(x);
    assert rules[1..] == [] && HC.Pull(items, []) == [];
    assert HC.Pull(items, rules) == [x];
    HC.ParsesBack(accepts, m);
    HC.FullPullIsGapFree(accepts, items, start, rules);
    assert [x][0] == x;
    PulledIs(accepts, items, start, rules, 0, m);
  }

  lemma PulledIs(accepts: HC.BodyParser, items: seq<HC.Item>, start: int, rules: seq<HC.Rule>, i: nat, m: H.Message)
    requires HC.DistinctTypes(rules) && i < |rules| && HC.FullPullSpec(accepts, items, start, rules).Ok?
    requires HC.Best(items, rules[i]).Some? && HC.Best(items, rules[i]).value.data == m.Marshal()
    ensures var msgs := HC.FullPullSpec(accepts, items, start, rules).value.1;
      rules[i].typ in msgs && msgs[rules[i].typ] == m
  {
    hide HC.FullPullSpec, HC.Pull, HC.Best, HC.Messages;
    HC.FullPullIsGapFree(accepts, items, start, rules);
    var p := HC.Pull(items, rules);
    forall x | x in p ensures HC.UnmarshalMessage(accepts, x.data).Some? {
      var k :| 0 <= k < |p| && p[k] == x;
    }
    HC.MessagesOf(accepts, items, rules, map[], i);
    HC.ParsesBack(accepts, m);
  }

  lemma NotPulled(accepts: HC.BodyParser, items: seq<HC.Item>, start: int, rules: seq<HC.Rule>, i: nat)
    requires HC.DistinctTypes(rules) && i < |rules| && HC.FullPullSpec(accepts, items, start, rules).Ok?
    requires HC.Best(items, rules[i]).None?
    ensures rules[i].typ !in HC.FullPullSpec(accepts, items, start, rules).value.1
  {
    hide HC.FullPullSpec, HC.Pull, HC.Best, HC.Messages, HC.UnmarshalMessage;
    HC.FullPullIsGapFree(accepts, items, start, rules);
    var p := HC.Pull(items, rules);
    forall x | x in p ensures HC.UnmarshalMessage(accepts, x.data).Some? {
      var k :| 0 <= k < |p| && p[k] == x;
    }
    HC.MessagesOf(accepts, items, rules, map[], i);
  }

  // ---------------------------------------------------------------- the same secret

  /** The server's cache before flight 4 is parsed: the same messages up to ServerHelloDone as
      the client's, and of the client's flight 5 only what was sent. */
  ghost predicate SeesFlight5(env: F.Env, s: F.State, items: seq<HC.Item>, server: seq<HC.Item>) {
    && T.EntersFlight5(env, s, items) && HC.UniqueKeys(server)
    && (forall x :: HC.MatchesAny(x, T.EarlyRules()) ==> (x in server <==> x in items))
    && (forall x :: x in server && x.isClient ==> x in T.AfterFlight5(env, s, items))
    && HC.FullPullSpec(env.accepts, server, s.sendSequence, T.FLIGHT4_RULES).Ok?
  }

  /** Of each type, the server can only have the client's one message. */
  lemma OnlyFlight5(env: F.Env, s: F.State, items: seq<HC.Item>, server: seq<HC.Item>, i: nat)
    requires SeesFlight5(env, s, items, server) && i < |T.FLIGHT4_RULES|
    ensures T.Typed(F.Generate5(env, s, items).value)
    ensures var g := F.Generate5(env, s, items).value; var best := HC.Best(server, T.FLIGHT4_RULES[i]);
      best.Some? ==>
        && (i == 1 ==> best.value == ItemOf(g.exchange, 0, true))
        && (i == 2 ==> g.verify.Some? && best.value == ItemOf(g.verify.value, 0, true))
  {
    hide F.Generate5, HC.Best, T.AfterFlight5, H.MarshalHeader, T.FinishedMessage, HC.FullPullSpec;
    var g := F.Generate5(env, s, items).value;
    T.Flight5Joins(env, s, items);
    HC.BestMeans(server, T.FLIGHT4_RULES[i]);
    var best := HC.Best(server, T.FLIGHT4_RULES[i]);
    if best.Some? {
      T.Flight5Members(g, s.sendSequence + |g.Messages()|, best.value);
    }
  }

  /** What the server parses is what the client sent: its key exchange, and a signature over
      the transcript that the server itself computes. */
  lemma ServerReadsFlight5(env: F.Env, s: F.State, items: seq<HC.Item>, server: seq<HC.Item>)
    requires SeesFlight5(env, s, items, server)
    ensures var g := F.Generate5(env, s, items).value;
      var msgs := HC.FullPullSpec(env.accepts, server, s.sendSequence, T.FLIGHT4_RULES).value.1;
      && H.ClientKeyExchange in msgs && msgs[H.ClientKeyExchange] == g.exchange
      && (H.CertificateVerify in msgs ==>
            && g.verify == Some(msgs[H.CertificateVerify])
            && env.sign(HC.PullAndMergeSpec(server, HC.SessionRules(0))) == Some(msgs[H.CertificateVerify].body))
  {
    hide F.Generate5, HC.Best, T.AfterFlight5, T.EntersFlight5, HC.FullPullSpec, HC.PullAndMergeSpec, T.EarlyRules,
      HC.SessionRules, H.MarshalHeader, HC.UniqueKeys, HC.MatchesAny;
    GeneratesFlight5(env, s, items);
    var g := F.Generate5(env, s, items).value;
    var rules := T.FLIGHT4_RULES;
    T.ServerAgreesOnSession(env, s, items, server);
    OnlyFlight5(env, s, items, server, 1);
    OnlyFlight5(env, s, items, server, 2);
    T.MandatoryPulled(env.accepts, server, s.sendSequence, rules, 1);
    PulledIs(env.accepts, server, s.sendSequence, rules, 1, g.exchange);
    if HC.Best(server, rules[2]).Some? {
      PulledIs(env.accepts, server, s.sendSequence, rules, 2, g.verify.value);
    } else {
      NotPulled(env.accepts, server, s.sendSequence, rules, 2);
    }
  }

  /** Client and server end up with the same master secret, extended or not, provided they
      agree on the pre-master secret, the randoms and the extension: the server hashes what
      is in its cache, the client hashed what it had not sent yet. */
  lemma MasterSecretsAgree(env: F.Env, s: F.State, items: seq<HC.Item>, env4: ServerEnv, sv: State,
                           server: seq<HC.Item>, queued: seq<HC.Item>)
    requires SeesFlight5(env, s, items, server)
    requires s.suite == Some(F.Suite(false)) && sv.suite == Some(F.Suite(false))
    requires sv.recvSequence == s.sendSequence && sv.extendedMasterSecret == s.extendedMasterSecret
    requires env4.crypto == env.crypto && env4.accepts == env.accepts
    requires env4.clientRandom == env.clientRandom && env4.serverRandom == s.serverRandom
    requires var g := F.Generate5(env, s, items).value; env4.preMaster(g.exchange.body) == Some(g.state.preMaster)
    ensures var (t, _, o) := Parse4(env4, sv, server, queued);
      && (o == Next6 ==> t.suite == Some(F.Suite(true)))
      && (t.suite == Some(F.Suite(true)) ==> t.master == F.Generate5(env, s, items).value.state.master)
  {
    hide F.Generate5, HC.Best, T.AfterFlight5, T.EntersFlight5, HC.FullPullSpec, HC.PullAndMergeSpec, T.EarlyRules,
      HC.SessionRules, H.MarshalHeader, HC.UniqueKeys, HC.MatchesAny, HC.PushAll, Prf.MasterSecret,
      Prf.ExtendedMasterSecret, T.BeforeFinishedRules;
    GeneratesFlight5(env, s, items);
    ServerReadsFlight5(env, s, items, server);
    T.ServerAgreesOnSession(env, s, items, server);
    if !s.extendedMasterSecret {
      T.ClientMaster(env, s, items);
    }
  }

  lemma GeneratesFlight5(env: F.Env, s: F.State, items: seq<HC.Item>)
    requires T.EntersFlight5(env, s, items)
    ensures F.Generate5(env, s, items).Some?
  {
  }

  /** A server that accepts the signatures the client makes does not object to its
      CertificateVerify because of the signature. */
  lemma SignatureIsOverTheServersTranscript(env: F.Env, s: F.State, items: seq<HC.Item>, env4: ServerEnv, sv: State,
                                            server: seq<HC.Item>)
    requires SeesFlight5(env, s, items, server)
    requires sv.peerCertificates.Some? && env4.hasCertificates(sv.peerCertificates.value)
    requires forall text, body :: env.sign(text) == Some(body) ==>
               env4.schemeListed(body) && env4.signatureVerifies(text, body, sv.peerCertificates.value)
    requires env4.clientAuth.VerifyClientCertIfGiven? ==>
               env4.chainVerifier.Some? && env4.chainVerifier.value(sv.peerCertificates.value)
    requires env4.peerAccepted(sv.peerCertificates.value)
    ensures var msgs := HC.FullPullSpec(env.accepts, server, s.sendSequence, T.FLIGHT4_RULES).value.1;
      CheckVerify(env4, sv, server, msgs).1 == None
  {
    hide F.Generate5, HC.Best, T.AfterFlight5, T.EntersFlight5, HC.FullPullSpec, HC.PullAndMergeSpec, T.EarlyRules,
      HC.SessionRules, H.MarshalHeader, HC.UniqueKeys, HC.MatchesAny;
    ServerReadsFlight5(env, s, items, server);
    OnlyFlight5(env, s, items, server, 2);
  }

  // ---------------------------------------------------------------- the server in place

  class ServerConn {
    const env: ServerEnv
    const cache: HC.HandshakeCache
    var state: State

    constructor (env: ServerEnv, cache: HC.HandshakeCache, state: State)
      ensures this.env == env && this.cache == cache && this.state == state
    {
      this.env, this.cache, this.state := env, cache, state;
    }

    method VerifySignature(msgs: F.Pulled) returns (objection: Option<Outcome>)
      modifies this`state
      ensures (state, objection) == CheckVerify(env, old(state), cache.cache, msgs)
    {
      hide HC.PullAndMergeSpec, HC.SessionRules;
      if H.CertificateVerify !in msgs {
        return None;
      }
      var m := msgs[H.CertificateVerify];
      if m.header.typ != H.CertificateVerify {
        return Some(KeepReading);
      }
      if NoCertificates(env, state) {
        return Some(Fatal);
      }
      var cert := state.peerCertificates.value;
      var plainText := cache.PullAndMerge(HC.SessionRules(0));
      if !env.schemeListed(m.body) {
        return Some(Fatal);
      }
      if !env.signatureVerifies(plainText, m.body, cert) {
        return Some(Fatal);
      }
      var verified := false;
      if env.clientAuth.VerifyClientCertIfGiven? {
        if env.chainVerifier.None? || !env.chainVerifier.value(cert) {
          return Some(Fatal);
        }
        verified := true;
      }
      if !env.peerAccepted(cert) {
        return Some(Fatal);
      }
      state := state.(peerVerified := verified);
      return None;
    }

    method InitializeSuite(exchange: Bytes) returns (ok: bool)
      modifies this`state
      ensures match DeriveMaster(env, old(state), cache.cache, exchange)
        case None => !ok && state == old(state)
        case Some(s) => ok && state == s
    {
      hide HC.SessionHashSpec;
      if state.suite.None? || state.suite.value.initialized {
        return true;
      }
      var secret := env.preMaster(exchange);
      if secret.None? {
        return false;
      }
      if state.extendedMasterSecret {
        var hash := cache.SessionHash(env.crypto.sha256, 0, []);
        state := state.(master := Prf.ExtendedMasterSecret(env.crypto, secret.value, hash));
      } else {
        state := state.(master := Prf.MasterSecret(env.crypto, secret.value, env.clientRandom, env.serverRandom));
      }
      state := state.(suite := Some(F.Suite(true)));
      return true;
    }

    /** The queued encrypted packets are handled now that they can be decrypted. */
    method HandleQueued(queued: seq<HC.Item>)
      modifies cache
      ensures cache.cache == HC.PushAll(old(cache.cache), queued)
    {
      hide HC.PushSpec;
      assert queued[0..] == queued;
      for i := 0 to |queued|
        invariant HC.PushAll(cache.cache, queued[i..]) == HC.PushAll(old(cache.cache), queued)
      {
        var x := queued[i];
        assert queued[i..] == [x] + queued[i + 1..];
        X.PushAllCons(cache.cache, x, queued[i + 1..]);
        var _ := cache.Push(x.data, x.epoch, x.messageSequence, x.typ, x.isClient);
      }
    }

    method ReceiveFinished(seqNo: int) returns (o: Outcome)
      modifies this`state
      ensures (state, o) == TakeFinished(env, old(state), cache.cache, seqNo)
    {
      hide HC.FullPullSpec;
      var r := cache.FullPullMap(env.accepts, seqNo, CLIENT_FINISHED_RULES);
      if r.Err? {
        return KeepReading;
      }
      var (next, msgs) := r.value;
      state := state.(recvSequence := next);
      if H.Finished !in msgs || msgs[H.Finished].header.typ != H.Finished {
        return KeepReading;
      }
      match env.clientAuth {
        case RequireAnyClientCert =>
          if NoCertificates(env, state) {
            return Fatal;
          }
        case VerifyClientCertIfGiven =>
          if !NoCertificates(env, state) && !state.peerVerified {
            return Fatal;
          }
        case NoClientCert =>
      }
      return Next6;
    }

    method ParseFlight4(queued: seq<HC.Item>) returns (o: Outcome)
      modifies this`state, cache
      ensures (state, cache.cache, o) == Parse4(env, old(state), old(cache.cache), queued)
    {
      hide HC.FullPullSpec, HC.PushAll, CheckVerify, DeriveMaster, TakeFinished;
      var r := cache.FullPullMap(env.accepts, state.recvSequence, T.FLIGHT4_RULES);
      if r.Err? {
        return KeepReading;
      }
      var (seqNo, msgs) := r.value;
      if H.ClientKeyExchange !in msgs || msgs[H.ClientKeyExchange].header.typ != H.ClientKeyExchange {
        return KeepReading;
      }
      if H.Certificate in msgs {
        if msgs[H.Certificate].header.typ != H.Certificate {
          return KeepReading;
        }
        state := state.(peerCertificates := Some(msgs[H.Certificate].body));
      }
      var objection := VerifySignature(msgs);
      if objection.Some? {
        return objection.value;
      }
      var ok := InitializeSuite(msgs[H.ClientKeyExchange].body);
      if !ok {
        return Fatal;
      }
      HandleQueued(queued);
      o := ReceiveFinished(seqNo);
    }

    method GenerateFlight6() returns (pkts: seq<Packet>)
      modifies this`state
      ensures (state, pkts) == Generate6(env, old(state), cache.cache)
    {
      hide HC.PullAndMergeSpec, F.TranscriptRules;
      pkts := [F.CHANGE_CIPHER_SPEC];
      if state.localVerifyData == [] {
        var plainText := cache.PullAndMerge(F.TranscriptRules());
        if state.suite.Some? {
          state := state.(localVerifyData := Prf.VerifyDataServer(env.crypto, state.master, plainText));
        }
      }
      var finished := Packet(RL.PROTOCOL_VERSION1_2, 1, HandshakeContent(H.NewMessage(H.Finished, state.localVerifyData)));
      assert [F.CHANGE_CIPHER_SPEC] + [finished] == [F.CHANGE_CIPHER_SPEC, finished];
      pkts := pkts + [finished];
    }
  }
}
