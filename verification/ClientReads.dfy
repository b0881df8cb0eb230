/** When the client's flights 1 and 3 go on to flight 5, exactly, and what they have taken from
    the server's flight by then. */
module ClientReads {
  import opened Bytes
  import opened Wrappers
  import H = Handshake
  import HC = HandshakeCache
  import opened Conn
  import opened Flights
  import Prf
  import S = Handshaker

  /** What a cache has of the server's plaintext messages: of each type the one numbered
      highest. */
  datatype ServerFlight = ServerFlight(
    helloVerify: Option<HC.Item>,
    hello: Option<HC.Item>,
    certificate: Option<HC.Item>,
    exchange: Option<HC.Item>,
    request: Option<HC.Item>,
    done: Option<HC.Item>)

  ghost predicate IsFlight(items: seq<HC.Item>, f: ServerFlight) {
    && HC.LastOf(items, H.HelloVerifyRequest, 0, false, f.helloVerify)
    && HC.LastOf(items, H.ServerHello, 0, false, f.hello)
    && HC.LastOf(items, H.Certificate, 0, false, f.certificate)
    && HC.LastOf(items, H.ServerKeyExchange, 0, false, f.exchange)
    && HC.LastOf(items, H.CertificateRequest, 0, false, f.request)
    && HC.LastOf(items, H.ServerHelloDone, 0, false, f.done)
  }

  /** The messages that are read, in order. With a pre-shared key, no certificate is looked for
      and no request for one. */
  function Read(hasPsk: bool, f: ServerFlight): seq<HC.Item> {
    if hasPsk then Opt(f.hello) + (Opt(f.exchange) + Opt(f.done))
    else Opt(f.hello) + (Opt(f.certificate) + (Opt(f.exchange) + (Opt(f.request) + Opt(f.done))))
  }

  function Parsed(env: Env, x: Option<HC.Item>): Option<H.Message> {
    match x case None => None case Some(v) => HC.UnmarshalMessage(env.accepts, v.data)
  }

  /** A message is of the type it is filed under. */
  predicate FiledRight(env: Env, x: Option<HC.Item>) {
    x.Some? ==> Parsed(env, x).Some? && Parsed(env, x).value.header.typ == x.value.typ
  }

  /** ServerHello, ServerHelloDone and, without a pre-shared key, ServerKeyExchange are there;
      what is there is numbered from the receive sequence without a gap and of the types it is
      filed under; the ServerHello is accepted and a key can be agreed on. */
  predicate CanEnter5(env: Env, s: State, f: ServerFlight) {
    && f.hello.Some? && f.done.Some? && (env.hasPsk || f.exchange.Some?)
    && HC.GapFree(env.accepts, Read(env.hasPsk, f), s.recvSequence)
    && FiledRight(env, f.hello) && FiledRight(env, f.exchange)
    && (env.hasPsk || (FiledRight(env, f.certificate) && FiledRight(env, f.request)))
    && env.judgeServerHello(Parsed(env, f.hello).value.body, s.extendedMasterSecret).Some?
    && (f.exchange.Some? ==> env.agreeKey(Some(Parsed(env, f.exchange).value.body)).Some?)
  }

  /** Unless a HelloVerifyRequest comes first: flight 1 looks for none but in front of
      ServerHello, flight 3 reads one that is next in sequence. */
  predicate VerifiesFirst(env: Env, flight: Flight, s: State, f: ServerFlight) {
    f.helloVerify.Some? && (flight == Flight1 || HC.GapFree(env.accepts, [f.helloVerify.value], s.recvSequence))
  }

  /** What is in the state then, and comes from the messages: the random and the extended
      master secret of the ServerHello, the keys agreed on over the ServerKeyExchange, and
      whether there was a CertificateRequest. Nothing else has changed. */
  predicate HasTaken(env: Env, s: State, f: ServerFlight, s': State)
    requires CanEnter5(env, s, f)
  {
    var hello := env.judgeServerHello(Parsed(env, f.hello).value.body, s.extendedMasterSecret).value;
    && s'.recvSequence == s.recvSequence + |Read(env.hasPsk, f)|
    && s'.suite == Some(Suite(false))
    && s'.serverRandom == hello.serverRandom
    && s'.extendedMasterSecret == (s.extendedMasterSecret || hello.extendedMasterSecret)
    && (f.exchange.Some? ==>
          KeyShare(s'.preMaster, s'.publicKey) == env.agreeKey(Some(Parsed(env, f.exchange).value.body)).value)
    && (f.exchange.None? ==> s'.preMaster == s.preMaster && s'.publicKey == s.publicKey)
    && s'.remoteRequestedCertificate == (s.remoteRequestedCertificate || (!env.hasPsk && f.request.Some?))
    && s'.sendSequence == s.sendSequence && s'.cookie == s.cookie && s'.master == s.master
    && s'.localVerifyData == s.localVerifyData
  }

  // ---------------------------------------------------------------- the pulls

  lemma PullStep(items: seq<HC.Item>, rules: seq<HC.Rule>, x: Option<HC.Item>, rest: seq<HC.Rule>)
    requires rules != [] && rules[1..] == rest && HC.Best(items, rules[0]) == x
    ensures HC.Pull(items, rules) == Opt(x) + HC.Pull(items, rest)
  {
  }

  lemma BestAre(items: seq<HC.Item>, f: ServerFlight, optional: bool)
    requires HC.UniqueKeys(items) && IsFlight(items, f)
    ensures HC.Best(items, Server(H.HelloVerifyRequest, optional)) == f.helloVerify
    ensures HC.Best(items, Server(H.ServerHello, optional)) == f.hello
    ensures HC.Best(items, Server(H.Certificate, optional)) == f.certificate
    ensures HC.Best(items, Server(H.ServerKeyExchange, optional)) == f.exchange
    ensures HC.Best(items, Server(H.CertificateRequest, optional)) == f.request
    ensures HC.Best(items, Server(H.ServerHelloDone, optional)) == f.done
  {
    hide HC.Best, HC.LastOf, HC.UniqueKeys;
    HC.BestIsLast(items, Server(H.HelloVerifyRequest, optional), f.helloVerify);
    HC.BestIsLast(items, Server(H.ServerHello, optional), f.hello);
    HC.BestIsLast(items, Server(H.Certificate, optional), f.certificate);
    HC.BestIsLast(items, Server(H.ServerKeyExchange, optional), f.exchange);
    HC.BestIsLast(items, Server(H.CertificateRequest, optional), f.request);
    HC.BestIsLast(items, Server(H.ServerHelloDone, optional), f.done);
  }

  lemma PullsVerify(items: seq<HC.Item>, f: ServerFlight)
    requires HC.UniqueKeys(items) && IsFlight(items, f)
    ensures HC.Pull(items, HELLO_VERIFY_RULES) == Opt(f.helloVerify)
    ensures HC.Pull(items, FLIGHT1_RULES) == Opt(f.helloVerify) + Opt(f.hello)
  {
    hide HC.Best, HC.UniqueKeys, IsFlight;
    BestAre(items, f, true);
    assert HC.Pull(items, []) == [];
    PullStep(items, HELLO_VERIFY_RULES, f.helloVerify, []);
    PullStep(items, FLIGHT1_RULES, f.helloVerify, FLIGHT1_RULES[1..]);
    PullStep(items, FLIGHT1_RULES[1..], f.hello, []);
  }

  lemma PullsFlight(env: Env, items: seq<HC.Item>, f: ServerFlight)
    requires HC.UniqueKeys(items) && IsFlight(items, f)
    ensures HC.Pull(items, ServerFlightRules(env)) == Read(env.hasPsk, f)
    ensures HC.MissesMandatory(items, ServerFlightRules(env)) <==>
      f.hello.None? || f.done.None? || (!env.hasPsk && f.exchange.None?)
  {
    hide HC.Best, HC.UniqueKeys, IsFlight;
    var rules := ServerFlightRules(env);
    BestAre(items, f, true);
    BestAre(items, f, false);
    assert HC.Pull(items, []) == [];
    PullStep(items, rules, f.hello, rules[1..]);
    if env.hasPsk {
      PullStep(items, rules[1..], f.exchange, rules[2..]);
      PullStep(items, rules[2..], f.done, []);
      assert HC.MissesMandatory(items, rules) <==> HC.Best(items, rules[0]).None? || HC.Best(items, rules[2]).None?;
    } else {
      PullStep(items, rules[1..], f.certificate, rules[2..]);
      PullStep(items, rules[2..], f.exchange, rules[3..]);
      PullStep(items, rules[3..], f.request, rules[4..]);
      PullStep(items, rules[4..], f.done, []);
      assert HC.MissesMandatory(items, rules) <==>
        HC.Best(items, rules[0]).None? || HC.Best(items, rules[2]).None? || HC.Best(items, rules[4]).None?;
    }
  }

  /** What the pull of the server's flight returns, by type. */
  lemma FlightPull(env: Env, s: State, items: seq<HC.Item>, f: ServerFlight)
    requires HC.UniqueKeys(items) && IsFlight(items, f)
    ensures var r := HC.FullPullSpec(env.accepts, items, s.recvSequence, ServerFlightRules(env));
      && (r.Ok? <==>
            && f.hello.Some? && f.done.Some? && (env.hasPsk || f.exchange.Some?)
            && HC.GapFree(env.accepts, Read(env.hasPsk, f), s.recvSequence))
      && (r.Ok? ==>
            && r.value.0 == s.recvSequence + |Read(env.hasPsk, f)|
            && Filed(env, r.value.1, H.ServerHello, f.hello)
            && Filed(env, r.value.1, H.ServerKeyExchange, f.exchange)
            && Filed(env, r.value.1, H.Certificate, if env.hasPsk then None else f.certificate)
            && Filed(env, r.value.1, H.CertificateRequest, if env.hasPsk then None else f.request))
  {
    hide HC.FullPullSpec, HC.Pull, HC.Best, HC.UniqueKeys, IsFlight, HC.GapFree, HC.UnmarshalMessage, HC.MissesMandatory;
    var rules := ServerFlightRules(env);
    PullsFlight(env, items, f);
    S.RulesAreDistinct(env);
    HC.FullPullMeans(env.accepts, items, s.recvSequence, rules);
    BestAre(items, f, true);
    BestAre(items, f, false);
    var r := HC.FullPullSpec(env.accepts, items, s.recvSequence, rules);
    if r.Ok? {
      assert HC.Returned(env.accepts, items, r.value.1, rules[0]);
      assert HC.Returned(env.accepts, items, r.value.1, rules[1]);
      assert HC.Returned(env.accepts, items, r.value.1, rules[2]);
      if env.hasPsk {
        NotLookedFor(env, s, items, H.Certificate);
        NotLookedFor(env, s, items, H.CertificateRequest);
      } else {
        assert HC.Returned(env.accepts, items, r.value.1, rules[3]);
      }
    }
  }

  /** The message returned under a type is the cached one, and there is one if it is cached. */
  predicate Filed(env: Env, msgs: Pulled, typ: H.HandshakeType, x: Option<HC.Item>) {
    && (typ in msgs <==> x.Some?)
    && (x.Some? ==> typ in msgs && Parsed(env, x) == Some(msgs[typ]))
  }

  lemma NotLookedFor(env: Env, s: State, items: seq<HC.Item>, typ: H.HandshakeType)
    requires env.hasPsk && (typ == H.Certificate || typ == H.CertificateRequest)
    requires HC.FullPullSpec(env.accepts, items, s.recvSequence, PSK_RULES).Ok?
    ensures typ !in HC.FullPullSpec(env.accepts, items, s.recvSequence, PSK_RULES).value.1
  {
    hide HC.FullPullSpec, HC.Pull, HC.Best, HC.UnmarshalMessage;
    HC.FullPullIsGapFree(env.accepts, items, s.recvSequence, PSK_RULES);
    var p := HC.Pull(items, PSK_RULES);
    forall i | 0 <= i < |p| ensures p[i].typ != typ {
      HC.PulledTypes(items, PSK_RULES, p[i]);
    }
    HC.MessagesKeep(env.accepts, p, map[], typ);
  }

  // ---------------------------------------------------------------- when flight 5 is entered

  lemma FlightRead(env: Env, s: State, items: seq<HC.Item>, f: ServerFlight)
    requires HC.UniqueKeys(items) && IsFlight(items, f)
    ensures var (s', o) := ParseServerFlight(env, s, items);
      && (o == Next(Flight5) <==> CanEnter5(env, s, f))
      && (o == Next(Flight5) ==> HasTaken(env, s, f, s'))
  {
    hide HC.FullPullSpec, HC.UniqueKeys, IsFlight, HC.GapFree, HC.UnmarshalMessage, Read;
    FlightPull(env, s, items, f);
    FiledUnder(items, f);
  }

  lemma FiledUnder(items: seq<HC.Item>, f: ServerFlight)
    requires IsFlight(items, f)
    ensures f.hello.Some? ==> f.hello.value.typ == H.ServerHello
    ensures f.certificate.Some? ==> f.certificate.value.typ == H.Certificate
    ensures f.exchange.Some? ==> f.exchange.value.typ == H.ServerKeyExchange
    ensures f.request.Some? ==> f.request.value.typ == H.CertificateRequest
  {
  }

  lemma GapFreePrefix(env: Env, p: seq<HC.Item>, q: seq<HC.Item>, start: int)
    requires HC.GapFree(env.accepts, p + q, start)
    ensures HC.GapFree(env.accepts, p, start)
  {
    hide HC.UnmarshalMessage;
    assert forall i :: 0 <= i < |p| ==> (p + q)[i] == p[i];
  }

  /** What the two pulls for a HelloVerifyRequest return. */
  lemma VerifyPulls(env: Env, s: State, items: seq<HC.Item>, f: ServerFlight)
    requires HC.UniqueKeys(items) && IsFlight(items, f)
    ensures var r := HC.FullPullSpec(env.accepts, items, s.recvSequence, HELLO_VERIFY_RULES);
      && (r.Ok? <==> HC.GapFree(env.accepts, Opt(f.helloVerify), s.recvSequence))
      && (r.Ok? ==> Filed(env, r.value.1, H.HelloVerifyRequest, f.helloVerify))
    ensures var r := HC.FullPullSpec(env.accepts, items, s.recvSequence, FLIGHT1_RULES);
      && (r.Ok? <==> HC.GapFree(env.accepts, Opt(f.helloVerify) + Opt(f.hello), s.recvSequence))
      && (r.Ok? ==> Filed(env, r.value.1, H.HelloVerifyRequest, f.helloVerify) && Filed(env, r.value.1, H.ServerHello, f.hello))
  {
    hide HC.FullPullSpec, HC.Pull, HC.Best, HC.UniqueKeys, IsFlight, HC.GapFree, HC.UnmarshalMessage;
    S.RulesAreDistinct(env);
    PullsVerify(items, f);
    BestAre(items, f, true);
    HC.FullPullMeans(env.accepts, items, s.recvSequence, HELLO_VERIFY_RULES);
    HC.FullPullMeans(env.accepts, items, s.recvSequence, FLIGHT1_RULES);
    var one := HC.FullPullSpec(env.accepts, items, s.recvSequence, HELLO_VERIFY_RULES);
    var two := HC.FullPullSpec(env.accepts, items, s.recvSequence, FLIGHT1_RULES);
    if one.Ok? {
      assert HC.Returned(env.accepts, items, one.value.1, HELLO_VERIFY_RULES[0]);
    }
    if two.Ok? {
      assert HC.Returned(env.accepts, items, two.value.1, FLIGHT1_RULES[0]);
      assert HC.Returned(env.accepts, items, two.value.1, FLIGHT1_RULES[1]);
    }
  }

  /** parse of flight 1 or 3 goes on to flight 5 exactly when the server's flight can be read
      and no HelloVerifyRequest comes first; and then it has taken what it must. */
  lemma Enters5Exactly(env: Env, flight: Flight, s: State, items: seq<HC.Item>, f: ServerFlight)
    requires flight != Flight5 && HC.UniqueKeys(items) && IsFlight(items, f)
    ensures var (s', o) := Parse(env, flight, s, items);
      && (o == Next(Flight5) <==> CanEnter5(env, s, f) && !VerifiesFirst(env, flight, s, f))
      && (o == Next(Flight5) ==> HasTaken(env, s, f, s'))
  {
    hide HC.FullPullSpec, HC.UniqueKeys, IsFlight, HC.GapFree, HC.UnmarshalMessage, ParseServerFlight, HasTaken;
    VerifyPulls(env, s, items, f);
    FlightRead(env, s, items, f);
    EmptyUnit(Opt(f.hello));
    NoGapInNothing(env, s.recvSequence);
    if f.helloVerify.Some? && HC.GapFree(env.accepts, Opt(f.helloVerify) + Opt(f.hello), s.recvSequence) {
      GapFreePrefix(env, Opt(f.helloVerify), Opt(f.hello), s.recvSequence);
    }
    if CanEnter5(env, s, f) {
      HelloIsFirst(env, s, f);
    }
  }

  lemma NoGapInNothing(env: Env, start: int)
    ensures HC.GapFree(env.accepts, [], start)
  {
  }

  lemma HelloIsFirst(env: Env, s: State, f: ServerFlight)
    requires CanEnter5(env, s, f)
    ensures HC.GapFree(env.accepts, Opt(f.hello), s.recvSequence)
  {
    hide HC.GapFree, HC.UnmarshalMessage;
    GapFreePrefix(env, Opt(f.hello), Read(env.hasPsk, f)[1..], s.recvSequence);
    assert Read(env.hasPsk, f) == Opt(f.hello) + Read(env.hasPsk, f)[1..];
  }

  // ---------------------------------------------------------------- when flight 3 is entered

  /** A HelloVerifyRequest is next in sequence, of its type and of a version that is allowed;
      to flight 1, a ServerHello that is already there must follow it without a gap. */
  predicate CanEnter3(env: Env, flight: Flight, s: State, f: ServerFlight) {
    && f.helloVerify.Some? && FiledRight(env, f.helloVerify)
    && HC.GapFree(env.accepts, Opt(f.helloVerify), s.recvSequence)
    && (flight == Flight1 ==> HC.GapFree(env.accepts, Opt(f.helloVerify) + Opt(f.hello), s.recvSequence))
    && env.readHelloVerify(Parsed(env, f.helloVerify).value.body).versionOk
  }

  /** parse goes on to flight 3 exactly then, with the cookie to echo. */
  lemma Enters3Exactly(env: Env, flight: Flight, s: State, items: seq<HC.Item>, f: ServerFlight)
    requires flight != Flight5 && HC.UniqueKeys(items) && IsFlight(items, f)
    ensures var (s', o) := Parse(env, flight, s, items);
      && (o == Next(Flight3) <==> CanEnter3(env, flight, s, f))
      && (o == Next(Flight3) ==>
            s' == s.(cookie := env.readHelloVerify(Parsed(env, f.helloVerify).value.body).cookie,
                     recvSequence := s.recvSequence + 1))
  {
    hide HC.FullPullSpec, HC.UniqueKeys, HC.GapFree, HC.UnmarshalMessage, ParseServerFlight, HC.LastOf;
    VerifyPulls(env, s, items, f);
    VerifyNumbers(env, s, items, f);
    S.ServerFlightMovesOn(env, s, items);
    VerifyType(items, f);
    EmptyUnit(Opt(f.helloVerify));
    if f.helloVerify.Some? && HC.GapFree(env.accepts, Opt(f.helloVerify) + Opt(f.hello), s.recvSequence) {
      GapFreePrefix(env, Opt(f.helloVerify), Opt(f.hello), s.recvSequence);
    }
  }

  lemma VerifyType(items: seq<HC.Item>, f: ServerFlight)
    requires IsFlight(items, f)
    ensures f.helloVerify.Some? ==> f.helloVerify.value.typ == H.HelloVerifyRequest
  {
  }

  lemma VerifyNumbers(env: Env, s: State, items: seq<HC.Item>, f: ServerFlight)
    requires HC.UniqueKeys(items) && IsFlight(items, f)
    ensures var r := HC.FullPullSpec(env.accepts, items, s.recvSequence, HELLO_VERIFY_RULES);
      r.Ok? ==> r.value.0 == s.recvSequence + |Opt(f.helloVerify)|
    ensures var r := HC.FullPullSpec(env.accepts, items, s.recvSequence, FLIGHT1_RULES);
      r.Ok? ==> r.value.0 == s.recvSequence + |Opt(f.helloVerify)| + |Opt(f.hello)|
  {
    hide HC.FullPullSpec, HC.Pull, HC.UniqueKeys, IsFlight, HC.GapFree, HC.Messages;
    S.RulesAreDistinct(env);
    PullsVerify(items, f);
    HC.FullPullIsGapFree(env.accepts, items, s.recvSequence, HELLO_VERIFY_RULES);
    HC.FullPullIsGapFree(env.accepts, items, s.recvSequence, FLIGHT1_RULES);
  }

  // ---------------------------------------------------------------- in runs

  function FlightIn(items: seq<HC.Item>): ServerFlight {
    ServerFlight(HC.Best(items, Server(H.HelloVerifyRequest, true)), HC.Best(items, Server(H.ServerHello, true)),
                 HC.Best(items, Server(H.Certificate, true)), HC.Best(items, Server(H.ServerKeyExchange, true)),
                 HC.Best(items, Server(H.CertificateRequest, true)), HC.Best(items, Server(H.ServerHelloDone, true)))
  }

  lemma FlightIsThere(items: seq<HC.Item>)
    requires HC.UniqueKeys(items)
    ensures IsFlight(items, FlightIn(items))
  {
    hide HC.Best, HC.LastOf, HC.UniqueKeys;
    var f := FlightIn(items);
    HC.BestIsLast(items, Server(H.HelloVerifyRequest, true), f.helloVerify);
    HC.BestIsLast(items, Server(H.ServerHello, true), f.hello);
    HC.BestIsLast(items, Server(H.Certificate, true), f.certificate);
    HC.BestIsLast(items, Server(H.ServerKeyExchange, true), f.exchange);
    HC.BestIsLast(items, Server(H.CertificateRequest, true), f.request);
    HC.BestIsLast(items, Server(H.ServerHelloDone, true), f.done);
  }

  /** No run asks for a certificate before flight 5. */
  lemma {:induction false} NotAskedBefore5(env: Env, events: seq<S.Event>)
    requires S.Reach(env, events).flight != Flight5
    ensures !S.Reach(env, events).state.remoteRequestedCertificate
  {
    hide HC.FullPullSpec, HC.PushAll, HC.PushSpec, Generate5, NumberPackets, Parse;
    if events != [] {
      var init, e := events[..|events| - 1], events[|events| - 1];
      var c := S.Reach(env, init);
      S.FlightsMoveForward(env, c, e);
      NotAskedBefore5(env, init);
      AskedOnlyFor5(env, c.flight, c.state, c.items);
    }
  }

  lemma AskedOnlyFor5(env: Env, flight: Flight, s: State, items: seq<HC.Item>)
    ensures var (s', o) := Parse(env, flight, s, items);
      o != Next(Flight5) ==> s'.remoteRequestedCertificate == s.remoteRequestedCertificate
  {
    hide HC.FullPullSpec;
  }

  /** The client has come to flight 5 from a point at which it read the server's flight, and has
      taken from it what it must. */
  ghost predicate HasRead(env: Env, before: S.Client, c: S.Client, f: ServerFlight) {
    && before.flight != Flight5 && IsFlight(before.items, f)
    && CanEnter5(env, before.state, f) && HasTaken(env, before.state, f, c.state)
    && !before.state.remoteRequestedCertificate
  }

  /** In every run, a client about to send flight 5 has. */
  lemma {:induction false} Flight5HasRead(env: Env, events: seq<S.Event>) returns (i: nat, f: ServerFlight)
    requires var c := S.Reach(env, events); c.flight == Flight5 && c.phase == S.Preparing
    ensures i < |events| && HasRead(env, S.Reach(env, events[..i]), S.Reach(env, events), f)
  {
    hide HC.PushSpec, Parse, S.Generate, NumberPackets, HC.PushAll, ItemsSent, IsFlight, CanEnter5, HasTaken, HC.UniqueKeys;
    var init, e := events[..|events| - 1], events[|events| - 1];
    var before := S.Reach(env, init);
    S.ReachInvariant(env, init);
    if before.flight == Flight5 {
      S.Flight5Stays(env, before.state, before.items);
      i, f := Flight5HasRead(env, init);
      assert init[..i] == events[..i];
    } else {
      i, f := |init|, FlightIn(before.items);
      FlightIsThere(before.items);
      Enters5Exactly(env, before.flight, before.state, before.items, f);
      NotAskedBefore5(env, init);
    }
  }

  /** What flight 5 carries follows from what the server's flight asked for: a Certificate
      exactly when it had a CertificateRequest that was looked for, a CertificateVerify exactly
      when there is a certificate besides, and the key exchange for the public key agreed on. */
  lemma CertificateAsAsked(env: Env, events: seq<S.Event>) returns (i: nat, f: ServerFlight)
    requires var c := S.Reach(env, events); c.flight == Flight5 && c.phase == S.Preparing
    requires Generate5(env, S.Reach(env, events).state, S.Reach(env, events).items).Some?
    ensures i < |events| && HasRead(env, S.Reach(env, events[..i]), S.Reach(env, events), f)
    ensures var c := S.Reach(env, events); var g := Generate5(env, c.state, c.items).value;
      && (g.certificate.Some? <==> !env.hasPsk && f.request.Some?)
      && (g.certificate.Some? ==>
            g.certificate.value.body == if env.certificate.Some? then env.certificate.value else env.emptyCertificate)
      && (g.verify.Some? <==> !env.hasPsk && f.request.Some? && env.certificate.Some?)
      && (f.exchange.Some? ==>
            g.exchange.body == env.clientKeyExchange(env.agreeKey(Some(Parsed(env, f.exchange).value.body)).value.publicKey))
  {
    hide S.Reach, Generate5, IsFlight, CanEnter5, HC.UnmarshalMessage;
    var c := S.Reach(env, events);
    i, f := Flight5HasRead(env, events);
    S.CertificateOnlyIfRequested(env, c.state, c.items);
    ExchangeBody(env, c.state, c.items);
  }

  lemma ExchangeBody(env: Env, s: State, items: seq<HC.Item>)
    requires Generate5(env, s, items).Some?
    ensures Generate5(env, s, items).value.exchange.body == env.clientKeyExchange(s.publicKey)
  {
    hide HC.PullAndMergeSpec, HC.UnmarshalMessage, MarshalAll;
  }

  // ---------------------------------------------------------------- what ends the handshake

  /** The server's flight is there to be read, up to where it must not be accepted. */
  predicate ReadsFlight(env: Env, s: State, f: ServerFlight) {
    && f.hello.Some? && f.done.Some? && (env.hasPsk || f.exchange.Some?)
    && HC.GapFree(env.accepts, Read(env.hasPsk, f), s.recvSequence)
    && FiledRight(env, f.hello)
  }

  /** The ServerHello is not accepted; or it is, and no key can be agreed on. */
  predicate MustReject(env: Env, s: State, f: ServerFlight) {
    && ReadsFlight(env, s, f)
    && (|| env.judgeServerHello(Parsed(env, f.hello).value.body, s.extendedMasterSecret).None?
        || (&& (env.hasPsk || FiledRight(env, f.certificate))
            && f.exchange.Some? && FiledRight(env, f.exchange)
            && env.agreeKey(Some(Parsed(env, f.exchange).value.body)).None?))
  }

  lemma FlightRejected(env: Env, s: State, items: seq<HC.Item>, f: ServerFlight)
    requires HC.UniqueKeys(items) && IsFlight(items, f)
    ensures ParseServerFlight(env, s, items).1 == Fatal <==> MustReject(env, s, f)
  {
    hide HC.FullPullSpec, HC.UniqueKeys, IsFlight, HC.GapFree, HC.UnmarshalMessage, Read;
    FlightPull(env, s, items, f);
    FiledUnder(items, f);
  }

  /** A HelloVerifyRequest that is read names a version that is not allowed. */
  predicate MustRejectVerify(env: Env, flight: Flight, s: State, f: ServerFlight) {
    && f.helloVerify.Some? && FiledRight(env, f.helloVerify)
    && HC.GapFree(env.accepts, Opt(f.helloVerify), s.recvSequence)
    && (flight == Flight1 ==> HC.GapFree(env.accepts, Opt(f.helloVerify) + Opt(f.hello), s.recvSequence))
    && !env.readHelloVerify(Parsed(env, f.helloVerify).value.body).versionOk
  }

  /** parse of flight 1 or 3 ends the handshake exactly then; in all other cases it goes on or
      keeps reading. */
  lemma RejectsExactly(env: Env, flight: Flight, s: State, items: seq<HC.Item>, f: ServerFlight)
    requires flight != Flight5 && HC.UniqueKeys(items) && IsFlight(items, f)
    ensures Parse(env, flight, s, items).1 == Fatal <==>
      MustRejectVerify(env, flight, s, f) || (!VerifiesFirst(env, flight, s, f) && MustReject(env, s, f))
  {
    hide HC.FullPullSpec, HC.UniqueKeys, IsFlight, HC.GapFree, HC.UnmarshalMessage, ParseServerFlight, Read;
    VerifyPulls(env, s, items, f);
    FlightRejected(env, s, items, f);
    VerifyFiled(items, f);
    EmptyUnit(Opt(f.hello));
    EmptyUnit(Opt(f.helloVerify));
    NoGapInNothing(env, s.recvSequence);
    if f.helloVerify.Some? && HC.GapFree(env.accepts, Opt(f.helloVerify) + Opt(f.hello), s.recvSequence) {
      GapFreePrefix(env, Opt(f.helloVerify), Opt(f.hello), s.recvSequence);
    }
    if ReadsFlight(env, s, f) {
      HelloComesFirst(env, s, f);
    }
  }

  lemma VerifyFiled(items: seq<HC.Item>, f: ServerFlight)
    requires IsFlight(items, f)
    ensures f.helloVerify.Some? ==> f.helloVerify.value.typ == H.HelloVerifyRequest
  {
  }

  lemma HelloComesFirst(env: Env, s: State, f: ServerFlight)
    requires ReadsFlight(env, s, f)
    ensures HC.GapFree(env.accepts, Opt(f.hello), s.recvSequence)
  {
    hide HC.GapFree, HC.UnmarshalMessage;
    GapFreePrefix(env, Opt(f.hello), Read(env.hasPsk, f)[1..], s.recvSequence);
    assert Read(env.hasPsk, f) == Opt(f.hello) + Read(env.hasPsk, f)[1..];
  }

  // ---------------------------------------------------------------- the server's Finished

  /** The Finished that flight 5 looks at: the last of the server's in epoch 1, if it parses and
      is next in sequence. */
  predicate IsNext(env: Env, s: State, finished: Option<HC.Item>) {
    && Parsed(env, finished).Some?
    && Parsed(env, finished).value.header.messageSequence == s.recvSequence % 0x1_0000
    && Parsed(env, finished).value.header.typ == H.Finished
  }

  /** parse of flight 5, all three outcomes: it keeps reading until such a Finished is there, ends
      the handshake when the verify data is not that of the transcript, and else is done. */
  lemma Parse5Exactly(env: Env, s: State, items: seq<HC.Item>, finished: Option<HC.Item>)
    requires HC.UniqueKeys(items) && HC.LastOf(items, H.Finished, 1, false, finished) && s.suite.Some?
    ensures Parse5(env, s, items) ==
      if !IsNext(env, s, finished) then KeepReading
      else if Parsed(env, finished).value.body
              == Prf.VerifyDataServer(env.crypto, s.master, HC.PullAndMergeSpec(items, TranscriptRules()))
      then Next(Flight5)
      else Fatal
  {
    hide HC.FullPullSpec, HC.UniqueKeys, HC.LastOf, HC.GapFree, HC.UnmarshalMessage, HC.Best, TranscriptRules,
      HC.PullAndMergeSpec, Prf.VerifyDataServer;
    var rules := SERVER_FINISHED_RULES;
    HC.BestIsLast(items, rules[0], finished);
    S.RulesAreDistinct(env);
    HC.FullPullMeans(env.accepts, items, s.recvSequence, rules);
    assert HC.Pull(items, []) == [];
    PullStep(items, rules, finished, []);
    assert HC.MissesMandatory(items, rules) <==> HC.Best(items, rules[0]).None?;
    OneIsGapFree(env, finished, s.recvSequence);
    var r := HC.FullPullSpec(env.accepts, items, s.recvSequence, rules);
    if r.Ok? {
      assert HC.Returned(env.accepts, items, r.value.1, rules[0]);
    }
  }

  lemma OneIsGapFree(env: Env, x: Option<HC.Item>, start: int)
    ensures x.Some? ==>
      (HC.GapFree(env.accepts, Opt(x) + [], start) <==>
         Parsed(env, x).Some? && Parsed(env, x).value.header.messageSequence == start % 0x1_0000)
  {
    hide HC.UnmarshalMessage;
    EmptyUnit(Opt(x));
    if x.Some? {
      assert Opt(x)[0] == x.value;
    }
  }

  // ---------------------------------------------------------------- when flight 5 can be generated

  /** The body of the ServerKeyExchange in the cache, or nothing when there is none. */
  function ServerKey(env: Env, exchange: Option<HC.Item>): Bytes {
    if exchange.None? || exchange.value.data == [] || Parsed(env, exchange).None? then [] else Parsed(env, exchange).value.body
  }

  /** The server's key can be read, or else one agreed on; without a pre-shared key its signature
      holds; and the client can sign if it has to. */
  predicate CanGenerate5(env: Env, s: State, items: seq<HC.Item>, exchange: Option<HC.Item>) {
    && (if exchange.None? || exchange.value.data == [] then env.agreeKey(None).Some?
        else FiledRight(env, exchange))
    && (s.suite == Some(Suite(true)) || env.hasPsk || env.serverKeyVerifies(ServerKey(env, exchange)))
    && (s.remoteRequestedCertificate && env.certificate.Some? ==>
          env.sign(HC.PullAndMergeSpec(items, HC.SessionRules(0))
                   + MarshalAll(Opt(CertificateMessage(env, s)) + [KeyExchangeMessage(env, s)])).Some?)
  }

  lemma Generates5Exactly(env: Env, s: State, items: seq<HC.Item>, exchange: Option<HC.Item>)
    requires HC.UniqueKeys(items) && HC.LastOf(items, H.ServerKeyExchange, 0, false, exchange)
    ensures Generate5(env, s, items).Some? <==> CanGenerate5(env, s, items, exchange)
  {
    hide ReadServerKey, InitializeCipherSuite, CertificateVerifyMessage, HC.PullAndMergeSpec, MarshalAll, FinishedState,
      HC.UniqueKeys, HC.LastOf, CertificateMessage, KeyExchangeMessage, HC.SessionRules, HC.UnmarshalMessage;
    ReadsKeyExactly(env, s, items, exchange);
    var read := ReadServerKey(env, s, items);
    if read.Some? {
      var keys := MarshalAll(Opt(CertificateMessage(env, s)) + [KeyExchangeMessage(env, s)]);
      var (s1, serverKey) := read.value;
      InitializesExactly(env, s1, items, serverKey, keys);
      if InitializeCipherSuite(env, s1, items, serverKey, keys).Some? {
        SignsExactly(env, InitializeCipherSuite(env, s1, items, serverKey, keys).value, items, keys);
      }
    }
  }

  lemma ReadsKeyExactly(env: Env, s: State, items: seq<HC.Item>, exchange: Option<HC.Item>)
    requires HC.UniqueKeys(items) && HC.LastOf(items, H.ServerKeyExchange, 0, false, exchange)
    ensures var r := ReadServerKey(env, s, items);
      && (r.Some? <==>
            if exchange.None? || exchange.value.data == [] then env.agreeKey(None).Some? else FiledRight(env, exchange))
      && (r.Some? ==> r.value.1 == ServerKey(env, exchange) && r.value.0 == s.(preMaster := r.value.0.preMaster,
                                                                               publicKey := r.value.0.publicKey))
  {
    hide HC.UniqueKeys, HC.LastOf, HC.UnmarshalMessage, HC.Best, HC.PullAndMergeSpec;
    var rules := SERVER_KEY_EXCHANGE_RULES;
    HC.BestIsLast(items, rules[0], exchange);
    HC.PullStarts(items, rules, exchange);
    HC.NothingPulled(items);
    EmptyUnit(HC.Text(exchange));
    ExchangeType(items, exchange);
    assert rules[1..] == [];
  }

  lemma InitializesExactly(env: Env, s: State, items: seq<HC.Item>, serverKey: Bytes, keys: Bytes)
    ensures var r := InitializeCipherSuite(env, s, items, serverKey, keys);
      && (r.Some? <==> s.suite == Some(Suite(true)) || env.hasPsk || env.serverKeyVerifies(serverKey))
      && (r.Some? ==> r.value == s.(master := r.value.master, suite := r.value.suite))
  {
    hide HC.SessionHashSpec, Prf.MasterSecret, Prf.ExtendedMasterSecret;
  }

  lemma SignsExactly(env: Env, s: State, items: seq<HC.Item>, keys: Bytes)
    ensures forall n: nat :: CertificateVerifyMessage(env, s, items, keys, n).Ok? <==>
      (s.remoteRequestedCertificate && env.certificate.Some? ==>
         env.sign(HC.PullAndMergeSpec(items, HC.SessionRules(0)) + keys).Some?)
  {
    hide HC.PullAndMergeSpec, HC.SessionRules;
  }

  lemma ExchangeType(items: seq<HC.Item>, exchange: Option<HC.Item>)
    requires HC.LastOf(items, H.ServerKeyExchange, 0, false, exchange)
    ensures exchange.Some? ==> exchange.value.typ == H.ServerKeyExchange
  {
  }

  // ---------------------------------------------------------------- an ordinary flight

  /** A message of the flight: of its type and number, and accepted by its parser. */
  predicate IsPart(env: Env, m: H.Message, typ: H.HandshakeType, n: int) {
    m.header.typ == typ && m.header.messageSequence == n && env.accepts(typ, m.body)
  }

  lemma PartIsParsed(env: Env, m: H.Message, typ: H.HandshakeType, n: int)
    requires IsPart(env, m, typ, n) && typ.HasParser()
    ensures Parsed(env, Some(ItemOf(m, 0, false))) == Some(m)
  {
    HC.ParsesBack(env.accepts, m);
  }

  /** The whole flight of section 7.3 of RFC 5246, numbered on from the receive sequence, takes
      flight 3 to flight 5, and a certificate has been asked for. */
  lemma OrdinaryFlightIsRead(env: Env, s: State, hello: H.Message, certificate: H.Message, exchange: H.Message,
                             request: H.Message, done: H.Message)
    requires !env.hasPsk && 0 <= s.recvSequence < 0xFFF0
    requires IsPart(env, hello, H.ServerHello, s.recvSequence) && IsPart(env, certificate, H.Certificate, s.recvSequence + 1)
    requires IsPart(env, exchange, H.ServerKeyExchange, s.recvSequence + 2)
    requires IsPart(env, request, H.CertificateRequest, s.recvSequence + 3)
    requires IsPart(env, done, H.ServerHelloDone, s.recvSequence + 4)
    requires env.judgeServerHello(hello.body, s.extendedMasterSecret).Some? && env.agreeKey(Some(exchange.body)).Some?
    ensures var items := [ItemOf(hello, 0, false), ItemOf(certificate, 0, false), ItemOf(exchange, 0, false),
                          ItemOf(request, 0, false), ItemOf(done, 0, false)];
      var (s', o) := Parse(env, Flight3, s, items);
      o == Next(Flight5) && s'.remoteRequestedCertificate
  {
    hide HC.UnmarshalMessage, H.MarshalHeader, Parse, HC.LastOf, HC.UniqueKeys, HC.GapFree, IsFlight;
    var f := ServerFlight(None, Some(ItemOf(hello, 0, false)), Some(ItemOf(certificate, 0, false)),
                          Some(ItemOf(exchange, 0, false)), Some(ItemOf(request, 0, false)), Some(ItemOf(done, 0, false)));
    var items := [f.hello.value, f.certificate.value, f.exchange.value, f.request.value, f.done.value];
    PartIsParsed(env, hello, H.ServerHello, s.recvSequence);
    PartIsParsed(env, certificate, H.Certificate, s.recvSequence + 1);
    PartIsParsed(env, exchange, H.ServerKeyExchange, s.recvSequence + 2);
    PartIsParsed(env, request, H.CertificateRequest, s.recvSequence + 3);
    PartIsParsed(env, done, H.ServerHelloDone, s.recvSequence + 4);
    FiveAreTheFlight(items, f);
    assert Read(false, f) == items;
    FiveAreGapFree(env, s, items);
    Enters5Exactly(env, Flight3, s, items, f);
  }

  lemma FiveAreGapFree(env: Env, s: State, items: seq<HC.Item>)
    requires |items| == 5 && 0 <= s.recvSequence < 0xFFF0
    requires forall i :: 0 <= i < 5 ==>
      Parsed(env, Some(items[i])).Some? && Parsed(env, Some(items[i])).value.header.messageSequence == s.recvSequence + i
    ensures HC.GapFree(env.accepts, items, s.recvSequence)
  {
    hide HC.UnmarshalMessage;
  }

  lemma FiveAreTheFlight(items: seq<HC.Item>, f: ServerFlight)
    requires f.helloVerify.None? && f.hello.Some? && f.certificate.Some? && f.exchange.Some? && f.request.Some? && f.done.Some?
    requires items == [f.hello.value, f.certificate.value, f.exchange.value, f.request.value, f.done.value]
    requires items[0].typ == H.ServerHello && items[1].typ == H.Certificate && items[2].typ == H.ServerKeyExchange
    requires items[3].typ == H.CertificateRequest && items[4].typ == H.ServerHelloDone
    requires forall i :: 0 <= i < 5 ==> items[i].epoch == 0 && !items[i].isClient
    requires forall i, j :: 0 <= i < j < 5 ==> items[i].messageSequence < items[j].messageSequence
    ensures HC.UniqueKeys(items) && IsFlight(items, f)
  {
    assert forall x :: x in items <==>
      x == items[0] || x == items[1] || x == items[2] || x == items[3] || x == items[4];
  }

  // ---------------------------------------------------------------- what generating leaves

  /** What is in the state once flight 5 has been generated: the pre-master secret is the one agreed
      on before, or afresh when there was no ServerKeyExchange; the suite is ready; nothing but the
      secrets and the verify data has changed. */
  lemma Generates5Leaves(env: Env, s: State, items: seq<HC.Item>, exchange: Option<HC.Item>)
    requires HC.UniqueKeys(items) && HC.LastOf(items, H.ServerKeyExchange, 0, false, exchange)
    requires Generate5(env, s, items).Some?
    ensures var t := Generate5(env, s, items).value.state;
      && t == s.(preMaster := t.preMaster, publicKey := t.publicKey, master := t.master, suite := t.suite,
                 localVerifyData := t.localVerifyData)
      && (s.suite.Some? ==> t.suite == Some(Suite(true)))
      && Some(KeyShare(t.preMaster, t.publicKey))
         == if exchange.None? || exchange.value.data == [] then env.agreeKey(None)
            else Some(KeyShare(s.preMaster, s.publicKey))
  {
    hide HC.PullAndMergeSpec, MarshalAll, HC.UniqueKeys, HC.LastOf, CertificateMessage, KeyExchangeMessage, HC.SessionRules,
      HC.UnmarshalMessage, ReadServerKey, HC.SessionHashSpec, Prf.MasterSecret, Prf.ExtendedMasterSecret,
      CertificateVerifyMessage, Prf.VerifyDataClient, TranscriptRules;
    ReadsKeyExactly(env, s, items, exchange);
    AgreesAfresh(env, s, items, exchange);
  }

  lemma AgreesAfresh(env: Env, s: State, items: seq<HC.Item>, exchange: Option<HC.Item>)
    requires HC.UniqueKeys(items) && HC.LastOf(items, H.ServerKeyExchange, 0, false, exchange)
    requires ReadServerKey(env, s, items).Some?
    ensures var t := ReadServerKey(env, s, items).value.0;
      if exchange.None? || exchange.value.data == [] then
        Some(KeyShare(t.preMaster, t.publicKey)) == env.agreeKey(None)
      else t == s
  {
    hide HC.UniqueKeys, HC.LastOf, HC.UnmarshalMessage, HC.Best, HC.PullAndMergeSpec;
    var rules := SERVER_KEY_EXCHANGE_RULES;
    HC.BestIsLast(items, rules[0], exchange);
    HC.PullStarts(items, rules, exchange);
    HC.NothingPulled(items);
    EmptyUnit(HC.Text(exchange));
    assert rules[1..] == [];
  }
}
