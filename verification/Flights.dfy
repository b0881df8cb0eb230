/** The client's flights 1, 3 and 5: what each sends, and what it makes of the messages
    received so far. Message bodies, key agreement and signatures are parameters. */
module Flights {
  import opened Bytes
  import opened Wrappers
  import RL = RecordLayer
  import H = Handshake
  import HC = HandshakeCache
  import Prf
  import opened Conn

  datatype HelloVerify = HelloVerify(versionOk: bool, cookie: Bytes)
  datatype ServerHello = ServerHello(serverRandom: Bytes, extendedMasterSecret: bool)
  datatype KeyShare = KeyShare(preMaster: Bytes, publicKey: Bytes)

  /** Configuration, and everything decided by code outside this model. */
  datatype Env = Env(
    crypto: Prf.Crypto,
    accepts: HC.BodyParser,
    hasPsk: bool,
    clientRandom: Bytes,
    certificate: Option<H.Body>,           // the local certificate's message, when there is one
    emptyCertificate: H.Body,              // the message that carries no certificate
    clientHello: Bytes -> H.Body,          // by cookie
    clientKeyExchange: Bytes -> H.Body,    // by local public key
    readHelloVerify: Bytes -> HelloVerify,
    // the checks on a ServerHello, given whether extended master secret was on before
    judgeServerHello: (Bytes, bool) -> Option<ServerHello>,
    // handle_server_key_exchange, on the message body or None when there was none
    agreeKey: Option<Bytes> -> Option<KeyShare>,
    // signature and certificate checks in initalize_cipher_suite
    serverKeyVerifies: Bytes -> bool,
    sign: Bytes -> Option<H.Body>)         // the CertificateVerify message for a transcript

  datatype Suite = Suite(initialized: bool)

  datatype State = State(
    recvSequence: int,
    sendSequence: nat,
    cookie: Bytes,
    suite: Option<Suite>,
    preMaster: Bytes,
    master: Bytes,
    extendedMasterSecret: bool,
    serverRandom: Bytes,
    publicKey: Bytes,
    remoteRequestedCertificate: bool,
    localVerifyData: H.Body)

  const INITIAL_STATE := State(0, 0, [], None, [], [], false, [], [], false, [])

  datatype Flight = Flight1 | Flight3 | Flight5

  /** What parse returns: the next flight, an error that only means "keep reading", or one
      that ends the handshake. */
  datatype Outcome = Next(flight: Flight) | KeepReading | Fatal

  // ---------------------------------------------------------------- rules

  function Server(typ: H.HandshakeType, optional: bool): HC.Rule { HC.Rule(typ, 0, false, optional) }

  const FLIGHT1_RULES := [Server(H.HelloVerifyRequest, true), Server(H.ServerHello, true)]
  const HELLO_VERIFY_RULES := [Server(H.HelloVerifyRequest, true)]
  const PSK_RULES := [Server(H.ServerHello, false), Server(H.ServerKeyExchange, true), Server(H.ServerHelloDone, false)]
  const SERVER_FLIGHT_RULES := [
    Server(H.ServerHello, false), Server(H.Certificate, true), Server(H.ServerKeyExchange, false),
    Server(H.CertificateRequest, true), Server(H.ServerHelloDone, false)]
  const SERVER_FINISHED_RULES := [HC.Rule(H.Finished, 1, false, false)]
  const SERVER_KEY_EXCHANGE_RULES := [Server(H.ServerKeyExchange, false)]

  const CERTIFICATE_VERIFY_RULE := HC.Rule(H.CertificateVerify, 0, true, false)
  const CLIENT_FINISHED_RULE := HC.Rule(H.Finished, 1, true, false)

  /** The ten rules of the transcript that the server's Finished covers. */
  function TranscriptRules(): seq<HC.Rule> {
    HC.SessionRules(0) + [CERTIFICATE_VERIFY_RULE, CLIENT_FINISHED_RULE]
  }

  type Pulled = map<H.HandshakeType, H.Message>

  // ---------------------------------------------------------------- parse

  function TakeHelloVerify(env: Env, s: State, seqNo: int, m: H.Message): (State, Outcome) {
    if m.header.typ != H.HelloVerifyRequest then (s, KeepReading)
    else
      var h := env.readHelloVerify(m.body);
      if !h.versionOk then (s, Fatal)
      else (s.(cookie := h.cookie, recvSequence := seqNo), Next(Flight3))
  }

  function TakeServerHello(env: Env, s: State, msgs: Pulled): (State, Outcome) {
    if H.ServerHello !in msgs then TakeKeyExchange(env, s, msgs)
    else if msgs[H.ServerHello].header.typ != H.ServerHello then (s, KeepReading)
    else match env.judgeServerHello(msgs[H.ServerHello].body, s.extendedMasterSecret)
      case None => (s, Fatal)
      case Some(h) =>
        TakeKeyExchange(env, s.(extendedMasterSecret := s.extendedMasterSecret || h.extendedMasterSecret,
                                suite := Some(Suite(false)), serverRandom := h.serverRandom), msgs)
  }

  function TakeKeyExchange(env: Env, s: State, msgs: Pulled): (State, Outcome) {
    if H.Certificate in msgs && msgs[H.Certificate].header.typ != H.Certificate then (s, KeepReading)
    else if H.ServerKeyExchange !in msgs then TakeCertificateRequest(s, msgs)
    else if msgs[H.ServerKeyExchange].header.typ != H.ServerKeyExchange then (s, KeepReading)
    else match env.agreeKey(Some(msgs[H.ServerKeyExchange].body))
      case None => (s, Fatal)
      case Some(k) => TakeCertificateRequest(s.(preMaster := k.preMaster, publicKey := k.publicKey), msgs)
  }

  function TakeCertificateRequest(s: State, msgs: Pulled): (State, Outcome) {
    if H.CertificateRequest !in msgs then (s, Next(Flight5))
    else if msgs[H.CertificateRequest].header.typ != H.CertificateRequest then (s, KeepReading)
    else (s.(remoteRequestedCertificate := true), Next(Flight5))
  }

  function Parse3(env: Env, s: State, items: seq<HC.Item>): (State, Outcome) {
    match HC.FullPullSpec(env.accepts, items, s.recvSequence, HELLO_VERIFY_RULES)
    case Ok((seqNo, msgs)) =>
      if H.HelloVerifyRequest in msgs then TakeHelloVerify(env, s, seqNo, msgs[H.HelloVerifyRequest])
      else ParseServerFlight(env, s, items)
    case Err(_) => ParseServerFlight(env, s, items)
  }

  function ServerFlightRules(env: Env): seq<HC.Rule> {
    if env.hasPsk then PSK_RULES else SERVER_FLIGHT_RULES
  }

  function ParseServerFlight(env: Env, s: State, items: seq<HC.Item>): (State, Outcome) {
    match HC.FullPullSpec(env.accepts, items, s.recvSequence, ServerFlightRules(env))
    case Err(_) => (s, KeepReading)
    case Ok((seqNo, msgs)) => TakeServerHello(env, s.(recvSequence := seqNo), msgs)
  }

  function Parse1(env: Env, s: State, items: seq<HC.Item>): (State, Outcome) {
    match HC.FullPullSpec(env.accepts, items, s.recvSequence, FLIGHT1_RULES)
    case Err(_) => (s, KeepReading)
    case Ok((seqNo, msgs)) =>
      if H.ServerHello in msgs then Parse3(env, s, items)
      else if H.HelloVerifyRequest in msgs then TakeHelloVerify(env, s, seqNo, msgs[H.HelloVerifyRequest])
      else (s, KeepReading)
  }

  /** The Finished check; skipped only when no cipher suite was ever chosen. */
  function Parse5(env: Env, s: State, items: seq<HC.Item>): Outcome {
    match HC.FullPullSpec(env.accepts, items, s.recvSequence, SERVER_FINISHED_RULES)
    case Err(_) => KeepReading
    case Ok((_, msgs)) =>
      if H.Finished !in msgs || msgs[H.Finished].header.typ != H.Finished then KeepReading
      else if s.suite.Some? &&
              Prf.VerifyDataServer(env.crypto, s.master, HC.PullAndMergeSpec(items, TranscriptRules())) != msgs[H.Finished].body
      then Fatal
      else Next(Flight5)
  }

  function Parse(env: Env, flight: Flight, s: State, items: seq<HC.Item>): (State, Outcome) {
    match flight
    case Flight1 => Parse1(env, s, items)
    case Flight3 => Parse3(env, s, items)
    case Flight5 => (s, Parse5(env, s, items))
  }

  // ---------------------------------------------------------------- generate

  function Plaintext(m: H.Message): Packet {
    Packet(RL.PROTOCOL_VERSION1_2, 0, HandshakeContent(m))
  }

  const CHANGE_CIPHER_SPEC := Packet(RL.PROTOCOL_VERSION1_2, 0, Plain(RL.ChangeCipherSpec, [1]))

  function ClientHelloPackets(env: Env, s: State): seq<Packet> {
    [Plaintext(H.NewMessage(H.ClientHello, env.clientHello(s.cookie)))]
  }

  function Opt<T>(o: Option<T>): seq<T> {
    match o case Some(x) => [x] case None => []
  }

  function MarshalAll(ms: seq<H.Message>): Bytes {
    if ms == [] then [] else ms[0].Marshal() + MarshalAll(ms[1..])
  }

  /** Certificate, if asked for, with its predicted number. */
  function CertificateMessage(env: Env, s: State): Option<H.Message> {
    if !s.remoteRequestedCertificate then None
    else
      var body := if env.certificate.Some? then env.certificate.value else env.emptyCertificate;
      Some(H.Renumbered(H.NewMessage(H.Certificate, body), s.sendSequence))
  }

  /** ClientKeyExchange with its predicted number. */
  function KeyExchangeMessage(env: Env, s: State): H.Message {
    H.Renumbered(H.NewMessage(H.ClientKeyExchange, env.clientKeyExchange(s.publicKey)),
                 s.sendSequence + |Opt(CertificateMessage(env, s))|)
  }

  /** The server's key exchange body as flight 5 reads it back from the cache; it agrees on
      a key afresh when there is none. */
  function ReadServerKey(env: Env, s: State, items: seq<HC.Item>): Option<(State, Bytes)> {
    var data := HC.PullAndMergeSpec(items, SERVER_KEY_EXCHANGE_RULES);
    if data == [] then
      match env.agreeKey(None)
      case None => None
      case Some(k) => Some((s.(preMaster := k.preMaster, publicKey := k.publicKey), []))
    else
      match HC.UnmarshalMessage(env.accepts, data)
      case None => None
      case Some(m) => if m.header.typ != H.ServerKeyExchange then None else Some((s, m.body))
  }

  /** initalize_cipher_suite: sendingPlainText is the part of the session not yet sent. */
  function InitializeCipherSuite(env: Env, s: State, items: seq<HC.Item>, serverKey: Bytes, sendingPlainText: Bytes)
    : Option<State>
  {
    if s.suite.Some? && s.suite.value.initialized then Some(s)
    else
      var master :=
        if s.suite.None? then s.master
        else if s.extendedMasterSecret then
          Prf.ExtendedMasterSecret(env.crypto, s.preMaster,
                                   HC.SessionHashSpec(env.crypto.sha256, items, 0, sendingPlainText))
        else Prf.MasterSecret(env.crypto, s.preMaster, env.clientRandom, s.serverRandom);
      if !env.hasPsk && !env.serverKeyVerifies(serverKey) then None
      else Some(s.(master := master, suite := if s.suite.Some? then Some(Suite(true)) else None))
  }

  /** CertificateVerify over what was sent and what will have been sent before it. */
  function CertificateVerifyMessage(env: Env, s: State, items: seq<HC.Item>, merged: Bytes, n: nat)
    : Result<Option<H.Message>, ()>
  {
    if !s.remoteRequestedCertificate || env.certificate.None? then Ok(None)
    else match env.sign(HC.PullAndMergeSpec(items, HC.SessionRules(0)) + merged)
      case None => Err(())
      case Some(body) => Ok(Some(H.Renumbered(H.NewMessage(H.CertificateVerify, body), n)))
  }

  function FinishedState(env: Env, s: State, items: seq<HC.Item>, merged: Bytes): State {
    if s.localVerifyData != [] || s.suite.None? then s
    else
      var text := HC.PullAndMergeSpec(items, TranscriptRules()) + merged;
      s.(localVerifyData := Prf.VerifyDataClient(env.crypto, s.master, text))
  }

  function Packets(ms: seq<H.Message>): seq<Packet> {
    seq(|ms|, i requires 0 <= i < |ms| => Plaintext(ms[i]))
  }

  /** Flight 5 up to ChangeCipherSpec. */
  datatype Generated = Generated(
    state: State, certificate: Option<H.Message>, exchange: H.Message, verify: Option<H.Message>)
  {
    function Messages(): seq<H.Message> { Opt(certificate) + [exchange] + Opt(verify) }
  }

  /** None is an error that ends the handshake. Everything hashed here is still unsent. */
  function Generate5(env: Env, s: State, items: seq<HC.Item>): Option<Generated> {
    var certificate, exchange := CertificateMessage(env, s), KeyExchangeMessage(env, s);
    match ReadServerKey(env, s, items)
    case None => None
    case Some((s1, serverKey)) =>
      var keys := Opt(certificate) + [exchange];
      match InitializeCipherSuite(env, s1, items, serverKey, MarshalAll(keys))
      case None => None
      case Some(s2) =>
        match CertificateVerifyMessage(env, s2, items, MarshalAll(keys), s.sendSequence + |keys|)
        case Err(_) => None
        case Ok(verify) =>
          Some(Generated(FinishedState(env, s2, items, MarshalAll(keys + Opt(verify))), certificate, exchange, verify))
  }

  function FinishedPacket(s: State): Packet {
    Packet(RL.PROTOCOL_VERSION1_2, 1, HandshakeContent(H.NewMessage(H.Finished, s.localVerifyData)))
  }

  function Flight5Packets(g: Generated): seq<Packet> {
    Packets(g.Messages()) + [CHANGE_CIPHER_SPEC, FinishedPacket(g.state)]
  }

  // ---------------------------------------------------------------- prepare: numbering

  function NumberPackets(pkts: seq<Packet>, n: nat): (seq<Packet>, nat) {
    if pkts == [] then ([], n)
    else
      match pkts[0].content
      case Plain(_, _) =>
        var (rest, n') := NumberPackets(pkts[1..], n);
        ([pkts[0]] + rest, n')
      case HandshakeContent(m) =>
        var (rest, n') := NumberPackets(pkts[1..], n + 1);
        ([pkts[0].(content := HandshakeContent(H.Renumbered(m, n)))] + rest, n')
  }

  /** What sending a batch pushes to the client's own cache. */
  function ItemsSent(pkts: seq<Packet>): seq<HC.Item> {
    ItemsSentBy(pkts, true)
  }
}
