/** When the server's flight 4 goes on to flight 6, exactly; and that the verify data of the
    client's Finished has no part in it. */
module ServerAccepts {
  import opened Bytes
  import opened Wrappers
  import H = Handshake
  import HC = HandshakeCache
  import Prf
  import opened Conn
  import F = Flights
  import T = Transcript
  import opened ServerFlight

  const CERTIFICATE_RULE := T.FLIGHT4_RULES[0]
  const EXCHANGE_RULE := T.FLIGHT4_RULES[1]
  const VERIFY_RULE := T.FLIGHT4_RULES[2]
  const FINISHED_RULE := CLIENT_FINISHED_RULES[0]

  // ---------------------------------------------------------------- the two pulls

  /** What the pull of flight 4 returns, rule by rule. */
  lemma Flight4Pull(accepts: HC.BodyParser, items: seq<HC.Item>, start: int)
    ensures var r := HC.FullPullSpec(accepts, items, start, T.FLIGHT4_RULES); var p := HC.Pull(items, T.FLIGHT4_RULES);
      && (r.Ok? <==> HC.Best(items, EXCHANGE_RULE).Some? && HC.GapFree(accepts, p, start))
      && (r.Ok? ==>
            && r.value.0 == start + |p|
            && forall i :: 0 <= i < 3 ==> HC.Returned(accepts, items, r.value.1, T.FLIGHT4_RULES[i]))
  {
    hide HC.FullPullSpec, HC.Pull, HC.Best;
    HC.FullPullMeans(accepts, items, start, T.FLIGHT4_RULES);
    assert HC.MissesMandatory(items, T.FLIGHT4_RULES) <==> HC.Best(items, T.FLIGHT4_RULES[1]).None?;
  }

  /** The pull of the client's Finished. */
  lemma FinishedPull(accepts: HC.BodyParser, items: seq<HC.Item>, start: int)
    ensures var r := HC.FullPullSpec(accepts, items, start, CLIENT_FINISHED_RULES);
      var m := HC.MessageFor(accepts, items, FINISHED_RULE);
      if m.Some? && m.value.header.messageSequence == start % 0x1_0000
      then r == Ok((start + 1, map[H.Finished := m.value]))
      else r.Err?
  {
    hide HC.Best, HC.UnmarshalMessage;
    var rules := CLIENT_FINISHED_RULES;
    HC.FullPullIsGapFree(accepts, items, start, rules);
    HC.BestMeans(items, rules[0]);
    assert rules[1..] == [];
    assert HC.MissesMandatory(items, rules) <==> HC.Best(items, rules[0]).None?;
    match HC.Best(items, rules[0]) {
      case None =>
      case Some(x) =>
        assert HC.Pull(items, []) == [];
        assert HC.Pull(items, rules) == [x];
        assert [x][1..] == [] && [x][0] == x;
        var p := HC.Pull(items, rules);
        match HC.UnmarshalMessage(accepts, x.data) {
          case None => assert p[0] == x;
          case Some(m) =>
            assert HC.Messages(accepts, [], map[H.Finished := m]) == map[H.Finished := m];
            assert HC.Messages(accepts, p, map[]) == map[H.Finished := m];
            assert HC.GapFree(accepts, p, start) <==> m.header.messageSequence == start % 0x1_0000 by {
              assert p[0] == x;
            }
        }
    }
  }

  // ---------------------------------------------------------------- when flight 6 is entered

  predicate SignatureAccepted(env: ServerEnv, items: seq<HC.Item>, verify: Bytes, certificate: Bytes) {
    && env.schemeListed(verify)
    && env.signatureVerifies(HC.PullAndMergeSpec(items, HC.SessionRules(0)), verify, certificate)
    && (env.clientAuth.VerifyClientCertIfGiven? ==> env.chainVerifier.Some? && env.chainVerifier.value(certificate))
    && env.peerAccepted(certificate)
  }

  predicate FinishedIsNext(env: ServerEnv, items: seq<HC.Item>, seqNo: int) {
    var f := HC.MessageFor(env.accepts, items, FINISHED_RULE);
    f.Some? && f.value.header.typ == H.Finished && f.value.header.messageSequence == seqNo % 0x1_0000
  }

  function PeerCertificates(env: ServerEnv, s: State, items: seq<HC.Item>): Option<Bytes> {
    match HC.MessageFor(env.accepts, items, CERTIFICATE_RULE)
    case Some(m) => Some(m.body)
    case None => s.peerCertificates
  }

  /** The client's messages are there, numbered without a gap and of the types they are filed
      under; a CertificateVerify comes with certificates and is accepted; the pre-master secret
      can be had if it is still needed; a Finished comes next, whatever its verify data; and
      the configuration gets the certificates it asks for. */
  predicate CanEnter6(env: ServerEnv, s: State, items: seq<HC.Item>, queued: seq<HC.Item>) {
    var certificate := HC.MessageFor(env.accepts, items, CERTIFICATE_RULE);
    var exchange := HC.MessageFor(env.accepts, items, EXCHANGE_RULE);
    var verify := HC.MessageFor(env.accepts, items, VERIFY_RULE);
    var pulled := HC.Pull(items, T.FLIGHT4_RULES);
    var peer := PeerCertificates(env, s, items);
    var named := peer.Some? && env.hasCertificates(peer.value);
    && HC.GapFree(env.accepts, pulled, s.recvSequence)
    && exchange.Some? && exchange.value.header.typ == H.ClientKeyExchange
    && (certificate.Some? ==> certificate.value.header.typ == H.Certificate)
    && (verify.Some? ==>
          && verify.value.header.typ == H.CertificateVerify
          && named && SignatureAccepted(env, items, verify.value.body, peer.value))
    && (s.suite == Some(F.Suite(false)) ==> env.preMaster(exchange.value.body).Some?)
    && FinishedIsNext(env, HC.PushAll(items, queued), s.recvSequence + |pulled|)
    && (env.clientAuth.RequireAnyClientCert? ==> named)
    && (env.clientAuth.VerifyClientCertIfGiven? && named ==> verify.Some? || s.peerVerified)
  }

  /** parse of flight 4 goes on to flight 6 exactly then. */
  lemma Enters6Exactly(env: ServerEnv, s: State, items: seq<HC.Item>, queued: seq<HC.Item>)
    ensures Parse4(env, s, items, queued).2 == Next6 <==> CanEnter6(env, s, items, queued)
  {
    hide HC.FullPullSpec, HC.Pull, HC.Best, HC.UnmarshalMessage, HC.PushAll, HC.GapFree, HC.PullAndMergeSpec,
      HC.MessageFor, TakeFinished, DeriveMaster;
    Flight4Pull(env.accepts, items, s.recvSequence);
    var r := HC.FullPullSpec(env.accepts, items, s.recvSequence, T.FLIGHT4_RULES);
    NeedsExchange(env, items);
    if r.Ok? {
      var (seqNo, msgs) := r.value;
      assert HC.Returned(env.accepts, items, msgs, T.FLIGHT4_RULES[0]);
      assert HC.Returned(env.accepts, items, msgs, T.FLIGHT4_RULES[1]);
      assert HC.Returned(env.accepts, items, msgs, T.FLIGHT4_RULES[2]);
      if H.ClientKeyExchange in msgs {
        var s1 := if H.Certificate in msgs then s.(peerCertificates := Some(msgs[H.Certificate].body)) else s;
        var s2 := CheckVerify(env, s1, items, msgs).0;
        DeriveKeeps(env, s2, items, msgs[H.ClientKeyExchange].body);
        var derived := DeriveMaster(env, s2, items, msgs[H.ClientKeyExchange].body);
        if derived.Some? {
          TakesFinished(env, derived.value, HC.PushAll(items, queued), seqNo);
        }
      }
    }
  }

  lemma NeedsExchange(env: ServerEnv, items: seq<HC.Item>)
    ensures HC.MessageFor(env.accepts, items, EXCHANGE_RULE).Some? ==> HC.Best(items, EXCHANGE_RULE).Some?
  {
  }

  lemma DeriveKeeps(env: ServerEnv, s: State, items: seq<HC.Item>, exchange: Bytes)
    ensures var d := DeriveMaster(env, s, items, exchange);
      && (d.Some? <==> (s.suite == Some(F.Suite(false)) ==> env.preMaster(exchange).Some?))
      && (d.Some? ==> d.value == s.(suite := d.value.suite, master := d.value.master))
  {
    hide HC.SessionHashSpec, Prf.MasterSecret, Prf.ExtendedMasterSecret;
  }

  lemma TakesFinished(env: ServerEnv, s: State, items: seq<HC.Item>, seqNo: int)
    ensures TakeFinished(env, s, items, seqNo).1 == Next6 <==>
      && FinishedIsNext(env, items, seqNo)
      && (env.clientAuth.RequireAnyClientCert? ==> !NoCertificates(env, s))
      && (env.clientAuth.VerifyClientCertIfGiven? && !NoCertificates(env, s) ==> s.peerVerified)
  {
    hide HC.FullPullSpec, HC.MessageFor;
    FinishedPull(env.accepts, items, seqNo);
  }

  // ---------------------------------------------------------------- the verify data

  /** Two cached messages that differ at most in the body of a client's Finished. */
  predicate SameButVerifyData(accepts: HC.BodyParser, x: HC.Item, y: HC.Item) {
    || x == y
    || (&& HC.Matches(x, FINISHED_RULE) && y == x.(data := y.data)
        && var m, n := HC.UnmarshalMessage(accepts, x.data), HC.UnmarshalMessage(accepts, y.data);
           && m.Some? && n.Some?
           && m.value.header.typ == n.value.header.typ
           && m.value.header.messageSequence == n.value.header.messageSequence)
  }

  predicate AllSame(accepts: HC.BodyParser, a: seq<HC.Item>, b: seq<HC.Item>) {
    |a| == |b| && forall i :: 0 <= i < |a| ==> SameButVerifyData(accepts, a[i], b[i])
  }

  lemma {:induction false} BestSame(accepts: HC.BodyParser, a: seq<HC.Item>, b: seq<HC.Item>, r: HC.Rule)
    requires AllSame(accepts, a, b)
    ensures var x, y := HC.Best(a, r), HC.Best(b, r);
      (x.Some? <==> y.Some?) && (x.Some? ==> SameButVerifyData(accepts, x.value, y.value))
  {
    hide HC.UnmarshalMessage;
    if a != [] {
      BestSame(accepts, a[..|a| - 1], b[..|b| - 1], r);
      assert SameButVerifyData(accepts, a[|a| - 1], b[|b| - 1]);
    }
  }

  lemma TakenSame(accepts: HC.BodyParser, a: seq<HC.Item>, b: seq<HC.Item>, x: HC.Item, y: HC.Item)
    requires AllSame(accepts, a, b) && SameButVerifyData(accepts, x, y)
    ensures HC.Taken(a, x) <==> HC.Taken(b, y)
  {
    hide HC.UnmarshalMessage;
    forall i | 0 <= i < |a| ensures HC.SameKey(a[i], x) <==> HC.SameKey(b[i], y) {
      assert SameButVerifyData(accepts, a[i], b[i]);
    }
    if HC.Taken(a, x) {
      var i :| 0 <= i < |a| && HC.SameKey(a[i], x);
      assert HC.SameKey(b[i], y);
    }
    if HC.Taken(b, y) {
      var i :| 0 <= i < |b| && HC.SameKey(b[i], y);
      assert HC.SameKey(a[i], x);
    }
  }

  lemma {:induction false} PushAllSame(accepts: HC.BodyParser, a: seq<HC.Item>, b: seq<HC.Item>, p: seq<HC.Item>,
                                       q: seq<HC.Item>)
    requires AllSame(accepts, a, b) && AllSame(accepts, p, q)
    ensures AllSame(accepts, HC.PushAll(a, p), HC.PushAll(b, q))
  {
    hide HC.UnmarshalMessage, HC.Taken, SameButVerifyData;
    if p != [] {
      PushAllSame(accepts, a, b, p[..|p| - 1], q[..|q| - 1]);
      assert SameButVerifyData(accepts, p[|p| - 1], q[|q| - 1]);
      TakenSame(accepts, HC.PushAll(a, p[..|p| - 1]), HC.PushAll(b, q[..|q| - 1]), p[|p| - 1], q[|q| - 1]);
    }
  }

  /** Rules for anything but Finished pull the very same messages. */
  lemma {:induction false} PullSame(accepts: HC.BodyParser, a: seq<HC.Item>, b: seq<HC.Item>, rules: seq<HC.Rule>)
    requires AllSame(accepts, a, b)
    requires forall i :: 0 <= i < |rules| ==> rules[i].typ != H.Finished
    ensures HC.Pull(a, rules) == HC.Pull(b, rules)
    ensures forall i :: 0 <= i < |rules| ==> HC.Best(a, rules[i]) == HC.Best(b, rules[i])
  {
    hide HC.Best, HC.UnmarshalMessage, AllSame;
    if rules != [] {
      BestSame(accepts, a, b, rules[0]);
      HC.BestMeans(a, rules[0]);
      PullSame(accepts, a, b, rules[1..]);
      forall i | 0 <= i < |rules| ensures HC.Best(a, rules[i]) == HC.Best(b, rules[i]) {
        if i > 0 {
          assert rules[1..][i - 1] == rules[i];
        }
      }
    }
  }

  lemma FullPullSame(accepts: HC.BodyParser, a: seq<HC.Item>, b: seq<HC.Item>, start: int, rules: seq<HC.Rule>)
    requires AllSame(accepts, a, b) && HC.DistinctTypes(rules)
    requires forall i :: 0 <= i < |rules| ==> rules[i].typ != H.Finished
    ensures var r, r' := HC.FullPullSpec(accepts, a, start, rules), HC.FullPullSpec(accepts, b, start, rules);
      (r.Ok? <==> r'.Ok?) && (r.Ok? ==> r == r')
  {
    hide HC.Best, HC.Pull, HC.FullPullSpec, HC.GapFree, HC.Messages, AllSame;
    PullSame(accepts, a, b, rules);
    HC.FullPullIsGapFree(accepts, a, start, rules);
    HC.FullPullIsGapFree(accepts, b, start, rules);
  }

  lemma SessionSame(accepts: HC.BodyParser, a: seq<HC.Item>, b: seq<HC.Item>)
    requires AllSame(accepts, a, b)
    ensures HC.PullAndMergeSpec(a, HC.SessionRules(0)) == HC.PullAndMergeSpec(b, HC.SessionRules(0))
  {
    hide HC.Pull, HC.Best, AllSame;
    PullSame(accepts, a, b, HC.SessionRules(0));
  }

  /** Contrary to section 7.4.9 of RFC 5246, the server compares no verify data: whatever body
      the client's Finished has, be it cached already or still queued, the server's state and
      its next flight are the same. */
  lemma VerifyDataIsNotRead(env: ServerEnv, s: State, items: seq<HC.Item>, items': seq<HC.Item>, queued: seq<HC.Item>,
                            queued': seq<HC.Item>)
    requires AllSame(env.accepts, items, items') && AllSame(env.accepts, queued, queued')
    ensures var (t, after, o) := Parse4(env, s, items, queued); var (t', after', o') := Parse4(env, s, items', queued');
      t == t' && o == o' && AllSame(env.accepts, after, after')
  {
    hide HC.FullPullSpec, HC.PushAll, HC.UnmarshalMessage, HC.PullAndMergeSpec, HC.SessionRules, AllSame,
      TakeFinished, Prf.MasterSecret, Prf.ExtendedMasterSecret;
    PushAllSame(env.accepts, items, items', queued, queued');
    FullPullSame(env.accepts, items, items', s.recvSequence, T.FLIGHT4_RULES);
    SessionSame(env.accepts, items, items');
    var a, b := HC.PushAll(items, queued), HC.PushAll(items', queued');
    forall t: State, seqNo: int ensures TakeFinished(env, t, a, seqNo) == TakeFinished(env, t, b, seqNo) {
      FinishedSame(env, t, a, b, seqNo);
    }
  }

  lemma FinishedSame(env: ServerEnv, s: State, a: seq<HC.Item>, b: seq<HC.Item>, seqNo: int)
    requires AllSame(env.accepts, a, b)
    ensures TakeFinished(env, s, a, seqNo) == TakeFinished(env, s, b, seqNo)
  {
    hide HC.FullPullSpec, HC.Best, HC.UnmarshalMessage;
    BestSame(env.accepts, a, b, FINISHED_RULE);
    FinishedPull(env.accepts, a, seqNo);
    FinishedPull(env.accepts, b, seqNo);
  }

  /** So a Finished with wrong verify data is taken: any body at all gets this server, which
      has the client's key exchange cached, to flight 6. */
  lemma WrongVerifyDataIsTaken(crypto: Prf.Crypto, body: H.Body)
    returns (env: ServerEnv, s: State, items: seq<HC.Item>, finished: H.Message)
    ensures env.crypto == crypto && finished.body == body && finished.header.typ == H.Finished
    ensures var (t, after, o) := Parse4(env, s, items, [ItemOf(finished, 1, true)]);
      && o == Next6 && ItemOf(finished, 1, true) in after
      && (|body| != 12 ==> body != Prf.VerifyDataClient(crypto, t.master, HC.PullAndMergeSpec(after, F.TranscriptRules())))
  {
    hide HC.FullPullSpec, HC.PullAndMergeSpec, Prf.PHash, H.MarshalHeader, Parse4;
    env := ServerEnv(crypto, (t, b) => true, NoClientCert, b => Some([]), b => false, b => true, (t, v, c) => true, None,
                     b => true, [], []);
    s := State(0, Some(F.Suite(false)), false, [], None, false, []);
    var exchange := H.NewMessage(H.ClientKeyExchange, []);
    finished := H.Renumbered(H.NewMessage(H.Finished, body), 1);
    items := [ItemOf(exchange, 0, true)];
    ExchangeThenFinished(env, s, exchange, finished);
    Enters6Exactly(env, s, items, [ItemOf(finished, 1, true)]);
    FinishedIsCached(env, s, items, ItemOf(finished, 1, true));
  }

  lemma FinishedIsCached(env: ServerEnv, s: State, items: seq<HC.Item>, x: HC.Item)
    requires Parse4(env, s, items, [x]).2 == Next6 && !HC.Taken(items, x)
    ensures x in Parse4(env, s, items, [x]).1
  {
    hide HC.FullPullSpec, HC.PullAndMergeSpec, DeriveMaster, TakeFinished;
    assert [x][..0] == [] && HC.PushAll(items, []) == items;
    assert HC.PushAll(items, [x]) == items + [x];
    assert (items + [x])[|items|] == x;
  }

  lemma ExchangeThenFinished(env: ServerEnv, s: State, exchange: H.Message, finished: H.Message)
    requires forall t, b :: env.accepts(t, b)
    requires env.clientAuth.NoClientCert? && env.preMaster(exchange.body).Some? && s.recvSequence == 0
    requires exchange.header.typ == H.ClientKeyExchange && exchange.header.messageSequence == 0
    requires finished.header.typ == H.Finished && finished.header.messageSequence == 1
    ensures !HC.Taken([ItemOf(exchange, 0, true)], ItemOf(finished, 1, true))
    ensures CanEnter6(env, s, [ItemOf(exchange, 0, true)], [ItemOf(finished, 1, true)])
  {
    hide H.MarshalHeader, HC.UnmarshalMessage, HC.PullAndMergeSpec, HC.Best, HC.Pull, HC.PushAll;
    var x, f := ItemOf(exchange, 0, true), ItemOf(finished, 1, true);
    HC.ParsesBack(env.accepts, exchange);
    HC.ParsesBack(env.accepts, finished);
    assert !HC.SameKey(x, f);
    assert !HC.Taken([x], f);
    PullsOfTwo(x, f);
    assert HC.Pull([x], T.FLIGHT4_RULES)[0] == x;
  }

  lemma PullsOfTwo(x: HC.Item, f: HC.Item)
    requires x.isClient && x.epoch == 0 && x.typ == H.ClientKeyExchange
    requires f.isClient && f.epoch == 1 && f.typ == H.Finished && !HC.Taken([x], f)
    ensures HC.Best([x], CERTIFICATE_RULE) == None && HC.Best([x], EXCHANGE_RULE) == Some(x)
    ensures HC.Best([x], VERIFY_RULE) == None
    ensures HC.Pull([x], T.FLIGHT4_RULES) == [x]
    ensures HC.PushAll([x], [f]) == [x, f] && HC.Best([x, f], FINISHED_RULE) == Some(f)
  {
    var rules := T.FLIGHT4_RULES;
    assert [x][..0] == [] && [f][..0] == [] && [x, f][..1] == [x] && [x] + [f] == [x, f];
    assert HC.Best([x], rules[0]) == None && HC.Best([x], rules[1]) == Some(x) && HC.Best([x], rules[2]) == None;
    assert rules[1..][1..] == rules[2..] && rules[2..][1..] == [];
    assert HC.Pull([x], []) == [];
    assert HC.Pull([x], rules[2..]) == [];
    assert HC.Pull([x], rules[1..]) == [x];
    assert HC.PushAll([x], []) == [x];
    assert HC.Best([x], FINISHED_RULE) == None;
  }

  // ---------------------------------------------------------------- what flight 4 has taken

  /** What is in the server's state when it goes on: the receive sequence is past the client's
      Finished; the certificates are those of the client's Certificate, if there was one, and
      count as verified if their chain was; the master secret is made once, of the key exchange
      and, if it is extended, of the session; nothing else has changed. */
  predicate HasTaken4(env: ServerEnv, s: State, items: seq<HC.Item>, t: State) {
    var verify, exchange := HC.MessageFor(env.accepts, items, VERIFY_RULE), HC.MessageFor(env.accepts, items, EXCHANGE_RULE);
    && t.recvSequence == s.recvSequence + |HC.Pull(items, T.FLIGHT4_RULES)| + 1
    && t.peerCertificates == PeerCertificates(env, s, items)
    && t.peerVerified == (if verify.Some? then env.clientAuth.VerifyClientCertIfGiven? else s.peerVerified)
    && t.extendedMasterSecret == s.extendedMasterSecret && t.localVerifyData == s.localVerifyData
    && if s.suite == Some(F.Suite(false)) then
         && t.suite == Some(F.Suite(true))
         && exchange.Some? && env.preMaster(exchange.value.body).Some?
         && t.master == if s.extendedMasterSecret
                        then Prf.ExtendedMasterSecret(env.crypto, env.preMaster(exchange.value.body).value,
                               env.crypto.sha256(HC.PullAndMergeSpec(items, HC.SessionRules(0))))
                        else Prf.MasterSecret(env.crypto, env.preMaster(exchange.value.body).value, env.clientRandom, env.serverRandom)
       else t.suite == s.suite && t.master == s.master
  }

  lemma Takes4Exactly(env: ServerEnv, s: State, items: seq<HC.Item>, queued: seq<HC.Item>)
    requires Parse4(env, s, items, queued).2 == Next6
    ensures HasTaken4(env, s, items, Parse4(env, s, items, queued).0)
    ensures Parse4(env, s, items, queued).1 == HC.PushAll(items, queued)
  {
    hide HC.FullPullSpec, HC.Pull, HC.Best, HC.UnmarshalMessage, HC.PushAll, HC.GapFree, HC.PullAndMergeSpec,
      HC.MessageFor, TakeFinished, DeriveMaster, Prf.MasterSecret, Prf.ExtendedMasterSecret, HC.SessionRules;
    Flight4Pull(env.accepts, items, s.recvSequence);
    var (seqNo, msgs) := HC.FullPullSpec(env.accepts, items, s.recvSequence, T.FLIGHT4_RULES).value;
    assert HC.Returned(env.accepts, items, msgs, T.FLIGHT4_RULES[0]);
    assert HC.Returned(env.accepts, items, msgs, T.FLIGHT4_RULES[1]);
    assert HC.Returned(env.accepts, items, msgs, T.FLIGHT4_RULES[2]);
    var s1 := if H.Certificate in msgs then s.(peerCertificates := Some(msgs[H.Certificate].body)) else s;
    var s2 := CheckVerify(env, s1, items, msgs).0;
    var exchange := msgs[H.ClientKeyExchange].body;
    var s3 := DeriveMaster(env, s2, items, exchange).value;
    DerivesExactly(env, s2, items, exchange);
    MovesPastFinished(env, s3, HC.PushAll(items, queued), seqNo);
  }

  lemma DerivesExactly(env: ServerEnv, s: State, items: seq<HC.Item>, exchange: Bytes)
    requires DeriveMaster(env, s, items, exchange).Some?
    ensures var t := DeriveMaster(env, s, items, exchange).value;
      && t == s.(suite := t.suite, master := t.master)
      && if s.suite == Some(F.Suite(false)) then
           && t.suite == Some(F.Suite(true)) && env.preMaster(exchange).Some?
           && t.master == if s.extendedMasterSecret
                          then Prf.ExtendedMasterSecret(env.crypto, env.preMaster(exchange).value,
                                 env.crypto.sha256(HC.PullAndMergeSpec(items, HC.SessionRules(0))))
                          else Prf.MasterSecret(env.crypto, env.preMaster(exchange).value, env.clientRandom, env.serverRandom)
         else t == s
  {
    hide HC.PullAndMergeSpec, HC.SessionRules, Prf.MasterSecret, Prf.ExtendedMasterSecret;
    EmptyUnit(HC.PullAndMergeSpec(items, HC.SessionRules(0)));
  }

  lemma MovesPastFinished(env: ServerEnv, s: State, items: seq<HC.Item>, seqNo: int)
    requires TakeFinished(env, s, items, seqNo).1 == Next6
    ensures TakeFinished(env, s, items, seqNo).0 == s.(recvSequence := seqNo + 1)
  {
    hide HC.FullPullSpec, HC.MessageFor;
    FinishedPull(env.accepts, items, seqNo);
  }

  // ---------------------------------------------------------------- what flight 4 refuses

  /** The client's messages are there, numbered without a gap, the key exchange and the certificate
      of the types they are filed under. */
  predicate ReadsMessages(env: ServerEnv, s: State, items: seq<HC.Item>) {
    var certificate, exchange := HC.MessageFor(env.accepts, items, CERTIFICATE_RULE), HC.MessageFor(env.accepts, items, EXCHANGE_RULE);
    && HC.GapFree(env.accepts, HC.Pull(items, T.FLIGHT4_RULES), s.recvSequence)
    && exchange.Some? && exchange.value.header.typ == H.ClientKeyExchange
    && (certificate.Some? ==> certificate.value.header.typ == H.Certificate)
  }

  /** A CertificateVerify comes without certificates or is not accepted; or there is no objection
      to it, and a needed secret cannot be had, or a Finished comes next and the certificates that
      were asked for are missing or not verified. */
  predicate MustReject4(env: ServerEnv, s: State, items: seq<HC.Item>, queued: seq<HC.Item>) {
    var exchange, verify := HC.MessageFor(env.accepts, items, EXCHANGE_RULE), HC.MessageFor(env.accepts, items, VERIFY_RULE);
    var peer := PeerCertificates(env, s, items);
    var named := peer.Some? && env.hasCertificates(peer.value);
    var typed := verify.Some? ==> verify.value.header.typ == H.CertificateVerify;
    var accepted := verify.Some? ==> named && SignatureAccepted(env, items, verify.value.body, peer.value);
    && ReadsMessages(env, s, items) && typed
    && (|| !accepted
        || (s.suite == Some(F.Suite(false)) && env.preMaster(exchange.value.body).None?)
        || (&& FinishedIsNext(env, HC.PushAll(items, queued), s.recvSequence + |HC.Pull(items, T.FLIGHT4_RULES)|)
            && (|| (env.clientAuth.RequireAnyClientCert? && !named)
                || (env.clientAuth.VerifyClientCertIfGiven? && named && verify.None? && !s.peerVerified))))
  }

  /** parse of flight 4 ends the handshake exactly then; in all other cases it goes on or keeps
      reading. */
  lemma Rejects4Exactly(env: ServerEnv, s: State, items: seq<HC.Item>, queued: seq<HC.Item>)
    ensures Parse4(env, s, items, queued).2 == Fatal <==> MustReject4(env, s, items, queued)
  {
    hide HC.FullPullSpec, HC.Pull, HC.Best, HC.UnmarshalMessage, HC.PushAll, HC.GapFree, HC.PullAndMergeSpec,
      HC.MessageFor, TakeFinished, DeriveMaster;
    Flight4Pull(env.accepts, items, s.recvSequence);
    var r := HC.FullPullSpec(env.accepts, items, s.recvSequence, T.FLIGHT4_RULES);
    NeedsExchange(env, items);
    if r.Ok? {
      var (seqNo, msgs) := r.value;
      assert HC.Returned(env.accepts, items, msgs, T.FLIGHT4_RULES[0]);
      assert HC.Returned(env.accepts, items, msgs, T.FLIGHT4_RULES[1]);
      assert HC.Returned(env.accepts, items, msgs, T.FLIGHT4_RULES[2]);
      if H.ClientKeyExchange in msgs {
        var s1 := if H.Certificate in msgs then s.(peerCertificates := Some(msgs[H.Certificate].body)) else s;
        var s2 := CheckVerify(env, s1, items, msgs).0;
        DeriveKeeps(env, s2, items, msgs[H.ClientKeyExchange].body);
        var derived := DeriveMaster(env, s2, items, msgs[H.ClientKeyExchange].body);
        if derived.Some? {
          RefusesFinished(env, derived.value, HC.PushAll(items, queued), seqNo);
        }
      }
    }
  }

  lemma RefusesFinished(env: ServerEnv, s: State, items: seq<HC.Item>, seqNo: int)
    ensures TakeFinished(env, s, items, seqNo).1 == Fatal <==>
      && FinishedIsNext(env, items, seqNo)
      && (|| (env.clientAuth.RequireAnyClientCert? && NoCertificates(env, s))
          || (env.clientAuth.VerifyClientCertIfGiven? && !NoCertificates(env, s) && !s.peerVerified))
  {
    hide HC.FullPullSpec, HC.MessageFor;
    FinishedPull(env.accepts, items, seqNo);
  }
}
