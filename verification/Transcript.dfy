/** Flight 5 hashes messages that it has not sent yet. Here: it hashes the right ones. */
module Transcript {
  import opened Bytes
  import opened Wrappers
  import RL = RecordLayer
  import H = Handshake
  import HC = HandshakeCache
  import Prf
  import opened Conn
  import opened Flights

  /** Before flight 5 the client has sent only ClientHello messages, all numbered below the
      next number to send. */
  predicate BeforeFlight5(items: seq<HC.Item>, sendSequence: nat) {
    forall x :: x in items && x.isClient ==> x.typ == H.ClientHello && x.messageSequence < sendSequence
  }

  // ---------------------------------------------------------------- numbering

  predicate NumberedFrom(ms: seq<H.Message>, n: nat) {
    forall i :: 0 <= i < |ms| ==> ms[i].Whole() && ms[i].header.messageSequence == (n + i) % 0x1_0000
  }

  lemma NumberedTail(ms: seq<H.Message>, n: nat)
    requires NumberedFrom(ms, n) && ms != []
    ensures H.Renumbered(ms[0], n) == ms[0] && NumberedFrom(ms[1..], n + 1)
  {
    forall i | 0 <= i < |ms[1..]|
      ensures ms[1..][i].Whole() && ms[1..][i].header.messageSequence == (n + 1 + i) % 0x1_0000
    {
      assert ms[1..][i] == ms[i + 1];
    }
  }

  lemma PacketsCons(ms: seq<H.Message>, rest: seq<Packet>)
    requires ms != []
    ensures Packets(ms) + rest == [Plaintext(ms[0])] + (Packets(ms[1..]) + rest)
  {
  }

  /** Messages that already carry their numbers are left alone by prepare. */
  lemma {:induction false} NumberPacketsOn(ms: seq<H.Message>, n: nat, rest: seq<Packet>)
    requires NumberedFrom(ms, n)
    ensures NumberPackets(Packets(ms) + rest, n)
         == (Packets(ms) + NumberPackets(rest, n + |ms|).0, NumberPackets(rest, n + |ms|).1)
  {
    if ms == [] {
      assert Packets(ms) + rest == rest;
      assert Packets(ms) + NumberPackets(rest, n).0 == NumberPackets(rest, n).0;
    } else {
      NumberedTail(ms, n);
      NumberPacketsOn(ms[1..], n + 1, rest);
      PacketsCons(ms, rest);
      NumberCons(Plaintext(ms[0]), Packets(ms[1..]) + rest, n);
      PacketsCons(ms, NumberPackets(rest, n + |ms|).0);
    }
  }

  lemma {:induction false} ItemsSentOn(ms: seq<H.Message>, rest: seq<Packet>)
    ensures ItemsSent(Packets(ms) + rest) == Added(ms) + ItemsSent(rest)
  {
    if ms == [] {
      assert Packets(ms) + rest == rest;
    } else {
      ItemsSentOn(ms[1..], rest);
      PacketsCons(ms, rest);
      NumberCons(Plaintext(ms[0]), Packets(ms[1..]) + rest, 0);
      AddedCons(ms, ItemsSent(rest));
    }
  }

  lemma AddedCons(ms: seq<H.Message>, rest: seq<HC.Item>)
    requires ms != []
    ensures Added(ms) + rest == [ItemOf(ms[0], 0, true)] + (Added(ms[1..]) + rest)
  {
  }

  lemma NumberCons(p: Packet, rest: seq<Packet>, n: nat)
    requires p.content.HandshakeContent?
    ensures var m := p.content.message; var (rest', n') := NumberPackets(rest, n + 1);
      && NumberPackets([p] + rest, n) == ([p.(content := HandshakeContent(H.Renumbered(m, n)))] + rest', n')
      && ItemsSent([p] + rest) == [ItemOf(m, p.epoch, true)] + ItemsSent(rest)
  {
    assert ([p] + rest)[0] == p && ([p] + rest)[1..] == rest;
  }

  lemma GeneratedIsNumbered(env: Env, s: State, items: seq<HC.Item>)
    requires Generate5(env, s, items).Some?
    ensures NumberedFrom(Generate5(env, s, items).value.Messages(), s.sendSequence)
  {
    hide HC.Pull, HC.Best, HC.Merge, H.MarshalHeader, MarshalAll;
  }

  function FinishedMessage(g: Generated, n: nat): H.Message {
    H.Renumbered(H.NewMessage(H.Finished, g.state.localVerifyData), n)
  }

  /** The sequence numbers flight 5 predicts are the ones prepare assigns: numbering changes
      no message but Finished, which gets the number after the last one. */
  lemma PredictedNumbersHold(env: Env, s: State, items: seq<HC.Item>)
    requires Generate5(env, s, items).Some?
    ensures var g := Generate5(env, s, items).value; var n := s.sendSequence + |g.Messages()|;
      && (var sent := Packets(g.Messages())
                      + [CHANGE_CIPHER_SPEC, Packet(RL.PROTOCOL_VERSION1_2, 1, HandshakeContent(FinishedMessage(g, n)))];
          && NumberPackets(Flight5Packets(g), s.sendSequence) == (sent, n + 1)
          && ItemsSent(sent) == Added(g.Messages()) + [ItemOf(FinishedMessage(g, n), 1, true)])
  {
    hide HC.Pull, HC.Best, HC.Merge, H.MarshalHeader, MarshalAll;
    var g := Generate5(env, s, items).value;
    var ms, n := g.Messages(), s.sendSequence + |g.Messages()|;
    GeneratedIsNumbered(env, s, items);
    var finished := FinishedPacket(g.state);
    var renumbered := Packet(RL.PROTOCOL_VERSION1_2, 1, HandshakeContent(FinishedMessage(g, n)));
    NumberPacketsOn(ms, s.sendSequence, [CHANGE_CIPHER_SPEC, finished]);
    ItemsSentOn(ms, [CHANGE_CIPHER_SPEC, renumbered]);
    NumberTail(finished, renumbered, FinishedMessage(g, n), n);
  }

  lemma NumberTail(finished: Packet, renumbered: Packet, m: H.Message, n: nat)
    requires finished.content.HandshakeContent? && H.Renumbered(finished.content.message, n) == m
    requires renumbered == finished.(content := HandshakeContent(m))
    ensures NumberPackets([CHANGE_CIPHER_SPEC, finished], n) == ([CHANGE_CIPHER_SPEC, renumbered], n + 1)
    ensures ItemsSent([CHANGE_CIPHER_SPEC, renumbered]) == [ItemOf(m, renumbered.epoch, true)]
  {
    assert [CHANGE_CIPHER_SPEC, finished][1..] == [finished] == [finished] + [];
    assert [CHANGE_CIPHER_SPEC, renumbered][1..] == [renumbered] == [renumbered] + [];
    NumberCons(finished, [], n);
    NumberCons(renumbered, [], n);
    assert [CHANGE_CIPHER_SPEC] + [renumbered] == [CHANGE_CIPHER_SPEC, renumbered];
    assert [renumbered] + [] == [renumbered];
    assert NumberPackets([], n + 1) == ([], n + 1) && ItemsSent([]) == [];
  }

  // ---------------------------------------------------------------- pulling what was added

  function Added(ms: seq<H.Message>): seq<HC.Item> {
    seq(|ms|, i requires 0 <= i < |ms| => ItemOf(ms[i], 0, true))
  }

  lemma {:induction false} PullAppend(items: seq<HC.Item>, a: seq<HC.Rule>, b: seq<HC.Rule>)
    ensures HC.PullAndMergeSpec(items, a + b) == HC.PullAndMergeSpec(items, a) + HC.PullAndMergeSpec(items, b)
  {
    if a == [] {
      assert a + b == b;
    } else {
      PullAppend(items, a[1..], b);
      assert (a + b)[0] == a[0] && (a + b)[1..] == a[1..] + b;
      PullCons(items, a);
      PullCons(items, a + b);
      Assoc(PullOne(items, a[0]), HC.PullAndMergeSpec(items, a[1..]), HC.PullAndMergeSpec(items, b));
    }
  }

  /** The bytes one rule contributes. */
  function PullOne(items: seq<HC.Item>, r: HC.Rule): Bytes {
    match HC.Best(items, r) case Some(c) => c.data case None => []
  }

  lemma PullCons(items: seq<HC.Item>, rules: seq<HC.Rule>)
    requires rules != []
    ensures HC.PullAndMergeSpec(items, rules)
         == PullOne(items, rules[0]) + HC.PullAndMergeSpec(items, rules[1..])
  {
    match HC.Best(items, rules[0]) {
      case Some(c) =>
        var rest := HC.Pull(items, rules[1..]);
        assert ([c] + rest)[0] == c && ([c] + rest)[1..] == rest;
      case None =>
        assert [] + HC.Pull(items, rules[1..]) == HC.Pull(items, rules[1..]);
    }
  }

  /** Rules that no message of a kind matches pull nothing. */
  lemma PullNothing(items: seq<HC.Item>, r: HC.Rule)
    requires forall x :: x in items ==> !HC.Matches(x, r)
    ensures PullOne(items, r) == []
  {
    HC.BestMeans(items, r);
  }

  lemma PullTheOnly(items: seq<HC.Item>, r: HC.Rule, x: HC.Item)
    requires x in items && HC.Matches(x, r) && forall y :: y in items && HC.Matches(y, r) ==> y == x
    ensures PullOne(items, r) == x.data
  {
    HC.BestMeans(items, r);
  }

  const CLIENT_CERTIFICATE_RULE := HC.Rule(H.Certificate, 0, true, false)
  const CLIENT_KEY_EXCHANGE_RULE := HC.Rule(H.ClientKeyExchange, 0, true, false)

  /** The first six session rules: everything before the client's flight 5. */
  function EarlyRules(): seq<HC.Rule> {
    HC.SessionRules(0)[..6]
  }

  lemma RulesSplit()
    ensures HC.SessionRules(0) == EarlyRules() + [CLIENT_CERTIFICATE_RULE, CLIENT_KEY_EXCHANGE_RULE]
    ensures TranscriptRules() == HC.SessionRules(0) + [CERTIFICATE_VERIFY_RULE, CLIENT_FINISHED_RULE]
  {
  }

  lemma PullTwo(items: seq<HC.Item>, r1: HC.Rule, r2: HC.Rule)
    ensures HC.PullAndMergeSpec(items, [r1, r2]) == PullOne(items, r1) + PullOne(items, r2)
  {
    PullCons(items, [r1, r2]);
    PullCons(items, [r2]);
    assert [r1, r2][1..] == [r2] && [r2][1..] == [];
    assert HC.PullAndMergeSpec(items, []) == [];
    assert PullOne(items, r2) + [] == PullOne(items, r2);
  }

  /** Before flight 5 is sent, its own rules pull nothing. */
  lemma NothingYet(items: seq<HC.Item>, sendSequence: nat)
    requires BeforeFlight5(items, sendSequence)
    ensures HC.PullAndMergeSpec(items, HC.SessionRules(0)) == HC.PullAndMergeSpec(items, EarlyRules())
    ensures HC.PullAndMergeSpec(items, TranscriptRules()) == HC.PullAndMergeSpec(items, EarlyRules())
  {
    RulesSplit();
    PullAppend(items, EarlyRules(), [CLIENT_CERTIFICATE_RULE, CLIENT_KEY_EXCHANGE_RULE]);
    PullTwo(items, CLIENT_CERTIFICATE_RULE, CLIENT_KEY_EXCHANGE_RULE);
    PullNothing(items, CLIENT_CERTIFICATE_RULE);
    PullNothing(items, CLIENT_KEY_EXCHANGE_RULE);
    PullAppend(items, HC.SessionRules(0), [CERTIFICATE_VERIFY_RULE, CLIENT_FINISHED_RULE]);
    PullTwo(items, CERTIFICATE_VERIFY_RULE, CLIENT_FINISHED_RULE);
    PullNothing(items, CERTIFICATE_VERIFY_RULE);
    PullNothing(items, CLIENT_FINISHED_RULE);
    var early := HC.PullAndMergeSpec(items, EarlyRules());
    assert early + ([] + []) == early;
  }

  /** A cache in which exactly these messages have joined the earlier ones. */
  ghost predicate Joined(items: seq<HC.Item>, added: seq<HC.Item>, after: seq<HC.Item>) {
    HC.UniqueKeys(after) && forall x :: x in after <==> x in items || x in added
  }

  /** Pushing freshly numbered messages adds every one of them. */
  lemma PushFresh(items: seq<HC.Item>, pushes: seq<HC.Item>, n: nat)
    requires HC.UniqueKeys(items) && BeforeFlight5(items, n)
    requires n + |pushes| <= 0x1_0000
    requires forall i :: 0 <= i < |pushes| ==> pushes[i].isClient && pushes[i].messageSequence == n + i
    ensures Joined(items, pushes, HC.PushAll(items, pushes))
  {
    forall x, y | x in items + pushes && y in items + pushes && HC.SameKey(x, y) ensures x == y {
      if x in items && y in items {
      } else if x in pushes && y in pushes {
      }
    }
    HC.PushAllHolds(items, pushes);
  }

  // ---------------------------------------------------------------- the future transcript

  /** The messages flight 5 pushes to the client's cache when it is sent. */
  function Flight5Items(g: Generated, n: nat): seq<HC.Item> {
    Added(g.Messages()) + [ItemOf(FinishedMessage(g, n), 1, true)]
  }

  lemma AddedAppend(a: seq<H.Message>, b: seq<H.Message>)
    ensures Added(a + b) == Added(a) + Added(b)
  {
  }

  lemma AddedOpt(m: Option<H.Message>, x: HC.Item)
    ensures x in Added(Opt(m)) <==> m.Some? && x == ItemOf(m.value, 0, true)
  {
    if m.Some? {
      assert Added(Opt(m))[0] == ItemOf(m.value, 0, true);
    }
  }

  lemma Flight5Members(g: Generated, n: nat, x: HC.Item)
    ensures x in Flight5Items(g, n) <==>
      || (g.certificate.Some? && x == ItemOf(g.certificate.value, 0, true))
      || x == ItemOf(g.exchange, 0, true)
      || (g.verify.Some? && x == ItemOf(g.verify.value, 0, true))
      || x == ItemOf(FinishedMessage(g, n), 1, true)
  {
    AddedAppend(Opt(g.certificate), [g.exchange]);
    AddedAppend(Opt(g.certificate) + [g.exchange], Opt(g.verify));
    AddedOpt(g.certificate, x);
    AddedOpt(Some(g.exchange), x);
    AddedOpt(g.verify, x);
  }

  predicate Typed(g: Generated) {
    && (g.certificate.Some? ==> g.certificate.value.header.typ == H.Certificate)
    && g.exchange.header.typ == H.ClientKeyExchange
    && (g.verify.Some? ==> g.verify.value.header.typ == H.CertificateVerify)
  }

  function OptBytes(m: Option<H.Message>): Bytes {
    match m case Some(x) => x.Marshal() case None => []
  }

  lemma MarshalMessages(g: Generated)
    ensures MarshalAll(Opt(g.certificate) + [g.exchange]) == OptBytes(g.certificate) + g.exchange.Marshal()
    ensures MarshalAll(g.Messages()) == OptBytes(g.certificate) + g.exchange.Marshal() + OptBytes(g.verify)
  {
    MarshalAppend(Opt(g.certificate), [g.exchange]);
    MarshalAppend(Opt(g.certificate) + [g.exchange], Opt(g.verify));
    MarshalOpt(g.certificate);
    MarshalOpt(g.verify);
    MarshalOpt(Some(g.exchange));
  }

  lemma MarshalOpt(m: Option<H.Message>)
    ensures MarshalAll(Opt(m)) == OptBytes(m)
  {
    if m.Some? {
      assert Opt(m)[1..] == [];
      assert m.value.Marshal() + MarshalAll([]) == m.value.Marshal();
    }
  }

  lemma {:induction false} MarshalAppend(a: seq<H.Message>, b: seq<H.Message>)
    ensures MarshalAll(a + b) == MarshalAll(a) + MarshalAll(b)
  {
    if a == [] {
      assert a + b == b;
    } else {
      MarshalAppend(a[1..], b);
      assert (a + b)[0] == a[0] && (a + b)[1..] == a[1..] + b;
      Assoc(a[0].Marshal(), MarshalAll(a[1..]), MarshalAll(b));
    }
  }

  /** What one of flight 5's own rules pulls once flight 5 has been sent. */
  lemma PullAdded(items: seq<HC.Item>, g: Generated, n: nat, after: seq<HC.Item>, r: HC.Rule, m: Option<H.Message>)
    requires Typed(g) && BeforeFlight5(items, n)
    requires Joined(items, Flight5Items(g, n), after)
    requires (r, m) in {(CLIENT_CERTIFICATE_RULE, g.certificate), (CLIENT_KEY_EXCHANGE_RULE, Some(g.exchange)),
                        (CERTIFICATE_VERIFY_RULE, g.verify)}
    ensures PullOne(after, r) == OptBytes(m)
  {
    forall x | x in after && HC.Matches(x, r) ensures m.Some? && x == ItemOf(m.value, 0, true) {
      Flight5Members(g, n, x);
    }
    match m {
      case None => PullNothing(after, r);
      case Some(v) =>
        Flight5Members(g, n, ItemOf(v, 0, true));
        PullTheOnly(after, r, ItemOf(v, 0, true));
    }
  }

  lemma EarlyUnchanged(items: seq<HC.Item>, g: Generated, n: nat, after: seq<HC.Item>)
    requires Typed(g) && HC.UniqueKeys(items)
    requires Joined(items, Flight5Items(g, n), after)
    ensures HC.PullAndMergeSpec(after, EarlyRules()) == HC.PullAndMergeSpec(items, EarlyRules())
  {
    forall x | HC.MatchesAny(x, EarlyRules()) ensures x in after <==> x in items {
      Flight5Members(g, n, x);
    }
    HC.PullDependsOnMatching(after, items, EarlyRules());
  }

  /** The client's messages that its Finished covers: all but Finished itself. */
  function BeforeFinishedRules(): seq<HC.Rule> {
    HC.SessionRules(0) + [CERTIFICATE_VERIFY_RULE]
  }

  /** What flight 5 hashes before sending is what pull_and_merge gives after sending. */
  lemma FutureTranscripts(items: seq<HC.Item>, g: Generated, n: nat, after: seq<HC.Item>)
    requires Typed(g) && HC.UniqueKeys(items) && BeforeFlight5(items, n)
    requires Joined(items, Flight5Items(g, n), after)
    ensures HC.PullAndMergeSpec(items, HC.SessionRules(0)) + MarshalAll(Opt(g.certificate) + [g.exchange])
         == HC.PullAndMergeSpec(after, HC.SessionRules(0))
    ensures HC.PullAndMergeSpec(items, TranscriptRules()) + MarshalAll(g.Messages())
         == HC.PullAndMergeSpec(after, BeforeFinishedRules())
  {
    NothingYet(items, n);
    EarlyUnchanged(items, g, n, after);
    MarshalMessages(g);
    SessionAfter(items, g, n, after);
    PullAppend(after, HC.SessionRules(0), [CERTIFICATE_VERIFY_RULE]);
    PullSingle(after, CERTIFICATE_VERIFY_RULE);
    PullAdded(items, g, n, after, CERTIFICATE_VERIFY_RULE, g.verify);
    Assoc(HC.PullAndMergeSpec(items, EarlyRules()), OptBytes(g.certificate) + g.exchange.Marshal(), OptBytes(g.verify));
  }

  lemma SessionAfter(items: seq<HC.Item>, g: Generated, n: nat, after: seq<HC.Item>)
    requires Typed(g) && BeforeFlight5(items, n)
    requires Joined(items, Flight5Items(g, n), after)
    ensures HC.PullAndMergeSpec(after, HC.SessionRules(0))
         == HC.PullAndMergeSpec(after, EarlyRules()) + (OptBytes(g.certificate) + g.exchange.Marshal())
  {
    RulesSplit();
    PullAppend(after, EarlyRules(), [CLIENT_CERTIFICATE_RULE, CLIENT_KEY_EXCHANGE_RULE]);
    PullTwo(after, CLIENT_CERTIFICATE_RULE, CLIENT_KEY_EXCHANGE_RULE);
    PullAdded(items, g, n, after, CLIENT_CERTIFICATE_RULE, g.certificate);
    PullAdded(items, g, n, after, CLIENT_KEY_EXCHANGE_RULE, Some(g.exchange));
  }

  lemma PullSingle(items: seq<HC.Item>, r: HC.Rule)
    ensures HC.PullAndMergeSpec(items, [r]) == PullOne(items, r)
  {
    PullCons(items, [r]);
    assert HC.PullAndMergeSpec(items, []) == [];
    assert PullOne(items, r) + [] == PullOne(items, r);
  }

  /** The client may enter flight 5 with these messages in its cache. */
  predicate EntersFlight5(env: Env, s: State, items: seq<HC.Item>) {
    && HC.UniqueKeys(items) && BeforeFlight5(items, s.sendSequence)
    && s.sendSequence + 4 <= 0x1_0000
    && Generate5(env, s, items).Some?
  }

  /** The client's cache once flight 5, numbered by prepare, has been sent. */
  function AfterFlight5(env: Env, s: State, items: seq<HC.Item>): seq<HC.Item>
    requires EntersFlight5(env, s, items)
  {
    PredictedNumbersHold(env, s, items);
    HC.PushAll(items, ItemsSent(NumberPackets(Flight5Packets(Generate5(env, s, items).value), s.sendSequence).0))
  }

  lemma Flight5ItemsNumbered(g: Generated, n: nat)
    requires NumberedFrom(g.Messages(), n) && n + |g.Messages()| < 0x1_0000
    ensures var pushes := Flight5Items(g, n + |g.Messages()|);
      && |pushes| == |g.Messages()| + 1
      && forall i :: 0 <= i < |pushes| ==> pushes[i].isClient && pushes[i].messageSequence == n + i
  {
    hide H.MarshalHeader;
  }

  lemma Flight5Joins(env: Env, s: State, items: seq<HC.Item>)
    requires EntersFlight5(env, s, items)
    ensures var g := Generate5(env, s, items).value; var n := s.sendSequence + |g.Messages()|;
      && Typed(g)
      && BeforeFlight5(items, n)
      && Joined(items, Flight5Items(g, n), AfterFlight5(env, s, items))
  {
    var g := Generate5(env, s, items).value;
    PredictedNumbersHold(env, s, items);
    GeneratedIsNumbered(env, s, items);
    GeneratedFacts(env, s, items);
    Flight5ItemsNumbered(g, s.sendSequence);
    PushFresh(items, Flight5Items(g, s.sendSequence + |g.Messages()|), s.sendSequence);
  }

  /** The secrets and signatures of flight 5 are made over these two transcripts: one up to
      ClientKeyExchange, one up to CertificateVerify. */
  predicate MadeOver(env: Env, s: State, g: Generated, session: Bytes, finished: Bytes) {
    && (s.suite == Some(Suite(false)) && s.extendedMasterSecret ==>
          g.state.master == Prf.ExtendedMasterSecret(env.crypto, g.state.preMaster, env.crypto.sha256(session)))
    && (g.verify.Some? ==> env.sign(session) == Some(g.verify.value.body))
    && (s.suite.Some? && s.localVerifyData == [] ==>
          g.state.localVerifyData == Prf.VerifyDataClient(env.crypto, g.state.master, finished))
  }

  /** What flight 5 computes, in terms of the cache before sending and what it merges. */
  lemma GeneratedFacts(env: Env, s: State, items: seq<HC.Item>)
    requires Generate5(env, s, items).Some?
    ensures var g := Generate5(env, s, items).value;
      && Typed(g)
      && MadeOver(env, s, g,
           HC.PullAndMergeSpec(items, HC.SessionRules(0)) + MarshalAll(Opt(g.certificate) + [g.exchange]),
           HC.PullAndMergeSpec(items, TranscriptRules()) + MarshalAll(g.Messages()))
  {
    hide HC.Pull, HC.Best, HC.Merge;
  }

  /** Flight 5 hashes the future correctly: the session hash, the signed transcript and the
      Finished transcript, all computed before sending, are those over the cache after
      sending. */
  lemma Flight5HashesTheFuture(env: Env, s: State, items: seq<HC.Item>)
    requires EntersFlight5(env, s, items)
    ensures var after := AfterFlight5(env, s, items);
      MadeOver(env, s, Generate5(env, s, items).value,
               HC.PullAndMergeSpec(after, HC.SessionRules(0)),
               HC.PullAndMergeSpec(after, BeforeFinishedRules()))
  {
    hide Generate5, MadeOver, HC.PullAndMergeSpec, MarshalAll, Typed, BeforeFlight5, Joined, AfterFlight5,
      HC.UniqueKeys, TranscriptRules, HC.SessionRules, BeforeFinishedRules;
    var g, after := Generate5(env, s, items).value, AfterFlight5(env, s, items);
    Flight5Joins(env, s, items);
    GeneratedFacts(env, s, items);
    FutureTranscripts(items, g, s.sendSequence + |g.Messages()|, after);
  }

  /** The client's master secret when it is not extended. */
  lemma ClientMaster(env: Env, s: State, items: seq<HC.Item>)
    requires Generate5(env, s, items).Some? && s.suite == Some(Suite(false)) && !s.extendedMasterSecret
    ensures var g := Generate5(env, s, items).value;
      g.state.master == Prf.MasterSecret(env.crypto, g.state.preMaster, env.clientRandom, s.serverRandom)
  {
    hide HC.PullAndMergeSpec, MarshalAll, HC.UnmarshalMessage, Prf.MasterSecret;
  }

  // ---------------------------------------------------------------- the server's view

  const FLIGHT4_RULES := [
    HC.Rule(H.Certificate, 0, true, true), HC.Rule(H.ClientKeyExchange, 0, true, false),
    HC.Rule(H.CertificateVerify, 0, true, true)]

  /** When the server's flight 4 pull succeeds, it has the client's Certificate, if one was
      sent, and its ClientKeyExchange: a missing one would leave a gap. */
  lemma Flight4HasKeyMessages(accepts: HC.BodyParser, g: Generated, n: nat, m: nat, items: seq<HC.Item>,
                              after: seq<HC.Item>, server: seq<HC.Item>)
    requires Typed(g) && NumberedFrom(g.Messages(), n) && n < 0xFFFF
    requires BeforeFlight5(items, m) && Joined(items, Flight5Items(g, m), after)
    requires forall x :: x in server && x.isClient ==> x in after
    requires HC.FullPullSpec(accepts, server, n, FLIGHT4_RULES).Ok?
    ensures ItemOf(g.exchange, 0, true) in server
    ensures g.certificate.Some? ==> ItemOf(g.certificate.value, 0, true) in server
  {
    hide HC.FullPullSpec, HC.Pull, HC.Best, H.MarshalHeader, NumberedFrom;
    MandatoryPulled(accepts, server, n, FLIGHT4_RULES, 1);
    HC.BestMeans(server, FLIGHT4_RULES[1]);
    var x := HC.Best(server, FLIGHT4_RULES[1]).value;
    Flight5Members(g, m, x);
    HC.BestMeans(server, FLIGHT4_RULES[0]);
    match HC.Best(server, FLIGHT4_RULES[0]) {
      case Some(c) =>
        Flight5Members(g, m, c);
      case None =>
        PullSecondFirst(server, FLIGHT4_RULES, x);
        FirstPulledIsStart(accepts, server, n, FLIGHT4_RULES, g.exchange);
        ExchangeNumber(g, n);
    }
  }

  lemma MandatoryPulled(accepts: HC.BodyParser, items: seq<HC.Item>, start: int, rules: seq<HC.Rule>, i: nat)
    requires i < |rules| && !rules[i].optional && HC.FullPullSpec(accepts, items, start, rules).Ok?
    ensures HC.Best(items, rules[i]).Some?
  {
  }

  /** The first message of a gap-free flight carries the expected number. */
  lemma FirstPulledIsStart(accepts: HC.BodyParser, items: seq<HC.Item>, start: int, rules: seq<HC.Rule>, m: H.Message)
    requires HC.DistinctTypes(rules) && HC.FullPullSpec(accepts, items, start, rules).Ok?
    requires |HC.Pull(items, rules)| > 0 && HC.Pull(items, rules)[0].data == m.Marshal()
    ensures m.header.messageSequence == start % 0x1_0000
  {
    HC.FullPullIsGapFree(accepts, items, start, rules);
    H.HeaderRoundTrip(m.header, m.body);
  }

  lemma ExchangeNumber(g: Generated, n: nat)
    requires NumberedFrom(g.Messages(), n)
    ensures g.exchange.header.messageSequence == (if g.certificate.Some? then n + 1 else n) % 0x1_0000
  {
    assert g.Messages()[|Opt(g.certificate)|] == g.exchange;
  }

  lemma PullSecondFirst(items: seq<HC.Item>, rules: seq<HC.Rule>, x: HC.Item)
    requires |rules| > 1 && HC.Best(items, rules[0]).None? && HC.Best(items, rules[1]) == Some(x)
    ensures |HC.Pull(items, rules)| > 0 && HC.Pull(items, rules)[0] == x
  {
    assert rules[1..][0] == rules[1];
    EmptyUnit(HC.Pull(items, rules[1..]));
  }

  /** Then its session hash, its master secret and the transcript it checks the signature
      over are the ones the client computed before sending. The hypotheses on its cache are
      that it holds the same earlier messages, and no client message that was not sent. */
  lemma ServerAgreesOnSession(env: Env, s: State, items: seq<HC.Item>, server: seq<HC.Item>)
    requires EntersFlight5(env, s, items) && HC.UniqueKeys(server)
    requires forall x :: HC.MatchesAny(x, EarlyRules()) ==> (x in server <==> x in items)
    requires forall x :: x in server && x.isClient ==> x in AfterFlight5(env, s, items)
    requires HC.FullPullSpec(env.accepts, server, s.sendSequence, FLIGHT4_RULES).Ok?
    ensures HC.SessionHashSpec(env.crypto.sha256, server, 0, [])
         == env.crypto.sha256(HC.PullAndMergeSpec(server, HC.SessionRules(0)))
    ensures HC.PullAndMergeSpec(server, HC.SessionRules(0))
         == HC.PullAndMergeSpec(AfterFlight5(env, s, items), HC.SessionRules(0))
    ensures MadeOver(env, s, Generate5(env, s, items).value,
                     HC.PullAndMergeSpec(server, HC.SessionRules(0)),
                     HC.PullAndMergeSpec(AfterFlight5(env, s, items), BeforeFinishedRules()))
  {
    hide Generate5, MadeOver, HC.Best, HC.Pull, HC.Merge, Joined, Flight5Items, NumberedFrom;
    Flight5HashesTheFuture(env, s, items);
    Flight5Joins(env, s, items);
    GeneratedIsNumbered(env, s, items);
    var g, after := Generate5(env, s, items).value, AfterFlight5(env, s, items);
    Flight4HasKeyMessages(env.accepts, g, s.sendSequence, s.sendSequence + |g.Messages()|, items, after, server);
    forall x | HC.MatchesAny(x, HC.SessionRules(0)) ensures x in server <==> x in after {
      SameSessionMessage(env, s, items, server, x);
    }
    HC.PullDependsOnMatching(server, after, HC.SessionRules(0));
    EmptyUnit(HC.PullAndMergeSpec(server, HC.SessionRules(0)));
  }

  lemma SameSessionMessage(env: Env, s: State, items: seq<HC.Item>, server: seq<HC.Item>, x: HC.Item)
    requires EntersFlight5(env, s, items) && HC.MatchesAny(x, HC.SessionRules(0))
    requires HC.MatchesAny(x, EarlyRules()) ==> (x in server <==> x in items)
    requires x in server && x.isClient ==> x in AfterFlight5(env, s, items)
    requires var g := Generate5(env, s, items).value;
      && ItemOf(g.exchange, 0, true) in server
      && (g.certificate.Some? ==> ItemOf(g.certificate.value, 0, true) in server)
    ensures x in server <==> x in AfterFlight5(env, s, items)
  {
    hide Generate5, AfterFlight5, H.MarshalHeader, FinishedMessage;
    var g := Generate5(env, s, items).value;
    Flight5Joins(env, s, items);
    Flight5Members(g, s.sendSequence + |g.Messages()|, x);
    RulesSplit();
    var i :| 0 <= i < |HC.SessionRules(0)| && HC.Matches(x, HC.SessionRules(0)[i]);
    if i < 6 {
      assert HC.Matches(x, EarlyRules()[i]);
    }
  }

  /** The server's Finished, made over a cache that holds the same transcript messages, is
      the one the client's flight 5 check accepts. */
  lemma FinishedAgrees(env: Env, s: State, items: seq<HC.Item>, server: seq<HC.Item>)
    requires HC.UniqueKeys(items) && HC.UniqueKeys(server)
    requires forall x :: HC.MatchesAny(x, TranscriptRules()) ==> (x in server <==> x in items)
    requires var r := HC.FullPullSpec(env.accepts, items, s.recvSequence, SERVER_FINISHED_RULES);
      && r.Ok? && H.Finished in r.value.1 && r.value.1[H.Finished].header.typ == H.Finished
      && r.value.1[H.Finished].body
         == Prf.VerifyDataServer(env.crypto, s.master, HC.PullAndMergeSpec(server, TranscriptRules()))
    ensures Parse5(env, s, items) == Next(Flight5)
  {
    HC.PullDependsOnMatching(items, server, TranscriptRules());
  }
}
