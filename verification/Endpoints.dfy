/** One end of a connection as a whole: its sender and its reader share one cache. Whatever
    the order of its own calls and of the records that reach it, its cache holds its own
    messages and the first few of the peer's. */
module Endpoints {
  import opened Bytes
  import opened Wrappers
  import RL = RecordLayer
  import H = Handshake
  import FB = FragmentBuffer
  import HC = HandshakeCache
  import opened Conn
  import opened Delivery
  import opened Network
  import X = Exchange

  /** A call of handle_outgoing_packets, or a record that passed replay detection and the
      epoch test and reached the fragment buffer. */
  datatype Activity = Sends(pkts: seq<Packet>) | Receives(raw: Bytes)

  datatype Config = Config(isClient: bool, mtu: nat, accepts: HC.BodyParser)

  datatype Endpoint = Endpoint(lsn: seq<nat>, items: seq<HC.Item>, buffer: FB.State)

  const NEW := Endpoint([], [], FB.State(map[], 0))

  predicate Allowed(cfg: Config, acts: seq<Activity>) {
    cfg.mtu > 0 && forall i :: 0 <= i < |acts| && acts[i].Sends? ==> AllSendable(acts[i].pkts)
  }

  function Act(cfg: Config, e: Endpoint, a: Activity): Endpoint
    requires cfg.mtu > 0 && (a.Sends? ==> AllSendable(a.pkts))
  {
    match a
    case Sends(pkts) =>
      var s := SendAll(SendState(e.lsn, e.items), pkts, cfg.mtu, cfg.isClient).0;
      e.(lsn := s.lsn, items := s.items)
    case Receives(raw) =>
      var (buffer, outs) := Receive(e.buffer, raw);
      e.(buffer := buffer, items := CacheAll(cfg.accepts, e.items, outs, !cfg.isClient))
  }

  function After(cfg: Config, acts: seq<Activity>): Endpoint
    requires Allowed(cfg, acts)
  {
    if acts == [] then NEW else Act(cfg, After(cfg, acts[..|acts| - 1]), acts[|acts| - 1])
  }

  function Calls(acts: seq<Activity>): seq<seq<Packet>> {
    if acts == [] then []
    else
      var a := acts[|acts| - 1];
      Calls(acts[..|acts| - 1]) + if a.Sends? then [a.pkts] else []
  }

  function Raws(acts: seq<Activity>): seq<Bytes> {
    if acts == [] then []
    else
      var a := acts[|acts| - 1];
      Raws(acts[..|acts| - 1]) + if a.Receives? then [a.raw] else []
  }

  // ---------------------------------------------------------------- what it emits

  lemma {:induction false} CallsAreSendable(cfg: Config, acts: seq<Activity>)
    requires Allowed(cfg, acts)
    ensures RunSendable(Calls(acts))
  {
    if acts != [] {
      CallsAreSendable(cfg, acts[..|acts| - 1]);
    }
  }

  /** The cache has no influence on the records. */
  lemma {:induction false} SendIgnoresItems(lsn: seq<nat>, a: seq<HC.Item>, b: seq<HC.Item>, pkts: seq<Packet>,
                                            mtu: nat, isClient: bool)
    requires mtu > 0 && AllSendable(pkts)
    ensures var s, t := SendAll(SendState(lsn, a), pkts, mtu, isClient), SendAll(SendState(lsn, b), pkts, mtu, isClient);
      s.1 == t.1 && s.0.lsn == t.0.lsn
    decreases |pkts|
  {
    hide StampAll, HC.PushSpec, FragmentsFrom, H.MarshalHeader;
    if pkts != [] {
      var s, t := SendOne(SendState(lsn, a), pkts[0], mtu, isClient).0, SendOne(SendState(lsn, b), pkts[0], mtu, isClient).0;
      SendIgnoresItems(s.lsn, s.items, t.items, pkts[1..], mtu, isClient);
    }
  }

  /** The datagrams handed to the network, call by call. */
  function Emits(cfg: Config, acts: seq<Activity>): seq<Bytes>
    requires Allowed(cfg, acts)
  {
    if acts == [] then []
    else
      var init, a := acts[..|acts| - 1], acts[|acts| - 1];
      var e := After(cfg, init);
      Emits(cfg, init) +
      match a
      case Receives(_) => []
      case Sends(pkts) =>
        var r := SendAll(SendState(e.lsn, e.items), pkts, cfg.mtu, cfg.isClient).1;
        if r.Ok? then Datagrams(r.value, cfg.mtu) else []
  }

  /** They are those of the run of its calls, whatever it received in between. */
  lemma {:induction false} EmitsItsCalls(cfg: Config, acts: seq<Activity>)
    requires Allowed(cfg, acts)
    ensures RunSendable(Calls(acts))
    ensures After(cfg, acts).lsn == SendRun(Calls(acts), cfg.mtu, cfg.isClient).0.lsn
    ensures Emits(cfg, acts) == DatagramRun(Calls(acts), cfg.mtu, cfg.isClient)
  {
    hide SendAll, Datagrams, CacheAll, Receive;
    CallsAreSendable(cfg, acts);
    if acts != [] {
      var init, a := acts[..|acts| - 1], acts[|acts| - 1];
      EmitsItsCalls(cfg, init);
      match a {
        case Receives(_) =>
          EmptyUnit(Calls(init));
          EmptyUnit(Emits(cfg, init));
        case Sends(pkts) =>
          var e, s := After(cfg, init), SendRun(Calls(init), cfg.mtu, cfg.isClient).0;
          var calls := Calls(acts);
          assert calls[..|calls| - 1] == Calls(init) && calls[|calls| - 1] == pkts;
          SendIgnoresItems(e.lsn, e.items, s.items, pkts, cfg.mtu, cfg.isClient);
      }
    }
  }

  // ---------------------------------------------------------------- what it releases

  function Released(cfg: Config, acts: seq<Activity>): seq<(Bytes, U16)>
    requires Allowed(cfg, acts)
  {
    if acts == [] then []
    else
      var init, a := acts[..|acts| - 1], acts[|acts| - 1];
      Released(cfg, init) + if a.Receives? then Receive(After(cfg, init).buffer, a.raw).1 else []
  }

  /** A record that the peer sent, in any of its datagrams. */
  predicate IsFrom(ms: seq<Sent>, mtu: nat, raw: Bytes)
    requires mtu > 0 && Numbered(ms)
  {
    var r := ReadRecord(raw);
    && r.Some? && r.value.header.sequenceNumber <= RL.MAX_SEQUENCE_NUMBER
    && Wire(r.value) == raw && Genuine(ms, mtu, ArrivalOf(r.value))
  }

  predicate AllFrom(ms: seq<Sent>, mtu: nat, raws: seq<Bytes>)
    requires mtu > 0 && Numbered(ms)
  {
    forall i :: 0 <= i < |raws| ==> IsFrom(ms, mtu, raws[i])
  }

  lemma SentRecordsAreFrom(ms: seq<Sent>, calls: seq<seq<Packet>>, mtu: nat, isClient: bool, raws: seq<Bytes>)
    requires GoodMtu(mtu) && Numbered(ms) && GoodCalls(ms, calls) && RunSendable(calls)
    requires forall i :: 0 <= i < |raws| ==> raws[i] in RL.UnpackAll(DatagramRun(calls, mtu, isClient))
    ensures AllFrom(ms, mtu, raws)
  {
    hide RL.UnpackAll, DatagramRun, ReadRecord, Wire, ArrivalOf;
    forall i | 0 <= i < |raws| ensures IsFrom(ms, mtu, raws[i]) {
      var r := RawIsSent(ms, calls, mtu, isClient, DatagramRun(calls, mtu, isClient), raws[i]);
    }
  }

  lemma FromIsReadable(ms: seq<Sent>, mtu: nat, raws: seq<Bytes>)
    requires mtu > 0 && Numbered(ms) && AllFrom(ms, mtu, raws)
    ensures Readable(raws) && AllGenuine(ms, mtu, Arrivals(raws))
  {
    forall i | 0 <= i < |raws| ensures IsFrom(ms, mtu, raws[i]) {
    }
  }

  /** The reader's part of it is the run of the delivery theorems. */
  lemma {:induction false} ReleasesTheRun(cfg: Config, acts: seq<Activity>, ms: seq<Sent>, mtu: nat)
    requires Allowed(cfg, acts) && mtu > 0 && Numbered(ms) && AllFrom(ms, mtu, Raws(acts))
    ensures Readable(Raws(acts)) && AllGenuine(ms, mtu, Arrivals(Raws(acts)))
    ensures (After(cfg, acts).buffer, Released(cfg, acts)) == Run(ms, mtu, Arrivals(Raws(acts)))
  {
    hide SendAll, CacheAll, Receive, IsFrom, Genuine, ArrivalOf, Wire, ReadRecord;
    var raws := Raws(acts);
    FromIsReadable(ms, mtu, raws);
    if acts != [] {
      var init, a := acts[..|acts| - 1], acts[|acts| - 1];
      assert AllFrom(ms, mtu, Raws(init)) by {
        assert forall i :: 0 <= i < |Raws(init)| ==> Raws(init)[i] == raws[i];
      }
      ReleasesTheRun(cfg, init, ms, mtu);
      match a {
        case Sends(_) =>
          EmptyUnit(Raws(init));
          EmptyUnit(Released(cfg, init));
        case Receives(raw) =>
          assert raws[..|raws| - 1] == Raws(init) && raws[|raws| - 1] == raw;
          RunOneMore(ms, mtu, raws);
      }
    }
  }

  lemma RunOneMore(ms: seq<Sent>, mtu: nat, raws: seq<Bytes>)
    requires mtu > 0 && Numbered(ms) && AllFrom(ms, mtu, raws) && raws != []
    requires Readable(raws) && AllGenuine(ms, mtu, Arrivals(raws))
    ensures var init, raw := raws[..|raws| - 1], raws[|raws| - 1];
      && Readable(init) && AllGenuine(ms, mtu, Arrivals(init))
      && var (s, done) := Run(ms, mtu, Arrivals(init)); var (s', outs) := Receive(s, raw);
         Run(ms, mtu, Arrivals(raws)) == (s', done + outs)
  {
    hide Receive, ReadRecord, Wire, ArrivalOf, Genuine;
    var init, raw := raws[..|raws| - 1], raws[|raws| - 1];
    var arrivals := Arrivals(raws);
    assert Arrivals(init) == arrivals[..|arrivals| - 1];
    GenuineSplit(ms, mtu, arrivals);
    assert IsFrom(ms, mtu, raw);
    LastRecord(raws);
  }

  lemma LastRecord(raws: seq<Bytes>)
    requires Readable(raws) && raws != []
    ensures Arrivals(raws)[|raws| - 1].record == ReadRecord(raws[|raws| - 1]).value
  {
    hide ReadRecord;
  }

  /** So it is the first few messages of the peer's list, whole and in order. */
  lemma ReleasesAPrefix(cfg: Config, acts: seq<Activity>, ms: seq<Sent>, mtu: nat)
    requires Allowed(cfg, acts) && mtu > 0 && Numbered(ms) && AllFrom(ms, mtu, Raws(acts))
    ensures var n := |Released(cfg, acts)|; n <= |ms| && Released(cfg, acts) == X.Wholes(ms[..n])
  {
    hide Run, After, Released, Raws, AllFrom, Arrivals, H.MarshalHeader;
    ReleasesTheRun(cfg, acts, ms, mtu);
    DeliveryExact(ms, mtu, Arrivals(Raws(acts)));
  }

  /** And all of them, once every record of batches that carry them all has been heard. */
  lemma ReleasesAll(cfg: Config, acts: seq<Activity>, ms: seq<Sent>, calls: seq<seq<Packet>>, mtu: nat, isClient: bool)
    requires Allowed(cfg, acts) && GoodMtu(mtu) && Numbered(ms) && GoodCalls(ms, calls) && RunSendable(calls)
    requires AllFrom(ms, mtu, Raws(acts))
    requires forall raw :: raw in RL.UnpackAll(DatagramRun(calls, mtu, isClient)) ==> raw in Raws(acts)
    requires forall k :: 0 <= k < |ms| ==> SentIn(calls, mtu, isClient, k)
    ensures |Released(cfg, acts)| == |ms|
  {
    hide Run, After, Released, SendRun, DatagramRun, RL.UnpackAll, ReadRecord, Wire, ArrivalOf, IsFrom, GoodRecord;
    ReleasesTheRun(cfg, acts, ms, mtu);
    RunDatagrams(ms, calls, mtu, isClient);
    var raws, records := Raws(acts), SendRun(calls, mtu, isClient).1;
    forall k, o | 0 <= k < |ms| && o in CutsOf(ms[k].message, mtu) ensures (k, o) in Arrived(Arrivals(raws)) {
      RunCovers(ms, calls, mtu, isClient, k);
      var r :| r in records && ArrivalOf(r) == Piece(r, k, o);
      var j :| 0 <= j < |records| && records[j] == r;
      assert GoodRecord(ms, mtu, records[j]);
      assert Wires(records)[j] == Wire(r);
      GoodIsGoodVersion(ms, mtu, r);
      WireReadsBack(r);
      assert Wire(r) in RL.UnpackAll(DatagramRun(calls, mtu, isClient));
      assert Wire(r) in raws;
      var i :| 0 <= i < |raws| && raws[i] == Wire(r);
      assert Arrivals(raws)[i] == ArrivalOf(r);
    }
    DeliveryComplete(ms, mtu, Arrivals(raws));
  }

  // ---------------------------------------------------------------- what it caches

  /** The released messages that parse, as cached. */
  function Parsed(accepts: HC.BodyParser, outs: seq<(Bytes, U16)>, isClient: bool): seq<HC.Item> {
    if outs == [] then []
    else
      (match HC.UnmarshalMessage(accepts, outs[0].0)
       case None => []
       case Some(m) => [HC.Item(m.header.typ, isClient, outs[0].1, m.header.messageSequence, outs[0].0)])
      + Parsed(accepts, outs[1..], isClient)
  }

  lemma {:induction false} CacheAllPushes(accepts: HC.BodyParser, items: seq<HC.Item>, outs: seq<(Bytes, U16)>,
                                          isClient: bool)
    ensures CacheAll(accepts, items, outs, isClient) == HC.PushAll(items, Parsed(accepts, outs, isClient))
    decreases |outs|
  {
    hide HC.PushSpec, HC.UnmarshalMessage;
    if outs != [] {
      var rest := Parsed(accepts, outs[1..], isClient);
      CacheAllPushes(accepts, CachePopped(accepts, items, outs[0], isClient), outs[1..], isClient);
      match HC.UnmarshalMessage(accepts, outs[0].0) {
        case None => EmptyUnit(rest);
        case Some(m) => X.PushAllCons(items, HC.Item(m.header.typ, isClient, outs[0].1, m.header.messageSequence, outs[0].0), rest);
      }
    }
  }

  lemma {:induction false} ParsedAppend(accepts: HC.BodyParser, a: seq<(Bytes, U16)>, b: seq<(Bytes, U16)>,
                                        isClient: bool)
    ensures Parsed(accepts, a + b, isClient) == Parsed(accepts, a, isClient) + Parsed(accepts, b, isClient)
  {
    hide HC.UnmarshalMessage;
    if a == [] {
      assert a + b == b;
      EmptyUnit(Parsed(accepts, b, isClient));
    } else {
      ParsedAppend(accepts, a[1..], b, isClient);
      assert (a + b)[0] == a[0] && (a + b)[1..] == a[1..] + b;
      var first := match HC.UnmarshalMessage(accepts, a[0].0)
        case None => []
        case Some(m) => [HC.Item(m.header.typ, isClient, a[0].1, m.header.messageSequence, a[0].0)];
      Assoc(first, Parsed(accepts, a[1..], isClient), Parsed(accepts, b, isClient));
    }
  }

  /** Messages whose bodies their parsers accept are cached as the items their sender cached. */
  lemma {:induction false} WholesParse(accepts: HC.BodyParser, ms: seq<Sent>, isClient: bool)
    requires forall i :: 0 <= i < |ms| ==> X.Parses(accepts, ms[i])
    ensures Parsed(accepts, X.Wholes(ms), isClient) == X.ItemsOf(ms, isClient)
    decreases |ms|
  {
    hide X.Parses, H.MarshalHeader;
    if ms != [] {
      assert X.Wholes(ms)[0] == Whole(ms[0]) && X.Wholes(ms)[1..] == X.Wholes(ms[1..]);
      assert X.ItemsOf(ms, isClient) == [ItemOf(ms[0].message, ms[0].epoch, isClient)] + X.ItemsOf(ms[1..], isClient);
      WholesParse(accepts, ms[1..], isClient);
      X.DeliveredParses(accepts, ms[0]);
    }
  }

  /** Everything pushed to the cache, in order. */
  function Pushes(cfg: Config, acts: seq<Activity>): seq<HC.Item>
    requires Allowed(cfg, acts)
  {
    if acts == [] then []
    else
      var init, a := acts[..|acts| - 1], acts[|acts| - 1];
      var e := After(cfg, init);
      Pushes(cfg, init) +
      match a
      case Sends(pkts) =>
        ItemsSentBy(pkts[..X.Tried(SendState(e.lsn, e.items), pkts, cfg.mtu, cfg.isClient)], cfg.isClient)
      case Receives(raw) => Parsed(cfg.accepts, Receive(e.buffer, raw).1, !cfg.isClient)
  }

  lemma {:induction false} PushAllAppend(items: seq<HC.Item>, a: seq<HC.Item>, b: seq<HC.Item>)
    ensures HC.PushAll(items, a + b) == HC.PushAll(HC.PushAll(items, a), b)
  {
    hide HC.PushSpec;
    if b == [] {
      EmptyUnit(a);
    } else {
      var init, last := b[..|b| - 1], b[|b| - 1];
      PushAllAppend(items, a, init);
      assert (a + b)[..|a + b| - 1] == a + init && (a + b)[|a + b| - 1] == last;
    }
  }

  lemma {:induction false} CachesItsPushes(cfg: Config, acts: seq<Activity>)
    requires Allowed(cfg, acts)
    ensures After(cfg, acts).items == HC.Feed(Pushes(cfg, acts))
  {
    hide SendAll, Receive, CacheAll, Parsed, ItemsSentBy, HC.PushAll, X.Tried;
    if acts == [] {
      assert HC.PushAll([], []) == [] by { NothingPushed(); }
    } else {
      var init, a := acts[..|acts| - 1], acts[|acts| - 1];
      var e := After(cfg, init);
      CachesItsPushes(cfg, init);
      match a {
        case Sends(pkts) =>
          X.SendingCaches(SendState(e.lsn, e.items), pkts, cfg.mtu, cfg.isClient);
          PushAllAppend([], Pushes(cfg, init), ItemsSentBy(pkts[..X.Tried(SendState(e.lsn, e.items), pkts, cfg.mtu, cfg.isClient)], cfg.isClient));
        case Receives(raw) =>
          var outs := Receive(e.buffer, raw).1;
          CacheAllPushes(cfg.accepts, e.items, outs, !cfg.isClient);
          PushAllAppend([], Pushes(cfg, init), Parsed(cfg.accepts, outs, !cfg.isClient));
      }
    }
  }

  lemma NothingPushed()
    ensures HC.PushAll([], []) == []
  {
  }

  /** What a batch of list messages pushes is on the list. */
  lemma {:induction false} SentItemsAreListed(ms: seq<Sent>, pkts: seq<Packet>, isClient: bool, x: HC.Item)
    requires GoodBatch(ms, pkts) && x in ItemsSentBy(pkts, isClient)
    ensures x in X.ItemsOf(ms, isClient)
  {
    hide H.MarshalHeader;
    if pkts != [] {
      assert GoodPacket(ms, pkts[0]);
      match pkts[0].content {
        case HandshakeContent(m) =>
          if x == ItemOf(m, pkts[0].epoch, isClient) {
            assert X.ItemsOf(ms, isClient)[m.header.messageSequence] == x;
          } else {
            SentItemsAreListed(ms, pkts[1..], isClient, x);
          }
        case Plain(_, _) => SentItemsAreListed(ms, pkts[1..], isClient, x);
      }
    }
  }

  lemma CallsAreGood(ms: seq<Sent>, acts: seq<Activity>)
    requires GoodCalls(ms, Calls(acts)) && acts != []
    ensures GoodCalls(ms, Calls(acts[..|acts| - 1]))
    ensures acts[|acts| - 1].Sends? ==> GoodBatch(ms, acts[|acts| - 1].pkts)
  {
    hide GoodBatch;
    var init, calls := Calls(acts[..|acts| - 1]), Calls(acts);
    assert forall i :: 0 <= i < |init| ==> init[i] == calls[i];
    if acts[|acts| - 1].Sends? {
      assert calls[|calls| - 1] == acts[|acts| - 1].pkts;
    }
  }

  /** Nothing is pushed but messages of its own list and what it released. */
  lemma {:induction false} PushesAreListed(cfg: Config, acts: seq<Activity>, ms: seq<Sent>, x: HC.Item)
    requires Allowed(cfg, acts) && GoodCalls(ms, Calls(acts))
    requires x in Pushes(cfg, acts)
    ensures x in X.ItemsOf(ms, cfg.isClient) || x in Parsed(cfg.accepts, Released(cfg, acts), !cfg.isClient)
  {
    hide SendAll, Receive, Parsed, X.Tried, GoodCalls, GoodBatch, X.ItemsOf, After, Calls;
    if acts != [] {
      var init, a := acts[..|acts| - 1], acts[|acts| - 1];
      CallsAreGood(ms, acts);
      if x in Pushes(cfg, init) {
        PushesAreListed(cfg, init, ms, x);
        if a.Receives? {
          ParsedAppend(cfg.accepts, Released(cfg, init), Receive(After(cfg, init).buffer, a.raw).1, !cfg.isClient);
        } else {
          EmptyUnit(Released(cfg, init));
        }
      } else {
        var e := After(cfg, init);
        match a {
          case Sends(pkts) =>
            var n := X.Tried(SendState(e.lsn, e.items), pkts, cfg.mtu, cfg.isClient);
            PrefixIsGood(ms, pkts, n);
            SentItemsAreListed(ms, pkts[..n], cfg.isClient, x);
          case Receives(raw) =>
            ParsedAppend(cfg.accepts, Released(cfg, init), Receive(e.buffer, raw).1, !cfg.isClient);
        }
      }
    }
  }

  lemma PrefixIsGood(ms: seq<Sent>, pkts: seq<Packet>, n: nat)
    requires n <= |pkts| && GoodBatch(ms, pkts)
    ensures GoodBatch(ms, pkts[..n])
  {
    hide GoodPacket;
  }

  /** What it released and parsed has been pushed. */
  lemma {:induction false} ReleasedIsPushed(cfg: Config, acts: seq<Activity>, x: HC.Item)
    requires Allowed(cfg, acts) && x in Parsed(cfg.accepts, Released(cfg, acts), !cfg.isClient)
    ensures x in Pushes(cfg, acts)
  {
    hide SendAll, Receive, X.Tried, After, Parsed;
    if acts == [] {
      assert Parsed(cfg.accepts, [], !cfg.isClient) == [] by { NothingParsed(cfg.accepts, !cfg.isClient); }
    } else {
      var init, a := acts[..|acts| - 1], acts[|acts| - 1];
      match a {
        case Sends(_) =>
          EmptyUnit(Released(cfg, init));
          ReleasedIsPushed(cfg, init, x);
        case Receives(raw) =>
          ParsedAppend(cfg.accepts, Released(cfg, init), Receive(After(cfg, init).buffer, raw).1, !cfg.isClient);
          if x in Parsed(cfg.accepts, Released(cfg, init), !cfg.isClient) {
            ReleasedIsPushed(cfg, init, x);
          }
      }
    }
  }

  lemma NothingParsed(accepts: HC.BodyParser, isClient: bool)
    ensures Parsed(accepts, [], isClient) == []
  {
  }

  /** A message in a batch that went out without error has been pushed. */
  lemma {:induction false} SentIsPushed(cfg: Config, acts: seq<Activity>, ms: seq<Sent>, k: nat)
    requires Allowed(cfg, acts) && GoodCalls(ms, Calls(acts)) && k < |ms| && RunSendable(Calls(acts))
    requires SentIn(Calls(acts), cfg.mtu, cfg.isClient, k)
    ensures X.ItemsOf(ms, cfg.isClient)[k] in Pushes(cfg, acts)
  {
    hide SendAll, SendRun, Receive, Parsed, X.Tried, GoodBatch, X.ItemsOf, After, Includes, AllSendable, ItemsSentBy;
    if acts != [] {
      var init, calls := acts[..|acts| - 1], Calls(acts);
      CallsAreGood(ms, acts);
      CallsAreSendable(cfg, init);
      EmptyUnit(Calls(init));
      var i :| 0 <= i < |calls| && Includes(calls[i], k)
               && SendAll(SendRun(calls[..i], cfg.mtu, cfg.isClient).0, calls[i], cfg.mtu, cfg.isClient).1.Ok?;
      if i < |Calls(init)| {
        assert Calls(init)[i] == calls[i] && Calls(init)[..i] == calls[..i];
        SentIsPushed(cfg, init, ms, k);
      } else {
        assert calls[..i] == Calls(init) && calls[i] == acts[|acts| - 1].pkts;
        LastIsPushed(cfg, acts, ms, k);
      }
    }
  }

  lemma LastIsPushed(cfg: Config, acts: seq<Activity>, ms: seq<Sent>, k: nat)
    requires Allowed(cfg, acts) && acts != [] && k < |ms|
    requires var a := acts[|acts| - 1]; a.Sends? && GoodBatch(ms, a.pkts) && Includes(a.pkts, k)
    requires var calls := Calls(acts[..|acts| - 1]);
      && RunSendable(calls)
      && SendAll(SendRun(calls, cfg.mtu, cfg.isClient).0, acts[|acts| - 1].pkts, cfg.mtu, cfg.isClient).1.Ok?
    ensures X.ItemsOf(ms, cfg.isClient)[k] in Pushes(cfg, acts)
  {
    hide SendAll, SendRun, X.Tried, GoodBatch, X.ItemsOf, After, Includes, Calls, ItemsSentBy;
    var init, pkts := acts[..|acts| - 1], acts[|acts| - 1].pkts;
    var e, s := After(cfg, init), SendRun(Calls(init), cfg.mtu, cfg.isClient).0;
    EmitsItsCalls(cfg, init);
    SendIgnoresItems(e.lsn, e.items, s.items, pkts, cfg.mtu, cfg.isClient);
    assert pkts[..|pkts|] == pkts;
    IncludedIsSent(ms, pkts, cfg.isClient, k);
    ItemsHasLength(ms, cfg.isClient);
  }

  lemma ItemsHasLength(ms: seq<Sent>, isClient: bool)
    ensures |X.ItemsOf(ms, isClient)| == |ms|
  {
  }

  lemma {:induction false} IncludedIsSent(ms: seq<Sent>, pkts: seq<Packet>, isClient: bool, k: nat)
    requires GoodBatch(ms, pkts) && Includes(pkts, k) && k < |ms|
    ensures X.ItemsOf(ms, isClient)[k] in ItemsSentBy(pkts, isClient)
  {
    hide H.MarshalHeader;
    var i :| 0 <= i < |pkts| && pkts[i].content.HandshakeContent? && pkts[i].content.message.header.messageSequence == k;
    assert GoodPacket(ms, pkts[i]);
    if i > 0 {
      assert pkts[1..][i - 1] == pkts[i];
      IncludedIsSent(ms, pkts[1..], isClient, k);
    }
  }

  /** The cache of an endpoint that was sent nothing but its peer's records: its own messages
      and the first n of the peer's, one message a key. */
  lemma CacheHolds(cfg: Config, acts: seq<Activity>, ms: seq<Sent>, peer: seq<Sent>, peerMtu: nat)
    requires Allowed(cfg, acts) && Numbered(ms) && GoodCalls(ms, Calls(acts))
    requires peerMtu > 0 && Numbered(peer) && AllFrom(peer, peerMtu, Raws(acts))
    requires forall i :: 0 <= i < |peer| ==> X.Parses(cfg.accepts, peer[i])
    ensures var n := |Released(cfg, acts)|; var items := After(cfg, acts).items;
      && n <= |peer| && HC.UniqueKeys(items)
      && (forall x :: x in items ==> x in X.ItemsOf(ms, cfg.isClient) || x in X.ItemsOf(peer[..n], !cfg.isClient))
      && (forall x :: x in X.ItemsOf(peer[..n], !cfg.isClient) ==> x in items)
      && RunSendable(Calls(acts))
      && (forall k :: 0 <= k < |ms| && SentIn(Calls(acts), cfg.mtu, cfg.isClient, k) ==>
            X.ItemsOf(ms, cfg.isClient)[k] in items)
  {
    hide After, Released, Pushes, Parsed, Calls, Raws, AllFrom, SentIn, GoodCalls, Numbered, X.Parses, RunSendable,
      H.MarshalHeader, HC.OneMessagePerKey, HC.UniqueKeys, HC.PushAll;
    var n := |Released(cfg, acts)|;
    ReleasesAPrefix(cfg, acts, peer, peerMtu);
    WholesParse(cfg.accepts, peer[..n], !cfg.isClient);
    CachesItsPushes(cfg, acts);
    CallsAreSendable(cfg, acts);
    var pushes := Pushes(cfg, acts);
    forall x | x in pushes ensures x in X.ItemsOf(ms, cfg.isClient) || x in X.ItemsOf(peer[..n], !cfg.isClient) {
      PushesAreListed(cfg, acts, ms, x);
    }
    OnePushPerKey(cfg, ms, peer, n, pushes);
    EverythingFed(pushes);
    forall x | x in X.ItemsOf(peer[..n], !cfg.isClient) ensures x in pushes {
      ReleasedIsPushed(cfg, acts, x);
    }
    forall k | 0 <= k < |ms| && SentIn(Calls(acts), cfg.mtu, cfg.isClient, k) ensures X.ItemsOf(ms, cfg.isClient)[k] in pushes {
      SentIsPushed(cfg, acts, ms, k);
    }
  }

  lemma EverythingFed(pushes: seq<HC.Item>)
    requires HC.OneMessagePerKey(pushes)
    ensures HC.UniqueKeys(HC.Feed(pushes)) && forall x :: x in HC.Feed(pushes) <==> x in pushes
  {
    hide HC.PushAll, HC.SameKey;
    EmptyUnit(pushes);
    HC.PushAllHolds([], pushes);
  }

  lemma OnePushPerKey(cfg: Config, ms: seq<Sent>, peer: seq<Sent>, n: nat, pushes: seq<HC.Item>)
    requires Numbered(ms) && Numbered(peer) && n <= |peer|
    requires forall x :: x in pushes ==> x in X.ItemsOf(ms, cfg.isClient) || x in X.ItemsOf(peer[..n], !cfg.isClient)
    ensures HC.OneMessagePerKey(pushes)
  {
    hide H.MarshalHeader;
    forall x, y | x in pushes && y in pushes && HC.SameKey(x, y) ensures x == y {
      if cfg.isClient {
        X.ExchangeHasOneMessagePerKey(ms, peer[..n], x, y);
      } else {
        X.ExchangeHasOneMessagePerKey(peer[..n], ms, x, y);
      }
    }
  }
}
