/** From the sender's calls to the receiver's messages, over a network that may reorder,
    repeat and lose datagrams. */
module Network {
  import opened Bytes
  import opened Wrappers
  import RL = RecordLayer
  import H = Handshake
  import FB = FragmentBuffer
  import opened Conn
  import opened Delivery

  /** A batch whose handshake packets are messages of the numbered list, and whose other
      packets have a payload that fits a record. */
  predicate GoodPacket(ms: seq<Sent>, p: Packet) {
    && (p.version == RL.PROTOCOL_VERSION1_0 || p.version == RL.PROTOCOL_VERSION1_2)
    && match p.content
       case HandshakeContent(m) => m.header.messageSequence < |ms| && ms[m.header.messageSequence] == Sent(m, p.epoch)
       case Plain(_, payload) => 0 < |payload| < 0x1_0000
  }

  predicate GoodBatch(ms: seq<Sent>, pkts: seq<Packet>) {
    forall i :: 0 <= i < |pkts| ==> GoodPacket(ms, pkts[i])
  }

  predicate GoodCalls(ms: seq<Sent>, calls: seq<seq<Packet>>) {
    forall i :: 0 <= i < |calls| ==> GoodBatch(ms, calls[i])
  }

  /** A fragment with its header fits the record length field. */
  predicate GoodMtu(mtu: nat) {
    0 < mtu && mtu + H.HANDSHAKE_HEADER_LENGTH < 0x1_0000
  }

  // ---------------------------------------------------------------- what is sent

  /** The arrival that a record is when it reaches the peer. */
  function ArrivalOf(r: Record): Arrival {
    if r.header.contentType != RL.Handshake then Other(r)
    else match H.UnmarshalHeader(r.payload)
      case Some(h) => Piece(r, h.messageSequence, h.fragmentOffset)
      case None => Other(r)
  }

  predicate GoodRecord(ms: seq<Sent>, mtu: nat, r: Record)
    requires mtu > 0 && Numbered(ms)
  {
    Genuine(ms, mtu, ArrivalOf(r)) && RL.IsRecord(Wire(r)) && |Wire(r)| > RL.RECORD_LAYER_HEADER_SIZE
  }

  lemma WireIsRecord(r: Record)
    requires |r.payload| == r.header.contentLen
    ensures RL.IsRecord(Wire(r)) && |Wire(r)| == RL.RECORD_LAYER_HEADER_SIZE + |r.payload|
  {
    var m := RL.Marshal(r.header).value;
    assert Wire(r)[11..13] == m[11..13] == Be16(r.header.contentLen);
  }

  /** Whatever one packet sends is genuine, and a message is sent fragment by fragment. */
  lemma SendOneGood(ms: seq<Sent>, s: SendState, p: Packet, mtu: nat, isClient: bool)
    requires GoodMtu(mtu) && Numbered(ms) && GoodPacket(ms, p) && Sendable(p)
    requires SendOne(s, p, mtu, isClient).1.Ok?
    ensures var records := SendOne(s, p, mtu, isClient).1.value;
      && (forall i :: 0 <= i < |records| ==> GoodRecord(ms, mtu, records[i]))
      && (p.content.HandshakeContent? ==> Covers(ms, mtu, records, p.content.message.header.messageSequence))
  {
    var records := SendOne(s, p, mtu, isClient).1.value;
    match p.content {
      case HandshakeContent(m) =>
        var k := m.header.messageSequence;
        StampAllNumbers(FragmentsFrom(m, mtu, 0), p.version, p.epoch, Grow(s.lsn, p.epoch)[p.epoch]);
        FragmentsFollowCuts(m, mtu, 0);
        CutListIsCuts(|m.body|, mtu, 0);
        var cuts := CutList(|m.body|, mtu, 0);
        forall i | 0 <= i < |records|
          ensures ArrivalOf(records[i]) == Piece(records[i], k, cuts[i]) && GoodRecord(ms, mtu, records[i])
        {
          FragmentRecordGood(ms, mtu, records[i], k, cuts[i]);
        }
        forall o | o in CutsOf(m, mtu) ensures exists r :: r in records && ArrivalOf(r) == Piece(r, k, o) {
          assert o in cuts;
          var i :| 0 <= i < |cuts| && cuts[i] == o;
          assert records[i] in records;
        }
      case Plain(_, _) =>
        WireIsRecord(records[0]);
    }
  }

  lemma FragmentRecordGood(ms: seq<Sent>, mtu: nat, r: Record, k: nat, o: nat)
    requires GoodMtu(mtu) && Numbered(ms) && k < |ms| && GoodVersion(r)
    requires o in CutsOf(ms[k].message, mtu) && o <= |ms[k].message.body|
    requires r.header.contentType == RL.Handshake && r.header.epoch == ms[k].epoch
    requires r.payload == FragmentAt(ms[k].message, mtu, o) && r.header.contentLen == |r.payload| % 0x1_0000
    ensures ArrivalOf(r) == Piece(r, k, o) && GoodRecord(ms, mtu, r)
  {
    var m := ms[k].message;
    H.HeaderRoundTrip(PieceHeader(m, mtu, o), m.body[o..FB.PieceEnd(|m.body|, mtu, o)]);
    WireIsRecord(r);
  }

  /** Every fragment of message k is among the records. */
  ghost predicate Covers(ms: seq<Sent>, mtu: nat, records: seq<Record>, k: nat)
    requires mtu > 0 && k < |ms|
  {
    forall o :: o in CutsOf(ms[k].message, mtu) ==> exists r :: r in records && ArrivalOf(r) == Piece(r, k, o)
  }

  lemma CoversMore(ms: seq<Sent>, mtu: nat, a: seq<Record>, b: seq<Record>, k: nat)
    requires mtu > 0 && k < |ms| && (Covers(ms, mtu, a, k) || Covers(ms, mtu, b, k))
    ensures Covers(ms, mtu, a + b, k)
  {
    forall o | o in CutsOf(ms[k].message, mtu) ensures exists r :: r in a + b && ArrivalOf(r) == Piece(r, k, o) {
      if Covers(ms, mtu, a, k) {
        var r :| r in a && ArrivalOf(r) == Piece(r, k, o);
        assert r in a + b;
      } else {
        var r :| r in b && ArrivalOf(r) == Piece(r, k, o);
        assert r in a + b;
      }
    }
  }

  predicate Includes(pkts: seq<Packet>, k: nat) {
    exists i :: 0 <= i < |pkts| && pkts[i].content.HandshakeContent?
                && pkts[i].content.message.header.messageSequence == k
  }

  lemma {:induction false} SendAllGood(ms: seq<Sent>, s: SendState, pkts: seq<Packet>, mtu: nat, isClient: bool)
    requires GoodMtu(mtu) && Numbered(ms) && GoodBatch(ms, pkts) && AllSendable(pkts)
    requires SendAll(s, pkts, mtu, isClient).1.Ok?
    ensures var records := SendAll(s, pkts, mtu, isClient).1.value;
      && (forall i :: 0 <= i < |records| ==> GoodRecord(ms, mtu, records[i]))
      && (forall k :: 0 <= k < |ms| && Includes(pkts, k) ==> Covers(ms, mtu, records, k))
    decreases |pkts|
  {
    if pkts != [] {
      var (s1, r1) := SendOne(s, pkts[0], mtu, isClient);
      SendOneGood(ms, s, pkts[0], mtu, isClient);
      var rest := pkts[1..];
      SendAllGood(ms, s1, rest, mtu, isClient);
      var more := SendAll(s1, rest, mtu, isClient).1.value;
      forall k | 0 <= k < |ms| && Includes(pkts, k) ensures Covers(ms, mtu, r1.value + more, k) {
        var i :| 0 <= i < |pkts| && pkts[i].content.HandshakeContent?
                 && pkts[i].content.message.header.messageSequence == k;
        if i > 0 {
          assert rest[i - 1] == pkts[i];
          assert Includes(rest, k);
        }
        CoversMore(ms, mtu, r1.value, more, k);
      }
    }
  }

  // ---------------------------------------------------------------- datagrams

  /** The datagrams of a run of calls: those of the calls that did not fail. */
  function DatagramRun(calls: seq<seq<Packet>>, mtu: nat, isClient: bool): seq<Bytes>
    requires mtu > 0 && RunSendable(calls)
  {
    if calls == [] then []
    else
      var init, last := calls[..|calls| - 1], calls[|calls| - 1];
      var s := SendRun(init, mtu, isClient).0;
      var r := SendAll(s, last, mtu, isClient).1;
      DatagramRun(init, mtu, isClient) + if r.Ok? then Datagrams(r.value, mtu) else []
  }

  /** The records one datagram unpacks to. */
  function RecordsIn(d: Bytes): seq<Bytes> {
    match RL.Unpack(d) case Ok(rs) => rs case Err(_) => []
  }

  lemma {:induction false} UnpackAllMembers(datagrams: seq<Bytes>, raw: Bytes)
    ensures raw in RL.UnpackAll(datagrams) <==> exists d :: d in datagrams && raw in RecordsIn(d)
  {
    if datagrams != [] {
      var d0, rest := datagrams[0], datagrams[1..];
      UnpackAllMembers(rest, raw);
      assert raw in RL.UnpackAll(datagrams) <==> raw in RecordsIn(d0) || raw in RL.UnpackAll(rest);
      if exists d :: d in datagrams && raw in RecordsIn(d) {
        var d :| d in datagrams && raw in RecordsIn(d);
        assert d == d0 || d in rest;
      }
      if raw in RecordsIn(d0) {
        assert d0 in datagrams;
      }
    }
  }

  lemma DatagramsUnpack(ms: seq<Sent>, mtu: nat, records: seq<Record>)
    requires mtu > 0 && Numbered(ms) && forall i :: 0 <= i < |records| ==> GoodRecord(ms, mtu, records[i])
    ensures RL.UnpackAll(Datagrams(records, mtu)) == Wires(records)
  {
    if records != [] {
      var raw := Wires(records);
      forall i | 0 <= i < |raw| ensures RL.IsRecord(raw[i]) && |raw[i]| > RL.RECORD_LAYER_HEADER_SIZE {
        assert GoodRecord(ms, mtu, records[i]);
      }
      var _ := RL.CompactRoundTrip(raw, mtu);
    }
  }

  /** The datagrams of a run, unpacked one after the other, are the records of the calls that
      succeeded: each of them, in order, as often as it was sent. */
  lemma {:induction false} RunDatagrams(ms: seq<Sent>, calls: seq<seq<Packet>>, mtu: nat, isClient: bool)
    requires GoodMtu(mtu) && Numbered(ms) && GoodCalls(ms, calls) && RunSendable(calls)
    ensures var records := SendRun(calls, mtu, isClient).1;
      && (forall i :: 0 <= i < |records| ==> GoodRecord(ms, mtu, records[i]))
      && RL.UnpackAll(DatagramRun(calls, mtu, isClient)) == Wires(records)
  {
    hide GoodRecord, RL.Unpack, RL.CompactFrom, Wire, SendAll;
    if calls != [] {
      var init, last := calls[..|calls| - 1], calls[|calls| - 1];
      RunDatagrams(ms, init, mtu, isClient);
      var (s, records) := SendRun(init, mtu, isClient);
      var r := SendAll(s, last, mtu, isClient).1;
      var before := DatagramRun(init, mtu, isClient);
      if r.Ok? {
        SendAllGood(ms, s, last, mtu, isClient);
        DatagramsUnpack(ms, mtu, r.value);
        UnpackAllAppend(before, Datagrams(r.value, mtu));
        assert Wires(records + r.value) == Wires(records) + Wires(r.value);
      } else {
        EmptyUnit(before);
      }
    }
  }

  lemma {:induction false} UnpackAllAppend(a: seq<Bytes>, b: seq<Bytes>)
    ensures RL.UnpackAll(a + b) == RL.UnpackAll(a) + RL.UnpackAll(b)
  {
    hide RL.Unpack;
    if a == [] {
      assert a + b == b;
    } else {
      UnpackAllAppend(a[1..], b);
      assert (a + b)[0] == a[0] && (a + b)[1..] == a[1..] + b;
      Assoc(RecordsIn(a[0]), RL.UnpackAll(a[1..]), RL.UnpackAll(b));
    }
  }

  // ---------------------------------------------------------------- delivery over the network

  /** A raw record read back as header and payload. */
  function ReadRecord(raw: Bytes): Option<RawRecord> {
    match RL.Unmarshal(raw)
    case Ok(h) => Some(RawRecord(h, raw[RL.RECORD_LAYER_HEADER_SIZE..]))
    case Err(_) => None
  }

  lemma WireReadsBack(r: Record)
    requires GoodVersion(r)
    ensures ReadRecord(Wire(r)) == Some(r)
  {
    RL.HeaderRoundTrip(r.header, r.payload);
    assert Wire(r)[RL.RECORD_LAYER_HEADER_SIZE..] == r.payload;
  }

  predicate Readable(raws: seq<Bytes>) {
    forall i :: 0 <= i < |raws| ==>
      ReadRecord(raws[i]).Some? && ReadRecord(raws[i]).value.header.sequenceNumber <= RL.MAX_SEQUENCE_NUMBER
  }

  function Arrivals(raws: seq<Bytes>): seq<Arrival>
    requires Readable(raws)
  {
    seq(|raws|, i requires 0 <= i < |raws| => ArrivalOf(ReadRecord(raws[i]).value))
  }

  /** Safety: whatever sent datagrams arrive, how often and in what order, what reaches the
      fragment buffer is genuine, byte for byte. */
  lemma NetworkIsGenuine(ms: seq<Sent>, calls: seq<seq<Packet>>, mtu: nat, isClient: bool, delivered: seq<Bytes>)
    requires GoodMtu(mtu) && Numbered(ms) && GoodCalls(ms, calls) && RunSendable(calls)
    requires forall i :: 0 <= i < |delivered| ==> delivered[i] in DatagramRun(calls, mtu, isClient)
    ensures var raws := RL.UnpackAll(delivered);
      && Readable(raws)
      && AllGenuine(ms, mtu, Arrivals(raws))
      && forall i :: 0 <= i < |raws| ==> Wire(Arrivals(raws)[i].record) == raws[i]
  {
    var raws := RL.UnpackAll(delivered);
    forall i | 0 <= i < |raws|
      ensures ReadRecord(raws[i]).Some? && ReadRecord(raws[i]).value.header.sequenceNumber <= RL.MAX_SEQUENCE_NUMBER
      ensures var r: Record := ReadRecord(raws[i]).value; Wire(r) == raws[i] && Genuine(ms, mtu, ArrivalOf(r))
    {
      var _ := RawIsSent(ms, calls, mtu, isClient, delivered, raws[i]);
    }
  }

  /** A raw record out of a sent datagram is a record that was sent. */
  lemma RawIsSent(ms: seq<Sent>, calls: seq<seq<Packet>>, mtu: nat, isClient: bool, delivered: seq<Bytes>, raw: Bytes)
    returns (r: Record)
    requires GoodMtu(mtu) && Numbered(ms) && GoodCalls(ms, calls) && RunSendable(calls)
    requires forall i :: 0 <= i < |delivered| ==> delivered[i] in DatagramRun(calls, mtu, isClient)
    requires raw in RL.UnpackAll(delivered)
    ensures raw == Wire(r) && ReadRecord(raw) == Some(r) && GoodRecord(ms, mtu, r)
  {
    hide SendRun, DatagramRun, RL.UnpackAll, RL.Unpack, RL.UnpackFrom, ReadRecord, Wire, FragmentAt;
    var records := SendRun(calls, mtu, isClient).1;
    RunDatagrams(ms, calls, mtu, isClient);
    UnpackAllMembers(delivered, raw);
    var d :| d in delivered && raw in RecordsIn(d);
    assert d in DatagramRun(calls, mtu, isClient);
    UnpackAllMembers(DatagramRun(calls, mtu, isClient), raw);
    var j :| 0 <= j < |records| && Wires(records)[j] == raw;
    r := records[j];
    WireReadsBack(r);
  }

  /** The receiver after a list of datagrams has arrived. */
  function NetworkRun(ms: seq<Sent>, calls: seq<seq<Packet>>, mtu: nat, isClient: bool, delivered: seq<Bytes>)
    : (FB.State, seq<(Bytes, U16)>)
    requires GoodMtu(mtu) && Numbered(ms) && GoodCalls(ms, calls) && RunSendable(calls)
    requires forall i :: 0 <= i < |delivered| ==> delivered[i] in DatagramRun(calls, mtu, isClient)
  {
    NetworkIsGenuine(ms, calls, mtu, isClient, delivered);
    Run(ms, mtu, Arrivals(RL.UnpackAll(delivered)))
  }

  /** Message k was in a batch of the run that was sent without error. */
  predicate SentIn(calls: seq<seq<Packet>>, mtu: nat, isClient: bool, k: nat)
    requires mtu > 0 && RunSendable(calls)
  {
    exists i :: 0 <= i < |calls| && Includes(calls[i], k)
                && SendAll(SendRun(calls[..i], mtu, isClient).0, calls[i], mtu, isClient).1.Ok?
  }

  /** Safety: for any sent datagrams, lost, repeated and reordered at will, the messages
      released are the first few of the list, in order, each once and whole. */
  lemma NetworkDeliversPrefix(ms: seq<Sent>, calls: seq<seq<Packet>>, mtu: nat, isClient: bool, delivered: seq<Bytes>)
    requires GoodMtu(mtu) && Numbered(ms) && GoodCalls(ms, calls) && RunSendable(calls)
    requires forall i :: 0 <= i < |delivered| ==> delivered[i] in DatagramRun(calls, mtu, isClient)
    ensures var out := NetworkRun(ms, calls, mtu, isClient, delivered).1;
      |out| <= |ms| && forall k :: 0 <= k < |out| ==> out[k] == Whole(ms[k])
  {
    NetworkIsGenuine(ms, calls, mtu, isClient, delivered);
    DeliveryExact(ms, mtu, Arrivals(RL.UnpackAll(delivered)));
  }

  /** Completeness: once every datagram of a run that sent every message has arrived at
      least once, exactly the list of messages has been released. */
  lemma NetworkDeliversAll(ms: seq<Sent>, calls: seq<seq<Packet>>, mtu: nat, isClient: bool, delivered: seq<Bytes>)
    requires GoodMtu(mtu) && Numbered(ms) && GoodCalls(ms, calls) && RunSendable(calls)
    requires forall i :: 0 <= i < |delivered| ==> delivered[i] in DatagramRun(calls, mtu, isClient)
    requires forall d :: d in DatagramRun(calls, mtu, isClient) ==> d in delivered
    requires forall k :: 0 <= k < |ms| ==> SentIn(calls, mtu, isClient, k)
    ensures NetworkRun(ms, calls, mtu, isClient, delivered).1 == seq(|ms|, i requires 0 <= i < |ms| => Whole(ms[i]))
  {
    NetworkIsGenuine(ms, calls, mtu, isClient, delivered);
    var arrivals := Arrivals(RL.UnpackAll(delivered));
    forall k, o | 0 <= k < |ms| && o in CutsOf(ms[k].message, mtu) ensures (k, o) in Arrived(arrivals) {
      assert SentIn(calls, mtu, isClient, k);
      RunCovers(ms, calls, mtu, isClient, k);
      var r :| r in SendRun(calls, mtu, isClient).1 && ArrivalOf(r) == Piece(r, k, o);
      RecordArrives(ms, calls, mtu, isClient, delivered, r);
    }
    DeliveryComplete(ms, mtu, arrivals);
  }

  lemma GoodIsGoodVersion(ms: seq<Sent>, mtu: nat, r: Record)
    requires mtu > 0 && Numbered(ms) && GoodRecord(ms, mtu, r)
    ensures GoodVersion(r)
  {
  }

  lemma RecordArrives(ms: seq<Sent>, calls: seq<seq<Packet>>, mtu: nat, isClient: bool, delivered: seq<Bytes>,
                      r: Record)
    requires GoodMtu(mtu) && Numbered(ms) && GoodCalls(ms, calls) && RunSendable(calls)
    requires forall d :: d in DatagramRun(calls, mtu, isClient) ==> d in delivered
    requires Readable(RL.UnpackAll(delivered))
    requires r in SendRun(calls, mtu, isClient).1
    ensures ArrivalOf(r) in Arrivals(RL.UnpackAll(delivered))
  {
    hide SendRun, DatagramRun, RL.UnpackAll, RL.Unpack, RL.UnpackFrom, ReadRecord, Wire, ArrivalOf;
    var raws := RL.UnpackAll(delivered);
    var records := SendRun(calls, mtu, isClient).1;
    RunDatagrams(ms, calls, mtu, isClient);
    var j :| 0 <= j < |records| && records[j] == r;
    assert GoodRecord(ms, mtu, records[j]);
    assert Wires(records)[j] == Wire(r);
    GoodIsGoodVersion(ms, mtu, r);
    UnpackAllMembers(DatagramRun(calls, mtu, isClient), Wire(r));
    UnpackAllMembers(delivered, Wire(r));
    var i :| 0 <= i < |raws| && raws[i] == Wire(r);
    WireReadsBack(r);
    assert Arrivals(raws)[i] == ArrivalOf(r);
  }

  /** Every message included in some batch of a run without failed calls is covered. */
  lemma {:induction false} RunCovers(ms: seq<Sent>, calls: seq<seq<Packet>>, mtu: nat, isClient: bool, k: nat)
    requires GoodMtu(mtu) && Numbered(ms) && GoodCalls(ms, calls) && RunSendable(calls) && k < |ms|
    requires SentIn(calls, mtu, isClient, k)
    ensures Covers(ms, mtu, SendRun(calls, mtu, isClient).1, k)
  {
    hide SendAll, Covers;
    var i :| 0 <= i < |calls| && Includes(calls[i], k)
             && SendAll(SendRun(calls[..i], mtu, isClient).0, calls[i], mtu, isClient).1.Ok?;
    var init, last := calls[..|calls| - 1], calls[|calls| - 1];
    var (s, records) := SendRun(init, mtu, isClient);
    var r := SendAll(s, last, mtu, isClient).1;
    if i == |calls| - 1 {
      assert calls[..i] == init;
      SendAllGood(ms, s, last, mtu, isClient);
      CoversMore(ms, mtu, records, r.value, k);
    } else {
      assert init[i] == calls[i] && init[..i] == calls[..i];
      RunCovers(ms, init, mtu, isClient, k);
      if r.Ok? {
        CoversMore(ms, mtu, records, r.value, k);
      }
    }
  }
}
