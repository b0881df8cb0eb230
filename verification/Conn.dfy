/** The two halves of a DTLS connection that carry handshake messages: the outgoing side
    cuts, stamps, caches and packs them, the incoming side reassembles and caches them.
    Encryption is the identity here. */
module Conn {
  import opened Bytes
  import opened Wrappers
  import RL = RecordLayer
  import H = Handshake
  import FB = FragmentBuffer
  import HC = HandshakeCache

  // ---------------------------------------------------------------- packets and records

  type PlainType = t: RL.ContentType | t != RL.Handshake && t != RL.Invalid witness RL.Alert

  datatype Content = HandshakeContent(message: H.Message) | Plain(contentType: PlainType, payload: Bytes)

  datatype Packet = Packet(version: RL.ProtocolVersion, epoch: U16, content: Content)

  datatype RawRecord = RawRecord(header: RL.Header, payload: Bytes)

  /** A record that RecordLayerHeader::marshal can write. */
  type Record = r: RawRecord | r.header.sequenceNumber <= RL.MAX_SEQUENCE_NUMBER
    witness RawRecord(RL.Header(RL.Alert, RL.PROTOCOL_VERSION1_2, 0, 0, 0), [])

  function Wire(r: Record): Bytes {
    RL.Marshal(r.header).value + r.payload
  }

  function Wires(rs: seq<Record>): seq<Bytes> {
    seq(|rs|, i requires 0 <= i < |rs| => Wire(rs[i]))
  }

  // ---------------------------------------------------------------- fragmentation

  function PieceHeader(m: H.Message, mtu: nat, o: nat): H.Header
    requires mtu > 0 && o <= |m.body| < 0x100_0000
  {
    m.header.(fragmentOffset := o, fragmentLength := FB.PieceEnd(|m.body|, mtu, o) - o)
  }

  /** Header and content of the fragment that starts at a cut. */
  function FragmentAt(m: H.Message, mtu: nat, o: nat): Bytes
    requires mtu > 0 && o <= |m.body| < 0x100_0000
  {
    H.MarshalHeader(PieceHeader(m, mtu, o)) + m.body[o..FB.PieceEnd(|m.body|, mtu, o)]
  }

  function CutList(n: nat, mtu: nat, from: nat): seq<nat>
    requires mtu > 0 && from <= n
    decreases n - from
  {
    [from] + if n - from <= mtu then [] else CutList(n, mtu, from + mtu)
  }

  lemma {:induction false} CutListIsCuts(n: nat, mtu: nat, from: nat)
    requires mtu > 0 && from <= n
    ensures forall o :: o in CutList(n, mtu, from) <==> o in FB.Cuts(n, mtu, from)
    decreases n - from
  {
    if n - from > mtu {
      CutListIsCuts(n, mtu, from + mtu);
    }
  }

  function FragmentsFrom(m: H.Message, mtu: nat, from: nat): seq<Bytes>
    requires mtu > 0 && from <= |m.body| < 0x100_0000
    decreases |m.body| - from
  {
    [FragmentAt(m, mtu, from)] + if |m.body| - from <= mtu then [] else FragmentsFrom(m, mtu, from + mtu)
  }

  lemma {:induction false} FragmentsFollowCuts(m: H.Message, mtu: nat, from: nat)
    requires mtu > 0 && from <= |m.body| < 0x100_0000
    ensures var cuts := CutList(|m.body|, mtu, from); var frags := FragmentsFrom(m, mtu, from);
      && |frags| == |cuts|
      && forall i :: 0 <= i < |frags| ==> cuts[i] <= |m.body| && frags[i] == FragmentAt(m, mtu, cuts[i])
    decreases |m.body| - from
  {
    if |m.body| - from > mtu {
      FragmentsFollowCuts(m, mtu, from + mtu);
    }
  }

  function PlaceAt(from: nat, i: nat, mtu: nat): nat { from + i * mtu }

  lemma NextPlace(from: nat, i: nat, mtu: nat)
    ensures PlaceAt(from + mtu, i, mtu) == PlaceAt(from, i + 1, mtu)
    ensures PlaceAt(from, 0, mtu) == from && PlaceAt(from, 1, mtu) == from + mtu
  {
  }

  /** The bytes of the body from o to end, under a header that says so. */
  predicate IsFragment(m: H.Message, frag: Bytes, o: nat, end: nat) {
    && o <= end <= |m.body| < 0x100_0000
    && frag == H.MarshalHeader(m.header.(fragmentOffset := o, fragmentLength := end - o)) + m.body[o..end]
  }

  /** By place: the i-th fragment starts at i times the MTU and is as long as the MTU, but for the
      last, which has what is left; an empty body makes one empty fragment. */
  lemma {:induction false} FragmentsAre(m: H.Message, mtu: nat, from: nat)
    requires mtu > 0 && from <= |m.body| < 0x100_0000
    ensures var frags := FragmentsFrom(m, mtu, from); var last := |frags| - 1;
      && last >= 0 && PlaceAt(from, last, mtu) <= |m.body| <= PlaceAt(from, last, mtu) + mtu
      && (|m.body| == PlaceAt(from, last, mtu) ==> |m.body| == from)
      && (forall i: nat :: i < last ==>
            IsFragment(m, frags[i], PlaceAt(from, i, mtu), PlaceAt(from, i, mtu) + mtu))
      && IsFragment(m, frags[last], PlaceAt(from, last, mtu), |m.body|)
    decreases |m.body| - from
  {
    hide H.MarshalHeader, PlaceAt, IsFragment;
    NextPlace(from, 0, mtu);
    FragmentIs(m, mtu, from);
    if |m.body| - from > mtu {
      FragmentsAre(m, mtu, from + mtu);
      var frags, rest := FragmentsFrom(m, mtu, from), FragmentsFrom(m, mtu, from + mtu);
      assert frags == [FragmentAt(m, mtu, from)] + rest;
      forall i: nat | i < |rest| ensures PlaceAt(from + mtu, i, mtu) == PlaceAt(from, i + 1, mtu) && frags[i + 1] == rest[i] {
        NextPlace(from, i, mtu);
      }
      forall i: nat | i < |frags| - 1
        ensures IsFragment(m, frags[i], PlaceAt(from, i, mtu), PlaceAt(from, i, mtu) + mtu)
      {
        if i > 0 {
          assert frags[i - 1 + 1] == rest[i - 1];
        }
      }
    }
  }

  lemma FragmentIs(m: H.Message, mtu: nat, o: nat)
    requires mtu > 0 && o <= |m.body| < 0x100_0000
    ensures IsFragment(m, FragmentAt(m, mtu, o), o, if |m.body| - o > mtu then o + mtu else |m.body|)
  {
    hide H.MarshalHeader;
  }

  function SplitFrom(bytes: Bytes, splitLen: nat, i: nat): seq<Bytes>
    requires splitLen > 0
    decreases |bytes| - i
  {
    if i >= |bytes| then [] else [bytes[i..Min(i + splitLen, |bytes|)]] + SplitFrom(bytes, splitLen, i + splitLen)
  }

  method SplitBytes(bytes: Bytes, splitLen: nat) returns (splits: seq<Bytes>)
    requires splitLen > 0
    ensures splits == SplitFrom(bytes, splitLen, 0)
  {
    splits := [];
    var i := 0;
    while i < |bytes|
      invariant SplitFrom(bytes, splitLen, 0) == splits + SplitFrom(bytes, splitLen, i)
      decreases |bytes| - i
    {
      var j := i + splitLen;
      if j > |bytes| {
        j := |bytes|;
      }
      splits := splits + [bytes[i..j]];
      i := i + splitLen;
    }
  }

  function PiecesFrom(body: Bytes, mtu: nat, from: nat): seq<Bytes>
    requires mtu > 0 && from <= |body|
    decreases |body| - from
  {
    [body[from..FB.PieceEnd(|body|, mtu, from)]]
    + if |body| - from <= mtu then [] else PiecesFrom(body, mtu, from + mtu)
  }

  lemma {:induction false} SplitIsPieces(body: Bytes, mtu: nat, from: nat)
    requires mtu > 0 && from < |body|
    ensures SplitFrom(body, mtu, from) == PiecesFrom(body, mtu, from)
    decreases |body| - from
  {
    if |body| - from > mtu {
      SplitIsPieces(body, mtu, from + mtu);
    } else {
      assert SplitFrom(body, mtu, from + mtu) == [];
    }
  }

  lemma FragmentsStep(m: H.Message, mtu: nat, o: nat, done: seq<Bytes>)
    requires mtu > 0 && o <= |m.body| < 0x100_0000
    ensures var end := FB.PieceEnd(|m.body|, mtu, o); var rest := PiecesFrom(m.body, mtu, o);
      && rest[0] == m.body[o..end]
      && rest[1..] == (if end < |m.body| then PiecesFrom(m.body, mtu, end) else [])
      && (rest[1..] != [] <==> end < |m.body|)
      && done + FragmentsFrom(m, mtu, o)
         == done + [H.MarshalHeader(m.header.(fragmentOffset := o, fragmentLength := end - o)) + m.body[o..end]]
            + (if end < |m.body| then FragmentsFrom(m, mtu, end) else [])
  {
    hide H.MarshalHeader;
  }

  lemma FirstPieces(body: Bytes, mtu: nat)
    requires mtu > 0
    ensures var pieces := SplitFrom(body, mtu, 0); PiecesFrom(body, mtu, 0) == if pieces == [] then [[]] else pieces
  {
    if body != [] {
      SplitIsPieces(body, mtu, 0);
    }
  }

  method FragmentHandshake(mtu: nat, m: H.Message) returns (frags: seq<Bytes>)
    requires mtu > 0 && |m.body| < 0x100_0000
    ensures frags == FragmentsFrom(m, mtu, 0)
  {
    hide H.MarshalHeader, FragmentsFrom, PiecesFrom, SplitFrom;
    var pieces := SplitBytes(m.body, mtu);
    FirstPieces(m.body, mtu);
    if pieces == [] {
      pieces := [[]];
    }
    frags := [];
    var offset: nat := 0;
    EmptyUnit(FragmentsFrom(m, mtu, 0));
    while pieces != []
      invariant offset <= |m.body|
      invariant pieces != [] ==> pieces == PiecesFrom(m.body, mtu, offset)
      invariant FragmentsFrom(m, mtu, 0) == if pieces != [] then frags + FragmentsFrom(m, mtu, offset) else frags
      decreases |pieces|
    {
      var piece := pieces[0];
      FragmentsStep(m, mtu, offset, frags);
      var header := m.header.(fragmentOffset := offset, fragmentLength := |piece|);
      frags := frags + [H.MarshalHeader(header) + piece];
      EmptyUnit(frags);
      offset := offset + |piece|;
      pieces := pieces[1..];
    }
  }

  // ---------------------------------------------------------------- outgoing packets

  datatype SendState = SendState(lsn: seq<nat>, items: seq<HC.Item>)

  /** local_sequence_number, long enough to have an entry for the epoch. */
  function Grow(lsn: seq<nat>, epoch: U16): (r: seq<nat>)
    ensures |r| > epoch && |r| >= |lsn|
    ensures forall e :: 0 <= e < |r| ==> r[e] == NextNumber(lsn, e)
  {
    if |lsn| > epoch then lsn else lsn + seq(epoch + 1 - |lsn|, _ => 0)
  }

  function NextNumber(lsn: seq<nat>, epoch: nat): nat {
    if epoch < |lsn| then lsn[epoch] else 0
  }

  function Prepend(done: seq<Record>, r: Result<seq<Record>, RL.Error>): Result<seq<Record>, RL.Error> {
    match r
    case Err(e) => Err(e)
    case Ok(more) => Ok(done + more)
  }

  lemma PrependTwice(a: seq<Record>, b: seq<Record>, r: Result<seq<Record>, RL.Error>)
    ensures Prepend(a, Prepend(b, r)) == Prepend(a + b, r)
    ensures Prepend([], r) == r
    ensures Prepend(a, Ok([])) == Ok(a)
  {
    if r.Ok? {
      assert a + (b + r.value) == (a + b) + r.value;
      assert [] + r.value == r.value;
    }
    assert a + [] == a;
  }

  /** One record a fragment, numbered from next on; also the number after the last one taken. */
  function StampAll(frags: seq<Bytes>, version: RL.ProtocolVersion, epoch: U16, next: nat)
    : (Result<seq<Record>, RL.Error>, nat)
  {
    if frags == [] then (Ok([]), next)
    else if next > RL.MAX_SEQUENCE_NUMBER then (Err(RL.ErrSequenceNumberOverflow), next + 1)
    else
      var header := RL.Header(RL.Handshake, version, epoch, next, |frags[0]| % 0x1_0000);
      var (rest, after) := StampAll(frags[1..], version, epoch, next + 1);
      (Prepend([RawRecord(header, frags[0])], rest), after)
  }

  /** What both ends should have in their caches once a message has crossed. */
  function ItemOf(m: H.Message, epoch: U16, isClient: bool): HC.Item {
    HC.Item(m.header.typ, isClient, epoch, m.header.messageSequence, m.Marshal())
  }

  /** What a batch pushes to the sender's own cache. */
  function ItemsSentBy(pkts: seq<Packet>, isClient: bool): seq<HC.Item> {
    if pkts == [] then []
    else (match pkts[0].content
          case HandshakeContent(m) => [ItemOf(m, pkts[0].epoch, isClient)]
          case Plain(_, _) => []) + ItemsSentBy(pkts[1..], isClient)
  }

  predicate Sendable(p: Packet) {
    p.content.HandshakeContent? ==> |p.content.message.body| < 0x100_0000
  }

  predicate AllSendable(pkts: seq<Packet>) {
    forall i :: 0 <= i < |pkts| ==> Sendable(pkts[i])
  }

  function SendOne(s: SendState, p: Packet, mtu: nat, isClient: bool): (SendState, Result<seq<Record>, RL.Error>)
    requires mtu > 0 && Sendable(p)
  {
    var lsn := Grow(s.lsn, p.epoch);
    match p.content
    case HandshakeContent(m) =>
      var (records, after) := StampAll(FragmentsFrom(m, mtu, 0), p.version, p.epoch, lsn[p.epoch]);
      (SendState(lsn[p.epoch := after], HC.PushSpec(s.items, ItemOf(m, p.epoch, isClient))), records)
    case Plain(contentType, payload) =>
      var number := lsn[p.epoch];
      (SendState(lsn[p.epoch := number + 1], s.items),
       if number > RL.MAX_SEQUENCE_NUMBER then Err(RL.ErrSequenceNumberOverflow)
       else Ok([RawRecord(RL.Header(contentType, p.version, p.epoch, number, |payload| % 0x1_0000), payload)]))
  }

  /** The records of one call; an error abandons the call with its numbers consumed. */
  function SendAll(s: SendState, pkts: seq<Packet>, mtu: nat, isClient: bool): (SendState, Result<seq<Record>, RL.Error>)
    requires mtu > 0 && AllSendable(pkts)
    decreases |pkts|
  {
    if pkts == [] then (s, Ok([]))
    else
      var (s1, r1) := SendOne(s, pkts[0], mtu, isClient);
      match r1
      case Err(e) => (s1, Err(e))
      case Ok(records) =>
        var (s2, r2) := SendAll(s1, pkts[1..], mtu, isClient);
        (s2, Prepend(records, r2))
  }

  function Datagrams(records: seq<Record>, mtu: nat): seq<Bytes> {
    if records == [] then [] else RL.CompactFrom(Wires(records), mtu, [])
  }

  class Sender {
    var localSequenceNumber: seq<nat>
    const cache: HC.HandshakeCache
    const mtu: nat
    const isClient: bool

    ghost function View(): SendState
      reads this, cache
    {
      SendState(localSequenceNumber, cache.cache)
    }

    constructor (cache: HC.HandshakeCache, mtu: nat, isClient: bool)
      ensures this.cache == cache && this.mtu == mtu && this.isClient == isClient
      ensures localSequenceNumber == []
    {
      this.cache, this.mtu, this.isClient := cache, mtu, isClient;
      localSequenceNumber := [];
    }

    method TakeNumber(epoch: U16) returns (number: nat)
      requires |localSequenceNumber| > epoch
      modifies this
      ensures number == old(localSequenceNumber)[epoch]
      ensures localSequenceNumber == old(localSequenceNumber)[epoch := number + 1]
    {
      number := localSequenceNumber[epoch];
      localSequenceNumber := localSequenceNumber[epoch := number + 1];
    }

    method ReserveEpoch(epoch: U16)
      modifies this
      ensures localSequenceNumber == Grow(old(localSequenceNumber), epoch)
    {
      ghost var before := localSequenceNumber;
      while |localSequenceNumber| <= epoch
        invariant |localSequenceNumber| >= |before|
        invariant |localSequenceNumber| <= if |before| > epoch then |before| else epoch + 1
        invariant forall e :: 0 <= e < |localSequenceNumber| ==> localSequenceNumber[e] == NextNumber(before, e)
        decreases epoch + 1 - |localSequenceNumber|
      {
        localSequenceNumber := localSequenceNumber + [0];
      }
    }

    method ProcessPacket(p: Packet) returns (r: Result<seq<Record>, RL.Error>)
      requires p.content.Plain? && mtu > 0
      modifies this
      ensures (View(), r) == SendOne(old(View()), p, mtu, isClient)
    {
      ReserveEpoch(p.epoch);
      var number := TakeNumber(p.epoch);
      if number > RL.MAX_SEQUENCE_NUMBER {
        return Err(RL.ErrSequenceNumberOverflow);
      }
      var header := RL.Header(p.content.contentType, p.version, p.epoch, number, |p.content.payload| % 0x1_0000);
      return Ok([RawRecord(header, p.content.payload)]);
    }

    method ProcessHandshakePacket(p: Packet) returns (r: Result<seq<Record>, RL.Error>)
      requires p.content.HandshakeContent? && mtu > 0 && Sendable(p)
      modifies this
      ensures var lsn := Grow(old(localSequenceNumber), p.epoch);
        var (records, after) := StampAll(FragmentsFrom(p.content.message, mtu, 0), p.version, p.epoch, lsn[p.epoch]);
        r == records && localSequenceNumber == lsn[p.epoch := after]
    {
      var frags := FragmentHandshake(mtu, p.content.message);
      ReserveEpoch(p.epoch);
      ghost var lsn := localSequenceNumber;
      ghost var all := StampAll(frags, p.version, p.epoch, lsn[p.epoch]);
      var records: seq<Record> := [];
      assert frags[0..] == frags;
      PrependTwice(records, [], all.0);
      for i := 0 to |frags|
        invariant |localSequenceNumber| == |lsn|
        invariant localSequenceNumber == lsn[p.epoch := localSequenceNumber[p.epoch]]
        invariant var rest := StampAll(frags[i..], p.version, p.epoch, localSequenceNumber[p.epoch]);
          all.1 == rest.1 &&
          all.0 == Prepend(records, rest.0)
      {
        assert frags[i..][0] == frags[i] && frags[i..][1..] == frags[i + 1..];
        var number := TakeNumber(p.epoch);
        if number > RL.MAX_SEQUENCE_NUMBER {
          return Err(RL.ErrSequenceNumberOverflow);
        }
        var header := RL.Header(RL.Handshake, p.version, p.epoch, number, |frags[i]| % 0x1_0000);
        PrependTwice(records, [RawRecord(header, frags[i])], StampAll(frags[i + 1..], p.version, p.epoch, number + 1).0);
        records := records + [RawRecord(header, frags[i])];
      }
      PrependTwice(records, [], all.0);
      return Ok(records);
    }

    method Send(p: Packet) returns (r: Result<seq<Record>, RL.Error>)
      requires mtu > 0 && Sendable(p)
      modifies this, cache
      ensures (View(), r) == SendOne(old(View()), p, mtu, isClient)
    {
      match p.content {
        case HandshakeContent(m) =>
          var _ := cache.Push(m.Marshal(), p.epoch, m.header.messageSequence, m.header.typ, isClient);
          r := ProcessHandshakePacket(p);
        case Plain(_, _) =>
          r := ProcessPacket(p);
      }
    }

    /** Sends one batch: the datagrams handed to the network, or an error and no datagram. */
    method HandleOutgoingPackets(pkts: seq<Packet>) returns (r: Result<seq<Bytes>, RL.Error>)
      requires mtu > 0 && AllSendable(pkts)
      modifies this, cache
      ensures View() == SendAll(old(View()), pkts, mtu, isClient).0
      ensures r == match SendAll(old(View()), pkts, mtu, isClient).1
                   case Err(e) => Err(e)
                   case Ok(records) => Ok(Datagrams(records, mtu))
    {
      var records: seq<Record> := [];
      ghost var all := SendAll(View(), pkts, mtu, isClient);
      assert pkts[0..] == pkts;
      PrependTwice(records, [], all.1);
      for i := 0 to |pkts|
        invariant var rest := SendAll(View(), pkts[i..], mtu, isClient);
          all.0 == rest.0 &&
          all.1 == Prepend(records, rest.1)
      {
        var p := pkts[i];
        assert pkts[i..][0] == p && pkts[i..][1..] == pkts[i + 1..];
        var sent := Send(p);
        match sent {
          case Err(e) => return Err(e);
          case Ok(more) =>
            PrependTwice(records, more, SendAll(View(), pkts[i + 1..], mtu, isClient).1);
            records := records + more;
        }
      }
      PrependTwice(records, [], all.1);
      if records == [] {
        return Ok([]);
      }
      var datagrams := RL.CompactRawPackets(Wires(records), mtu);
      return Ok(datagrams);
    }
  }

  // ---------------------------------------------------------------- record numbering

  /** Numbers within an epoch increase and stay below what comes next. */
  predicate NumberedBetween(before: seq<nat>, records: seq<Record>, after: seq<nat>) {
    && (forall e :: 0 <= e < 0x1_0000 ==> NextNumber(before, e) <= NextNumber(after, e))
    && (forall i :: 0 <= i < |records| ==>
          var h := records[i].header;
          NextNumber(before, h.epoch) <= h.sequenceNumber < NextNumber(after, h.epoch))
    && Increasing(records)
  }

  predicate Increasing(records: seq<Record>) {
    forall i, j :: 0 <= i < j < |records| && records[i].header.epoch == records[j].header.epoch ==>
      records[i].header.sequenceNumber < records[j].header.sequenceNumber
  }

  lemma {:induction false} StampAllNumbers(frags: seq<Bytes>, version: RL.ProtocolVersion, epoch: U16, next: nat)
    ensures var (r, after) := StampAll(frags, version, epoch, next);
      && next <= after
      && (r.Ok? ==>
            && |r.value| == |frags| && after == next + |frags|
            && forall i :: 0 <= i < |frags| ==>
                 r.value[i] == RawRecord(RL.Header(RL.Handshake, version, epoch, next + i, |frags[i]| % 0x1_0000), frags[i]))
  {
    if frags != [] && next <= RL.MAX_SEQUENCE_NUMBER {
      StampAllNumbers(frags[1..], version, epoch, next + 1);
    }
  }

  function Payloads(records: seq<Record>): seq<Bytes> {
    seq(|records|, i requires 0 <= i < |records| => records[i].payload)
  }

  /** What a packet becomes: records of its version and epoch with the lengths of their payloads,
      which are the fragments of its message or the one payload it has. */
  lemma RecordsCarryThePacket(s: SendState, p: Packet, mtu: nat, isClient: bool)
    requires mtu > 0 && Sendable(p) && SendOne(s, p, mtu, isClient).1.Ok?
    ensures var records := SendOne(s, p, mtu, isClient).1.value;
      && (forall i :: 0 <= i < |records| ==>
            var h := records[i].header;
            && h.version == p.version && h.epoch == p.epoch && h.contentLen == |records[i].payload| % 0x1_0000
            && h.contentType == if p.content.HandshakeContent? then RL.Handshake else p.content.contentType)
      && Payloads(records) == if p.content.HandshakeContent? then FragmentsFrom(p.content.message, mtu, 0)
                              else [p.content.payload]
  {
    hide FragmentsFrom, StampAll;
    if p.content.HandshakeContent? {
      StampAllNumbers(FragmentsFrom(p.content.message, mtu, 0), p.version, p.epoch, Grow(s.lsn, p.epoch)[p.epoch]);
    }
  }

  lemma SendOneNumbers(s: SendState, p: Packet, mtu: nat, isClient: bool)
    requires mtu > 0 && Sendable(p)
    ensures var (s', r) := SendOne(s, p, mtu, isClient);
      NumberedBetween(s.lsn, if r.Ok? then r.value else [], s'.lsn)
  {
    if p.content.HandshakeContent? {
      StampAllNumbers(FragmentsFrom(p.content.message, mtu, 0), p.version, p.epoch, Grow(s.lsn, p.epoch)[p.epoch]);
    }
  }

  lemma NumberedTrans(a: seq<nat>, r1: seq<Record>, b: seq<nat>, r2: seq<Record>, c: seq<nat>)
    requires NumberedBetween(a, r1, b) && NumberedBetween(b, r2, c)
    ensures NumberedBetween(a, r1 + r2, c) && NumberedBetween(a, [], c)
  {
  }

  lemma {:induction false} SendAllNumbers(s: SendState, pkts: seq<Packet>, mtu: nat, isClient: bool)
    requires mtu > 0 && AllSendable(pkts)
    ensures var (s', r) := SendAll(s, pkts, mtu, isClient);
      NumberedBetween(s.lsn, if r.Ok? then r.value else [], s'.lsn)
    decreases |pkts|
  {
    if pkts != [] {
      SendOneNumbers(s, pkts[0], mtu, isClient);
      var (s1, r1) := SendOne(s, pkts[0], mtu, isClient);
      if r1.Ok? {
        SendAllNumbers(s1, pkts[1..], mtu, isClient);
        var (s2, r2) := SendAll(s1, pkts[1..], mtu, isClient);
        NumberedTrans(s.lsn, r1.value, s1.lsn, if r2.Ok? then r2.value else [], s2.lsn);
      }
    }
  }

  predicate RunSendable(calls: seq<seq<Packet>>) {
    forall i :: 0 <= i < |calls| ==> AllSendable(calls[i])
  }

  /** A run of calls, failed ones included: the state and all records ever emitted. */
  function SendRun(calls: seq<seq<Packet>>, mtu: nat, isClient: bool): (SendState, seq<Record>)
    requires mtu > 0 && RunSendable(calls)
  {
    if calls == [] then (SendState([], []), [])
    else
      var init, last := calls[..|calls| - 1], calls[|calls| - 1];
      var (s, records) := SendRun(init, mtu, isClient);
      var (s', r) := SendAll(s, last, mtu, isClient);
      (s', if r.Ok? then records + r.value else records)
  }

  lemma {:induction false} SendRunNumbers(calls: seq<seq<Packet>>, mtu: nat, isClient: bool)
    requires mtu > 0 && RunSendable(calls)
    ensures var (s, records) := SendRun(calls, mtu, isClient);
      NumberedBetween([], records, s.lsn)
  {
    if calls != [] {
      var init, last := calls[..|calls| - 1], calls[|calls| - 1];
      SendRunNumbers(init, mtu, isClient);
      var (s, records) := SendRun(init, mtu, isClient);
      SendAllNumbers(s, last, mtu, isClient);
      var (s', r) := SendAll(s, last, mtu, isClient);
      var new' := if r.Ok? then r.value else [];
      NumberedTrans([], records, s.lsn, new', s'.lsn);
      assert records + [] == records;
    }
  }

  /** Over every run, records of one epoch carry strictly increasing numbers, so no pair of
      epoch and number repeats, and none exceeds 2^48 - 1. */
  lemma RecordNumbersNeverRepeat(calls: seq<seq<Packet>>, mtu: nat, isClient: bool)
    requires mtu > 0 && RunSendable(calls)
    ensures var records := SendRun(calls, mtu, isClient).1;
      && Increasing(records)
      && (forall i, j :: 0 <= i < j < |records| ==>
            (records[i].header.epoch, records[i].header.sequenceNumber)
            != (records[j].header.epoch, records[j].header.sequenceNumber))
      && (forall i :: 0 <= i < |records| ==> records[i].header.sequenceNumber <= 0xFFFF_FFFF_FFFF)
  {
    SendRunNumbers(calls, mtu, isClient);
  }

  /** How many of the records are of an epoch. */
  function CountIn(records: seq<Record>, epoch: U16): nat {
    if records == [] then 0
    else CountIn(records[..|records| - 1], epoch) + if records[|records| - 1].header.epoch == epoch then 1 else 0
  }

  lemma {:induction false} CountAppend(a: seq<Record>, b: seq<Record>, epoch: U16)
    ensures CountIn(a + b, epoch) == CountIn(a, epoch) + CountIn(b, epoch)
  {
    if b == [] {
      EmptyUnit(a);
    } else {
      CountAppend(a, b[..|b| - 1], epoch);
      assert (a + b)[..|a + b| - 1] == a + b[..|b| - 1];
    }
  }

  /** Each record has the next number of its epoch. */
  predicate NoGaps(before: seq<nat>, records: seq<Record>, after: seq<nat>) {
    && (forall i :: 0 <= i < |records| ==>
          var h := records[i].header;
          h.sequenceNumber == NextNumber(before, h.epoch) + CountIn(records[..i], h.epoch))
    && forall e: U16 :: NextNumber(after, e) == NextNumber(before, e) + CountIn(records, e)
  }

  lemma NoGapsTrans(a: seq<nat>, r1: seq<Record>, b: seq<nat>, r2: seq<Record>, c: seq<nat>)
    requires NoGaps(a, r1, b) && NoGaps(b, r2, c)
    ensures NoGaps(a, r1 + r2, c)
  {
    hide CountIn;
    var all := r1 + r2;
    forall i | 0 <= i < |all|
      ensures all[i].header.sequenceNumber
           == NextNumber(a, all[i].header.epoch) + CountIn(all[..i], all[i].header.epoch)
    {
      if i < |r1| {
        assert all[..i] == r1[..i];
      } else {
        assert all[..i] == r1 + r2[..i - |r1|] && all[i] == r2[i - |r1|];
        CountAppend(r1, r2[..i - |r1|], all[i].header.epoch);
      }
    }
    forall e: U16 ensures NextNumber(c, e) == NextNumber(a, e) + CountIn(all, e) {
      CountAppend(r1, r2, e);
    }
  }

  lemma {:induction false} CountSame(records: seq<Record>, epoch: U16, e: U16)
    requires forall i :: 0 <= i < |records| ==> records[i].header.epoch == epoch
    ensures CountIn(records, e) == if e == epoch then |records| else 0
  {
    if records != [] {
      CountSame(records[..|records| - 1], epoch, e);
    }
  }

  lemma OneRunNoGaps(before: seq<nat>, records: seq<Record>, epoch: U16)
    requires forall i :: 0 <= i < |records| ==>
      records[i].header.epoch == epoch && records[i].header.sequenceNumber == NextNumber(before, epoch) + i
    ensures NoGaps(before, records, Grow(before, epoch)[epoch := NextNumber(before, epoch) + |records|])
  {
    hide CountIn;
    forall i | 0 <= i < |records| ensures CountIn(records[..i], epoch) == i {
      CountSame(records[..i], epoch, epoch);
    }
    forall e: U16 ensures CountIn(records, e) == if e == epoch then |records| else 0 {
      CountSame(records, epoch, e);
    }
  }

  lemma SendOneNoGaps(s: SendState, p: Packet, mtu: nat, isClient: bool)
    requires mtu > 0 && Sendable(p) && SendOne(s, p, mtu, isClient).1.Ok?
    ensures var (s', r) := SendOne(s, p, mtu, isClient); NoGaps(s.lsn, r.value, s'.lsn)
  {
    hide StampAll, FragmentsFrom, H.MarshalHeader, CountIn;
    var (s', r) := SendOne(s, p, mtu, isClient);
    if p.content.HandshakeContent? {
      StampAllNumbers(FragmentsFrom(p.content.message, mtu, 0), p.version, p.epoch, Grow(s.lsn, p.epoch)[p.epoch]);
    }
    OneRunNoGaps(s.lsn, r.value, p.epoch);
  }

  lemma {:induction false} SendAllNoGaps(s: SendState, pkts: seq<Packet>, mtu: nat, isClient: bool)
    requires mtu > 0 && AllSendable(pkts) && SendAll(s, pkts, mtu, isClient).1.Ok?
    ensures var (s', r) := SendAll(s, pkts, mtu, isClient); NoGaps(s.lsn, r.value, s'.lsn)
    decreases |pkts|
  {
    hide SendOne, NoGaps;
    if pkts == [] {
      NothingHasNoGaps(s.lsn);
    } else {
      SendOneNoGaps(s, pkts[0], mtu, isClient);
      var (s1, r1) := SendOne(s, pkts[0], mtu, isClient);
      SendAllNoGaps(s1, pkts[1..], mtu, isClient);
      var (s2, r2) := SendAll(s1, pkts[1..], mtu, isClient);
      NoGapsTrans(s.lsn, r1.value, s1.lsn, r2.value, s2.lsn);
    }
  }

  lemma NothingHasNoGaps(lsn: seq<nat>)
    ensures NoGaps(lsn, [], lsn)
  {
  }

  /** No call of the run fails. */
  predicate AllSent(calls: seq<seq<Packet>>, mtu: nat, isClient: bool)
    requires mtu > 0 && RunSendable(calls)
  {
    calls != [] ==>
      var init := calls[..|calls| - 1];
      AllSent(init, mtu, isClient) && SendAll(SendRun(init, mtu, isClient).0, calls[|calls| - 1], mtu, isClient).1.Ok?
  }

  /** When no call fails, the records of an epoch are numbered 0, 1, 2 and so on, without a gap
      and across calls. */
  lemma {:induction false} RecordNumbersHaveNoGaps(calls: seq<seq<Packet>>, mtu: nat, isClient: bool)
    requires mtu > 0 && RunSendable(calls) && AllSent(calls, mtu, isClient)
    ensures var (s, records) := SendRun(calls, mtu, isClient);
      && NoGaps([], records, s.lsn)
      && forall i :: 0 <= i < |records| ==>
           records[i].header.sequenceNumber == CountIn(records[..i], records[i].header.epoch)
  {
    hide SendAll, CountIn;
    if calls == [] {
      NothingHasNoGaps([]);
    } else {
      var init, last := calls[..|calls| - 1], calls[|calls| - 1];
      RecordNumbersHaveNoGaps(init, mtu, isClient);
      var (s, records) := SendRun(init, mtu, isClient);
      SendAllNoGaps(s, last, mtu, isClient);
      var (s', r) := SendAll(s, last, mtu, isClient);
      NoGapsTrans([], records, s.lsn, r.value, s'.lsn);
    }
  }

  // ---------------------------------------------------------------- incoming records

  /** The pop loop: every message that is ready, in order. */
  function Drain(s: FB.State): (FB.State, seq<(Bytes, U16)>)
    decreases |s.cache|
  {
    var (s1, r) := FB.PopSpec(s);
    match r
    case Err(_) => (s, [])
    case Ok(out) =>
      assert s1.cache.Keys == s.cache.Keys - {s.current};
      assert |s1.cache.Keys| == |s1.cache| && |s.cache.Keys| == |s.cache|;
      var (s2, rest) := Drain(s1);
      (s2, [out] + rest)
  }

  /** The pop loop ends in a pop that does not return. */
  predicate Hangs(s: FB.State) {
    FB.PopSpec(Drain(s).0).1 == Err(FB.NoReturn)
  }

  /** A popped message goes to the cache, unless it does not parse. */
  function CachePopped(accepts: HC.BodyParser, items: seq<HC.Item>, out: (Bytes, U16), isClient: bool): seq<HC.Item> {
    match HC.UnmarshalMessage(accepts, out.0)
    case None => items
    case Some(m) => HC.PushSpec(items, HC.Item(m.header.typ, isClient, out.1, m.header.messageSequence, out.0))
  }

  function CacheAll(accepts: HC.BodyParser, items: seq<HC.Item>, outs: seq<(Bytes, U16)>, isClient: bool): seq<HC.Item>
    decreases |outs|
  {
    if outs == [] then items
    else CacheAll(accepts, CachePopped(accepts, items, outs[0], isClient), outs[1..], isClient)
  }

  /** One record that passed replay protection and decryption: the fragment buffer after it
      and the messages it released. A record that fails to parse releases nothing. */
  function Receive(s: FB.State, pkt: Bytes): (FB.State, seq<(Bytes, U16)>) {
    var (s1, r) := FB.PushSpec(s, pkt);
    if r == Ok(true) then Drain(s1) else (s1, [])
  }

  predicate ReceiveHangs(s: FB.State, pkt: Bytes) {
    var (s1, r) := FB.PushSpec(s, pkt);
    r == Ok(true) && Hangs(s1)
  }

  lemma {:induction false} DrainStops(s: FB.State)
    ensures var (s', outs) := Drain(s);
      FB.PopSpec(s').1.Err? && FB.PopSpec(s').0 == s' && s'.cache.Keys <= s.cache.Keys
    decreases |s.cache|
  {
    hide FB.Assemble, H.MarshalHeader;
    var (s1, r) := FB.PopSpec(s);
    if r.Ok? {
      assert s1.cache.Keys == s.cache.Keys - {s.current};
      assert |s1.cache.Keys| == |s1.cache| && |s.cache.Keys| == |s.cache|;
      DrainStops(s1);
    }
  }

  /** The reader does not come back exactly when the message its pop loop has got to is one
      that append_message loops on. */
  lemma HangsExactly(s: FB.State)
    ensures var s' := Drain(s).0;
      Hangs(s) <==> s'.current in s'.cache && FB.ReachesStuck(s'.cache[s'.current], 0)
  {
    hide Drain;
    DrainStops(s);
    var s' := Drain(s).0;
    if s'.current in s'.cache {
      FB.AssembleFollowsChain(0, s'.cache[s'.current]);
    }
  }

  /** One plain record makes it so. */
  lemma RecordThatHangs(s: FB.State, record: RL.Header, typ: H.HandshakeType)
    requires record.contentType == RL.Handshake && record.sequenceNumber <= RL.MAX_SEQUENCE_NUMBER
    requires record.version == RL.PROTOCOL_VERSION1_0 || record.version == RL.PROTOCOL_VERSION1_2
    requires s.current in s.cache ==> FB.FirstAt(s.cache[s.current], 0).None?
    ensures ReceiveHangs(s, RL.Marshal(record).value + H.MarshalHeader(FB.StuckHeader(typ, s.current)))
  {
    hide FB.PushSpec, FB.PopSpec;
    FB.StuckRecordIsAccepted(s, record, typ);
  }

  lemma PopShrinks(s: FB.State)
    requires FB.PopSpec(s).1.Ok?
    ensures |FB.PopSpec(s).0.cache| < |s.cache|
  {
    hide FB.Assemble, H.MarshalHeader;
    var t := FB.PopSpec(s).0;
    assert t.cache.Keys == s.cache.Keys - {s.current};
    assert |t.cache.Keys| == |t.cache| && |s.cache.Keys| == |s.cache|;
  }

  class Reader {
    const fragmentBuffer: FB.FragmentBuffer
    const cache: HC.HandshakeCache
    const isClient: bool
    const accepts: HC.BodyParser

    constructor (fragmentBuffer: FB.FragmentBuffer, cache: HC.HandshakeCache, isClient: bool, accepts: HC.BodyParser)
      ensures this.fragmentBuffer == fragmentBuffer && this.cache == cache
      ensures this.isClient == isClient && this.accepts == accepts
    {
      this.fragmentBuffer, this.cache, this.isClient, this.accepts := fragmentBuffer, cache, isClient, accepts;
    }

    /** The handshake part of handle_incoming_packet. */
    method HandleHandshakeRecord(pkt: Bytes) returns (isHandshake: bool)
      requires !ReceiveHangs(fragmentBuffer.View(), pkt)
      modifies fragmentBuffer, cache
      ensures isHandshake <==> FB.PushSpec(old(fragmentBuffer.View()), pkt).1 == Ok(true)
      ensures var (s, outs) := Receive(old(fragmentBuffer.View()), pkt);
        && fragmentBuffer.View() == s
        && cache.cache == CacheAll(accepts, old(cache.cache), outs, !isClient)
    {
      hide FB.PopSpec, FB.PushSpec, HC.UnmarshalMessage;
      var pushed := fragmentBuffer.Push(pkt);
      if pushed != Ok(true) {
        return false;
      }
      ghost var all := Drain(fragmentBuffer.View());
      ghost var items := cache.cache;
      var going := true;
      while going
        invariant going ==> !Hangs(fragmentBuffer.View())
        invariant var rest := if going then Drain(fragmentBuffer.View()) else (fragmentBuffer.View(), []);
          && all.0 == rest.0
          && CacheAll(accepts, items, all.1, !isClient) == CacheAll(accepts, cache.cache, rest.1, !isClient)
        decreases going, |fragmentBuffer.cache|
      {
        ghost var s := fragmentBuffer.View();
        var popped := fragmentBuffer.Pop();
        FB.PopTakesItOut(s);
        match popped {
          case Err(_) => going := false;
          case Ok(out) =>
            ghost var tail := Drain(fragmentBuffer.View()).1;
            assert ([out] + tail)[0] == out && ([out] + tail)[1..] == tail;
            PopShrinks(s);
            match HC.UnmarshalMessage(accepts, out.0) {
              case None =>
              case Some(m) =>
                var _ := cache.Push(out.0, out.1, m.header.messageSequence, m.header.typ, !isClient);
            }
        }
      }
      return true;
    }
  }
}
