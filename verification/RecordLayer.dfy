/** The DTLS record layer (section 4.1 of RFC 6347): the 13-byte record header,
    packing records into datagrams and taking datagrams apart again. */
module RecordLayer {
  import opened Bytes
  import opened Wrappers
  import S = Streams

  const RECORD_LAYER_HEADER_SIZE: nat := 13
  const MAX_SEQUENCE_NUMBER: nat := 0xFFFF_FFFF_FFFF

  datatype Error =
    | ErrUnexpectedEof
    | ErrUnsupportedProtocolVersion
    | ErrSequenceNumberOverflow
    | ErrInvalidPacketLength

  datatype ContentType = ChangeCipherSpec | Alert | Handshake | ApplicationData | Invalid {
    function Code(): Byte {
      match this
      case ChangeCipherSpec => 20
      case Alert => 21
      case Handshake => 22
      case ApplicationData => 23
      case Invalid => 24
    }

    static function FromCode(b: Byte): ContentType {
      match b
      case 20 => ChangeCipherSpec
      case 21 => Alert
      case 22 => Handshake
      case 23 => ApplicationData
      case _ => Invalid
    }
  }

  datatype ProtocolVersion = ProtocolVersion(major: Byte, minor: Byte)

  const PROTOCOL_VERSION1_0 := ProtocolVersion(0xfe, 0xff)
  const PROTOCOL_VERSION1_2 := ProtocolVersion(0xfe, 0xfd)

  // sequenceNumber is a u64 in memory and 48 bits on the wire.
  datatype Header = Header(
    contentType: ContentType,
    version: ProtocolVersion,
    epoch: U16,
    sequenceNumber: nat,
    contentLen: U16)

  function Marshal(h: Header): (r: Result<Bytes, Error>)
    ensures r.Ok? <==> h.sequenceNumber <= MAX_SEQUENCE_NUMBER
    ensures r.Ok? ==> |r.value| == RECORD_LAYER_HEADER_SIZE
  {
    if h.sequenceNumber > MAX_SEQUENCE_NUMBER then
      Err(ErrSequenceNumberOverflow)
    else
      Ok([h.contentType.Code(), h.version.major, h.version.minor]
         + Be16(h.epoch) + Be48(h.sequenceNumber) + Be16(h.contentLen))
  }

  function Unmarshal(b: Bytes): (r: Result<Header, Error>)
    ensures r.Ok? ==> |b| >= RECORD_LAYER_HEADER_SIZE
  {
    if |b| < 11 then
      Err(ErrUnexpectedEof)
    else
      var version := ProtocolVersion(b[1], b[2]);
      if version != PROTOCOL_VERSION1_0 && version != PROTOCOL_VERSION1_2 then
        Err(ErrUnsupportedProtocolVersion)
      else if |b| < RECORD_LAYER_HEADER_SIZE then
        Err(ErrUnexpectedEof)
      else
        Ok(Header(ContentType.FromCode(b[0]), version, Read16(b[3..5]), Read48(b[5..11]), Read16(b[11..13])))
  }

  /** A header that could be written is read back unchanged, whatever follows it. */
  lemma HeaderRoundTrip(h: Header, rest: Bytes)
    requires h.sequenceNumber <= MAX_SEQUENCE_NUMBER
    requires h.version == PROTOCOL_VERSION1_0 || h.version == PROTOCOL_VERSION1_2
    ensures Unmarshal(Marshal(h).value + rest) == Ok(h)
  {
    var m := Marshal(h).value;
    var b := m + rest;
    assert b[3..5] == m[3..5] == Be16(h.epoch);
    assert b[5..11] == m[5..11] == Be48(h.sequenceNumber);
    assert b[11..13] == m[11..13] == Be16(h.contentLen);
  }

  /** Where each field is on the wire, the most significant byte first. */
  lemma HeaderLayout(h: Header)
    requires h.sequenceNumber <= MAX_SEQUENCE_NUMBER
    ensures var m := Marshal(h).value;
      && m[0] == (match h.contentType case ChangeCipherSpec => 20 case Alert => 21 case Handshake => 22
                                      case ApplicationData => 23 case Invalid => 24)
      && m[1] == h.version.major && m[2] == h.version.minor
      && Number(m[3..5]) == h.epoch && Number(m[5..11]) == h.sequenceNumber && Number(m[11..13]) == h.contentLen
  {
    hide Number, Be16, Be48;
    var m := Marshal(h).value;
    BigEndian(h.epoch, 0, 0, h.sequenceNumber);
    BigEndian(h.contentLen, 0, 0, 0);
    assert m[3..5] == Be16(h.epoch);
    assert m[5..11] == Be48(h.sequenceNumber);
    assert m[11..13] == Be16(h.contentLen);
  }

  /** The header's fields, written one by one. */
  method MarshalTo(h: Header, w: S.Writer) returns (r: Result<(), Error>)
    modifies w
    ensures r.Ok? <==> Marshal(h).Ok?
    ensures r.Ok? ==> w.written == old(w.written) + Marshal(h).value
    ensures r.Err? ==> r.error == ErrSequenceNumberOverflow && w.written == old(w.written)
  {
    hide Be16, Be48;
    if h.sequenceNumber > MAX_SEQUENCE_NUMBER {
      return Err(ErrSequenceNumberOverflow);
    }
    w.WriteU8(h.contentType.Code());
    w.WriteU8(h.version.major);
    w.WriteU8(h.version.minor);
    w.WriteU16(h.epoch);
    w.WriteAll(Be48(h.sequenceNumber));
    w.WriteU16(h.contentLen);
    var start := [h.contentType.Code(), h.version.major, h.version.minor];
    assert w.written == old(w.written) + start + Be16(h.epoch) + Be48(h.sequenceNumber) + Be16(h.contentLen) by {
      assert old(w.written) + [h.contentType.Code()] + [h.version.major] + [h.version.minor] == old(w.written) + start;
    }
    Assoc(old(w.written), start, Be16(h.epoch));
    Assoc(old(w.written), start + Be16(h.epoch), Be48(h.sequenceNumber));
    Assoc(old(w.written), start + Be16(h.epoch) + Be48(h.sequenceNumber), Be16(h.contentLen));
    return Ok(());
  }

  /** And read one by one; the version is checked before the length is read. */
  method UnmarshalFrom(rd: S.Reader) returns (r: Result<Header, Error>)
    modifies rd
    ensures r == Unmarshal(old(rd.rest))
    ensures r.Ok? ==> rd.rest == old(rd.rest)[RECORD_LAYER_HEADER_SIZE..]
  {
    hide Read16, Read48, Read24;
    ghost var b := rd.rest;
    var contentType :- rd.ReadU8(ErrUnexpectedEof);
    var major :- rd.ReadU8(ErrUnexpectedEof);
    var minor :- rd.ReadU8(ErrUnexpectedEof);
    assert rd.rest == b[3..];
    var epoch :- rd.ReadU16(ErrUnexpectedEof);
    assert rd.rest == b[5..] && b[3..][..2] == b[3..5];
    var sequence :- rd.ReadExact(6, ErrUnexpectedEof);
    assert rd.rest == b[11..] && sequence == b[5..11];
    var version := ProtocolVersion(major, minor);
    if version != PROTOCOL_VERSION1_0 && version != PROTOCOL_VERSION1_2 {
      return Err(ErrUnsupportedProtocolVersion);
    }
    var contentLen :- rd.ReadU16(ErrUnexpectedEof);
    assert rd.rest == b[13..] && b[11..][..2] == b[11..13];
    return Ok(Header(ContentType.FromCode(contentType), version, epoch, Read48(sequence), contentLen));
  }

  /** A raw record: at least a header, whose last two bytes give the length of the rest. */
  predicate IsRecord(r: Bytes) {
    |r| >= RECORD_LAYER_HEADER_SIZE &&
    |r| == RECORD_LAYER_HEADER_SIZE + Read16(r[RECORD_LAYER_HEADER_SIZE - 2..RECORD_LAYER_HEADER_SIZE])
  }

  predicate AreRecords(rs: seq<Bytes>) {
    forall i :: 0 <= i < |rs| ==> IsRecord(rs[i])
  }

  /** What a datagram may hold: records, the last of which has a payload. */
  predicate Unpackable(rs: seq<Bytes>) {
    AreRecords(rs) && (rs != [] ==> |rs[|rs| - 1]| > RECORD_LAYER_HEADER_SIZE)
  }

  function RecordLength(buf: Bytes, offset: nat): nat
    requires offset + RECORD_LAYER_HEADER_SIZE <= |buf|
  {
    RECORD_LAYER_HEADER_SIZE
    + Read16(buf[offset + RECORD_LAYER_HEADER_SIZE - 2..offset + RECORD_LAYER_HEADER_SIZE])
  }

  function UnpackFrom(buf: Bytes, offset: nat): Result<seq<Bytes>, Error>
    requires offset <= |buf|
    decreases |buf| - offset
  {
    if offset == |buf| then
      Ok([])
    else if |buf| - offset <= RECORD_LAYER_HEADER_SIZE then
      Err(ErrInvalidPacketLength)
    else
      var n := RecordLength(buf, offset);
      if offset + n > |buf| then
        Err(ErrInvalidPacketLength)
      else
        match UnpackFrom(buf, offset + n)
        case Err(e) => Err(e)
        case Ok(rest) => Ok([buf[offset..offset + n]] + rest)
  }

  /** unpack_datagram on the whole buffer. */
  function Unpack(buf: Bytes): Result<seq<Bytes>, Error> {
    UnpackFrom(buf, 0)
  }

  method UnpackDatagram(buf: Bytes) returns (r: Result<seq<Bytes>, Error>)
    ensures r == Unpack(buf)
  {
    var out: seq<Bytes> := [];
    var offset := 0;
    assert forall rest: seq<Bytes> :: out + rest == rest;
    while |buf| != offset
      invariant offset <= |buf|
      invariant Unpack(buf) == match UnpackFrom(buf, offset)
                               case Err(e) => Err(e)
                               case Ok(rest) => Ok(out + rest)
      decreases |buf| - offset
    {
      if |buf| - offset <= RECORD_LAYER_HEADER_SIZE {
        return Err(ErrInvalidPacketLength);
      }
      var n := RecordLength(buf, offset);
      if offset + n > |buf| {
        return Err(ErrInvalidPacketLength);
      }
      ghost var tail := UnpackFrom(buf, offset + n);
      assert tail.Ok? ==>
        out + ([buf[offset..offset + n]] + tail.value) == (out + [buf[offset..offset + n]]) + tail.value;
      out := out + [buf[offset..offset + n]];
      offset := offset + n;
    }
    assert out + [] == out;
    return Ok(out);
  }

  /** Whatever unpack_datagram accepts is exactly a concatenation of records. */
  lemma {:induction false} UnpackSound(buf: Bytes, offset: nat)
    requires offset <= |buf|
    requires UnpackFrom(buf, offset).Ok?
    ensures Unpackable(UnpackFrom(buf, offset).value)
    ensures Concat(UnpackFrom(buf, offset).value) == buf[offset..]
    decreases |buf| - offset
  {
    hide Read16;
    if offset != |buf| {
      var n := RecordLength(buf, offset);
      UnpackSound(buf, offset + n);
      var r := buf[offset..offset + n];
      assert r[11..13] == buf[offset + 11..offset + 13];
      OneMoreRecord(r, UnpackFrom(buf, offset + n).value);
      assert buf[offset..] == r + buf[offset + n..];
    }
  }

  lemma OneMoreRecord(r: Bytes, rest: seq<Bytes>)
    requires IsRecord(r) && |r| >= RECORD_LAYER_HEADER_SIZE && Unpackable(rest)
    ensures rest != [] || |r| > RECORD_LAYER_HEADER_SIZE ==> Unpackable([r] + rest)
    ensures Concat([r] + rest) == r + Concat(rest)
  {
    hide IsRecord;
    assert ([r] + rest)[1..] == rest;
  }

  lemma {:induction false} UnpackComplete(pre: Bytes, rs: seq<Bytes>)
    requires Unpackable(rs)
    ensures UnpackFrom(pre + Concat(rs), |pre|) == Ok(rs)
    decreases rs
  {
    hide Read16;
    var buf := pre + Concat(rs);
    if rs != [] {
      var r := rs[0];
      assert buf == (pre + r) + Concat(rs[1..]);
      assert r[11..13] == buf[|pre| + 11..|pre| + 13];
      assert buf[|pre|..|pre| + |r|] == r;
      if |rs| > 1 {
        assert Concat(rs[1..]) == rs[1] + Concat(rs[2..]);
        assert IsRecord(rs[1]);
      } else {
        assert rs[|rs| - 1] == r;
      }
      UnpackComplete(pre + r, rs[1..]);
      assert rs == [r] + rs[1..];
    }
  }

  /** unpack_datagram succeeds exactly on the concatenations of records that end in a
      record with a payload, and returns those records. */
  lemma UnpackExact(buf: Bytes, rs: seq<Bytes>)
    ensures Unpack(buf) == Ok(rs) <==> Unpackable(rs) && Concat(rs) == buf
  {
    if Unpack(buf) == Ok(rs) {
      UnpackSound(buf, 0);
      assert buf[0..] == buf;
    }
    if Unpackable(rs) && Concat(rs) == buf {
      UnpackComplete([], rs);
      assert [] + Concat(rs) == buf;
    }
  }

  /** compact_raw_packets, from packet i on with a datagram already begun. */
  function CompactFrom(raw: seq<Bytes>, mtu: nat, current: Bytes): (out: seq<Bytes>)
    ensures out != []
    decreases |raw|
  {
    if raw == [] then
      [current]
    else if current != [] && |current| + |raw[0]| >= mtu then
      [current] + CompactFrom(raw[1..], mtu, raw[0])
    else
      CompactFrom(raw[1..], mtu, current + raw[0])
  }

  method CompactRawPackets(raw: seq<Bytes>, mtu: nat) returns (out: seq<Bytes>)
    ensures out == CompactFrom(raw, mtu, [])
  {
    var combined: seq<Bytes> := [];
    var current: Bytes := [];
    assert raw[0..] == raw;
    for i := 0 to |raw|
      invariant CompactFrom(raw, mtu, []) == combined + CompactFrom(raw[i..], mtu, current)
    {
      assert raw[i..][0] == raw[i] && raw[i..][1..] == raw[i + 1..];
      if current != [] && |current| + |raw[i]| >= mtu {
        assert combined + ([current] + CompactFrom(raw[i + 1..], mtu, raw[i]))
            == (combined + [current]) + CompactFrom(raw[i + 1..], mtu, raw[i]);
        combined := combined + [current];
        current := [];
        assert current + raw[i] == raw[i];
      }
      current := current + raw[i];
    }
    combined := combined + [current];
    return combined;
  }

  predicate NonEmptyPayloads(rs: seq<Bytes>) {
    forall i :: 0 <= i < |rs| ==> |rs[i]| > RECORD_LAYER_HEADER_SIZE
  }

  /** The records of all datagrams, in order. */
  function UnpackAll(datagrams: seq<Bytes>): seq<Bytes> {
    if datagrams == [] then []
    else (match Unpack(datagrams[0]) case Ok(rs) => rs case Err(_) => []) + UnpackAll(datagrams[1..])
  }

  /** A list of records cut into consecutive groups, one a datagram. */
  predicate IsGrouping(groups: seq<seq<Bytes>>, datagrams: seq<Bytes>, mtu: nat) {
    && |groups| == |datagrams|
    && forall i :: 0 <= i < |groups| ==>
         && groups[i] != []
         && datagrams[i] == Concat(groups[i])
         && (|groups[i]| >= 2 ==> |datagrams[i]| < mtu)
  }

  /** A datagram is followed by another only when the next record would have brought it to the
      MTU. */
  predicate IsFull(groups: seq<seq<Bytes>>, datagrams: seq<Bytes>, mtu: nat)
    requires IsGrouping(groups, datagrams, mtu)
  {
    forall i :: 0 <= i < |groups| - 1 ==> |datagrams[i]| + |groups[i + 1][0]| >= mtu
  }

  function Flatten(groups: seq<seq<Bytes>>): seq<Bytes> {
    if groups == [] then [] else groups[0] + Flatten(groups[1..])
  }

  /** Packing only groups consecutive records: nothing is lost, split or reordered, a datagram
      that holds two or more records is shorter than the MTU, and no datagram is closed before
      it has to be. */
  lemma {:induction false} CompactGroups(raw: seq<Bytes>, mtu: nat, group: seq<Bytes>) returns (groups: seq<seq<Bytes>>)
    requires forall i :: 0 <= i < |raw| ==> raw[i] != []
    requires group == [] ==> raw != []
    requires group != [] ==> Concat(group) != []
    requires |group| >= 2 ==> |Concat(group)| < mtu
    ensures IsGrouping(groups, CompactFrom(raw, mtu, Concat(group)), mtu)
    ensures IsFull(groups, CompactFrom(raw, mtu, Concat(group)), mtu)
    ensures Flatten(groups) == group + raw
    decreases |raw|
  {
    hide IsGrouping, IsFull, Flatten;
    var current := Concat(group);
    if raw == [] {
      groups := [group];
      OneGroup(group, mtu);
      EmptyUnit(group);
    } else if current != [] && |current| + |raw[0]| >= mtu {
      assert Concat([raw[0]]) == raw[0];
      var rest := CompactGroups(raw[1..], mtu, [raw[0]]);
      groups := [group] + rest;
      GroupsFit(rest, CompactFrom(raw[1..], mtu, raw[0]), mtu);
      FirstOfFirst(rest, [raw[0]] + raw[1..]);
      OneMoreGroup(group, rest, CompactFrom(raw[1..], mtu, raw[0]), mtu);
      assert [raw[0]] + raw[1..] == raw;
    } else {
      ConcatSnoc(group, raw[0]);
      groups := CompactGroups(raw[1..], mtu, group + [raw[0]]);
      assert (group + [raw[0]]) + raw[1..] == group + raw;
    }
  }

  lemma OneGroup(group: seq<Bytes>, mtu: nat)
    requires group != [] && (|group| >= 2 ==> |Concat(group)| < mtu)
    ensures IsGrouping([group], [Concat(group)], mtu) && IsFull([group], [Concat(group)], mtu) && Flatten([group]) == group
  {
    assert [group][1..] == [] && group + [] == group;
  }

  lemma GroupsFit(groups: seq<seq<Bytes>>, datagrams: seq<Bytes>, mtu: nat)
    requires IsGrouping(groups, datagrams, mtu) && datagrams != []
    ensures groups != [] && groups[0] != []
  {
  }

  lemma OneMoreGroup(group: seq<Bytes>, rest: seq<seq<Bytes>>, datagrams: seq<Bytes>, mtu: nat)
    requires group != [] && (|group| >= 2 ==> |Concat(group)| < mtu)
    requires rest != [] && IsGrouping(rest, datagrams, mtu) && IsFull(rest, datagrams, mtu)
    requires rest[0] != [] && |Concat(group)| + |rest[0][0]| >= mtu
    ensures IsGrouping([group] + rest, [Concat(group)] + datagrams, mtu)
    ensures IsFull([group] + rest, [Concat(group)] + datagrams, mtu)
    ensures Flatten([group] + rest) == group + Flatten(rest)
  {
    hide Flatten, Concat, IsFull;
    var groups, all := [group] + rest, [Concat(group)] + datagrams;
    assert forall i :: 0 < i < |groups| ==> groups[i] == rest[i - 1];
    assert forall i :: 0 < i < |all| ==> all[i] == datagrams[i - 1];
    OneMoreIsFull(group, rest, datagrams, mtu);
    FlattenOneMore(group, rest);
  }

  lemma FlattenOneMore(group: seq<Bytes>, rest: seq<seq<Bytes>>)
    ensures Flatten([group] + rest) == group + Flatten(rest)
  {
    assert ([group] + rest)[1..] == rest;
  }

  lemma OneMoreIsFull(group: seq<Bytes>, rest: seq<seq<Bytes>>, datagrams: seq<Bytes>, mtu: nat)
    requires rest != [] && IsGrouping(rest, datagrams, mtu) && IsFull(rest, datagrams, mtu)
    requires rest[0] != [] && |Concat(group)| + |rest[0][0]| >= mtu
    requires IsGrouping([group] + rest, [Concat(group)] + datagrams, mtu)
    ensures IsFull([group] + rest, [Concat(group)] + datagrams, mtu)
  {
    hide Concat;
    var groups, all := [group] + rest, [Concat(group)] + datagrams;
    forall i | 0 <= i < |groups| - 1 ensures |all[i]| + |groups[i + 1][0]| >= mtu {
      if i > 0 {
        assert all[i] == datagrams[i - 1] && groups[i + 1] == rest[i];
      }
    }
  }

  lemma FirstOfFirst(groups: seq<seq<Bytes>>, all: seq<Bytes>)
    requires groups != [] && groups[0] != [] && Flatten(groups) == all
    ensures all != [] && groups[0][0] == all[0]
  {
  }

  lemma {:induction false} UnpackGroups(groups: seq<seq<Bytes>>, datagrams: seq<Bytes>, mtu: nat)
    requires IsGrouping(groups, datagrams, mtu)
    requires forall i :: 0 <= i < |groups| ==> Unpackable(groups[i])
    ensures UnpackAll(datagrams) == Flatten(groups)
    ensures forall i :: 0 <= i < |datagrams| ==> Unpack(datagrams[i]) == Ok(groups[i])
  {
    if groups != [] {
      UnpackExact(datagrams[0], groups[0]);
      UnpackGroups(groups[1..], datagrams[1..], mtu);
      forall i | 0 <= i < |datagrams|
        ensures Unpack(datagrams[i]) == Ok(groups[i])
      {
        if i > 0 {
          assert datagrams[i] == datagrams[1..][i - 1];
        }
      }
    }
  }

  lemma {:induction false} FlattenUnpackable(groups: seq<seq<Bytes>>, rs: seq<Bytes>)
    requires Flatten(groups) == rs && AreRecords(rs) && NonEmptyPayloads(rs)
    ensures forall i :: 0 <= i < |groups| ==> Unpackable(groups[i])
  {
    if groups != [] {
      var rest := Flatten(groups[1..]);
      assert forall i :: 0 <= i < |groups[0]| ==> groups[0][i] == rs[i];
      assert forall i :: 0 <= i < |rest| ==> rest[i] == rs[|groups[0]| + i];
      FlattenUnpackable(groups[1..], rest);
      forall i | 0 <= i < |groups| ensures Unpackable(groups[i]) {
        if i > 0 {
          assert groups[i] == groups[1..][i - 1];
        }
      }
    }
  }

  /** Datagram packing round trip. */
  lemma CompactRoundTrip(raw: seq<Bytes>, mtu: nat) returns (groups: seq<seq<Bytes>>)
    requires raw != [] && AreRecords(raw) && NonEmptyPayloads(raw)
    ensures IsGrouping(groups, CompactFrom(raw, mtu, []), mtu) && IsFull(groups, CompactFrom(raw, mtu, []), mtu)
    ensures Flatten(groups) == raw
    ensures UnpackAll(CompactFrom(raw, mtu, [])) == raw
    ensures forall i :: 0 <= i < |groups| ==> Unpack(CompactFrom(raw, mtu, [])[i]) == Ok(groups[i])
  {
    groups := CompactGroups(raw, mtu, []);
    assert [] + raw == raw;
    FlattenUnpackable(groups, raw);
    UnpackGroups(groups, CompactFrom(raw, mtu, []), mtu);
  }
}
