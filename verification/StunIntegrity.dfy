/** What a message is built from: the setters, among them MESSAGE-INTEGRITY and FINGERPRINT
    (sections 15.4 and 15.5 of RFC 5389), which rewrite the length field before they digest
    the buffer. */
module StunIntegrity {
  import opened Bytes
  import opened Wrappers
  import opened Stun

  const MESSAGE_INTEGRITY_SIZE: nat := 20
  const FINGERPRINT_SIZE: nat := 4
  const FINGERPRINT_XOR_VALUE: bv32 := 0x5354554e

  const ATTR_USERNAME: U16 := 0x0006
  const ATTR_REALM: U16 := 0x0014
  const ATTR_NONCE: U16 := 0x0015
  const ATTR_SOFTWARE: U16 := 0x8022

  /** HMAC-SHA1 gives twenty bytes; nothing else is known of it, or of CRC-32. */
  type Tag = b: Bytes | |b| == MESSAGE_INTEGRITY_SIZE witness Zeros(MESSAGE_INTEGRITY_SIZE)

  datatype Digests = Digests(hmac: (Bytes, Bytes) -> Tag, crc: Bytes -> bv32)

  // ---------------------------------------------------------------- lookups

  /** The index of the first attribute of the type, or the number of attributes. */
  function Find(attributes: seq<Attribute>, t: U16): (i: nat)
    ensures i <= |attributes|
    ensures i < |attributes| ==> attributes[i].typ == t
    ensures forall j :: 0 <= j < i ==> attributes[j].typ != t
  {
    if attributes == [] || attributes[0].typ == t then 0 else 1 + Find(attributes[1..], t)
  }

  method Get(attributes: seq<Attribute>, t: U16) returns (v: Result<Bytes, Error>)
    ensures v == var i := Find(attributes, t);
      if i < |attributes| then Ok(attributes[i].value) else Err(ErrAttributeNotFound)
  {
    for i := 0 to |attributes|
      invariant forall j :: 0 <= j < i ==> attributes[j].typ != t
    {
      if attributes[i].typ == t {
        return Ok(attributes[i].value);
      }
    }
    return Err(ErrAttributeNotFound);
  }

  // ---------------------------------------------------------------- adding

  /** The length field holds the size the message will have, only while it is digested. */
  function Announced(m: State, size: nat): State {
    WriteLengthSpec(m.(length := m.length + size + ATTRIBUTE_HEADER_SIZE))
  }

  function AddIntegritySpec(d: Digests, key: Bytes, m: State): (State, Result<(), Error>) {
    if Find(m.attributes, ATTR_FINGERPRINT) < |m.attributes| then (m, Err(ErrFingerprintBeforeIntegrity))
    else
      var m1 := Announced(m, MESSAGE_INTEGRITY_SIZE);
      (AddSpec(m1.(length := m.length), ATTR_MESSAGE_INTEGRITY, d.hmac(key, m1.raw)), Ok(()))
  }

  method AddIntegrity(d: Digests, key: Bytes, m: Message) returns (r: Result<(), Error>)
    modifies m
    ensures (m.View(), r) == AddIntegritySpec(d, key, old(m.View()))
  {
    hide AddSpec, WriteLengthSpec;
    for i := 0 to |m.attributes|
      invariant forall j :: 0 <= j < i ==> m.attributes[j].typ != ATTR_FINGERPRINT
    {
      if m.attributes[i].typ == ATTR_FINGERPRINT {
        return Err(ErrFingerprintBeforeIntegrity);
      }
    }
    var length := m.length;
    m.length := m.length + MESSAGE_INTEGRITY_SIZE + ATTRIBUTE_HEADER_SIZE;
    m.WriteLength();
    var v := d.hmac(key, m.raw);
    m.length := length;
    m.Add(ATTR_MESSAGE_INTEGRITY, v);
    return Ok(());
  }

  function FingerprintValue(d: Digests, b: Bytes): U32 {
    (d.crc(b) ^ FINGERPRINT_XOR_VALUE) as int
  }

  function AddFingerprintSpec(d: Digests, m: State): State {
    var m1 := Announced(m, FINGERPRINT_SIZE);
    AddSpec(m1.(length := m.length), ATTR_FINGERPRINT, Be32(FingerprintValue(d, m1.raw)))
  }

  method AddFingerprint(d: Digests, m: Message)
    modifies m
    ensures m.View() == AddFingerprintSpec(d, old(m.View()))
  {
    hide AddSpec, WriteLengthSpec, FingerprintValue;
    var l := m.length;
    m.length := m.length + FINGERPRINT_SIZE + ATTRIBUTE_HEADER_SIZE;
    m.WriteLength();
    var val := FingerprintValue(d, m.raw);
    m.length := l;
    m.Add(ATTR_FINGERPRINT, Be32(val));
  }

  /** Announcing changes the length field and nothing else; the next add puts it right. */
  lemma AnnouncedRaw(m: State, size: nat)
    requires WellFormed(m)
    ensures Announced(m, size).raw
         == Header(m.typ, m.length + size + ATTRIBUTE_HEADER_SIZE, m.transactionId) + Encode(m.attributes)
  {
    hide Header, Encode, WriteLengthSpec;
    WriteLengthOn(m.(length := m.length + size + ATTRIBUTE_HEADER_SIZE), m.length, Encode(m.attributes));
  }

  /** The attribute holds the tag of the bytes in front of it, header included, the header's
      length counting the attribute itself. */
  lemma IntegrityAdded(d: Digests, key: Bytes, m: State)
    requires WellFormed(m) && Find(m.attributes, ATTR_FINGERPRINT) == |m.attributes|
    ensures var (m', r) := AddIntegritySpec(d, key, m);
      && r.Ok? && WellFormed(m')
      && m'.typ == m.typ && m'.transactionId == m.transactionId
      && m'.attributes == m.attributes
         + [Attribute(ATTR_MESSAGE_INTEGRITY, MESSAGE_INTEGRITY_SIZE, d.hmac(key, Digested(m', |m.attributes|)))]
  {
    hide Header, AddSpec, Encode;
    AnnouncedRaw(m, MESSAGE_INTEGRITY_SIZE);
    var m1 := Announced(m, MESSAGE_INTEGRITY_SIZE);
    var v := d.hmac(key, m1.raw);
    var a := Attribute(ATTR_MESSAGE_INTEGRITY, MESSAGE_INTEGRITY_SIZE, v);
    AddAppends(m1.(length := m.length), m1.length, ATTR_MESSAGE_INTEGRITY, v);
    var attributes := m.attributes + [a];
    assert attributes[..|m.attributes|] == m.attributes && attributes[..|m.attributes| + 1] == attributes;
    EncodeAppend(m.attributes, [a]);
    EncodeOne(a);
    assert |Tlv(a)| == ATTRIBUTE_HEADER_SIZE + MESSAGE_INTEGRITY_SIZE;
  }

  lemma FingerprintIs(d: Digests, b: Bytes)
    ensures FingerprintValue(d, b) == (d.crc(b) ^ 0x5354_554e) as int
  {
  }

  /** FINGERPRINT holds the XORed CRC of the final bytes before it. */
  lemma FingerprintAdded(d: Digests, m: State)
    requires WellFormed(m)
    ensures var m' := AddFingerprintSpec(d, m); var n := |m'.raw| - FINGERPRINT_SIZE - ATTRIBUTE_HEADER_SIZE;
      && WellFormed(m') && n >= MESSAGE_HEADER_SIZE
      && m'.typ == m.typ && m'.transactionId == m.transactionId
      && m'.attributes == m.attributes
         + [Attribute(0x8028, 4, Be32((d.crc(m'.raw[..n]) ^ 0x5354_554e) as int))]
  {
    hide Header, AddSpec, Encode, FingerprintValue;
    AnnouncedRaw(m, FINGERPRINT_SIZE);
    var m1 := Announced(m, FINGERPRINT_SIZE);
    FingerprintIs(d, m1.raw);
    var v := Be32(FingerprintValue(d, m1.raw));
    var a := Attribute(ATTR_FINGERPRINT, FINGERPRINT_SIZE, v);
    AddAppends(m1.(length := m.length), m1.length, ATTR_FINGERPRINT, v);
    EncodeAppend(m.attributes, [a]);
    EncodeOne(a);
    assert |Tlv(a)| == ATTRIBUTE_HEADER_SIZE + FINGERPRINT_SIZE;
    var h := Header(m.typ, m1.length, m.transactionId);
    Assoc(h, Encode(m.attributes), Tlv(a));
    assert (m1.raw + Tlv(a))[..|m1.raw|] == m1.raw;
  }

  // ---------------------------------------------------------------- checking

  /** The loop of check: what stands behind the first MESSAGE-INTEGRITY. */
  function Reduced(attributes: seq<Attribute>, after: bool): nat {
    if attributes == [] then 0
    else
      (if after then PaddedLength(attributes[0].length) + ATTRIBUTE_HEADER_SIZE else 0)
      + Reduced(attributes[1..], after || attributes[0].typ == ATTR_MESSAGE_INTEGRITY)
  }

  /** The buffer reaches as far as the attributes say, so that the slice check takes is in
      bounds. Built and decoded messages are such. */
  predicate Spans(m: State) {
    Find(m.attributes, ATTR_MESSAGE_INTEGRITY) < |m.attributes| ==>
      Reduced(m.attributes, false) + ATTRIBUTE_HEADER_SIZE <= m.length <= |m.raw| - MESSAGE_HEADER_SIZE
  }

  function CheckSpec(d: Digests, key: Bytes, m: State): (State, Result<(), Error>)
    requires Spans(m)
  {
    var i := Find(m.attributes, ATTR_MESSAGE_INTEGRITY);
    if i == |m.attributes| then (m, Err(ErrAttributeNotFound))
    else
      var m1 := WriteLengthSpec(m.(length := m.length - Reduced(m.attributes, false)));
      var start := MESSAGE_HEADER_SIZE + m1.length - (ATTRIBUTE_HEADER_SIZE + MESSAGE_INTEGRITY_SIZE);
      (WriteLengthSpec(m1.(length := m.length)),
       if m.attributes[i].value == d.hmac(key, m1.raw[..start]) then Ok(()) else Err(ErrIntegrityMismatch))
  }

  lemma WriteLengthKeepsSize(m: State)
    requires |m.raw| >= 4
    ensures |WriteLengthSpec(m).raw| == |m.raw|
  {
  }

  method Check(d: Digests, key: Bytes, m: Message) returns (r: Result<(), Error>)
    requires Spans(m.View())
    modifies m
    ensures (m.View(), r) == CheckSpec(d, key, old(m.View()))
  {
    hide WriteLengthSpec, PaddedLength;
    var v := Get(m.attributes, ATTR_MESSAGE_INTEGRITY);
    if v.Err? {
      return Err(v.error);
    }
    var length := m.length;
    var afterIntegrity := false;
    var sizeReduced := 0;
    var attributes := m.attributes;
    assert attributes[0..] == attributes;
    for i := 0 to |attributes|
      invariant sizeReduced + Reduced(attributes[i..], afterIntegrity) == Reduced(attributes, false)
    {
      var a := attributes[i];
      assert attributes[i..][0] == a && attributes[i..][1..] == attributes[i + 1..];
      if afterIntegrity {
        sizeReduced := sizeReduced + PaddedLength(a.length);
        sizeReduced := sizeReduced + ATTRIBUTE_HEADER_SIZE;
      }
      if a.typ == ATTR_MESSAGE_INTEGRITY {
        afterIntegrity := true;
      }
    }
    m.length := m.length - sizeReduced;
    m.WriteLength();
    WriteLengthKeepsSize(old(m.View()).(length := m.length));
    var startOfHmac := MESSAGE_HEADER_SIZE + m.length - (ATTRIBUTE_HEADER_SIZE + MESSAGE_INTEGRITY_SIZE);
    var expected := d.hmac(key, m.raw[..startOfHmac]);
    m.length := length;
    m.WriteLength();
    return if v.value == expected then Ok(()) else Err(ErrIntegrityMismatch);
  }

  /** The bytes that MESSAGE-INTEGRITY at index i must cover (section 15.4 of RFC 5389):
      everything before it, under a header whose length ends with it. */
  function Digested(m: State, i: nat): Bytes
    requires i < |m.attributes|
  {
    Header(m.typ, |Encode(m.attributes[..i + 1])|, m.transactionId) + Encode(m.attributes[..i])
  }

  /** In terms of the buffer: all that is in front of the attribute, but with the length field
      saying that the message ends with it. */
  lemma DigestedLayout(m: State, i: nat)
    requires WellFormed(m) && i < |m.attributes|
    requires m.attributes[i].typ == ATTR_MESSAGE_INTEGRITY && |m.attributes[i].value| == MESSAGE_INTEGRITY_SIZE
    ensures var b := Digested(m, i); var k := |b|;
      && 20 <= k && k + 24 <= |m.raw|
      && Number(m.raw[k..k + 2]) == 0x0008 && m.raw[k + 4..k + 24] == m.attributes[i].value
      && b[..2] == m.raw[..2] && Number(b[2..4]) == (k + 24 - 20) % 0x1_0000 && b[4..] == m.raw[4..k]
  {
    hide Header, Encode, Number, Be16;
    var a, before, after := m.attributes[i], m.attributes[..i], m.attributes[i + 1..];
    var n := |Encode(m.attributes[..i + 1])|;
    HeaderLayout(m.typ, n, m.transactionId);
    HeaderLayout(m.typ, m.length, m.transactionId);
    TlvLayout(a);
    assert m.attributes[..i + 1] == before + [a] && m.attributes == before + ([a] + after);
    EncodeAppend(before, [a]);
    EncodeOne(a);
    TlvLength(a);
    EncodeAppend(before, [a] + after);
    EncodeAppend([a], after);
    var h, h' := Header(m.typ, n, m.transactionId), Header(m.typ, m.length, m.transactionId);
    SameButLength(m.typ, n, m.length, m.transactionId);
    Middle(h', Encode(before), Tlv(a), Encode(after));
    Front(h, Encode(before));
    Front(h', Encode(before) + (Tlv(a) + Encode(after)));
    var k := 20 + |Encode(before)|;
    assert m.raw[k..k + 2] == Tlv(a)[0..2] && m.raw[k + 4..k + 24] == Tlv(a)[4..24];
    assert m.raw[4..k] == h'[4..] + Encode(before);
  }

  lemma SameButLength(typ: MessageType, n: nat, n': nat, id: TransactionId)
    ensures Header(typ, n, id)[..2] == Header(typ, n', id)[..2] && Header(typ, n, id)[4..] == Header(typ, n', id)[4..]
  {
  }

  lemma Front(h: Bytes, b: Bytes)
    requires |h| == 20
    ensures (h + b)[..2] == h[..2] && (h + b)[2..4] == h[2..4] && (h + b)[4..] == h[4..] + b
  {
  }

  lemma Middle(h: Bytes, a: Bytes, t: Bytes, b: Bytes)
    ensures (h + (a + (t + b)))[|h| + |a|..|h| + |a| + |t|] == t
  {
  }

  lemma {:induction false} ReducedAfter(attributes: seq<Attribute>)
    requires ShortValues(attributes)
    ensures Reduced(attributes, true) == |Encode(attributes)|
  {
    if attributes != [] {
      ReducedAfter(attributes[1..]);
      assert |Tlv(attributes[0])| == ATTRIBUTE_HEADER_SIZE + PaddedLength(attributes[0].length);
    }
  }

  lemma {:induction false} ReducedFrom(attributes: seq<Attribute>, i: nat)
    requires i == Find(attributes, ATTR_MESSAGE_INTEGRITY) < |attributes|
    requires ShortValues(attributes[i + 1..])
    ensures Reduced(attributes, false) == |Encode(attributes[i + 1..])|
  {
    hide Encode;
    if i == 0 {
      ReducedAfter(attributes[1..]);
    } else {
      assert attributes[1..][i..] == attributes[i + 1..];
      ReducedFrom(attributes[1..], i - 1);
    }
  }

  /** Parsing may have renamed attribute types, though never MESSAGE-INTEGRITY. */
  predicate SameButTypes(a: seq<Attribute>, b: seq<Attribute>) {
    && |a| == |b|
    && forall i :: 0 <= i < |a| ==>
         && a[i].length == b[i].length && a[i].value == b[i].value
         && (a[i].typ == ATTR_MESSAGE_INTEGRITY <==> b[i].typ == ATTR_MESSAGE_INTEGRITY)
  }

  lemma SameFind(a: seq<Attribute>, b: seq<Attribute>)
    requires SameButTypes(a, b)
    ensures Find(a, ATTR_MESSAGE_INTEGRITY) == Find(b, ATTR_MESSAGE_INTEGRITY)
  {
    var i, j := Find(a, ATTR_MESSAGE_INTEGRITY), Find(b, ATTR_MESSAGE_INTEGRITY);
    if i < |a| {
      assert b[i].typ == ATTR_MESSAGE_INTEGRITY;
    }
    if j < |b| {
      assert a[j].typ == ATTR_MESSAGE_INTEGRITY;
    }
  }

  lemma {:induction false} SameReduced(a: seq<Attribute>, b: seq<Attribute>, after: bool)
    requires SameButTypes(a, b)
    ensures Reduced(a, after) == Reduced(b, after)
  {
    if a != [] {
      assert a[0].length == b[0].length;
      SameReduced(a[1..], b[1..], after || a[0].typ == ATTR_MESSAGE_INTEGRITY);
    }
  }

  /** What check decides, on a built message or on one parsed from its bytes: with the first
      MESSAGE-INTEGRITY at index i, twenty bytes long, and everything behind it within the
      16-bit length, it verifies exactly when that attribute holds the tag of the bytes it
      must cover, and it leaves the message as it was. */
  lemma CheckMeans(d: Digests, key: Bytes, built: State, m: State, i: nat)
    requires WellFormed(built) && SameButTypes(built.attributes, m.attributes)
    requires m.raw == built.raw && m.length == built.length
    requires i == Find(built.attributes, ATTR_MESSAGE_INTEGRITY) < |built.attributes|
    requires |built.attributes[i].value| == MESSAGE_INTEGRITY_SIZE
    requires ShortValues(built.attributes[i + 1..])
    ensures Spans(m)
    ensures CheckSpec(d, key, m)
         == (m, if built.attributes[i].value == d.hmac(key, Digested(built, i)) then Ok(()) else Err(ErrIntegrityMismatch))
  {
    hide Header, Encode, WriteLengthSpec, Find;
    var all := built.attributes;
    var through, before := all[..i + 1], all[..i];
    SameFind(all, m.attributes);
    SameReduced(all, m.attributes, false);
    ReducedFrom(all, i);
    assert all == through + all[i + 1..];
    EncodeAppend(through, all[i + 1..]);
    assert through == before + [all[i]];
    EncodeAppend(before, [all[i]]);
    EncodeOne(all[i]);
    assert |Tlv(all[i])| == ATTRIBUTE_HEADER_SIZE + MESSAGE_INTEGRITY_SIZE;
    var shorter := m.(length := |Encode(through)|);
    LengthOnly(built, m.length, |Encode(through)|, shorter);
    var m1 := WriteLengthSpec(shorter);
    var h := Header(built.typ, |Encode(through)|, built.transactionId);
    LengthOnly(built, |Encode(through)|, m.length, m1.(length := m.length));
    Assoc(h, Encode(before), Tlv(all[i]) + Encode(all[i + 1..]));
    Assoc(Encode(before), Tlv(all[i]), Encode(all[i + 1..]));
    assert m1.raw[..MESSAGE_HEADER_SIZE + |Encode(before)|] == h + Encode(before);
  }

  /** Rewriting the length of a buffer that was built with some other length in it. */
  lemma LengthOnly(built: State, n: nat, n': nat, m: State)
    requires m.raw == Header(built.typ, n, built.transactionId) + Encode(built.attributes) && m.length == n'
    ensures WriteLengthSpec(m) == m.(raw := Header(built.typ, n', built.transactionId) + Encode(built.attributes))
  {
    hide Encode;
    LengthField(built.typ, n, built.transactionId, Encode(built.attributes), n');
  }

  // ---------------------------------------------------------------- parsed messages

  /** The bytes that attributes take up on the wire, by their length fields. */
  function Extent(attributes: seq<Attribute>): nat {
    if attributes == [] then 0
    else ATTRIBUTE_HEADER_SIZE + PaddedLength(attributes[0].length) + Extent(attributes[1..])
  }

  lemma {:induction false} ExtentSplits(attributes: seq<Attribute>, i: nat)
    requires i <= |attributes|
    ensures Extent(attributes) == Extent(attributes[..i]) + Extent(attributes[i..])
  {
    hide PaddedLength;
    if i == 0 {
      assert attributes[0..] == attributes;
    } else {
      ExtentSplits(attributes[1..], i - 1);
      assert attributes[..i][0] == attributes[0] && attributes[..i][1..] == attributes[1..][..i - 1];
      assert attributes[1..][i - 1..] == attributes[i..];
    }
  }

  lemma {:induction false} ParsedExtent(b: Bytes)
    ensures ParseAttributes(b).1 ==> |b| == Extent(ParseAttributes(b).0)
    decreases |b|
  {
    hide PaddedLength, Read16;
    if |b| >= ATTRIBUTE_HEADER_SIZE {
      var end := ATTRIBUTE_HEADER_SIZE + PaddedLength(Read16(b[2..4]));
      if |b| >= end {
        ParsedExtent(b[end..]);
        var rest := ParseAttributes(b[end..]).0;
        var a := Attribute(CompatType(Read16(b[..2])), Read16(b[2..4]), b[ATTRIBUTE_HEADER_SIZE..ATTRIBUTE_HEADER_SIZE + Read16(b[2..4])]);
        assert ([a] + rest)[1..] == rest;
      }
    }
  }

  lemma {:induction false} ReducedIsExtent(attributes: seq<Attribute>, after: bool)
    ensures after ==> Reduced(attributes, after) == Extent(attributes)
    ensures !after ==> var i := Find(attributes, ATTR_MESSAGE_INTEGRITY);
      Reduced(attributes, after) == if i < |attributes| then Extent(attributes[i + 1..]) else 0
  {
    hide PaddedLength;
    if attributes != [] {
      ReducedIsExtent(attributes[1..], after || attributes[0].typ == ATTR_MESSAGE_INTEGRITY);
      if !after && attributes[0].typ != ATTR_MESSAGE_INTEGRITY {
        var i := Find(attributes[1..], ATTR_MESSAGE_INTEGRITY);
        assert i < |attributes[1..]| ==> attributes[1..][i + 1..] == attributes[i + 2..];
      }
    }
  }

  /** The bytes of a received message in front of an attribute that ends the first n bytes of
      its body, with n for its length: what MESSAGE-INTEGRITY of twenty bytes covers there. */
  function CoveredBytes(raw: Bytes, n: U16): Bytes
    requires ATTRIBUTE_HEADER_SIZE <= n && |raw| >= MESSAGE_HEADER_SIZE + n
  {
    Overwrite(raw, 2, Be16(n))[..MESSAGE_HEADER_SIZE + n - (ATTRIBUTE_HEADER_SIZE + MESSAGE_INTEGRITY_SIZE)]
  }

  /** What check decides on any message that was parsed, whatever its padding, its type bits and
      its attributes: it stays within the buffer, verifies exactly when the first
      MESSAGE-INTEGRITY is the tag of the received bytes in front of it under a length that
      ends with it, and changes nothing. */
  lemma CheckOnParsed(d: Digests, key: Bytes, received: State)
    requires DecodeSpec(received).1.Ok?
    ensures var m := DecodeSpec(received).0; var i := Find(m.attributes, ATTR_MESSAGE_INTEGRITY);
      && Spans(m)
      && (i == |m.attributes| ==> CheckSpec(d, key, m) == (m, Err(ErrAttributeNotFound)))
      && (i < |m.attributes| ==>
            var n := Extent(m.attributes[..i + 1]);
            && ATTRIBUTE_HEADER_SIZE <= n < 0x1_0000 && |received.raw| >= MESSAGE_HEADER_SIZE + n
            && CheckSpec(d, key, m)
               == (m, if m.attributes[i].value == d.hmac(key, CoveredBytes(received.raw, n)) then Ok(()) else Err(ErrIntegrityMismatch)))
  {
    hide DecodeSpec, Find, Extent, Reduced, CheckSpec, CoveredBytes;
    var m := DecodeSpec(received).0;
    var i := Find(m.attributes, ATTR_MESSAGE_INTEGRITY);
    if i < |m.attributes| {
      IntegrityWithin(received, i);
      CheckWithin(d, key, m, i, Extent(m.attributes[..i + 1]));
    } else {
      ChecksNothing(d, key, m);
    }
  }

  lemma ChecksNothing(d: Digests, key: Bytes, m: State)
    requires Find(m.attributes, ATTR_MESSAGE_INTEGRITY) == |m.attributes|
    ensures CheckSpec(d, key, m) == (m, Err(ErrAttributeNotFound))
  {
  }

  lemma CheckWithin(d: Digests, key: Bytes, m: State, i: nat, n: nat)
    requires i == Find(m.attributes, ATTR_MESSAGE_INTEGRITY) < |m.attributes|
    requires ATTRIBUTE_HEADER_SIZE <= n <= m.length < 0x1_0000 && |m.raw| >= MESSAGE_HEADER_SIZE + m.length
    requires m.length == Read16(m.raw[2..4]) && Reduced(m.attributes, false) == m.length - n
    ensures Spans(m)
    ensures CheckSpec(d, key, m)
         == (m, if m.attributes[i].value == d.hmac(key, CoveredBytes(m.raw, n)) then Ok(()) else Err(ErrIntegrityMismatch))
  {
    hide Find, Reduced, Read16, Be16, Overwrite;
    OverwritesTwice(m.raw, n, m.length);
    KeepsLength(m.raw);
    assert n % 0x1_0000 == n && m.length % 0x1_0000 == m.length;
  }

  /** The first MESSAGE-INTEGRITY of a parsed message and what is behind it are its body. */
  lemma IntegrityWithin(received: State, i: nat)
    requires DecodeSpec(received).1.Ok?
    requires i == Find(DecodeSpec(received).0.attributes, ATTR_MESSAGE_INTEGRITY) < |DecodeSpec(received).0.attributes|
    ensures var m := DecodeSpec(received).0; var n := Extent(m.attributes[..i + 1]);
      && ATTRIBUTE_HEADER_SIZE <= n <= m.length < 0x1_0000 && |m.raw| >= MESSAGE_HEADER_SIZE + m.length
      && m.raw == received.raw && m.length == Read16(m.raw[2..4])
      && Reduced(m.attributes, false) == m.length - n
  {
    hide ParseAttributes, Read32, PaddedLength, Find;
    var m := DecodeSpec(received).0;
    ParsedExtent(m.raw[MESSAGE_HEADER_SIZE..MESSAGE_HEADER_SIZE + m.length]);
    ReducedIsExtent(m.attributes, false);
    ExtentSplits(m.attributes, i + 1);
    ExtentSplits(m.attributes[..i + 1], i);
    var last := m.attributes[..i + 1][i..];
    assert last == [m.attributes[i]] && last[1..] == [];
    assert Extent([]) == 0;
    assert Extent(last) >= ATTRIBUTE_HEADER_SIZE;
  }

  lemma OverwritesTwice(raw: Bytes, n: U16, length: U16)
    requires |raw| >= 4
    ensures Overwrite(Overwrite(raw, 2, Be16(n)), 2, Be16(length)) == Overwrite(raw, 2, Be16(length))
  {
    hide Be16;
  }

  lemma KeepsLength(raw: Bytes)
    requires |raw| >= 4
    ensures Overwrite(raw, 2, Be16(Read16(raw[2..4]))) == raw
  {
    Read16Injective(raw[2..4]);
    hide Be16, Read16;
  }

  // ---------------------------------------------------------------- what is appended later

  /** Raw attributes appended one by one; their length fields are ignored. */
  function AddAll(m: State, extra: seq<Attribute>): State
    decreases |extra|
  {
    if extra == [] then m else AddAll(AddSpec(m, extra[0].typ, extra[0].value), extra[1..])
  }

  function Measured(a: Attribute): Attribute {
    a.(length := |a.value| % 0x1_0000)
  }

  lemma {:induction false} AddAllAppends(m: State, extra: seq<Attribute>)
    requires WellFormed(m)
    ensures var m' := AddAll(m, extra); var n := |m.attributes|;
      && WellFormed(m') && m'.typ == m.typ && m'.transactionId == m.transactionId
      && |m'.attributes| == n + |extra|
      && m'.attributes[..n] == m.attributes
      && forall i :: 0 <= i < |extra| ==> m'.attributes[n + i] == Measured(extra[i])
    decreases |extra|
  {
    hide AddSpec, WellFormed;
    if extra != [] {
      var a, n := Measured(extra[0]), |m.attributes|;
      var m1 := AddSpec(m, a.typ, a.value);
      AddKeepsWellFormed(m, a.typ, a.value);
      AddAllAppends(m1, extra[1..]);
      var all := AddAll(m1, extra[1..]).attributes;
      assert all[..n + 1] == m.attributes + [a];
      assert all[..n] == all[..n + 1][..n] == m.attributes;
      assert all[n] == all[..n + 1][n] == a;
      forall i | 0 <= i < |extra| ensures all[n + i] == Measured(extra[i]) {
        if i > 0 {
          assert all[n + 1 + (i - 1)] == Measured(extra[1..][i - 1]);
        }
      }
    }
  }

  lemma Prefixes(before: seq<Attribute>, a: Attribute, all: seq<Attribute>)
    requires |before| < |all| && all[..|before| + 1] == before + [a]
    ensures all[..|before|] == before && all[|before|] == a
    ensures (before + [a])[..|before|] == before && (before + [a])[..|before| + 1] == before + [a]
  {
    assert all[..|before| + 1][..|before|] == before && all[..|before| + 1][|before|] == a;
  }

  lemma SameDigested(m1: State, m2: State, n: nat)
    requires n < |m1.attributes| && n < |m2.attributes|
    requires m1.typ == m2.typ && m1.transactionId == m2.transactionId
    requires m1.attributes[..n] == m2.attributes[..n] && m1.attributes[..n + 1] == m2.attributes[..n + 1]
    ensures Digested(m1, n) == Digested(m2, n)
  {
  }

  /** Where the integrity attribute ends up, and what it holds. */
  lemma IntegrityInPlace(d: Digests, key: Bytes, m: State, extra: seq<Attribute>)
    requires WellFormed(m)
    requires Find(m.attributes, ATTR_MESSAGE_INTEGRITY) == |m.attributes|
    requires Find(m.attributes, ATTR_FINGERPRINT) == |m.attributes|
    requires forall i :: 0 <= i < |extra| ==> |extra[i].value| < 0x1_0000
    ensures var (m1, r) := AddIntegritySpec(d, key, m); var m2 := AddAll(m1, extra); var n := |m.attributes|;
      && r.Ok? && WellFormed(m2) && n < |m2.attributes|
      && n == Find(m2.attributes, ATTR_MESSAGE_INTEGRITY)
      && ShortValues(m2.attributes[n + 1..])
      && Digested(m2, n) == Announced(m, MESSAGE_INTEGRITY_SIZE).raw
      && m2.attributes[n].value == d.hmac(key, Digested(m2, n))
  {
    hide *;
    IntegrityAdded(d, key, m);
    var m1 := AddIntegritySpec(d, key, m).0;
    AddAllAppends(m1, extra);
    var m2 := AddAll(m1, extra);
    var n := |m.attributes|;
    Placed(m.attributes, m1.attributes[n], m2.attributes, extra);
    SameDigested(m1, m2, n);
    DigestedIsAnnounced(d, key, m);
  }

  lemma Placed(before: seq<Attribute>, a: Attribute, all: seq<Attribute>, extra: seq<Attribute>)
    requires Find(before, ATTR_MESSAGE_INTEGRITY) == |before| && a.typ == ATTR_MESSAGE_INTEGRITY
    requires |all| == |before| + 1 + |extra| && all[..|before| + 1] == before + [a]
    requires forall i :: 0 <= i < |extra| ==> all[|before| + 1 + i] == Measured(extra[i])
    requires forall i :: 0 <= i < |extra| ==> |extra[i].value| < 0x1_0000
    ensures all[..|before|] == (before + [a])[..|before|] && all[|before|] == a
    ensures all[..|before| + 1] == (before + [a])[..|before| + 1]
    ensures Find(all, ATTR_MESSAGE_INTEGRITY) == |before| && ShortValues(all[|before| + 1..])
  {
    hide Find, ShortValues, Measured;
    Prefixes(before, a, all);
    AddedAreShort(all, |before| + 1, extra);
    FindAt(all, |before|);
  }

  /** MESSAGE-INTEGRITY verifies: added to a message with no earlier integrity or fingerprint,
      and whatever is appended after it, check under the same key digests the bytes that add
      digested, succeeds on the message and on a copy parsed from its bytes, and leaves both
      unchanged; under another key it succeeds only if the two tags collide. */
  lemma IntegrityVerifies(d: Digests, key: Bytes, key': Bytes, m: State, extra: seq<Attribute>)
    requires WellFormed(m)
    requires Find(m.attributes, ATTR_MESSAGE_INTEGRITY) == |m.attributes|
    requires Find(m.attributes, ATTR_FINGERPRINT) == |m.attributes|
    requires forall i :: 0 <= i < |extra| ==> |extra[i].value| < 0x1_0000
    ensures var (m1, r) := AddIntegritySpec(d, key, m); var m2 := AddAll(m1, extra);
      var digested := Announced(m, MESSAGE_INTEGRITY_SIZE).raw;
      && r.Ok? && Spans(m2)
      && CheckSpec(d, key, m2) == (m2, Ok(()))
      && CheckSpec(d, key', m2)
         == (m2, if d.hmac(key, digested) == d.hmac(key', digested) then Ok(()) else Err(ErrIntegrityMismatch))
      && (m2.length < 0x1_0000 ==>
            var copy := DecodeSpec(m2);
            copy.1.Ok? && Spans(copy.0) && CheckSpec(d, key, copy.0) == (copy.0, Ok(())))
  {
    hide Header, Encode, AddSpec, WriteLengthSpec, WellFormed, Find, Reduced, Tlv, CheckSpec, DecodeSpec, Spans,
      AddIntegritySpec, AddAll, Announced, Digested, ShortValues;
    IntegrityInPlace(d, key, m, extra);
    var m2 := AddAll(AddIntegritySpec(d, key, m).0, extra);
    var n := |m.attributes|;
    CheckMeans(d, key, m2, m2, n);
    CheckMeans(d, key', m2, m2, n);
    if m2.length < 0x1_0000 {
      DecodeUndoesBuild(m2);
      CheckMeans(d, key, m2, DecodeSpec(m2).0, n);
    }
  }

  lemma AddedAreShort(all: seq<Attribute>, n: nat, extra: seq<Attribute>)
    requires |all| == n + |extra|
    requires forall i :: 0 <= i < |extra| ==> all[n + i] == Measured(extra[i])
    requires forall i :: 0 <= i < |extra| ==> |extra[i].value| < 0x1_0000
    ensures ShortValues(all[n..])
  {
    forall i | 0 <= i < |extra| ensures all[n..][i].length == |all[n..][i].value| {
      assert all[n + i] == Measured(extra[i]);
    }
  }

  lemma FindAt(all: seq<Attribute>, n: nat)
    requires n < |all| && all[n].typ == ATTR_MESSAGE_INTEGRITY
    requires Find(all[..n], ATTR_MESSAGE_INTEGRITY) == n
    ensures Find(all, ATTR_MESSAGE_INTEGRITY) == n
  {
    forall j | 0 <= j < n ensures all[j].typ != ATTR_MESSAGE_INTEGRITY {
      assert all[..n][j] == all[j];
    }
  }

  lemma DigestedIsAnnounced(d: Digests, key: Bytes, m: State)
    requires WellFormed(m) && Find(m.attributes, ATTR_FINGERPRINT) == |m.attributes|
    ensures Digested(AddIntegritySpec(d, key, m).0, |m.attributes|) == Announced(m, MESSAGE_INTEGRITY_SIZE).raw
  {
    hide Header, Encode, AddSpec, WriteLengthSpec, Tlv;
    IntegrityAdded(d, key, m);
    AnnouncedRaw(m, MESSAGE_INTEGRITY_SIZE);
    var m1 := AddIntegritySpec(d, key, m).0;
    var n := |m.attributes|;
    var a := m1.attributes[n];
    assert m1.attributes[..n] == m.attributes && m1.attributes[..n + 1] == m.attributes + [a];
    EncodeAppend(m.attributes, [a]);
    EncodeOne(a);
    TlvLength(a);
  }

  // ---------------------------------------------------------------- building

  datatype Setter =
    | SetType(t: MessageType)
    | SetTransactionId(id: TransactionId)
    | Raw(typ: U16, value: Bytes)
    | Text(attr: U16, text: Bytes)
    | Integrity(key: Bytes)
    | Fingerprint

  function TextLimit(attr: U16): Option<nat> {
    if attr == ATTR_USERNAME then Some(513)
    else if attr == ATTR_REALM || attr == ATTR_SOFTWARE || attr == ATTR_NONCE then Some(763)
    else None
  }

  function AddTo(d: Digests, s: Setter, m: State): (State, Result<(), Error>)
    requires |m.raw| >= MESSAGE_HEADER_SIZE
  {
    match s
    case SetType(t) => (WriteTypeSpec(m.(typ := t)), Ok(()))
    case SetTransactionId(id) => (WriteTransactionIdSpec(m.(transactionId := id)), Ok(()))
    case Raw(typ, value) => (AddSpec(m, typ, value), Ok(()))
    case Text(attr, text) =>
      (match TextLimit(attr)
       case None => (m, Err(ErrUnsupportedAttrType))
       case Some(max) => if |text| <= max then (AddSpec(m, attr, text), Ok(())) else (m, Err(ErrAttributeSizeOverflow)))
    case Integrity(key) => AddIntegritySpec(d, key, m)
    case Fingerprint => (AddFingerprintSpec(d, m), Ok(()))
  }

  /** Whatever a setter does, refusing included, the message stays well formed. */
  lemma AddToKeepsWellFormed(d: Digests, s: Setter, m: State)
    requires WellFormed(m)
    ensures WellFormed(AddTo(d, s, m).0)
  {
    hide WellFormed, AddSpec, WriteTypeSpec, WriteTransactionIdSpec, AddFingerprintSpec, AddIntegritySpec;
    match s
    case SetType(t) => SetTypeKeepsWellFormed(m, t);
    case SetTransactionId(id) => SetIdKeepsWellFormed(m, id);
    case Raw(typ, value) => AddKeepsWellFormed(m, typ, value);
    case Text(attr, text) => AddKeepsWellFormed(m, attr, text);
    case Integrity(key) => IntegrityKeepsWellFormed(d, key, m);
    case Fingerprint => FingerprintAdded(d, m);
  }

  lemma IntegrityKeepsWellFormed(d: Digests, key: Bytes, m: State)
    requires WellFormed(m)
    ensures WellFormed(AddIntegritySpec(d, key, m).0)
  {
    hide WellFormed;
    if Find(m.attributes, ATTR_FINGERPRINT) == |m.attributes| {
      IntegrityAdded(d, key, m);
    }
  }

  lemma WellFormedSpans(m: State)
    requires WellFormed(m)
    ensures |m.raw| == MESSAGE_HEADER_SIZE + m.length && m.length % PADDING == 0
  {
    EncodeAligned(m.attributes);
  }

  /** The setters in order, stopping at the first error. */
  function ApplyAll(d: Digests, setters: seq<Setter>, m: State): (State, Result<(), Error>)
    requires WellFormed(m)
    decreases |setters|
  {
    if setters == [] then (m, Ok(()))
    else
      WellFormedSpans(m);
      var (m1, r) := AddTo(d, setters[0], m);
      if r.Err? then (m1, r)
      else
        AddToKeepsWellFormed(d, setters[0], m);
        ApplyAll(d, setters[1..], m1)
  }

  function BuildSpec(d: Digests, setters: seq<Setter>, m: State): (State, Result<(), Error>) {
    ResetIsWellFormed(m);
    ApplyAll(d, setters, WriteHeaderSpec(ResetSpec(m)))
  }

  method ApplySetter(d: Digests, s: Setter, m: Message) returns (r: Result<(), Error>)
    requires |m.raw| >= MESSAGE_HEADER_SIZE
    modifies m
    ensures (m.View(), r) == AddTo(d, s, old(m.View()))
  {
    hide AddSpec, WriteTypeSpec, WriteTransactionIdSpec, AddFingerprintSpec, AddIntegritySpec;
    match s {
      case SetType(t) =>
        m.typ := t;
        m.WriteType();
      case SetTransactionId(id) =>
        m.transactionId := id;
        m.WriteTransactionId();
      case Raw(typ, value) =>
        m.Add(typ, value);
      case Text(attr, text) =>
        var max := TextLimit(attr);
        if max == None {
          return Err(ErrUnsupportedAttrType);
        }
        if |text| > max.value {
          return Err(ErrAttributeSizeOverflow);
        }
        m.Add(attr, text);
      case Integrity(key) =>
        r := AddIntegrity(d, key, m);
        return;
      case Fingerprint =>
        AddFingerprint(d, m);
    }
    return Ok(());
  }

  method Build(d: Digests, setters: seq<Setter>, m: Message) returns (r: Result<(), Error>)
    modifies m
    ensures (m.View(), r) == BuildSpec(d, setters, old(m.View()))
  {
    hide WriteHeaderSpec, ResetSpec, AddTo, WellFormed;
    m.Reset();
    m.WriteHeader();
    ResetIsWellFormed(old(m.View()));
    ghost var m0 := m.View();
    assert setters[0..] == setters;
    for i := 0 to |setters|
      invariant WellFormed(m.View())
      invariant ApplyAll(d, setters[i..], m.View()) == ApplyAll(d, setters, m0)
    {
      ghost var before := m.View();
      assert setters[i..][0] == setters[i] && setters[i..][1..] == setters[i + 1..];
      WellFormedSpans(before);
      AddToKeepsWellFormed(d, setters[i], before);
      r := ApplySetter(d, setters[i], m);
      if r.Err? {
        return;
      }
    }
    return Ok(());
  }

  lemma {:induction false} ApplyAllKeepsWellFormed(d: Digests, setters: seq<Setter>, m: State)
    requires WellFormed(m)
    ensures WellFormed(ApplyAll(d, setters, m).0)
    decreases |setters|
  {
    hide WellFormed, AddTo;
    if setters != [] {
      WellFormedSpans(m);
      AddToKeepsWellFormed(d, setters[0], m);
      if AddTo(d, setters[0], m).1.Ok? {
        ApplyAllKeepsWellFormed(d, setters[1..], AddTo(d, setters[0], m).0);
      }
    }
  }

  /** Whatever the setters, and even when one refuses, the buffer is the header followed by the
      padded attributes; its size is twenty plus the length, a multiple of four; and it parses
      back to the same message exactly when the length fits its field, the type its bits, and
      no attribute has the old XOR-MAPPED-ADDRESS type. */
  lemma BuildMeans(d: Digests, setters: seq<Setter>, m: State)
    ensures var b := BuildSpec(d, setters, m).0;
      && WellFormed(b) && |b.raw| == MESSAGE_HEADER_SIZE + b.length && b.length % PADDING == 0
      && (DecodeSpec(b).1.Ok? && Equal(DecodeSpec(b).0, b) <==>
            && b.length < 0x1_0000
            && b.typ.stunMethod < 0x1000 && b.typ.stunClass < 4
            && forall i :: 0 <= i < |b.attributes| ==> b.attributes[i].typ != OLD_XORMAPPED_ADDRESS)
  {
    hide WellFormed, ApplyAll, DecodeSpec, WriteHeaderSpec;
    ResetIsWellFormed(m);
    ApplyAllKeepsWellFormed(d, setters, WriteHeaderSpec(ResetSpec(m)));
    var b := BuildSpec(d, setters, m).0;
    WellFormedSpans(b);
    RoundTripExact(b);
  }

  /** Building ends with FINGERPRINT: the last attribute is the XORed CRC of the final bytes in
      front of it. */
  lemma FingerprintCoversTheMessage(d: Digests, setters: seq<Setter>, m: State)
    requires BuildSpec(d, setters + [Fingerprint], m).1.Ok?
    ensures var b := BuildSpec(d, setters + [Fingerprint], m).0; var n := |b.raw| - FINGERPRINT_SIZE - ATTRIBUTE_HEADER_SIZE;
      && n >= MESSAGE_HEADER_SIZE && |b.attributes| > 0
      && b.attributes[|b.attributes| - 1] == Attribute(0x8028, 4, Be32((d.crc(b.raw[..n]) ^ 0x5354_554e) as int))
  {
    hide WellFormed, ApplyAll, WriteHeaderSpec, AddFingerprintSpec, FingerprintValue;
    ResetIsWellFormed(m);
    var m0 := WriteHeaderSpec(ResetSpec(m));
    ApplyAllKeepsWellFormed(d, setters, m0);
    ApplyAllSnoc(d, setters, Fingerprint, m0);
    FingerprintAdded(d, ApplyAll(d, setters, m0).0);
  }

  lemma {:induction false} ApplyAllSnoc(d: Digests, setters: seq<Setter>, s: Setter, m: State)
    requires WellFormed(m)
    ensures WellFormed(ApplyAll(d, setters, m).0) && |ApplyAll(d, setters, m).0.raw| >= MESSAGE_HEADER_SIZE
    ensures ApplyAll(d, setters + [s], m)
         == if ApplyAll(d, setters, m).1.Err? then ApplyAll(d, setters, m) else AddTo(d, s, ApplyAll(d, setters, m).0)
    decreases |setters|
  {
    hide WellFormed, AddTo;
    ApplyAllKeepsWellFormed(d, setters, m);
    WellFormedSpans(ApplyAll(d, setters, m).0);
    WellFormedSpans(m);
    if setters == [] {
      assert setters + [s] == [s] && [s][1..] == [];
      AddToKeepsWellFormed(d, s, m);
      var (m1, r) := AddTo(d, s, m);
      assert ApplyAll(d, [], m) == (m, Ok(())) && ApplyAll(d, [s][1..], m1) == (m1, Ok(()));
      assert r.Ok? ==> r.value == ();
      assert ApplyAll(d, [s], m) == if r.Err? then (m1, r) else ApplyAll(d, [s][1..], m1);
    } else {
      assert (setters + [s])[0] == setters[0] && (setters + [s])[1..] == setters[1..] + [s];
      AddToKeepsWellFormed(d, setters[0], m);
      if AddTo(d, setters[0], m).1.Ok? {
        ApplyAllSnoc(d, setters[1..], s, AddTo(d, setters[0], m).0);
      }
    }
  }

  // ---------------------------------------------------------------- what a built message holds

  /** The type of the attribute a setter adds. */
  function AddsType(s: Setter): Option<U16> {
    match s
    case Raw(typ, _) => Some(typ)
    case Text(attr, _) => Some(attr)
    case Integrity(_) => Some(0x0008)
    case Fingerprint => Some(0x8028)
    case _ => None
  }

  /** The setters that add one, in order. */
  function Adding(setters: seq<Setter>): seq<Setter> {
    if setters == [] then [] else (if AddsType(setters[0]).Some? then [setters[0]] else []) + Adding(setters[1..])
  }

  /** The attribute a setter has added: its type, and its value or a digest of the right size. */
  predicate IsFrom(a: Attribute, s: Setter) {
    && AddsType(s) == Some(a.typ) && a.length == |a.value| % 0x1_0000
    && match s
       case Raw(_, value) => a.value == value
       case Text(_, text) => a.value == text
       case Integrity(_) => |a.value| == 20
       case Fingerprint => |a.value| == 4
       case _ => false
  }

  predicate AreFrom(attributes: seq<Attribute>, setters: seq<Setter>) {
    |attributes| == |setters| && forall i :: 0 <= i < |setters| ==> IsFrom(attributes[i], setters[i])
  }

  /** The type and the transaction id are the last that were set. */
  function LastType(setters: seq<Setter>, t: MessageType): MessageType {
    if setters == [] then t else LastType(setters[1..], if setters[0].SetType? then setters[0].t else t)
  }

  function LastId(setters: seq<Setter>, id: TransactionId): TransactionId {
    if setters == [] then id else LastId(setters[1..], if setters[0].SetTransactionId? then setters[0].id else id)
  }

  /** One setter, when it does not refuse. */
  lemma AddsOne(d: Digests, s: Setter, m: State)
    requires WellFormed(m) && |m.raw| >= MESSAGE_HEADER_SIZE && AddTo(d, s, m).1.Ok?
    ensures var m1 := AddTo(d, s, m).0;
      && m1.typ == (if s.SetType? then s.t else m.typ)
      && m1.transactionId == (if s.SetTransactionId? then s.id else m.transactionId)
      && m.attributes <= m1.attributes && AreFrom(m1.attributes[|m.attributes|..], Adding([s]))
  {
    hide WellFormed, AddSpec, AddFingerprintSpec, AddIntegritySpec, WriteTypeSpec, WriteTransactionIdSpec;
    assert [s][1..] == [] && Adding([]) == [];
    match s
    case SetType(t) => SettingKeeps(m, t, m.transactionId);
    case SetTransactionId(id) => SettingKeeps(m, m.typ, id);
    case Raw(typ, value) => AddKeepsWellFormed(m, typ, value);
    case Text(attr, text) => AddKeepsWellFormed(m, attr, text);
    case Integrity(key) =>
      RefusedBehindFingerprint(d, key, m);
      IntegrityAdded(d, key, m);
    case Fingerprint => FingerprintAdded(d, m);
  }

  lemma SettingKeeps(m: State, t: MessageType, id: TransactionId)
    requires |m.raw| >= MESSAGE_HEADER_SIZE
    ensures var m1 := WriteTypeSpec(m.(typ := t));
      m1.attributes == m.attributes && m1.typ == t && m1.transactionId == m.transactionId
    ensures var m1 := WriteTransactionIdSpec(m.(transactionId := id));
      m1.attributes == m.attributes && m1.typ == m.typ && m1.transactionId == id
  {
  }

  lemma RefusedBehindFingerprint(d: Digests, key: Bytes, m: State)
    ensures AddIntegritySpec(d, key, m).1.Ok? <==> Find(m.attributes, ATTR_FINGERPRINT) == |m.attributes|
    ensures AddIntegritySpec(d, key, m).1.Err? ==> AddIntegritySpec(d, key, m).1.error == ErrFingerprintBeforeIntegrity
  {
    hide AddSpec, Announced;
  }

  lemma AreFromAppend(a: seq<Attribute>, s: seq<Setter>, b: seq<Attribute>, t: seq<Setter>)
    requires AreFrom(a, s) && AreFrom(b, t)
    ensures AreFrom(a + b, s + t)
  {
    hide IsFrom;
  }

  lemma {:induction false} AppliedIs(d: Digests, setters: seq<Setter>, m: State)
    requires WellFormed(m) && ApplyAll(d, setters, m).1.Ok?
    ensures var b := ApplyAll(d, setters, m).0;
      && b.typ == LastType(setters, m.typ) && b.transactionId == LastId(setters, m.transactionId)
      && m.attributes <= b.attributes && AreFrom(b.attributes[|m.attributes|..], Adding(setters))
    decreases |setters|
  {
    hide WellFormed, AddTo, AreFrom;
    if setters == [] {
      NothingAdded(m.attributes);
    } else {
      WellFormedSpans(m);
      AddToKeepsWellFormed(d, setters[0], m);
      AddsOne(d, setters[0], m);
      var m1 := AddTo(d, setters[0], m).0;
      AppliedIs(d, setters[1..], m1);
      var b := ApplyAll(d, setters, m).0;
      var n, n1 := |m.attributes|, |m1.attributes|;
      assert b.attributes[n..] == m1.attributes[n..] + b.attributes[n1..];
      AddingCons(setters);
      AreFromAppend(m1.attributes[n..], Adding([setters[0]]), b.attributes[n1..], Adding(setters[1..]));
    }
  }

  lemma AddingCons(setters: seq<Setter>)
    requires setters != []
    ensures Adding(setters) == Adding([setters[0]]) + Adding(setters[1..])
  {
    var one := [setters[0]];
    assert one[1..] == [] && Adding([]) == [];
  }

  lemma NothingAdded(attributes: seq<Attribute>)
    ensures AreFrom(attributes[|attributes|..], Adding([]))
  {
  }

  /** A message that is built holds one attribute for each setter that adds one, in order, of its
      type and with its value, and the type and the transaction id that were set last. */
  lemma BuiltIs(d: Digests, setters: seq<Setter>, m: State)
    requires BuildSpec(d, setters, m).1.Ok?
    ensures var b := BuildSpec(d, setters, m).0;
      && AreFrom(b.attributes, Adding(setters))
      && b.typ == LastType(setters, m.typ) && b.transactionId == LastId(setters, m.transactionId)
  {
    hide WellFormed, ApplyAll, WriteHeaderSpec, AreFrom;
    ResetIsWellFormed(m);
    HeaderAddsNothing(m);
    var m0 := WriteHeaderSpec(ResetSpec(m));
    AppliedIs(d, setters, m0);
    var b := BuildSpec(d, setters, m).0;
    assert b.attributes[0..] == b.attributes;
  }

  lemma HeaderAddsNothing(m: State)
    ensures WriteHeaderSpec(ResetSpec(m)).attributes == []
  {
  }

  // ---------------------------------------------------------------- when a setter refuses

  /** A text attribute that is none of the four, or longer than it may be (sections 15.3, 15.7,
      15.8 and 15.10 of RFC 5389); or an integrity tag behind a fingerprint. */
  predicate Refuses(setters: seq<Setter>, i: nat) {
    && i < |setters|
    && match setters[i]
       case Text(attr, text) =>
         || attr !in {0x0006, 0x0014, 0x0015, 0x8022}
         || |text| > (if attr == 0x0006 then 513 else 763)
       case Integrity(_) => exists j :: 0 <= j < i && AddsType(setters[j]) == Some(0x8028)
       case _ => false
  }

  predicate HasFingerprint(attributes: seq<Attribute>) {
    exists i :: 0 <= i < |attributes| && attributes[i].typ == 0x8028
  }

  lemma RefusesExactly(d: Digests, s: Setter, m: State)
    requires |m.raw| >= MESSAGE_HEADER_SIZE
    ensures AddTo(d, s, m).1.Err? <==>
      match s
      case Text(attr, text) => attr !in {0x0006, 0x0014, 0x0015, 0x8022} || |text| > (if attr == 0x0006 then 513 else 763)
      case Integrity(_) => HasFingerprint(m.attributes)
      case _ => false
  {
    hide AddSpec, AddFingerprintSpec, AddIntegritySpec, WriteTypeSpec, WriteTransactionIdSpec;
    if s.Integrity? {
      RefusedBehindFingerprint(d, s.key, m);
      if HasFingerprint(m.attributes) {
        var i :| 0 <= i < |m.attributes| && m.attributes[i].typ == 0x8028;
      }
    }
  }

  lemma FingerprintAfter(d: Digests, s: Setter, m: State)
    requires WellFormed(m) && |m.raw| >= MESSAGE_HEADER_SIZE && AddTo(d, s, m).1.Ok?
    ensures HasFingerprint(AddTo(d, s, m).0.attributes) <==> HasFingerprint(m.attributes) || AddsType(s) == Some(0x8028)
  {
    hide WellFormed, AddTo;
    AddsOne(d, s, m);
    var before, after := m.attributes, AddTo(d, s, m).0.attributes;
    assert [s][1..] == [] && Adding([]) == [];
    assert forall i :: |before| <= i < |after| ==> after[i] == after[|before|..][i - |before|];
    assert forall i :: 0 <= i < |before| ==> after[i] == before[i];
    if AddsType(s) == Some(0x8028) {
      assert after[|before|..][0] == after[|before|];
    }
    if HasFingerprint(before) {
      var i :| 0 <= i < |before| && before[i].typ == 0x8028;
      assert after[i].typ == 0x8028;
    }
  }

  /** In front of the others, fingerprint: whether one is already there. */
  predicate RefusesAfter(there: bool, setters: seq<Setter>, i: nat) {
    Refuses(setters, i) || (there && i < |setters| && setters[i].Integrity?)
  }

  lemma {:induction false} AppliesExactly(d: Digests, setters: seq<Setter>, m: State)
    requires WellFormed(m)
    ensures ApplyAll(d, setters, m).1.Ok? <==> forall i: nat :: !RefusesAfter(HasFingerprint(m.attributes), setters, i)
    decreases |setters|
  {
    hide WellFormed, AddTo, HasFingerprint, RefusesAfter;
    if setters == [] {
      NoneRefuses(HasFingerprint(m.attributes));
    } else {
      WellFormedSpans(m);
      AddToKeepsWellFormed(d, setters[0], m);
      RefusesExactly(d, setters[0], m);
      var there, m1 := HasFingerprint(m.attributes), AddTo(d, setters[0], m).0;
      FirstRefuses(there, setters);
      if AddTo(d, setters[0], m).1.Ok? {
        FingerprintAfter(d, setters[0], m);
        AppliesExactly(d, setters[1..], m1);
        forall i: nat
          ensures RefusesAfter(there, setters, i + 1) <==> RefusesAfter(HasFingerprint(m1.attributes), setters[1..], i)
        {
          NextRefuses(there, setters, i);
        }
        if forall i: nat :: !RefusesAfter(HasFingerprint(m1.attributes), setters[1..], i) {
          forall i: nat ensures !RefusesAfter(there, setters, i) {
            if i > 0 {
              assert !RefusesAfter(HasFingerprint(m1.attributes), setters[1..], i - 1);
              NextRefuses(there, setters, i - 1);
            }
          }
        }
      }
    }
  }

  lemma NoneRefuses(there: bool)
    ensures forall i: nat :: !RefusesAfter(there, [], i)
  {
  }

  lemma FirstRefuses(there: bool, setters: seq<Setter>)
    requires setters != []
    ensures RefusesAfter(there, setters, 0) <==>
      match setters[0]
      case Text(attr, text) => attr !in {0x0006, 0x0014, 0x0015, 0x8022} || |text| > (if attr == 0x0006 then 513 else 763)
      case Integrity(_) => there
      case _ => false
  {
  }

  lemma NextRefuses(there: bool, setters: seq<Setter>, i: nat)
    requires setters != []
    ensures RefusesAfter(there, setters, i + 1) <==>
      RefusesAfter(there || AddsType(setters[0]) == Some(0x8028), setters[1..], i)
  {
    if i < |setters| - 1 {
      assert setters[1..][i] == setters[i + 1];
      assert forall j :: 0 <= j < i ==> setters[1..][j] == setters[j + 1];
      if j :| 0 <= j < i + 1 && AddsType(setters[j]) == Some(0x8028) {
        if j > 0 {
          assert AddsType(setters[1..][j - 1]) == Some(0x8028);
        }
      }
    }
  }

  /** Building succeeds exactly when no setter refuses. */
  lemma BuildsExactly(d: Digests, setters: seq<Setter>, m: State)
    ensures BuildSpec(d, setters, m).1.Ok? <==> forall i: nat :: !Refuses(setters, i)
  {
    hide WellFormed, ApplyAll, WriteHeaderSpec, Refuses;
    ResetIsWellFormed(m);
    HeaderAddsNothing(m);
    AppliesExactly(d, setters, WriteHeaderSpec(ResetSpec(m)));
    assert !HasFingerprint([]);
    forall i: nat ensures RefusesAfter(false, setters, i) <==> Refuses(setters, i) {
    }
  }
}
