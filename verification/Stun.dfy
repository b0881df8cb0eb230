/** STUN messages (sections 6 and 15 of RFC 5389): a buffer written in place that must agree
    with a list of attributes, and the parser that undoes it. */
module Stun {
  import opened Bytes
  import opened Wrappers

  const MAGIC_COOKIE: U32 := 0x2112A442
  const ATTRIBUTE_HEADER_SIZE: nat := 4
  const MESSAGE_HEADER_SIZE: nat := 20
  const TRANSACTION_ID_SIZE: nat := 12
  const PADDING: nat := 4

  const ATTR_MESSAGE_INTEGRITY: U16 := 0x0008
  const ATTR_XORMAPPED_ADDRESS: U16 := 0x0020
  const ATTR_FINGERPRINT: U16 := 0x8028
  const OLD_XORMAPPED_ADDRESS: U16 := 0x8020

  type TransactionId = b: Bytes | |b| == TRANSACTION_ID_SIZE witness Zeros(TRANSACTION_ID_SIZE)

  datatype Error =
    | ErrAttributeNotFound
    | ErrUnexpectedHeaderEof
    | ErrInvalidCookie
    | ErrShortBuffer
    | ErrFingerprintBeforeIntegrity
    | ErrIntegrityMismatch
    | ErrAttributeSizeOverflow
    | ErrUnsupportedAttrType

  // ---------------------------------------------------------------- message type

  datatype MessageType = MessageType(stunMethod: U16, stunClass: Byte)

  /** The type field: four, three and five bits of the method with the two class bits
      between them. */
  function Value(t: MessageType): U16 {
    t.stunMethod % 16 + t.stunMethod / 16 % 8 * 32 + t.stunMethod / 128 % 32 * 512
    + (t.stunClass as int) % 2 * 16 + (t.stunClass as int) / 2 % 2 * 256
  }

  function ReadValue(v: U16): MessageType {
    MessageType(v % 16 + v / 32 % 8 * 16 + v / 512 % 32 * 128, v / 16 % 2 + v / 256 % 2 * 2)
  }

  /** Reading a type back keeps twelve bits of method and two of class. */
  lemma TypeReadsBack(t: MessageType)
    ensures ReadValue(Value(t)) == MessageType(t.stunMethod % 0x1000, (t.stunClass as int) % 4)
  {
    hide Value, ReadValue;
    TypeBits(t);
    ReadsFields(Value(t), t.stunMethod % 16, t.stunMethod / 16 % 8, t.stunMethod / 128 % 32,
                t.stunClass as int % 2, t.stunClass as int / 2 % 2);
    MethodBits(t.stunMethod);
    ClassBits(t.stunClass as int);
  }

  lemma ReadsFields(v: U16, a: nat, b: nat, d: nat, c0: nat, c1: nat)
    requires v % 16 == a && v / 32 % 8 == b && v / 512 % 32 == d && v / 16 % 2 == c0 && v / 256 % 2 == c1
    ensures a + b * 16 + d * 128 < 0x1_0000 && c0 + c1 * 2 < 0x100
    ensures ReadValue(v) == MessageType(a + b * 16 + d * 128, c0 + c1 * 2)
  {
  }

  lemma ClassBits(c: nat)
    ensures c % 4 == c % 2 + c / 2 % 2 * 2
  {
  }

  /** Bit by bit, as section 6 of RFC 5389 draws it: the class bits are bits 4 and 8, the method's
      bits fill bits 0 to 3, 5 to 7 and 9 to 13, and the first two bits are zero. */
  lemma TypeBits(t: MessageType)
    ensures var v := Value(t);
      && v < 0x4000
      && v / 16 % 2 == t.stunClass as int % 2 && v / 256 % 2 == t.stunClass as int / 2 % 2
      && v % 16 == t.stunMethod % 16 && v / 32 % 8 == t.stunMethod / 16 % 8 && v / 512 % 32 == t.stunMethod / 128 % 32
  {
    var a, b, d := t.stunMethod % 16, t.stunMethod / 16 % 8, t.stunMethod / 128 % 32;
    var c0, c1 := (t.stunClass as int) % 2, (t.stunClass as int) / 2 % 2;
    BitFields(a, c0, b, c1, d);
    assert Value(t) == a + b * 32 + d * 512 + c0 * 16 + c1 * 256;
  }

  lemma MethodBits(m: nat)
    ensures m % 0x1000 == m % 16 + m / 16 % 8 * 16 + m / 128 % 32 * 128
  {
    assert m / 128 == m / 16 / 8 && m / 0x1000 == m / 128 / 32;
    assert m == m % 16 + 16 * (m / 16);
    assert m / 16 == m / 16 % 8 + 8 * (m / 128);
    assert m / 128 == m / 128 % 32 + 32 * (m / 0x1000);
  }

  lemma BitFields(a: int, c0: int, b: int, c1: int, d: int)
    requires 0 <= a < 16 && 0 <= c0 < 2 && 0 <= b < 8 && 0 <= c1 < 2 && 0 <= d < 32
    ensures var v := a + b * 32 + d * 512 + c0 * 16 + c1 * 256;
      v % 16 == a && v / 16 % 2 == c0 && v / 32 % 8 == b && v / 256 % 2 == c1 && v / 512 % 32 == d
  {
    var v := a + b * 32 + d * 512 + c0 * 16 + c1 * 256;
    assert v / 16 == c0 + 2 * b + 16 * c1 + 32 * d;
    assert v / 32 == b + 8 * c1 + 16 * d;
    assert v / 256 == c1 + 2 * d;
    assert v / 512 == d;
  }

  // ---------------------------------------------------------------- message

  datatype Attribute = Attribute(typ: U16, length: U16, value: Bytes)

  datatype State = State(
    typ: MessageType,
    length: nat,
    transactionId: TransactionId,
    attributes: seq<Attribute>,
    raw: Bytes)

  function PaddedLength(l: nat): (n: nat)
    ensures l <= n < l + PADDING && n % PADDING == 0
  {
    var n := PADDING * (l / PADDING);
    if n < l then n + PADDING else n
  }

  function GrowSpec(raw: Bytes, n: nat, resize: bool): (r: Bytes)
    ensures |r| >= n && (resize ==> |r| == n)
  {
    if |raw| >= n then if resize then raw[..n] else raw
    else raw + Zeros(n - |raw|)
  }

  function Overwrite(raw: Bytes, at: nat, b: Bytes): (r: Bytes)
    requires at + |b| <= |raw|
    ensures |r| == |raw|
  {
    raw[..at] + b + raw[at + |b|..]
  }

  function WriteLengthSpec(m: State): State {
    m.(raw := Overwrite(GrowSpec(m.raw, 4, false), 2, Be16(m.length % 0x1_0000)))
  }

  function WriteTypeSpec(m: State): State {
    m.(raw := Overwrite(GrowSpec(m.raw, 2, false), 0, Be16(Value(m.typ))))
  }

  function WriteTransactionIdSpec(m: State): State
    requires |m.raw| >= MESSAGE_HEADER_SIZE
  {
    m.(raw := Overwrite(m.raw, 8, m.transactionId))
  }

  function WriteHeaderSpec(m: State): State {
    var m1 := WriteLengthSpec(WriteTypeSpec(m.(raw := GrowSpec(m.raw, MESSAGE_HEADER_SIZE, false))));
    WriteTransactionIdSpec(m1.(raw := Overwrite(m1.raw, 4, Be32(MAGIC_COOKIE))))
  }

  function ResetSpec(m: State): State {
    m.(raw := [], length := 0, attributes := [])
  }

  /** The buffer after add: grown by the TLV, which is copied in at first, then by its padding. */
  function AddedRaw(raw: Bytes, first: nat, t: U16, v: Bytes): Bytes {
    var last := first + ATTRIBUTE_HEADER_SIZE + |v|;
    var raw1 := Overwrite(GrowSpec(raw, last, true), first, Be16(t) + Be16(|v| % 0x1_0000) + v);
    var pad := PaddedLength(|v|) - |v|;
    if pad == 0 then raw1 else Overwrite(GrowSpec(raw1, last + pad, true), last, Zeros(pad))
  }

  /** add: write the padded TLV, push the attribute, rewrite the length field. */
  function AddSpec(m: State, t: U16, v: Bytes): State {
    WriteLengthSpec(m.(length := m.length + ATTRIBUTE_HEADER_SIZE + PaddedLength(|v|),
                   attributes := m.attributes + [Attribute(t, |v| % 0x1_0000, v)],
                   raw := AddedRaw(m.raw, MESSAGE_HEADER_SIZE + m.length, t, v)))
  }

  // ---------------------------------------------------------------- the wire format

  function Tlv(a: Attribute): Bytes {
    Be16(a.typ) + Be16(a.length) + a.value + Zeros(PaddedLength(|a.value|) - |a.value|)
  }

  function Encode(attributes: seq<Attribute>): Bytes {
    if attributes == [] then [] else Tlv(attributes[0]) + Encode(attributes[1..])
  }

  function Header(typ: MessageType, length: nat, id: TransactionId): (h: Bytes)
    ensures |h| == MESSAGE_HEADER_SIZE
  {
    Be16(Value(typ)) + Be16(length % 0x1_0000) + Be32(MAGIC_COOKIE) + id
  }

  /** Where each field of a message is, in network byte order. */
  lemma HeaderLayout(typ: MessageType, length: nat, id: TransactionId)
    ensures var h := Header(typ, length, id);
      && Number(h[0..2]) == Value(typ) && Number(h[2..4]) == length % 0x1_0000
      && Number(h[4..8]) == 0x2112A442 && h[8..20] == id
  {
    hide Number, Be16, Be32, Value;
    var h := Header(typ, length, id);
    BigEndian(Value(typ), 0, MAGIC_COOKIE, 0);
    BigEndian(length % 0x1_0000, 0, 0, 0);
    assert h[0..2] == Be16(Value(typ));
    assert h[2..4] == Be16(length % 0x1_0000);
    assert h[4..8] == Be32(MAGIC_COOKIE);
  }

  /** And of an attribute, its padding zero. */
  lemma TlvLayout(a: Attribute)
    ensures var b := Tlv(a); var end := 4 + |a.value|;
      && |b| % 4 == 0 && end <= |b| < end + 4
      && Number(b[0..2]) == a.typ && Number(b[2..4]) == a.length && b[4..end] == a.value
      && forall i :: end <= i < |b| ==> b[i] == 0
  {
    hide Number, Be16;
    var b := Tlv(a);
    BigEndian(a.typ, 0, 0, 0);
    BigEndian(a.length, 0, 0, 0);
    assert b[0..2] == Be16(a.typ);
    assert b[2..4] == Be16(a.length);
  }

  /** The buffer is the header followed by the padded attributes, and the length is theirs. */
  predicate WellFormed(m: State) {
    && m.raw == Header(m.typ, m.length, m.transactionId) + Encode(m.attributes)
    && m.length == |Encode(m.attributes)|
    && forall i :: 0 <= i < |m.attributes| ==> m.attributes[i].length == |m.attributes[i].value| % 0x1_0000
  }

  lemma {:induction false} EncodeAppend(a: seq<Attribute>, b: seq<Attribute>)
    ensures Encode(a + b) == Encode(a) + Encode(b)
  {
    hide Tlv;
    if a == [] {
      assert a + b == b;
    } else {
      EncodeAppend(a[1..], b);
      assert (a + b)[0] == a[0] && (a + b)[1..] == a[1..] + b;
      Assoc(Tlv(a[0]), Encode(a[1..]), Encode(b));
    }
  }

  lemma EncodeOne(a: Attribute)
    ensures Encode([a]) == Tlv(a)
  {
    EmptyUnit(Tlv(a));
  }

  lemma {:induction false} EncodeAligned(a: seq<Attribute>)
    ensures |Encode(a)| % PADDING == 0
  {
    hide Tlv, PaddedLength;
    if a != [] {
      EncodeAligned(a[1..]);
      TlvLength(a[0]);
    }
  }

  /** Rewriting the length field of a buffer that starts with a header changes just that. */
  lemma LengthField(typ: MessageType, n: nat, id: TransactionId, rest: Bytes, n': nat)
    ensures Overwrite(Header(typ, n, id) + rest, 2, Be16(n' % 0x1_0000)) == Header(typ, n', id) + rest
  {
  }

  lemma WriteLengthOn(m: State, n: nat, rest: Bytes)
    requires m.raw == Header(m.typ, n, m.transactionId) + rest
    ensures WriteLengthSpec(m) == m.(raw := Header(m.typ, m.length, m.transactionId) + rest)
  {
    LengthField(m.typ, n, m.transactionId, rest, m.length);
  }

  /** Whatever the length field held, add appends exactly one padded TLV. */
  lemma AddAppends(m: State, n: nat, t: U16, v: Bytes)
    requires m.raw == Header(m.typ, n, m.transactionId) + Encode(m.attributes)
    requires m.length == |Encode(m.attributes)|
    ensures var a := Attribute(t, |v| % 0x1_0000, v); var attributes := m.attributes + [a];
      AddSpec(m, t, v) == State(m.typ, |Encode(attributes)|, m.transactionId, attributes,
                            Header(m.typ, |Encode(attributes)|, m.transactionId) + Encode(attributes))
  {
    hide Header, AddedRaw, WriteLengthSpec, Encode, Tlv;
    var a := Attribute(t, |v| % 0x1_0000, v);
    var attributes := m.attributes + [a];
    EncodeAppend(m.attributes, [a]);
    EncodeOne(a);
    TlvLength(a);
    AddedRawAppends(m.raw, t, v);
    Assoc(Header(m.typ, n, m.transactionId), Encode(m.attributes), Tlv(a));
    WriteLengthOn(m.(length := |Encode(attributes)|, attributes := attributes, raw := m.raw + Tlv(a)), n, Encode(attributes));
  }

  lemma TlvLength(a: Attribute)
    ensures |Tlv(a)| == ATTRIBUTE_HEADER_SIZE + PaddedLength(|a.value|)
  {
  }

  lemma AddedRawAppends(raw: Bytes, t: U16, v: Bytes)
    ensures AddedRaw(raw, |raw|, t, v) == raw + Tlv(Attribute(t, |v| % 0x1_0000, v))
  {
    hide Overwrite, GrowSpec, PaddedLength, Zeros, Be16;
    var tlv := Be16(t) + Be16(|v| % 0x1_0000) + v;
    var pad := PaddedLength(|v|) - |v|;
    OverwriteTail(raw, tlv);
    OverwriteTail(raw + tlv, Zeros(pad));
    Assoc(raw, tlv, Zeros(pad));
    EmptyUnit(tlv);
  }

  lemma OverwriteTail(raw: Bytes, b: Bytes)
    ensures Overwrite(GrowSpec(raw, |raw| + |b|, true), |raw|, b) == raw + b
  {
  }

  /** add keeps the buffer and the attribute list in agreement. */
  lemma AddKeepsWellFormed(m: State, t: U16, v: Bytes)
    requires WellFormed(m)
    ensures WellFormed(AddSpec(m, t, v))
    ensures AddSpec(m, t, v).attributes == m.attributes + [Attribute(t, |v| % 0x1_0000, v)]
    ensures AddSpec(m, t, v).typ == m.typ && AddSpec(m, t, v).transactionId == m.transactionId
  {
    hide AddSpec, Encode, Header;
    AddAppends(m, m.length, t, v);
  }

  /** A fresh header is a well-formed empty message. */
  lemma ResetIsWellFormed(m: State)
    ensures WellFormed(WriteHeaderSpec(ResetSpec(m)))
    ensures WriteHeaderSpec(ResetSpec(m)).typ == m.typ && WriteHeaderSpec(ResetSpec(m)).transactionId == m.transactionId
  {
    var m0 := ResetSpec(m);
    var z := Zeros(MESSAGE_HEADER_SIZE);
    assert GrowSpec([], MESSAGE_HEADER_SIZE, false) == z;
    var a := Be16(Value(m.typ));
    var b := Be16(0);
    var c := Be32(MAGIC_COOKIE);
    var r1 := Overwrite(z, 0, a);
    assert r1 == a + z[2..];
    var r2 := Overwrite(r1, 2, b);
    assert r2 == a + b + z[4..];
    var r3 := Overwrite(r2, 4, c);
    assert r3 == a + b + c + z[8..];
    assert Overwrite(r3, 8, m.transactionId) == a + b + c + m.transactionId;
    EmptyUnit(Header(m.typ, 0, m.transactionId));
  }

  lemma SetTypeKeepsWellFormed(m: State, t: MessageType)
    requires WellFormed(m)
    ensures WellFormed(WriteTypeSpec(m.(typ := t)))
  {
    hide Encode, Value;
    var rest := Encode(m.attributes);
    assert WriteTypeSpec(m.(typ := t)).raw == Header(t, m.length, m.transactionId) + rest;
  }

  lemma SetIdKeepsWellFormed(m: State, id: TransactionId)
    requires WellFormed(m)
    ensures WellFormed(WriteTransactionIdSpec(m.(transactionId := id)))
  {
    hide Encode, Value;
    var rest := Encode(m.attributes);
    assert WriteTransactionIdSpec(m.(transactionId := id)).raw == Header(m.typ, m.length, id) + rest;
  }

  // ---------------------------------------------------------------- decode

  function CompatType(t: U16): U16 {
    if t == OLD_XORMAPPED_ADDRESS then ATTR_XORMAPPED_ADDRESS else t
  }

  /** The attributes parsed from the body, and whether it was parsed to the end. */
  function ParseAttributes(b: Bytes): (seq<Attribute>, bool)
    decreases |b|
  {
    if b == [] then ([], true)
    else if |b| < ATTRIBUTE_HEADER_SIZE then ([], false)
    else
      var length := Read16(b[2..4]);
      var end := ATTRIBUTE_HEADER_SIZE + PaddedLength(length);
      if |b| < end then ([], false)
      else
        var (rest, ok) := ParseAttributes(b[end..]);
        ([Attribute(CompatType(Read16(b[..2])), length, b[ATTRIBUTE_HEADER_SIZE..ATTRIBUTE_HEADER_SIZE + length])] + rest, ok)
  }

  /** decode: the message after it, header fields and attributes read so far included. */
  function DecodeSpec(m: State): (State, Result<(), Error>) {
    var buf := m.raw;
    if |buf| < MESSAGE_HEADER_SIZE then (m, Err(ErrUnexpectedHeaderEof))
    else
      var size := Read16(buf[2..4]);
      if Read32(buf[4..8]) != MAGIC_COOKIE then (m, Err(ErrInvalidCookie))
      else if |buf| < MESSAGE_HEADER_SIZE + size then (m, Err(ErrShortBuffer))
      else
        var (attributes, ok) := ParseAttributes(buf[MESSAGE_HEADER_SIZE..MESSAGE_HEADER_SIZE + size]);
        (m.(typ := ReadValue(Read16(buf[..2])), length := size, transactionId := buf[8..MESSAGE_HEADER_SIZE],
            attributes := attributes),
         if ok then Ok(()) else Err(ErrShortBuffer))
  }

  function Compat(attributes: seq<Attribute>): seq<Attribute> {
    seq(|attributes|, i requires 0 <= i < |attributes| => attributes[i].(typ := CompatType(attributes[i].typ)))
  }

  /** An attribute on the wire: its header gives the length of the value, which is padded. */
  predicate IsTlv(p: Bytes) {
    |p| >= ATTRIBUTE_HEADER_SIZE && |p| == ATTRIBUTE_HEADER_SIZE + PaddedLength(Number(p[2..4]))
  }

  /** A body cut into attributes. */
  predicate IsCut(b: Bytes, parts: seq<Bytes>) {
    Concat(parts) == b && forall i :: 0 <= i < |parts| ==> IsTlv(parts[i])
  }

  /** What an attribute is read as; the padding is not looked at. */
  function AttributeOf(p: Bytes): (a: Attribute)
    requires IsTlv(p)
  {
    Numbers(p);
    Attribute(CompatType(Number(p[..2])), Number(p[2..4]), p[4..4 + Number(p[2..4])])
  }

  lemma Numbers(p: Bytes)
    requires |p| >= 4
    ensures Number(p[..2]) == Read16(p[..2]) && Number(p[2..4]) == Read16(p[2..4])
  {
    NumberIsRead(p[..2]);
    NumberIsRead(p[2..4]);
  }

  function AttributesOf(parts: seq<Bytes>): seq<Attribute>
    requires forall i :: 0 <= i < |parts| ==> IsTlv(parts[i])
  {
    seq(|parts|, i requires 0 <= i < |parts| => AttributeOf(parts[i]))
  }

  /** A body is parsed to the end exactly when it can be cut into attributes, and then into
      these. */
  lemma {:induction false} CutIsParsed(b: Bytes, parts: seq<Bytes>)
    requires IsCut(b, parts)
    ensures ParseAttributes(b) == (AttributesOf(parts), true)
    decreases |parts|
  {
    hide Number, Read16, PaddedLength;
    if parts == [] {
      assert AttributesOf(parts) == [];
    } else {
      var p, rest := parts[0], parts[1..];
      CutIsParsed(Concat(rest), rest);
      Numbers(p);
      assert b[2..4] == p[2..4] && b[..2] == p[..2] && b[|p|..] == Concat(rest);
      assert b[4..4 + Number(p[2..4])] == p[4..4 + Number(p[2..4])];
      assert AttributesOf(parts) == [AttributeOf(p)] + AttributesOf(rest);
    }
  }

  lemma {:induction false} ParsedIsCut(b: Bytes) returns (parts: seq<Bytes>)
    requires ParseAttributes(b).1
    ensures IsCut(b, parts)
    decreases |b|
  {
    hide Number, Read16, PaddedLength;
    if b == [] {
      parts := [];
    } else {
      var end := ATTRIBUTE_HEADER_SIZE + PaddedLength(Read16(b[2..4]));
      var rest := ParsedIsCut(b[end..]);
      var p := b[..end];
      Numbers(p);
      assert p[2..4] == b[2..4];
      parts := [p] + rest;
      assert parts[1..] == rest && b == p + b[end..];
    }
  }

  ghost predicate CanBeCut(b: Bytes) {
    exists parts: seq<Bytes> :: IsCut(b, parts)
  }

  /** When decode succeeds, and what each of its errors means. */
  lemma DecodeExactly(m: State)
    ensures var (b, r) := (m.raw, DecodeSpec(m).1);
      && (r == Err(ErrUnexpectedHeaderEof) <==> |b| < 20)
      && (r == Err(ErrInvalidCookie) <==> |b| >= 20 && Number(b[4..8]) != 0x2112A442)
      && (r.Ok? <==>
            && |b| >= 20 && Number(b[4..8]) == 0x2112A442
            && var end := 20 + Number(b[2..4]); end <= |b| && CanBeCut(b[20..end]))
      && (r.Err? ==> r.error in {ErrUnexpectedHeaderEof, ErrInvalidCookie, ErrShortBuffer})
  {
    hide Number, Read16, Read32, ParseAttributes, ReadValue, IsCut;
    var b := m.raw;
    if |b| >= 20 {
      NumberIsRead(b[4..8]);
      NumberIsRead(b[2..4]);
      var end := 20 + Read16(b[2..4]);
      if end <= |b| {
        if ParseAttributes(b[20..end]).1 {
          var parts := ParsedIsCut(b[20..end]);
        }
        if parts: seq<Bytes> :| IsCut(b[20..end], parts) {
          CutIsParsed(b[20..end], parts);
        }
      }
    }
  }

  predicate ShortValues(attributes: seq<Attribute>) {
    forall i :: 0 <= i < |attributes| ==> attributes[i].length == |attributes[i].value|
  }

  lemma ParseOne(a: Attribute, rest: Bytes)
    requires a.length == |a.value|
    ensures var b := Tlv(a) + rest; var end := ATTRIBUTE_HEADER_SIZE + PaddedLength(a.length);
      && b != [] && |b| >= end >= ATTRIBUTE_HEADER_SIZE && |Tlv(a)| == end
      && Read16(b[..2]) == a.typ && Read16(b[2..4]) == a.length
      && b[ATTRIBUTE_HEADER_SIZE..ATTRIBUTE_HEADER_SIZE + a.length] == a.value
      && b[end..] == rest
  {
    hide Read16;
    var b := Tlv(a) + rest;
    assert b[..2] == Be16(a.typ);
    assert b[2..4] == Be16(a.length);
  }

  lemma {:induction false} ParseUndoesEncode(attributes: seq<Attribute>)
    requires ShortValues(attributes)
    ensures ParseAttributes(Encode(attributes)) == (Compat(attributes), true)
  {
    hide Tlv, Read16;
    if attributes == [] {
      assert Compat(attributes) == [];
    } else {
      var a, rest := attributes[0], attributes[1..];
      ParseUndoesEncode(rest);
      ParseOne(a, Encode(rest));
      var b := Tlv(a) + Encode(rest);
      assert Encode(attributes) == b;
      assert a == Attribute(a.typ, a.length, a.value);
      assert ParseAttributes(b) == ([a.(typ := CompatType(a.typ))] + Compat(rest), true);
      assert Compat(attributes) == [a.(typ := CompatType(a.typ))] + Compat(rest);
    }
  }

  lemma Suffix(h: Bytes, b: Bytes)
    ensures (h + b)[|h|..|h| + |b|] == b
  {
  }

  lemma {:induction false} ValuesFit(attributes: seq<Attribute>, i: nat)
    requires i < |attributes|
    ensures |attributes[i].value| <= |Encode(attributes)|
  {
    if i > 0 {
      ValuesFit(attributes[1..], i - 1);
    }
  }

  /** Parsing what was built gives back type, transaction id, length and attributes, with old
      attribute types translated, as long as the length fits its field. */
  lemma DecodeUndoesBuild(m: State)
    requires WellFormed(m) && m.length < 0x1_0000
    ensures DecodeSpec(m) == (m.(typ := MessageType(m.typ.stunMethod % 0x1000, (m.typ.stunClass as int) % 4),
                             attributes := Compat(m.attributes)), Ok(()))
  {
    hide ParseAttributes, Encode, Value, ReadValue, Compat, Read16, Read32;
    forall i | 0 <= i < |m.attributes| ensures m.attributes[i].length == |m.attributes[i].value| {
      ValuesFit(m.attributes, i);
    }
    ParseUndoesEncode(m.attributes);
    TypeReadsBack(m.typ);
    var h := Header(m.typ, m.length, m.transactionId);
    assert m.raw[..2] == h[..2] == Be16(Value(m.typ));
    assert m.raw[2..4] == h[2..4] == Be16(m.length);
    assert m.raw[4..8] == h[4..8] == Be32(MAGIC_COOKIE);
    assert m.raw[8..20] == h[8..20] == m.transactionId;
    Suffix(h, Encode(m.attributes));
  }

  /** Messages are compared without their buffers. */
  predicate Equal(a: State, b: State) {
    a.typ == b.typ && a.transactionId == b.transactionId && a.length == b.length && a.attributes == b.attributes
  }

  /** A built message survives the trip exactly when its attributes total at most 65535
      bytes, its method has twelve bits, its class two, and no attribute has the old
      XOR-MAPPED-ADDRESS type. */
  lemma RoundTripExact(m: State)
    requires WellFormed(m)
    ensures DecodeSpec(m).1.Ok? && Equal(DecodeSpec(m).0, m) <==>
      && m.length < 0x1_0000
      && m.typ.stunMethod < 0x1000 && m.typ.stunClass < 4
      && forall i :: 0 <= i < |m.attributes| ==> m.attributes[i].typ != OLD_XORMAPPED_ADDRESS
  {
    hide WellFormed, ParseAttributes, Value, ReadValue;
    if m.length < 0x1_0000 {
      DecodeUndoesBuild(m);
      if Compat(m.attributes) == m.attributes {
        forall i | 0 <= i < |m.attributes| ensures m.attributes[i].typ != OLD_XORMAPPED_ADDRESS {
          assert Compat(m.attributes)[i] == m.attributes[i];
        }
      }
    }
  }

  // ---------------------------------------------------------------- the message in place

  class Message {
    var typ: MessageType
    var length: nat
    var transactionId: TransactionId
    var attributes: seq<Attribute>
    var raw: Bytes

    ghost function View(): State
      reads this
    {
      State(typ, length, transactionId, attributes, raw)
    }

    constructor ()
      ensures attributes == [] && length == 0 && raw == Zeros(MESSAGE_HEADER_SIZE)
    {
      typ := MessageType(0, 0);
      length := 0;
      transactionId := Zeros(TRANSACTION_ID_SIZE);
      attributes := [];
      raw := Zeros(MESSAGE_HEADER_SIZE);
    }

    method Grow(n: nat, resize: bool)
      modifies this`raw
      ensures raw == GrowSpec(old(raw), n, resize)
    {
      if |raw| >= n {
        if resize {
          raw := raw[..n];
        }
        return;
      }
      raw := raw + Zeros(n - |raw|);
    }

    /** copy_from_slice into a slice of the buffer. */
    method CopyAt(at: nat, b: Bytes)
      requires at + |b| <= |raw|
      modifies this`raw
      ensures raw == Overwrite(old(raw), at, b)
    {
      raw := raw[..at] + b + raw[at + |b|..];
    }

    method WriteLength()
      modifies this`raw
      ensures View() == WriteLengthSpec(old(View()))
    {
      Grow(4, false);
      CopyAt(2, Be16(length % 0x1_0000));
    }

    method WriteType()
      modifies this`raw
      ensures View() == WriteTypeSpec(old(View()))
    {
      Grow(2, false);
      CopyAt(0, Be16(Value(typ)));
    }

    method WriteTransactionId()
      requires |raw| >= MESSAGE_HEADER_SIZE
      modifies this`raw
      ensures View() == WriteTransactionIdSpec(old(View()))
    {
      CopyAt(8, transactionId);
    }

    method WriteHeader()
      modifies this`raw
      ensures View() == WriteHeaderSpec(old(View()))
    {
      Grow(MESSAGE_HEADER_SIZE, false);
      WriteType();
      WriteLength();
      CopyAt(4, Be32(MAGIC_COOKIE));
      WriteTransactionId();
    }

    method Reset()
      modifies this
      ensures View() == ResetSpec(old(View()))
    {
      raw := [];
      length := 0;
      attributes := [];
    }

    method Add(t: U16, v: Bytes)
      modifies this
      ensures View() == AddSpec(old(View()), t, v)
    {
      hide Overwrite, GrowSpec, PaddedLength, Zeros, Be16, WriteLengthSpec;
      assert |v| % 0x1_0000 % PADDING == |v| % PADDING;
      var allocSize := ATTRIBUTE_HEADER_SIZE + |v|;
      var first := MESSAGE_HEADER_SIZE + length;
      var last := first + allocSize;
      Grow(last, true);
      length := length + allocSize;
      var attr := Attribute(t, |v| % 0x1_0000, v);
      CopyAt(first, Be16(t) + Be16(attr.length) + v);
      if attr.length % PADDING != 0 {
        var bytesToAdd := PaddedLength(|v|) - |v|;
        last := last + bytesToAdd;
        Grow(last, true);
        CopyAt(last - bytesToAdd, Zeros(bytesToAdd));
        length := length + bytesToAdd;
      }
      attributes := attributes + [attr];
      WriteLength();
    }

    method Decode() returns (r: Result<(), Error>)
      modifies this
      ensures (View(), r) == DecodeSpec(old(View()))
    {
      hide ParseAttributes, ReadValue, Read16, Read32;
      if |raw| < MESSAGE_HEADER_SIZE {
        return Err(ErrUnexpectedHeaderEof);
      }
      var t := Read16(raw[0..2]);
      var size := Read16(raw[2..4]);
      var fullSize := MESSAGE_HEADER_SIZE + size;
      if Read32(raw[4..8]) != MAGIC_COOKIE {
        return Err(ErrInvalidCookie);
      }
      if |raw| < fullSize {
        return Err(ErrShortBuffer);
      }
      typ := ReadValue(t);
      length := size;
      transactionId := raw[8..MESSAGE_HEADER_SIZE];
      var ok;
      attributes, ok := ParseBody(raw[MESSAGE_HEADER_SIZE..fullSize]);
      return if ok then Ok(()) else Err(ErrShortBuffer);
    }
  }

  /** The attribute loop of decode. */
  method ParseBody(body: Bytes) returns (attributes: seq<Attribute>, ok: bool)
    ensures (attributes, ok) == ParseAttributes(body)
  {
    attributes := [];
    var offset := 0;
    var b := body;
    EmptyUnit(ParseAttributes(body).0);
    while offset < |body|
      invariant offset <= |body| && |b| == |body| - offset
      invariant ParseAttributes(body) == (attributes + ParseAttributes(b).0, ParseAttributes(b).1)
      decreases |b|
    {
      EmptyUnit(attributes);
      if |b| < ATTRIBUTE_HEADER_SIZE {
        return attributes, false;
      }
      var typ := CompatType(Read16(b[..2]));
      var length := Read16(b[2..4]);
      var padded := PaddedLength(length);
      ghost var whole := b;
      b := b[ATTRIBUTE_HEADER_SIZE..];
      offset := offset + ATTRIBUTE_HEADER_SIZE;
      if |b| < padded {
        return attributes, false;
      }
      var a := Attribute(typ, length, b[..length]);
      assert b[..length] == whole[ATTRIBUTE_HEADER_SIZE..ATTRIBUTE_HEADER_SIZE + length];
      assert b[padded..] == whole[ATTRIBUTE_HEADER_SIZE + padded..];
      Assoc(attributes, [a], ParseAttributes(b[padded..]).0);
      offset := offset + padded;
      b := b[padded..];
      attributes := attributes + [a];
    }
    EmptyUnit(attributes);
    return attributes, true;
  }
}
