/** Handshake messages and their 12-byte header (section 4.2.2 of RFC 6347).
    The body of a message is its already marshalled content. */
module Handshake {
  import opened Bytes
  import opened Wrappers
  import S = Streams

  const HANDSHAKE_HEADER_LENGTH: nat := 12

  datatype HandshakeType =
    | HelloRequest | ClientHello | ServerHello | HelloVerifyRequest
    | Certificate | ServerKeyExchange | CertificateRequest | ServerHelloDone
    | CertificateVerify | ClientKeyExchange | Finished | Invalid
  {
    function Code(): Byte {
      match this
      case HelloRequest => 0
      case ClientHello => 1
      case ServerHello => 2
      case HelloVerifyRequest => 3
      case Certificate => 11
      case ServerKeyExchange => 12
      case CertificateRequest => 13
      case ServerHelloDone => 14
      case CertificateVerify => 15
      case ClientKeyExchange => 16
      case Finished => 20
      case Invalid => 21
    }

    static function FromCode(b: Byte): HandshakeType {
      match b
      case 0 => HelloRequest
      case 1 => ClientHello
      case 2 => ServerHello
      case 3 => HelloVerifyRequest
      case 11 => Certificate
      case 12 => ServerKeyExchange
      case 13 => CertificateRequest
      case 14 => ServerHelloDone
      case 15 => CertificateVerify
      case 16 => ClientKeyExchange
      case 20 => Finished
      case _ => Invalid
    }

    /** Handshake::unmarshal has a parser for these types only. */
    predicate HasParser() {
      this != HelloRequest && this != Invalid
    }
  }

  // length, fragmentOffset and fragmentLength are 24 bits on the wire; the writer
  // panics on anything larger.
  datatype Header = Header(
    typ: HandshakeType,
    length: U24,
    messageSequence: U16,
    fragmentOffset: U24,
    fragmentLength: U24)

  function MarshalHeader(h: Header): (b: Bytes)
    ensures |b| == HANDSHAKE_HEADER_LENGTH
  {
    [h.typ.Code()] + Be24(h.length) + Be16(h.messageSequence) + Be24(h.fragmentOffset) + Be24(h.fragmentLength)
  }

  function UnmarshalHeader(b: Bytes): (r: Option<Header>)
    ensures r.Some? ==> |b| >= HANDSHAKE_HEADER_LENGTH
  {
    if |b| < HANDSHAKE_HEADER_LENGTH then None
    else Some(Header(HandshakeType.FromCode(b[0]), Read24(b[1..4]), Read16(b[4..6]), Read24(b[6..9]), Read24(b[9..12])))
  }

  lemma HeaderRoundTrip(h: Header, rest: Bytes)
    ensures UnmarshalHeader(MarshalHeader(h) + rest) == Some(h)
  {
    var m := MarshalHeader(h);
    var b := m + rest;
    assert b[1..4] == m[1..4] == Be24(h.length);
    assert b[4..6] == m[4..6] == Be16(h.messageSequence);
    assert b[6..9] == m[6..9] == Be24(h.fragmentOffset);
    assert b[9..12] == m[9..12] == Be24(h.fragmentLength);
  }

  /** Where each field is on the wire, in network byte order. */
  lemma HeaderLayout(h: Header)
    ensures var m := MarshalHeader(h);
      && Number(m[1..4]) == h.length && Number(m[4..6]) == h.messageSequence
      && Number(m[6..9]) == h.fragmentOffset && Number(m[9..12]) == h.fragmentLength
      && m[0] == match h.typ
                 case HelloRequest => 0 case ClientHello => 1 case ServerHello => 2 case HelloVerifyRequest => 3
                 case Certificate => 11 case ServerKeyExchange => 12 case CertificateRequest => 13
                 case ServerHelloDone => 14 case CertificateVerify => 15 case ClientKeyExchange => 16
                 case Finished => 20 case Invalid => 21
  {
    hide Number, Be16, Be24;
    var m := MarshalHeader(h);
    BigEndian(h.messageSequence, h.length, 0, 0);
    BigEndian(0, h.fragmentOffset, 0, 0);
    BigEndian(0, h.fragmentLength, 0, 0);
    assert m[1..4] == Be24(h.length);
    assert m[4..6] == Be16(h.messageSequence);
    assert m[6..9] == Be24(h.fragmentOffset);
    assert m[9..12] == Be24(h.fragmentLength);
  }

  /** The header's fields, written one by one. */
  method MarshalHeaderTo(h: Header, w: S.Writer)
    modifies w
    ensures w.written == old(w.written) + MarshalHeader(h)
  {
    hide Be16, Be24;
    w.WriteU8(h.typ.Code());
    w.WriteU24(h.length);
    w.WriteU16(h.messageSequence);
    w.WriteU24(h.fragmentOffset);
    w.WriteU24(h.fragmentLength);
    var start := old(w.written);
    var f0 := [h.typ.Code()];
    var f1 := f0 + Be24(h.length);
    var f2 := f1 + Be16(h.messageSequence);
    var f3 := f2 + Be24(h.fragmentOffset);
    Assoc(start, f0, Be24(h.length));
    Assoc(start, f1, Be16(h.messageSequence));
    Assoc(start, f2, Be24(h.fragmentOffset));
    Assoc(start, f3, Be24(h.fragmentLength));
  }

  /** And read one by one. */
  method UnmarshalHeaderFrom(rd: S.Reader) returns (r: Option<Header>)
    modifies rd
    ensures r == UnmarshalHeader(old(rd.rest))
    ensures r.Some? ==> rd.rest == old(rd.rest)[HANDSHAKE_HEADER_LENGTH..]
  {
    hide Read16, Read24;
    ghost var b := rd.rest;
    var typ := rd.ReadU8(());
    if typ.Err? {
      return None;
    }
    var length := rd.ReadU24(());
    if length.Err? {
      return None;
    }
    assert rd.rest == b[4..] && b[1..][..3] == b[1..4];
    var sequence := rd.ReadU16(());
    if sequence.Err? {
      return None;
    }
    assert rd.rest == b[6..] && b[4..][..2] == b[4..6];
    var offset := rd.ReadU24(());
    if offset.Err? {
      return None;
    }
    assert rd.rest == b[9..] && b[6..][..3] == b[6..9];
    var fragment := rd.ReadU24(());
    if fragment.Err? {
      return None;
    }
    assert rd.rest == b[12..] && b[9..][..3] == b[9..12];
    return Some(Header(HandshakeType.FromCode(typ.value), length.value, sequence.value, offset.value, fragment.value));
  }

  datatype Message = Message(header: Header, body: Bytes) {
    /** A message as Handshake::new makes it: unfragmented, and with the length of its body. */
    predicate Whole() {
      header.fragmentOffset == 0 && header.length == header.fragmentLength == |body|
    }

    function Marshal(): Bytes {
      MarshalHeader(header) + body
    }
  }

  // The header can only carry the length of a body this short.
  type Body = b: Bytes | |b| < 0x100_0000

  /** Handshake::new. */
  function NewMessage(typ: HandshakeType, body: Body): (m: Message)
    ensures m.Whole() && m.header.messageSequence == 0
  {
    Message(Header(typ, |body|, 0, 0, |body|), body)
  }

  function Renumbered(m: Message, n: nat): (m': Message)
    ensures m.Whole() ==> m'.Whole()
  {
    m.(header := m.header.(messageSequence := n % 0x1_0000))
  }
}
