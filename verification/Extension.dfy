/** The hello extensions (section 7.4.1.4 of RFC 5246) and the walk over a list of them. */
module Extension {
  import opened Bytes
  import opened Wrappers
  import opened Streams

  datatype Error =
    | ErrUnexpectedEof
    | ErrCookieTooLong
    | ErrInvalidExtensionType
    | ErrInvalidSniFormat
    | ErrInvalidPacketLength
    | ErrUtf8
    | IndexOutOfBounds

  // ---------------------------------------------------------------- code points

  // Each Unsupported has the number after the last one listed before it.

  datatype NamedCurve = P256 | P384 | X25519 | Unsupported {
    function Code(): U16 {
      match this
      case P256 => 0x0017
      case P384 => 0x0018
      case X25519 => 0x001d
      case Unsupported => 0x001e
    }

    static function FromCode(c: U16): NamedCurve {
      match c
      case 0x0017 => P256
      case 0x0018 => P384
      case 0x001d => X25519
      case _ => NamedCurve.Unsupported
    }
  }

  datatype SrtpProtectionProfile = Aes128CmHmacSha1_80 | Aes128CmHmacSha1_32 | AeadAes128Gcm | AeadAes256Gcm | Unsupported {
    function Code(): U16 {
      match this
      case Aes128CmHmacSha1_80 => 0x0001
      case Aes128CmHmacSha1_32 => 0x0002
      case AeadAes128Gcm => 0x0007
      case AeadAes256Gcm => 0x0008
      case Unsupported => 0x0009
    }

    static function FromCode(c: U16): SrtpProtectionProfile {
      match c
      case 0x0001 => Aes128CmHmacSha1_80
      case 0x0002 => Aes128CmHmacSha1_32
      case 0x0007 => AeadAes128Gcm
      case 0x0008 => AeadAes256Gcm
      case _ => SrtpProtectionProfile.Unsupported
    }
  }

  datatype HashAlgorithm = Md2 | Md5 | Sha1 | Sha224 | Sha256 | Sha384 | Sha512 | Ed25519 | Unsupported {
    function Code(): Byte {
      match this
      case Md2 => 0
      case Md5 => 1
      case Sha1 => 2
      case Sha224 => 3
      case Sha256 => 4
      case Sha384 => 5
      case Sha512 => 6
      case Ed25519 => 8
      case Unsupported => 9
    }

    static function FromCode(c: Byte): HashAlgorithm {
      match c
      case 0 => Md2
      case 1 => Md5
      case 2 => Sha1
      case 3 => Sha224
      case 4 => Sha256
      case 5 => Sha384
      case 6 => Sha512
      case 8 => HashAlgorithm.Ed25519
      case _ => HashAlgorithm.Unsupported
    }
  }

  datatype SignatureAlgorithm = Rsa | Ecdsa | Ed25519 | Unsupported {
    function Code(): Byte {
      match this
      case Rsa => 1
      case Ecdsa => 3
      case Ed25519 => 7
      case Unsupported => 8
    }

    static function FromCode(c: Byte): SignatureAlgorithm {
      match c
      case 1 => Rsa
      case 3 => Ecdsa
      case 7 => SignatureAlgorithm.Ed25519
      case _ => SignatureAlgorithm.Unsupported
    }
  }

  datatype SignatureHashAlgorithm = SignatureHashAlgorithm(hash: HashAlgorithm, signature: SignatureAlgorithm) {
    /** Two bytes, the hash first. */
    function Code(): U16 {
      (hash.Code() as int) * 0x100 + signature.Code() as int
    }

    static function FromCode(c: U16): SignatureHashAlgorithm {
      SignatureHashAlgorithm(HashAlgorithm.FromCode(c / 0x100), SignatureAlgorithm.FromCode(c % 0x100))
    }
  }

  // ---------------------------------------------------------------- extensions

  datatype Extension =
    | ServerName(name: Bytes)
    | SupportedEllipticCurves(curves: seq<NamedCurve>)
    | SupportedPointFormats(formats: Bytes)
    | SupportedSignatureAlgorithms(algorithms: seq<SignatureHashAlgorithm>)
    | UseSrtp(profiles: seq<SrtpProtectionProfile>)
    | UseExtendedMasterSecret(supported: bool)
    | RenegotiationInfo(connection: Byte)
  {
    function Value(): U16 {
      match this
      case ServerName(_) => 0
      case SupportedEllipticCurves(_) => 10
      case SupportedPointFormats(_) => 11
      case SupportedSignatureAlgorithms(_) => 13
      case UseSrtp(_) => 14
      case UseExtendedMasterSecret(_) => 23
      case RenegotiationInfo(_) => 65281
    }

    /** The size that the message headers count with. */
    function Size(): nat {
      2 + match this
          case ServerName(name) => 2 + 2 + 1 + 2 + |name|
          case SupportedEllipticCurves(curves) => 2 + 2 + |curves| * 2
          case SupportedPointFormats(formats) => 2 + 1 + |formats|
          case SupportedSignatureAlgorithms(algorithms) => 2 + 2 + |algorithms| * 2
          case UseSrtp(profiles) => 2 + 2 + |profiles| * 2 + 1
          case UseExtendedMasterSecret(_) => 2
          case RenegotiationInfo(_) => 3
    }
  }

  function Be16s(codes: seq<U16>): (b: Bytes)
    ensures |b| == 2 * |codes|
  {
    if codes == [] then [] else Be16s(codes[..|codes| - 1]) + Be16(codes[|codes| - 1])
  }

  function Mapped<A, B>(xs: seq<A>, f: A -> B): (r: seq<B>)
    ensures |r| == |xs|
  {
    seq(|xs|, i requires 0 <= i < |xs| => f(xs[i]))
  }

  const CURVE_CODE := (c: NamedCurve) => c.Code()
  const PROFILE_CODE := (p: SrtpProtectionProfile) => p.Code()
  const ALGORITHM_CODE := (a: SignatureHashAlgorithm) => a.Code()

  /** What stands behind the type and the length; list lengths are cut to their field. */
  function Content(e: Extension): Bytes {
    match e
    case ServerName(name) => Be16((3 + |name|) % 0x1_0000) + ([0] + (Be16(|name| % 0x1_0000) + name))
    case SupportedEllipticCurves(curves) => Be16(2 * |curves| % 0x1_0000) + Be16s(Mapped(curves, CURVE_CODE))
    case SupportedPointFormats(formats) => [|formats| % 0x100] + formats
    case SupportedSignatureAlgorithms(algorithms) => Be16(2 * |algorithms| % 0x1_0000) + Be16s(Mapped(algorithms, ALGORITHM_CODE))
    case UseSrtp(profiles) => Be16(2 * |profiles| % 0x1_0000) + (Be16s(Mapped(profiles, PROFILE_CODE)) + [0])
    case UseExtendedMasterSecret(_) => []
    case RenegotiationInfo(connection) => [connection]
  }

  function Marshal(e: Extension): Bytes {
    Be16(e.Value()) + (Be16(|Content(e)| % 0x1_0000) + Content(e))
  }

  function MarshalAll(es: seq<Extension>): Bytes {
    if es == [] then [] else Marshal(es[0]) + MarshalAll(es[1..])
  }

  function SizeAll(es: seq<Extension>): nat {
    if es == [] then 0 else es[0].Size() + SizeAll(es[1..])
  }

  /** Sizes count what is written. */
  lemma SizeIsLength(e: Extension)
    ensures e.Size() == |Marshal(e)| == 4 + |Content(e)|
  {
  }

  lemma {:induction false} SizeAllIsLength(es: seq<Extension>)
    ensures SizeAll(es) == |MarshalAll(es)|
  {
    hide Marshal;
    if es != [] {
      SizeIsLength(es[0]);
      SizeAllIsLength(es[1..]);
    }
  }

  lemma {:induction false} CodeAt(codes: seq<U16>, i: nat)
    requires i < |codes|
    ensures Number(Be16s(codes)[2 * i..2 * i + 2]) == codes[i]
    decreases |codes|
  {
    hide Be16, Number;
    var n := |codes| - 1;
    var init := Be16s(codes[..n]);
    if i < n {
      CodeAt(codes[..n], i);
      assert Be16s(codes)[2 * i..2 * i + 2] == init[2 * i..2 * i + 2];
    } else {
      BigEndian(codes[n], 0, 0, 0);
      assert Be16s(codes)[2 * n..2 * n + 2] == Be16(codes[n]);
    }
  }

  /** The type number of an extension, as assigned by IANA. */
  predicate TypeNumber(e: Extension, n: nat) {
    n == match e
         case ServerName(_) => 0
         case SupportedEllipticCurves(_) => 10
         case SupportedPointFormats(_) => 11
         case SupportedSignatureAlgorithms(_) => 13
         case UseSrtp(_) => 14
         case UseExtendedMasterSecret(_) => 23
         case RenegotiationInfo(_) => 65281
  }

  /** A list of two-byte codes behind its length in bytes. */
  predicate IsCodeList(b: Bytes, codes: seq<U16>) {
    && |b| == 2 + 2 * |codes| && Number(b[..2]) == 2 * |codes| % 0x1_0000
    && forall i :: 0 <= i < |codes| ==> Number(b[2 + 2 * i..4 + 2 * i]) == codes[i]
  }

  lemma CodeListIs(codes: seq<U16>)
    ensures IsCodeList(Be16(2 * |codes| % 0x1_0000) + Be16s(codes), codes)
  {
    hide Be16, Be16s, Number;
    var n := 2 * |codes| % 0x1_0000;
    var b := Be16(n) + Be16s(codes);
    BigEndian(n, 0, 0, 0);
    assert b[..2] == Be16(n);
    forall i | 0 <= i < |codes| ensures Number(b[2 + 2 * i..4 + 2 * i]) == codes[i] {
      CodeAt(codes, i);
      Behind(Be16(n), Be16s(codes), 2 * i);
    }
  }

  lemma Behind(a: Bytes, b: Bytes, at: nat)
    requires |a| == 2 && at + 2 <= |b|
    ensures (a + b)[2 + at..4 + at] == b[at..at + 2]
  {
  }

  /** Where everything of an extension is: its type, the length of the rest, and behind these
      each field of its content, numbers in network byte order. */
  lemma Layout(e: Extension)
    ensures var m := Marshal(e); var c := m[4..];
      && TypeNumber(e, Number(m[..2])) && Number(m[2..4]) == |c| % 0x1_0000
      && match e
         case ServerName(name) =>
           && |c| == 5 + |name| && Number(c[..2]) == (3 + |name|) % 0x1_0000
           && c[2] == 0 && Number(c[3..5]) == |name| % 0x1_0000 && c[5..] == name
         case SupportedEllipticCurves(curves) => IsCodeList(c, Mapped(curves, CURVE_CODE))
         case SupportedPointFormats(formats) => c != [] && c[0] as int == |formats| % 0x100 && c[1..] == formats
         case SupportedSignatureAlgorithms(algorithms) => IsCodeList(c, Mapped(algorithms, ALGORITHM_CODE))
         case UseSrtp(profiles) =>
           && |c| == 3 + 2 * |profiles| && IsCodeList(c[..|c| - 1], Mapped(profiles, PROFILE_CODE)) && c[|c| - 1] == 0
         case UseExtendedMasterSecret(_) => c == []
         case RenegotiationInfo(connection) => c == [connection]
  {
    hide Be16, Be16s, IsCodeList, Number;
    var m, c := Marshal(e), Content(e);
    BigEndian(e.Value(), 0, 0, 0);
    BigEndian(|c| % 0x1_0000, 0, 0, 0);
    assert m[..2] == Be16(e.Value()) && m[2..4] == Be16(|c| % 0x1_0000) && m[4..] == c;
    match e {
      case ServerName(name) =>
        BigEndian((3 + |name|) % 0x1_0000, 0, 0, 0);
        BigEndian(|name| % 0x1_0000, 0, 0, 0);
        assert c[..2] == Be16((3 + |name|) % 0x1_0000) && c[3..5] == Be16(|name| % 0x1_0000);
      case SupportedEllipticCurves(curves) =>
        CodeListIs(Mapped(curves, CURVE_CODE));
      case SupportedSignatureAlgorithms(algorithms) =>
        CodeListIs(Mapped(algorithms, ALGORITHM_CODE));
      case UseSrtp(profiles) =>
        var codes := Mapped(profiles, PROFILE_CODE);
        CodeListIs(codes);
        assert c[..|c| - 1] == Be16(2 * |codes| % 0x1_0000) + Be16s(codes);
      case _ =>
    }
  }

  // ---------------------------------------------------------------- reading

  function TakeCodes(b: Bytes, n: nat): (r: Result<(seq<U16>, Bytes), Error>)
    ensures r.Ok? ==> |r.value.0| == n
  {
    if n == 0 then Ok(([], b))
    else
      var (codes, b1) :- TakeCodes(b, n - 1);
      var (c, b2) :- TakeU16(b1, ErrUnexpectedEof);
      Ok((codes + [c], b2))
  }

  const CURVE_FROM := (c: U16) => NamedCurve.FromCode(c)
  const PROFILE_FROM := (c: U16) => SrtpProtectionProfile.FromCode(c)
  const ALGORITHM_FROM := (c: U16) => SignatureHashAlgorithm.FromCode(c)

  /** A list that counts its bytes, two of them an entry. */
  function TakeList(b: Bytes): Result<(seq<U16>, Bytes), Error> {
    var (length, b1) :- TakeU16(b, ErrUnexpectedEof);
    TakeCodes(b1, length / 2)
  }

  function TakeServerName(utf8: Bytes -> bool, b: Bytes): Result<(Extension, Bytes), Error> {
    var (_, b1) :- TakeU16(b, ErrUnexpectedEof);
    var (nameType, b2) :- TakeU8(b1, ErrUnexpectedEof);
    if nameType != 0 then Err(ErrInvalidSniFormat)
    else
      var (n, b3) :- TakeU16(b2, ErrUnexpectedEof);
      var (name, b4) :- TakeExact(b3, n, ErrUnexpectedEof);
      if !utf8(name) then Err(ErrUtf8) else Ok((ServerName(name), b4))
  }

  /** Extension::unmarshal. The outer length is read, and but for renegotiation_info not
      looked at. */
  function Take(utf8: Bytes -> bool, b: Bytes): Result<(Extension, Bytes), Error> {
    var (value, b1) :- TakeU16(b, ErrUnexpectedEof);
    if value !in {0, 10, 11, 13, 14, 23, 65281} then Err(ErrInvalidExtensionType)
    else
      var (length, b2) :- TakeU16(b1, ErrUnexpectedEof);
      if value == 0 then TakeServerName(utf8, b2)
      else if value == 10 then
        var (codes, b3) :- TakeList(b2);
        Ok((SupportedEllipticCurves(Mapped(codes, CURVE_FROM)), b3))
      else if value == 11 then
        var (n, b3) :- TakeU8(b2, ErrUnexpectedEof);
        var (formats, b4) :- TakeExact(b3, n, ErrUnexpectedEof);
        Ok((SupportedPointFormats(formats), b4))
      else if value == 13 then
        var (codes, b3) :- TakeList(b2);
        Ok((SupportedSignatureAlgorithms(Mapped(codes, ALGORITHM_FROM)), b3))
      else if value == 14 then
        var (codes, b3) :- TakeList(b2);
        var (_, b4) :- TakeU8(b3, ErrUnexpectedEof);
        Ok((UseSrtp(Mapped(codes, PROFILE_FROM)), b4))
      else if value == 23 then Ok((UseExtendedMasterSecret(true), b2))
      else if length != 1 then Err(ErrInvalidPacketLength)
      else
        var (c, b3) :- TakeU8(b2, ErrUnexpectedEof);
        Ok((RenegotiationInfo(c), b3))
  }

  /** The loop of the hello messages: each extension is read from its offset to the end of the
      buffer, those that cannot be read are skipped, and the offset moves by the outer
      length. */
  function Walk(utf8: Bytes -> bool, b: Bytes): Result<seq<Extension>, Error>
    decreases |b|
  {
    if b == [] then Ok([])
    else if |b| < 4 then Err(IndexOutOfBounds)
    else
      var next := 4 + Read16(b[2..4]);
      var rest :- Walk(utf8, if next < |b| then b[next..] else []);
      match Take(utf8, b)
      case Ok((e, _)) => Ok([e] + rest)
      case Err(_) => Ok(rest)
  }

  // ---------------------------------------------------------------- round trip

  /** What a reader can return: counts of one byte, the only value of a flag that is not
      written, and names that are text. */
  predicate Representable(utf8: Bytes -> bool, e: Extension) {
    match e
    case ServerName(name) => utf8(name)
    case SupportedPointFormats(formats) => |formats| < 0x100
    case UseExtendedMasterSecret(supported) => supported
    case _ => true
  }

  predicate AllRepresentable(utf8: Bytes -> bool, es: seq<Extension>) {
    forall i :: 0 <= i < |es| ==> Representable(utf8, es[i])
  }

  lemma CurvesReadBack(xs: seq<NamedCurve>)
    ensures Mapped(Mapped(xs, CURVE_CODE), CURVE_FROM) == xs
  {
  }

  lemma ProfilesReadBack(xs: seq<SrtpProtectionProfile>)
    ensures Mapped(Mapped(xs, PROFILE_CODE), PROFILE_FROM) == xs
  {
  }

  lemma AlgorithmReadsBack(a: SignatureHashAlgorithm)
    ensures SignatureHashAlgorithm.FromCode(a.Code()) == a
  {
    var h, s := a.hash.Code(), a.signature.Code();
    assert a.Code() / 0x100 == h && a.Code() % 0x100 == s;
    assert HashAlgorithm.FromCode(h) == a.hash;
    assert SignatureAlgorithm.FromCode(s) == a.signature;
  }

  lemma AlgorithmsReadBack(xs: seq<SignatureHashAlgorithm>)
    ensures Mapped(Mapped(xs, ALGORITHM_CODE), ALGORITHM_FROM) == xs
  {
    forall i | 0 <= i < |xs| ensures Mapped(Mapped(xs, ALGORITHM_CODE), ALGORITHM_FROM)[i] == xs[i] {
      AlgorithmReadsBack(xs[i]);
    }
  }

  lemma {:induction false} CodesReadBack(codes: seq<U16>, rest: Bytes)
    ensures TakeCodes(Be16s(codes) + rest, |codes|) == Ok((codes, rest))
  {
    if codes == [] {
      EmptyUnit(rest);
    } else {
      var init, last := codes[..|codes| - 1], codes[|codes| - 1];
      Assoc(Be16s(init), Be16(last), rest);
      CodesReadBack(init, Be16(last) + rest);
      TakeU16Of(last, rest, ErrUnexpectedEof);
      assert init + [last] == codes;
    }
  }

  lemma ListReadsBack(codes: seq<U16>, rest: Bytes)
    requires 2 * |codes| < 0x1_0000
    ensures TakeList(Be16(2 * |codes|) + (Be16s(codes) + rest)) == Ok((codes, rest))
  {
    hide TakeU16, TakeCodes, Be16, Be16s;
    TakeU16Of(2 * |codes|, Be16s(codes) + rest, ErrUnexpectedEof);
    CodesReadBack(codes, rest);
  }

  lemma ServerNameReadsBack(utf8: Bytes -> bool, name: Bytes, rest: Bytes)
    requires |name| < 0x1_0000 && utf8(name)
    ensures TakeServerName(utf8, Content(ServerName(name)) + rest) == Ok((ServerName(name), rest))
  {
    hide Be16, TakeU16, TakeU8, TakeExact;
    var eof := ErrUnexpectedEof;
    var n := Be16(|name|);
    var tail := n + (name + rest);
    Assoc(n, name, rest);
    Assoc([0], n + name, rest);
    Assoc(Be16((3 + |name|) % 0x1_0000), [0] + (n + name), rest);
    TakeU16Of((3 + |name|) % 0x1_0000, [0] + tail, eof);
    TakeU8Of(0, tail, eof);
    TakeU16Of(|name|, name + rest, eof);
    TakeExactOf(name, rest, eof);
  }

  /** An extension whose content fits its length field reads back as itself, whatever follows
      it. */
  lemma ReadsBack(utf8: Bytes -> bool, e: Extension, rest: Bytes)
    requires |Content(e)| < 0x1_0000 && Representable(utf8, e)
    ensures Take(utf8, Marshal(e) + rest) == Ok((e, rest))
  {
    hide Be16, TakeU16, TakeU8, TakeList, TakeServerName;
    var content := Content(e) + rest;
    Assoc(Be16(|Content(e)|), Content(e), rest);
    Assoc(Be16(e.Value()), Be16(|Content(e)|) + Content(e), rest);
    TakeU16Of(e.Value(), Be16(|Content(e)|) + content, ErrUnexpectedEof);
    TakeU16Of(|Content(e)|, content, ErrUnexpectedEof);
    ContentReadsBack(utf8, e, rest);
  }

  /** The same for each kind, behind type and length. */
  lemma ContentReadsBack(utf8: Bytes -> bool, e: Extension, rest: Bytes)
    requires |Content(e)| < 0x1_0000 && Representable(utf8, e)
    ensures match e
      case ServerName(_) => TakeServerName(utf8, Content(e) + rest) == Ok((e, rest))
      case SupportedEllipticCurves(curves) =>
        && TakeList(Content(e) + rest) == Ok((Mapped(curves, CURVE_CODE), rest))
        && Mapped(Mapped(curves, CURVE_CODE), CURVE_FROM) == curves
      case SupportedPointFormats(formats) =>
        && TakeU8(Content(e) + rest, ErrUnexpectedEof) == Ok((|formats|, formats + rest))
        && TakeExact(formats + rest, |formats|, ErrUnexpectedEof) == Ok((formats, rest))
      case SupportedSignatureAlgorithms(algorithms) =>
        && TakeList(Content(e) + rest) == Ok((Mapped(algorithms, ALGORITHM_CODE), rest))
        && Mapped(Mapped(algorithms, ALGORITHM_CODE), ALGORITHM_FROM) == algorithms
      case UseSrtp(profiles) =>
        && TakeList(Content(e) + rest) == Ok((Mapped(profiles, PROFILE_CODE), [0] + rest))
        && TakeU8([0] + rest, ErrUnexpectedEof) == Ok((0, rest))
        && Mapped(Mapped(profiles, PROFILE_CODE), PROFILE_FROM) == profiles
      case UseExtendedMasterSecret(_) => Content(e) + rest == rest
      case RenegotiationInfo(c) => TakeU8(Content(e) + rest, ErrUnexpectedEof) == Ok((c, rest))
  {
    hide *;
    match e
    case ServerName(name) => ServerNameFits(utf8, name); ServerNameReadsBack(utf8, name, rest);
    case SupportedEllipticCurves(curves) => CurvesContent(curves, rest);
    case SupportedPointFormats(formats) => PointFormatsContent(utf8, formats, rest);
    case SupportedSignatureAlgorithms(algorithms) => AlgorithmsContent(algorithms, rest);
    case UseSrtp(profiles) => ProfilesContent(profiles, rest);
    case UseExtendedMasterSecret(supported) => EmptyContent(supported, rest);
    case RenegotiationInfo(c) => ConnectionContent(c, rest);
  }

  lemma ServerNameFits(utf8: Bytes -> bool, name: Bytes)
    requires |Content(ServerName(name))| < 0x1_0000 && Representable(utf8, ServerName(name))
    ensures |name| < 0x1_0000 && utf8(name)
  {
    hide Be16;
  }

  lemma CurvesContent(curves: seq<NamedCurve>, rest: Bytes)
    requires |Content(SupportedEllipticCurves(curves))| < 0x1_0000
    ensures TakeList(Content(SupportedEllipticCurves(curves)) + rest) == Ok((Mapped(curves, CURVE_CODE), rest))
    ensures Mapped(Mapped(curves, CURVE_CODE), CURVE_FROM) == curves
  {
    hide TakeList, Mapped, Be16, Be16s;
    var codes := Mapped(curves, CURVE_CODE);
    Assoc(Be16(2 * |curves|), Be16s(codes), rest);
    ListReadsBack(codes, rest);
    CurvesReadBack(curves);
  }

  lemma PointFormatsContent(utf8: Bytes -> bool, formats: Bytes, rest: Bytes)
    requires Representable(utf8, SupportedPointFormats(formats))
    ensures TakeU8(Content(SupportedPointFormats(formats)) + rest, ErrUnexpectedEof) == Ok((|formats|, formats + rest))
    ensures TakeExact(formats + rest, |formats|, ErrUnexpectedEof) == Ok((formats, rest))
  {
    hide TakeU8, TakeExact;
    Assoc([|formats|], formats, rest);
    TakeU8Of(|formats|, formats + rest, ErrUnexpectedEof);
    TakeExactOf(formats, rest, ErrUnexpectedEof);
  }

  lemma AlgorithmsContent(algorithms: seq<SignatureHashAlgorithm>, rest: Bytes)
    requires |Content(SupportedSignatureAlgorithms(algorithms))| < 0x1_0000
    ensures TakeList(Content(SupportedSignatureAlgorithms(algorithms)) + rest) == Ok((Mapped(algorithms, ALGORITHM_CODE), rest))
    ensures Mapped(Mapped(algorithms, ALGORITHM_CODE), ALGORITHM_FROM) == algorithms
  {
    hide TakeList, Mapped, Be16, Be16s;
    var codes := Mapped(algorithms, ALGORITHM_CODE);
    Assoc(Be16(2 * |algorithms|), Be16s(codes), rest);
    ListReadsBack(codes, rest);
    AlgorithmsReadBack(algorithms);
  }

  lemma ProfilesContent(profiles: seq<SrtpProtectionProfile>, rest: Bytes)
    requires |Content(UseSrtp(profiles))| < 0x1_0000
    ensures TakeList(Content(UseSrtp(profiles)) + rest) == Ok((Mapped(profiles, PROFILE_CODE), [0] + rest))
    ensures TakeU8([0] + rest, ErrUnexpectedEof) == Ok((0, rest))
    ensures Mapped(Mapped(profiles, PROFILE_CODE), PROFILE_FROM) == profiles
  {
    hide TakeList, TakeU8, Mapped, Be16, Be16s;
    var codes := Mapped(profiles, PROFILE_CODE);
    Assoc(Be16s(codes), [0], rest);
    Assoc(Be16(2 * |profiles|), Be16s(codes) + [0], rest);
    ListReadsBack(codes, [0] + rest);
    TakeU8Of(0, rest, ErrUnexpectedEof);
    ProfilesReadBack(profiles);
  }

  lemma EmptyContent(supported: bool, rest: Bytes)
    ensures Content(UseExtendedMasterSecret(supported)) + rest == rest
  {
    EmptyUnit(rest);
  }

  lemma ConnectionContent(c: Byte, rest: Bytes)
    ensures TakeU8(Content(RenegotiationInfo(c)) + rest, ErrUnexpectedEof) == Ok((c, rest))
  {
    TakeU8Of(c, rest, ErrUnexpectedEof);
  }

  /** The walk lands on each boundary and returns the list that was written. */
  lemma {:induction false} WalkReadsBack(utf8: Bytes -> bool, es: seq<Extension>)
    requires |MarshalAll(es)| < 0x1_0000 && AllRepresentable(utf8, es)
    ensures Walk(utf8, MarshalAll(es)) == Ok(es)
  {
    hide Take, Marshal, Representable;
    if es != [] {
      var e, rest := es[0], MarshalAll(es[1..]);
      var b := Marshal(e) + rest;
      SizeIsLength(e);
      WalkReadsBack(utf8, es[1..]);
      ReadsBack(utf8, e, rest);
      OuterLength(e, rest);
      assert (if |Marshal(e)| < |b| then b[|Marshal(e)|..] else []) == rest;
      assert [e] + es[1..] == es;
    }
  }

  lemma OuterLength(e: Extension, rest: Bytes)
    requires |Content(e)| < 0x1_0000
    ensures var b := Marshal(e) + rest; |b| >= 4 && 4 + Read16(b[2..4]) == |Marshal(e)|
  {
    hide Content, Read16;
    assert (Marshal(e) + rest)[2..4] == Be16(|Content(e)|);
  }

  /** Whatever bytes an extension is read from, it is representable. */
  lemma TakenIsRepresentable(utf8: Bytes -> bool, b: Bytes)
    ensures Take(utf8, b).Ok? ==> Representable(utf8, Take(utf8, b).value.0)
  {
    hide TakeU16, TakeList;
  }

  lemma {:induction false} WalkedAreRepresentable(utf8: Bytes -> bool, b: Bytes)
    ensures Walk(utf8, b).Ok? ==> AllRepresentable(utf8, Walk(utf8, b).value)
    decreases |b|
  {
    hide Take, Representable, Read16;
    if |b| >= 4 {
      var next := 4 + Read16(b[2..4]);
      WalkedAreRepresentable(utf8, if next < |b| then b[next..] else []);
      TakenIsRepresentable(utf8, b);
    }
  }

  /** A list of extensions that fits its length field comes back exactly when every one of them
      is representable. */
  lemma WalkExactly(utf8: Bytes -> bool, es: seq<Extension>)
    requires |MarshalAll(es)| < 0x1_0000
    ensures Walk(utf8, MarshalAll(es)) == Ok(es) <==> AllRepresentable(utf8, es)
  {
    WalkedAreRepresentable(utf8, MarshalAll(es));
    if AllRepresentable(utf8, es) {
      WalkReadsBack(utf8, es);
    }
  }

  // ---------------------------------------------------------------- truncated headers

  /** What is left of a buffer when the length fields have been followed to less than a header,
      or past the end. */
  function Leftover(b: Bytes): (n: nat)
    ensures n < 4
    decreases |b|
  {
    if |b| < 4 then |b|
    else
      var next := 4 + Read16(b[2..4]);
      if next < |b| then Leftover(b[next..]) else 0
  }

  /** The walk goes wrong in one way only, by the index error, and it does so exactly when the
      length fields lead to one, two or three last bytes. */
  lemma {:induction false} WalkFailsExactly(utf8: Bytes -> bool, b: Bytes)
    ensures Walk(utf8, b).Err? <==> Leftover(b) != 0
    ensures Walk(utf8, b).Err? ==> Walk(utf8, b) == Err(IndexOutOfBounds)
    decreases |b|
  {
    hide Take, Read16;
    if |b| >= 4 {
      var next := 4 + Read16(b[2..4]);
      WalkFailsExactly(utf8, if next < |b| then b[next..] else []);
    }
  }

  /** For instance, a byte behind an extension of any kind. */
  lemma TrailingByteFails(utf8: Bytes -> bool, e: Extension, x: Byte)
    requires |Content(e)| < 0x1_0000
    ensures Walk(utf8, Marshal(e) + [x]) == Err(IndexOutOfBounds)
  {
    hide Marshal, Walk, Read16;
    OuterLength(e, [x]);
    SizeIsLength(e);
    var b := Marshal(e) + [x];
    assert b[|Marshal(e)|..] == [x];
    assert Leftover([x]) == 1;
    WalkFailsExactly(utf8, b);
  }

  // ---------------------------------------------------------------- on streams

  method WriteCodes(codes: seq<U16>, w: Writer)
    modifies w
    ensures w.written == old(w.written) + Be16s(codes)
  {
    EmptyUnit(w.written);
    for i := 0 to |codes|
      invariant w.written == old(w.written) + Be16s(codes[..i])
    {
      assert codes[..i + 1][..i] == codes[..i];
      Assoc(old(w.written), Be16s(codes[..i]), Be16(codes[i]));
      w.WriteU16(codes[i]);
    }
    assert codes[..|codes|] == codes;
  }

  method WriteList(codes: seq<U16>, w: Writer)
    modifies w
    ensures w.written == old(w.written) + (Be16(2 * |codes| % 0x1_0000) + Be16s(codes))
  {
    hide Be16, Be16s;
    w.WriteU16(2 * |codes| % 0x1_0000);
    WriteCodes(codes, w);
    Assoc(old(w.written), Be16(2 * |codes| % 0x1_0000), Be16s(codes));
  }

  method WriteServerName(name: Bytes, w: Writer)
    modifies w
    ensures w.written == old(w.written) + Content(ServerName(name))
  {
    hide Be16;
    var tail := Be16(|name| % 0x1_0000) + name;
    w.WriteU16((3 + |name|) % 0x1_0000);
    w.WriteU8(0);
    w.WriteU16(|name| % 0x1_0000);
    w.WriteAll(name);
    Assoc(old(w.written), Be16((3 + |name|) % 0x1_0000), [0] + tail);
    Assoc(old(w.written) + Be16((3 + |name|) % 0x1_0000), [0], tail);
    Assoc(old(w.written) + Be16((3 + |name|) % 0x1_0000) + [0], Be16(|name| % 0x1_0000), name);
  }

  method WritePointFormats(formats: Bytes, w: Writer)
    modifies w
    ensures w.written == old(w.written) + Content(SupportedPointFormats(formats))
  {
    w.WriteU8(|formats| % 0x100);
    w.WriteAll(formats);
    Assoc(old(w.written), [|formats| % 0x100], formats);
  }

  method WriteProfiles(profiles: seq<SrtpProtectionProfile>, w: Writer)
    modifies w
    ensures w.written == old(w.written) + Content(UseSrtp(profiles))
  {
    hide Be16, Be16s, Mapped;
    var codes := Mapped(profiles, PROFILE_CODE);
    WriteList(codes, w);
    w.WriteU8(0);
    Assoc(old(w.written), Be16(2 * |codes| % 0x1_0000) + Be16s(codes), [0]);
    Assoc(Be16(2 * |codes| % 0x1_0000), Be16s(codes), [0]);
  }

  method MarshalTo(e: Extension, w: Writer)
    modifies w
    ensures w.written == old(w.written) + Marshal(e)
  {
    hide Be16, Be16s, Mapped;
    w.WriteU16(e.Value());
    match e {
      case ServerName(name) =>
        w.WriteU16((5 + |name|) % 0x1_0000);
        WriteServerName(name, w);
      case SupportedEllipticCurves(curves) =>
        w.WriteU16((2 + 2 * |curves|) % 0x1_0000);
        WriteList(Mapped(curves, CURVE_CODE), w);
      case SupportedPointFormats(formats) =>
        w.WriteU16((1 + |formats|) % 0x1_0000);
        WritePointFormats(formats, w);
      case SupportedSignatureAlgorithms(algorithms) =>
        w.WriteU16((2 + 2 * |algorithms|) % 0x1_0000);
        WriteList(Mapped(algorithms, ALGORITHM_CODE), w);
      case UseSrtp(profiles) =>
        w.WriteU16((3 + 2 * |profiles|) % 0x1_0000);
        WriteProfiles(profiles, w);
      case UseExtendedMasterSecret(_) =>
        w.WriteU16(0);
        EmptyUnit(w.written);
      case RenegotiationInfo(connection) =>
        w.WriteU16(1);
        w.WriteU8(connection);
    }
    var length := Be16(|Content(e)| % 0x1_0000);
    assert w.written == old(w.written) + Be16(e.Value()) + length + Content(e);
    Assoc(old(w.written) + Be16(e.Value()), length, Content(e));
    Assoc(old(w.written), Be16(e.Value()), length + Content(e));
  }

  method ReadCodes(n: nat, r: Reader) returns (codes: Result<seq<U16>, Error>)
    modifies r
    ensures Reads(codes, r.rest, TakeCodes(old(r.rest), n))
  {
    hide TakeU16;
    var list := [];
    for i := 0 to n
      invariant TakeCodes(old(r.rest), i) == Ok((list, r.rest))
    {
      var c := r.ReadU16(ErrUnexpectedEof);
      if c.Err? {
        TakeCodesFails(old(r.rest), i + 1, n);
        return Err(c.error);
      }
      list := list + [c.value];
    }
    return Ok(list);
  }

  lemma {:induction false} TakeCodesFails(b: Bytes, m: nat, n: nat)
    requires m <= n && TakeCodes(b, m).Err?
    ensures TakeCodes(b, n) == TakeCodes(b, m)
  {
    if m < n {
      TakeCodesFails(b, m, n - 1);
    }
  }

  method ReadList(r: Reader) returns (codes: Result<seq<U16>, Error>)
    modifies r
    ensures Reads(codes, r.rest, TakeList(old(r.rest)))
  {
    hide TakeU16, TakeCodes;
    var length :- r.ReadU16(ErrUnexpectedEof);
    codes := ReadCodes(length / 2, r);
  }

  method ReadServerName(utf8: Bytes -> bool, r: Reader) returns (e: Result<Extension, Error>)
    modifies r
    ensures Reads(e, r.rest, TakeServerName(utf8, old(r.rest)))
  {
    hide TakeU8, TakeU16, TakeExact;
    var _ :- r.ReadU16(ErrUnexpectedEof);
    var nameType :- r.ReadU8(ErrUnexpectedEof);
    if nameType != 0 {
      return Err(ErrInvalidSniFormat);
    }
    var n :- r.ReadU16(ErrUnexpectedEof);
    var name :- r.ReadExact(n, ErrUnexpectedEof);
    if !utf8(name) {
      return Err(ErrUtf8);
    }
    return Ok(ServerName(name));
  }

  method UnmarshalFrom(utf8: Bytes -> bool, r: Reader) returns (e: Result<Extension, Error>)
    modifies r
    ensures Reads(e, r.rest, Take(utf8, old(r.rest)))
  {
    hide TakeU8, TakeU16, TakeExact, TakeList, TakeServerName;
    var value :- r.ReadU16(ErrUnexpectedEof);
    match value {
      case 0 =>
        var _ :- r.ReadU16(ErrUnexpectedEof);
        e := ReadServerName(utf8, r);
      case 10 =>
        var _ :- r.ReadU16(ErrUnexpectedEof);
        var codes :- ReadList(r);
        return Ok(SupportedEllipticCurves(Mapped(codes, CURVE_FROM)));
      case 11 =>
        var _ :- r.ReadU16(ErrUnexpectedEof);
        var n :- r.ReadU8(ErrUnexpectedEof);
        var formats :- r.ReadExact(n, ErrUnexpectedEof);
        return Ok(SupportedPointFormats(formats));
      case 13 =>
        var _ :- r.ReadU16(ErrUnexpectedEof);
        var codes :- ReadList(r);
        return Ok(SupportedSignatureAlgorithms(Mapped(codes, ALGORITHM_FROM)));
      case 14 =>
        var _ :- r.ReadU16(ErrUnexpectedEof);
        var codes :- ReadList(r);
        var _ :- r.ReadU8(ErrUnexpectedEof);
        return Ok(UseSrtp(Mapped(codes, PROFILE_FROM)));
      case 23 =>
        var _ :- r.ReadU16(ErrUnexpectedEof);
        return Ok(UseExtendedMasterSecret(true));
      case 65281 =>
        var length :- r.ReadU16(ErrUnexpectedEof);
        if length != 1 {
          return Err(ErrInvalidPacketLength);
        }
        var c :- r.ReadU8(ErrUnexpectedEof);
        return Ok(RenegotiationInfo(c));
      case _ =>
        return Err(ErrInvalidExtensionType);
    }
  }

  /** The extensions written one after the other. */
  method MarshalAllTo(es: seq<Extension>, w: Writer)
    modifies w
    ensures w.written == old(w.written) + MarshalAll(es)
  {
    hide Marshal;
    ghost var start := w.written;
    assert es[0..] == es;
    for i := 0 to |es|
      invariant w.written + MarshalAll(es[i..]) == start + MarshalAll(es)
    {
      assert es[i..][0] == es[i] && es[i..][1..] == es[i + 1..];
      Assoc(w.written, Marshal(es[i]), MarshalAll(es[i + 1..]));
      MarshalTo(es[i], w);
    }
    EmptyUnit(w.written);
  }

  /** The offset loop of the hello messages. */
  method WalkBuffer(utf8: Bytes -> bool, buffer: Bytes) returns (es: Result<seq<Extension>, Error>)
    ensures es == Walk(utf8, buffer)
  {
    hide Take, Read16;
    var extensions := [];
    var offset := 0;
    ghost var left := buffer;
    EmptyUnit(if Walk(utf8, buffer).Ok? then Walk(utf8, buffer).value else []);
    while offset < |buffer|
      invariant left == if offset < |buffer| then buffer[offset..] else []
      invariant Walk(utf8, buffer) == Prefixed(extensions, Walk(utf8, left))
      decreases |buffer| - offset
    {
      if offset + 4 > |buffer| {
        return Err(IndexOutOfBounds);
      }
      var reader := new Reader(buffer[offset..]);
      var e := UnmarshalFrom(utf8, reader);
      var extensionLen := Read16(buffer[offset + 2..offset + 4]);
      Inside(buffer, offset);
      ghost var next := 4 + extensionLen as int;
      ghost var rest := if next < |left| then left[next..] else [];
      PrefixedOne(extensions, e, Walk(utf8, rest));
      if e.Ok? {
        extensions := extensions + [e.value];
      }
      offset := offset + 4 + extensionLen as int;
      left := rest;
    }
    EmptyUnit(extensions);
    return Ok(extensions);
  }

  lemma Inside(b: Bytes, offset: nat)
    requires offset + 4 <= |b|
    ensures b[offset..][2..4] == b[offset + 2..offset + 4]
    ensures forall n :: 0 <= n <= |b| - offset ==> b[offset..][n..] == b[offset + n..]
  {
  }

  ghost function Prefixed(a: seq<Extension>, r: Result<seq<Extension>, Error>): Result<seq<Extension>, Error> {
    match r
    case Ok(b) => Ok(a + b)
    case Err(e) => Err(e)
  }

  lemma PrefixedOne(a: seq<Extension>, e: Result<Extension, Error>, r: Result<seq<Extension>, Error>)
    ensures e.Ok? ==> Prefixed(a, Prefixed([e.value], r)) == Prefixed(a + [e.value], r)
  {
    if e.Ok? && r.Ok? {
      Assoc(a, [e.value], r.value);
    }
  }
}
