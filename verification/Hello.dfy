/** ClientHello and ServerHello (sections 7.4.1.2 and 7.4.1.3 of RFC 5246, section 4.2.1 of
    RFC 6347): what is written, the size that is announced for it, and what is read back. */
module Hello {
  import opened Bytes
  import opened Wrappers
  import opened Streams
  import opened Extension
  import R = RecordLayer
  import H = Handshake

  const RANDOM_BYTES_LENGTH: nat := 28
  const SECOND: nat := 1_000_000_000

  type RandomBytes = b: Bytes | |b| == RANDOM_BYTES_LENGTH witness Zeros(RANDOM_BYTES_LENGTH)

  /** Time is nanoseconds from the Unix epoch, negative before it. */
  datatype Random = Random(gmtUnixTime: int, randomBytes: RandomBytes)

  function MarshalRandom(r: Random): (b: Bytes)
    ensures |b| == 4 + RANDOM_BYTES_LENGTH
  {
    Be32(if r.gmtUnixTime < 0 then 0 else r.gmtUnixTime / SECOND % 0x1_0000_0000) + r.randomBytes
  }

  function TakeRandom(b: Bytes): Result<(Random, Bytes), Error> {
    var (secs, b1) :- TakeU32(b, ErrUnexpectedEof);
    var (bytes, b2) :- TakeExact(b1, RANDOM_BYTES_LENGTH, ErrUnexpectedEof);
    Ok((Random(secs * SECOND, bytes), b2))
  }

  /** A whole second since 1970 that 32 bits can count. */
  predicate WholeSecond(r: Random) {
    0 <= r.gmtUnixTime < 0x1_0000_0000 * SECOND && r.gmtUnixTime % SECOND == 0
  }

  datatype CipherSuiteId =
    | EcdheEcdsaAes128Ccm | EcdheEcdsaAes128Ccm8
    | EcdheEcdsaAes128GcmSha256 | EcdheRsaAes128GcmSha256
    | EcdheEcdsaAes256CbcSha | EcdheRsaAes256CbcSha
    | PskAes128Ccm | PskAes128Ccm8 | PskAes128GcmSha256
    | Unsupported
  {
    function Code(): U16 {
      match this
      case EcdheEcdsaAes128Ccm => 0xc0ac
      case EcdheEcdsaAes128Ccm8 => 0xc0ae
      case EcdheEcdsaAes128GcmSha256 => 0xc02b
      case EcdheRsaAes128GcmSha256 => 0xc02f
      case EcdheEcdsaAes256CbcSha => 0xc00a
      case EcdheRsaAes256CbcSha => 0xc014
      case PskAes128Ccm => 0xc0a4
      case PskAes128Ccm8 => 0xc0a8
      case PskAes128GcmSha256 => 0x00a8
      case Unsupported => 0x00a9
    }

    static function FromCode(c: U16): CipherSuiteId {
      match c
      case 0xc0ac => EcdheEcdsaAes128Ccm
      case 0xc0ae => EcdheEcdsaAes128Ccm8
      case 0xc02b => EcdheEcdsaAes128GcmSha256
      case 0xc02f => EcdheRsaAes128GcmSha256
      case 0xc00a => EcdheEcdsaAes256CbcSha
      case 0xc014 => EcdheRsaAes256CbcSha
      case 0xc0a4 => PskAes128Ccm
      case 0xc0a8 => PskAes128Ccm8
      case 0x00a8 => PskAes128GcmSha256
      case _ => CipherSuiteId.Unsupported
    }
  }

  const SUITE_CODE := (c: CipherSuiteId) => c.Code()
  const SUITE_FROM := (c: U16) => CipherSuiteId.FromCode(c)

  datatype CompressionMethodId = Null | Unsupported {
    function Code(): Byte { if Null? then 0 else 1 }

    static function FromCode(c: Byte): CompressionMethodId { if c == 0 then Null else CompressionMethodId.Unsupported }
  }

  function MarshalIds(ids: seq<CompressionMethodId>): (b: Bytes)
    ensures |b| == |ids|
  {
    seq(|ids|, i requires 0 <= i < |ids| => ids[i].Code())
  }

  /** The ids among the bytes that are supported. */
  function SupportedIds(b: Bytes): seq<CompressionMethodId> {
    if b == [] then []
    else
      var id := CompressionMethodId.FromCode(b[|b| - 1]);
      SupportedIds(b[..|b| - 1]) + if id.Null? then [id] else []
  }

  function TakeCompression(b: Bytes): Result<(seq<CompressionMethodId>, Bytes), Error> {
    var (n, b1) :- TakeU8(b, ErrUnexpectedEof);
    var (ids, b2) :- TakeExact(b1, n, ErrUnexpectedEof);
    Ok((SupportedIds(ids), b2))
  }

  function TakeExtensions(utf8: Bytes -> bool, b: Bytes): Result<(seq<Extension>, Bytes), Error> {
    var (n, b1) :- TakeU16(b, ErrUnexpectedEof);
    var (buffer, b2) :- TakeExact(b1, n, ErrUnexpectedEof);
    var extensions :- Walk(utf8, buffer);
    Ok((extensions, b2))
  }

  // ---------------------------------------------------------------- ClientHello

  datatype ClientHello = ClientHello(
    version: R.ProtocolVersion,
    random: Random,
    cookie: Bytes,
    cipherSuites: seq<CipherSuiteId>,
    compressionMethods: seq<CompressionMethodId>,
    extensions: seq<Extension>)
  {
    function Size(): nat {
      2 + (4 + RANDOM_BYTES_LENGTH) + 1 + (1 + |cookie|) + (2 + 2 * |cipherSuites|)
      + (1 + |compressionMethods|) + 2 + SizeAll(extensions)
    }
  }

  /** The fields behind version, random and the empty session id, each behind its length. */
  function ExtensionsField(es: seq<Extension>): Bytes {
    Be16(|MarshalAll(es)| % 0x1_0000) + MarshalAll(es)
  }

  function CompressionField(ids: seq<CompressionMethodId>): Bytes {
    [|ids| % 0x100] + MarshalIds(ids)
  }

  function SuitesField(suites: seq<CipherSuiteId>): Bytes {
    Be16(2 * |suites| % 0x1_0000) + Be16s(Mapped(suites, SUITE_CODE))
  }

  function MarshalClient(h: ClientHello): Result<Bytes, Error> {
    if |h.cookie| > 255 then Err(ErrCookieTooLong)
    else
      Ok([h.version.major] + ([h.version.minor] + (MarshalRandom(h.random) + ([0] + ([|h.cookie|] + (h.cookie
         + (SuitesField(h.cipherSuites) + (CompressionField(h.compressionMethods) + ExtensionsField(h.extensions)))))))))
  }

  function TakeSuites(b: Bytes): Result<(seq<CipherSuiteId>, Bytes), Error> {
    var (codes, b1) :- TakeList(b);
    Ok((Mapped(codes, SUITE_FROM), b1))
  }

  function TakeClient(utf8: Bytes -> bool, b: Bytes): Result<(ClientHello, Bytes), Error> {
    var (major, b1) :- TakeU8(b, ErrUnexpectedEof);
    var (minor, b2) :- TakeU8(b1, ErrUnexpectedEof);
    var (random, b3) :- TakeRandom(b2);
    var (_, b4) :- TakeU8(b3, ErrUnexpectedEof);
    var (n, b5) :- TakeU8(b4, ErrUnexpectedEof);
    var (cookie, b6) :- TakeExact(b5, n, ErrUnexpectedEof);
    var (suites, b7) :- TakeSuites(b6);
    var (compression, b8) :- TakeCompression(b7);
    var (extensions, b9) :- TakeExtensions(utf8, b8);
    Ok((ClientHello(R.ProtocolVersion(major, minor), random, cookie, suites, compression, extensions), b9))
  }

  /** What a reader can return. */
  predicate ClientRepresentable(utf8: Bytes -> bool, h: ClientHello) {
    && WholeSecond(h.random)
    && |h.cookie| < 0x100
    && |h.cipherSuites| < 0x8000
    && |h.compressionMethods| < 0x100 && (forall i :: 0 <= i < |h.compressionMethods| ==> h.compressionMethods[i].Null?)
    && AllRepresentable(utf8, h.extensions)
  }

  // ---------------------------------------------------------------- field by field

  lemma RandomReadsBack(r: Random, rest: Bytes)
    requires WholeSecond(r)
    ensures TakeRandom(MarshalRandom(r) + rest) == Ok((r, rest))
  {
    hide TakeU32, TakeExact, Be32;
    var secs := r.gmtUnixTime / SECOND;
    assert secs * SECOND == r.gmtUnixTime;
    Assoc(Be32(secs), r.randomBytes, rest);
    TakeU32Of(secs, r.randomBytes + rest, ErrUnexpectedEof);
    TakeExactOf(r.randomBytes, rest, ErrUnexpectedEof);
  }

  lemma SuitesReadBack(suites: seq<CipherSuiteId>, rest: Bytes)
    requires |suites| < 0x8000
    ensures TakeSuites(SuitesField(suites) + rest) == Ok((suites, rest))
  {
    hide TakeList, Be16, Be16s;
    var codes := Mapped(suites, SUITE_CODE);
    Assoc(Be16(2 * |codes|), Be16s(codes), rest);
    ListReadsBack(codes, rest);
    assert Mapped(codes, SUITE_FROM) == suites;
  }

  lemma {:induction false} NullsReadBack(ids: seq<CompressionMethodId>)
    requires forall i :: 0 <= i < |ids| ==> ids[i].Null?
    ensures SupportedIds(MarshalIds(ids)) == ids
  {
    if ids == [] {
    } else {
      var init := ids[..|ids| - 1];
      NullsReadBack(init);
      assert MarshalIds(ids)[..|ids| - 1] == MarshalIds(init);
      assert ids == init + [Null];
    }
  }

  lemma CompressionReadsBack(ids: seq<CompressionMethodId>, rest: Bytes)
    requires |ids| < 0x100 && forall i :: 0 <= i < |ids| ==> ids[i].Null?
    ensures TakeCompression(CompressionField(ids) + rest) == Ok((ids, rest))
  {
    hide TakeU8, TakeExact, SupportedIds, MarshalIds;
    Assoc([|ids|], MarshalIds(ids), rest);
    TakeU8Of(|ids|, MarshalIds(ids) + rest, ErrUnexpectedEof);
    TakeExactOf(MarshalIds(ids), rest, ErrUnexpectedEof);
    NullsReadBack(ids);
  }

  lemma ExtensionsReadBack(utf8: Bytes -> bool, es: seq<Extension>, rest: Bytes)
    requires |MarshalAll(es)| < 0x1_0000 && AllRepresentable(utf8, es)
    ensures TakeExtensions(utf8, ExtensionsField(es) + rest) == Ok((es, rest))
  {
    hide TakeU16, TakeExact, Be16, Walk, MarshalAll, AllRepresentable;
    Assoc(Be16(|MarshalAll(es)|), MarshalAll(es), rest);
    TakeU16Of(|MarshalAll(es)|, MarshalAll(es) + rest, ErrUnexpectedEof);
    TakeExactOf(MarshalAll(es), rest, ErrUnexpectedEof);
    WalkReadsBack(utf8, es);
  }

  lemma {:induction false} SupportedAreNull(b: Bytes)
    ensures |SupportedIds(b)| <= |b|
    ensures forall i :: 0 <= i < |SupportedIds(b)| ==> SupportedIds(b)[i].Null?
  {
    if b != [] {
      SupportedAreNull(b[..|b| - 1]);
    }
  }

  // ---------------------------------------------------------------- what is proved of them

  /** The announced size is that of what is written. */
  lemma ClientSizeIsLength(h: ClientHello)
    ensures MarshalClient(h).Ok? <==> |h.cookie| <= 255
    ensures MarshalClient(h).Ok? ==> |MarshalClient(h).value| == h.Size()
  {
    hide MarshalRandom, Be16, Be16s, MarshalAll, SizeAll;
    SizeAllIsLength(h.extensions);
  }

  /** A list of two-byte codes, one byte ids or extensions behind its length, at a place of the
      message; and where the next field begins. */
  predicate SuitesAt(b: Bytes, at: nat, suites: seq<CipherSuiteId>) {
    && at + 2 + 2 * |suites| <= |b|
    && IsCodeList(b[at..at + 2 + 2 * |suites|], Mapped(suites, SUITE_CODE))
  }

  predicate IdsAt(b: Bytes, at: nat, ids: seq<CompressionMethodId>) {
    && at + 1 + |ids| <= |b| && b[at] as int == |ids| % 0x100
    && forall i :: 0 <= i < |ids| ==> b[at + 1 + i] == if ids[i].Null? then 0 else 1
  }

  predicate ExtensionsAt(b: Bytes, at: nat, es: seq<Extension>) {
    && at + 2 <= |b| && Number(b[at..at + 2]) == |MarshalAll(es)| % 0x1_0000 && b[at + 2..] == MarshalAll(es)
  }

  /** The 32 bytes of a random: whole seconds, none before 1970, and the random bytes. */
  predicate RandomAt(b: Bytes, at: nat, r: Random) {
    && at + 32 <= |b| && b[at + 4..at + 32] == r.randomBytes
    && Number(b[at..at + 4]) == if r.gmtUnixTime < 0 then 0 else r.gmtUnixTime / SECOND % 0x1_0000_0000
  }

  lemma RandomLayout(b: Bytes, at: nat, r: Random)
    requires at + 32 <= |b| && b[at..at + 32] == MarshalRandom(r)
    ensures RandomAt(b, at, r)
  {
    hide Be32, Number;
    var secs := if r.gmtUnixTime < 0 then 0 else r.gmtUnixTime / SECOND % 0x1_0000_0000;
    BigEndian(0, 0, secs, 0);
    assert b[at..at + 4] == b[at..at + 32][..4] == Be32(secs);
    assert b[at + 4..at + 32] == b[at..at + 32][4..];
  }

  /** Where everything of a ClientHello is: the session id is empty, and cookie, suites,
      compression methods and extensions follow each other behind their lengths. */
  lemma ClientLayout(h: ClientHello)
    requires MarshalClient(h).Ok?
    ensures var b := MarshalClient(h).value;
      var suites := 36 + |h.cookie|; var ids := suites + 2 + 2 * |h.cipherSuites|; var es := ids + 1 + |h.compressionMethods|;
      && |b| >= es
      && b[0] == h.version.major && b[1] == h.version.minor && RandomAt(b, 2, h.random) && b[34] == 0
      && b[35] as int == |h.cookie| && b[36..suites] == h.cookie
      && SuitesAt(b, suites, h.cipherSuites) && IdsAt(b, ids, h.compressionMethods) && ExtensionsAt(b, es, h.extensions)
  {
    hide MarshalClient, SuitesField, CompressionField, ExtensionsField, RandomAt, IdsAt, ExtensionsAt, SuitesAt,
      ClientStart;
    StartsClient(h);
    var b, start := MarshalClient(h).value, ClientStart(h);
    var suites, ids, es := SuitesField(h.cipherSuites), CompressionField(h.compressionMethods), ExtensionsField(h.extensions);
    StartIs(h, suites + (ids + es));
    SuitesLayout(h.cipherSuites);
    IdsLayout(h.compressionMethods);
    ExtensionsLayout(h.extensions);
    SuitesMove(start, suites, ids + es, h.cipherSuites);
    Assoc(start, suites, ids + es);
    IdsMove(start + suites, ids, es, h.compressionMethods);
    Assoc(start + suites, ids, es);
    ExtensionsMove(start + suites + ids, es, h.extensions);
  }

  /** All in front of the suites. */
  function ClientStart(h: ClientHello): Bytes
    requires |h.cookie| < 0x100
  {
    [h.version.major] + ([h.version.minor] + (MarshalRandom(h.random) + ([0] + ([|h.cookie|] + h.cookie))))
  }

  lemma StartsClient(h: ClientHello)
    requires MarshalClient(h).Ok?
    ensures |h.cookie| < 0x100
    ensures MarshalClient(h).value == ClientStart(h)
      + (SuitesField(h.cipherSuites) + (CompressionField(h.compressionMethods) + ExtensionsField(h.extensions)))
  {
    hide MarshalRandom, SuitesField, CompressionField, ExtensionsField;
    var rest := SuitesField(h.cipherSuites) + (CompressionField(h.compressionMethods) + ExtensionsField(h.extensions));
    var f5 := [|h.cookie|] + h.cookie;
    var f4 := [0] + f5;
    var f3 := MarshalRandom(h.random) + f4;
    var f2 := [h.version.minor] + f3;
    Assoc([|h.cookie|], h.cookie, rest);
    Assoc([0], f5, rest);
    Assoc(MarshalRandom(h.random), f4, rest);
    Assoc([h.version.minor], f3, rest);
    Assoc([h.version.major], f2, rest);
  }

  lemma StartIs(h: ClientHello, rest: Bytes)
    requires |h.cookie| < 0x100
    ensures var b := ClientStart(h) + rest; var suites := 36 + |h.cookie|;
      && |ClientStart(h)| == suites && b[0] == h.version.major && b[1] == h.version.minor && RandomAt(b, 2, h.random)
      && b[34] == 0 && b[35] as int == |h.cookie| && b[36..suites] == h.cookie
  {
    hide MarshalRandom, RandomAt;
    var b := ClientStart(h) + rest;
    assert b[2..34] == MarshalRandom(h.random);
    RandomLayout(b, 2, h.random);
  }

  lemma SuitesLayout(suites: seq<CipherSuiteId>)
    ensures SuitesAt(SuitesField(suites), 0, suites) && |SuitesField(suites)| == 2 + 2 * |suites|
  {
    hide Be16, Be16s, IsCodeList;
    var codes := Mapped(suites, SUITE_CODE);
    CodeListIs(codes);
    assert SuitesField(suites)[0..2 + 2 * |suites|] == SuitesField(suites);
  }

  lemma SuitesMove(a: Bytes, field: Bytes, c: Bytes, suites: seq<CipherSuiteId>)
    requires SuitesAt(field, 0, suites) && |field| == 2 + 2 * |suites|
    ensures SuitesAt(a + (field + c), |a|, suites)
  {
    hide IsCodeList;
    assert (a + (field + c))[|a|..|a| + |field|] == field[0..|field|];
  }

  lemma IdsLayout(ids: seq<CompressionMethodId>)
    ensures IdsAt(CompressionField(ids), 0, ids) && |CompressionField(ids)| == 1 + |ids|
  {
  }

  lemma IdsMove(a: Bytes, field: Bytes, c: Bytes, ids: seq<CompressionMethodId>)
    requires IdsAt(field, 0, ids) && |field| == 1 + |ids|
    ensures IdsAt(a + (field + c), |a|, ids)
  {
  }

  lemma ExtensionsLayout(es: seq<Extension>)
    ensures ExtensionsAt(ExtensionsField(es), 0, es)
  {
    hide Be16, MarshalAll, Number;
    BigEndian(|MarshalAll(es)| % 0x1_0000, 0, 0, 0);
    assert ExtensionsField(es)[0..2] == Be16(|MarshalAll(es)| % 0x1_0000);
  }

  lemma ExtensionsMove(a: Bytes, field: Bytes, es: seq<Extension>)
    requires ExtensionsAt(field, 0, es)
    ensures ExtensionsAt(a + field, |a|, es)
  {
    hide MarshalAll, Number;
    assert (a + field)[|a|..|a| + 2] == field[0..2] && (a + field)[|a| + 2..] == field[2..];
  }

  /** And so the handshake header made for it carries the length of its body. */
  lemma HeaderLengthIsRight(h: ClientHello)
    requires MarshalClient(h).Ok? && |MarshalClient(h).value| < 0x100_0000
    ensures var m := H.NewMessage(H.ClientHello, MarshalClient(h).value);
      m.Whole() && m.header.length == h.Size()
  {
    ClientSizeIsLength(h);
  }

  /** Only the extensions may be too many for their length field. */
  function WithExtensions(h: ClientHello, r: Result<(seq<Extension>, Bytes), Error>): Result<(ClientHello, Bytes), Error> {
    match r
    case Ok((es, rest)) => Ok((h.(extensions := es), rest))
    case Err(e) => Err(e)
  }

  lemma ClientReadsTo(utf8: Bytes -> bool, h: ClientHello, rest: Bytes)
    requires ClientRepresentable(utf8, h)
    ensures TakeClient(utf8, MarshalClient(h).value + rest)
         == WithExtensions(h, TakeExtensions(utf8, ExtensionsField(h.extensions) + rest))
  {
    hide TakeU8, TakeExact, TakeRandom, TakeSuites, TakeCompression, TakeExtensions, MarshalRandom, SuitesField,
      CompressionField, ExtensionsField, AllRepresentable, WholeSecond;
    var eof := ErrUnexpectedEof;
    var f9 := ExtensionsField(h.extensions);
    var f8 := CompressionField(h.compressionMethods) + f9;
    var f7 := SuitesField(h.cipherSuites) + f8;
    var f6 := h.cookie + f7;
    var f5 := [|h.cookie|] + f6;
    var f4 := [0] + f5;
    var f3 := MarshalRandom(h.random) + f4;
    var f2 := [h.version.minor] + f3;
    // each field in front of what is left of the message, and the rest
    Assoc(CompressionField(h.compressionMethods), f9, rest);
    Assoc(SuitesField(h.cipherSuites), f8, rest);
    Assoc(h.cookie, f7, rest);
    Assoc([|h.cookie|], f6, rest);
    Assoc([0], f5, rest);
    Assoc(MarshalRandom(h.random), f4, rest);
    Assoc([h.version.minor], f3, rest);
    Assoc([h.version.major], f2, rest);
    TakeU8Of(h.version.major, f2 + rest, eof);
    TakeU8Of(h.version.minor, f3 + rest, eof);
    RandomReadsBack(h.random, f4 + rest);
    TakeU8Of(0, f5 + rest, eof);
    TakeU8Of(|h.cookie|, f6 + rest, eof);
    TakeExactOf(h.cookie, f7 + rest, eof);
    SuitesReadBack(h.cipherSuites, f8 + rest);
    CompressionReadsBack(h.compressionMethods, f9 + rest);
  }

  /** Extensions that leave nothing behind them were not cut. */
  lemma AllExtensionsTaken(utf8: Bytes -> bool, es: seq<Extension>)
    ensures var r := TakeExtensions(utf8, ExtensionsField(es)); r.Ok? && r.value.1 == [] ==> |MarshalAll(es)| < 0x1_0000
  {
    hide Walk, MarshalAll, Be16, TakeU16;
    TakeU16Of(|MarshalAll(es)| % 0x1_0000, MarshalAll(es), ErrUnexpectedEof);
  }

  /** Whatever bytes a ClientHello is read from, it is representable. */
  lemma TakenClientIsRepresentable(utf8: Bytes -> bool, b: Bytes)
    ensures TakeClient(utf8, b).Ok? ==> ClientRepresentable(utf8, TakeClient(utf8, b).value.0)
  {
    hide TakeU8, TakeExact, TakeRandom, TakeSuites, TakeCompression, TakeExtensions, AllRepresentable, WholeSecond;
    if TakeClient(utf8, b).Ok? {
      var eof := ErrUnexpectedEof;
      var b2 := TakeU8(TakeU8(b, eof).value.1, eof).value.1;
      var b3 := TakeRandom(b2).value.1;
      var (n, b5) := TakeU8(TakeU8(b3, eof).value.1, eof).value;
      var b6 := TakeExact(b5, n, eof).value.1;
      var b7 := TakeSuites(b6).value.1;
      var b8 := TakeCompression(b7).value.1;
      TakenRandomIsWhole(b2);
      TakenExactly(b5, n);
      TakenSuitesAreFew(b6);
      TakenCompressionIsNull(b7);
      TakenExtensionsAreRepresentable(utf8, b8);
    }
  }

  lemma TakenRandomIsWhole(b: Bytes)
    ensures TakeRandom(b).Ok? ==> WholeSecond(TakeRandom(b).value.0)
  {
    hide TakeU32;
    if TakeRandom(b).Ok? {
      var secs: U32 := TakeU32(b, ErrUnexpectedEof).value.0;
      assert TakeRandom(b).value.0.gmtUnixTime == secs * SECOND;
    }
  }

  lemma TakenExactly(b: Bytes, n: nat)
    ensures TakeExact(b, n, ErrUnexpectedEof).Ok? ==> |TakeExact(b, n, ErrUnexpectedEof).value.0| == n
  {
  }

  lemma TakenSuitesAreFew(b: Bytes)
    ensures TakeSuites(b).Ok? ==> |TakeSuites(b).value.0| < 0x8000
  {
    hide TakeU16, TakeCodes;
    if TakeSuites(b).Ok? {
      var length: U16 := TakeU16(b, ErrUnexpectedEof).value.0;
      assert |TakeList(b).value.0| == length / 2;
    }
  }

  lemma TakenCompressionIsNull(b: Bytes)
    ensures TakeCompression(b).Ok? ==> var ids := TakeCompression(b).value.0;
      |ids| < 0x100 && forall i :: 0 <= i < |ids| ==> ids[i].Null?
  {
    hide TakeU8, SupportedIds;
    if TakeCompression(b).Ok? {
      var (n, b1) := TakeU8(b, ErrUnexpectedEof).value;
      SupportedAreNull(TakeExact(b1, n, ErrUnexpectedEof).value.0);
    }
  }

  lemma TakenExtensionsAreRepresentable(utf8: Bytes -> bool, b: Bytes)
    ensures TakeExtensions(utf8, b).Ok? ==> AllRepresentable(utf8, TakeExtensions(utf8, b).value.0)
  {
    hide TakeU16, Walk, AllRepresentable;
    if TakeExtensions(utf8, b).Ok? {
      var (n, b1) := TakeU16(b, ErrUnexpectedEof).value;
      WalkedAreRepresentable(utf8, TakeExact(b1, n, ErrUnexpectedEof).value.0);
    }
  }

  /** A ClientHello comes back from its bytes exactly when it is representable (a cookie of at
      most 255 bytes, fewer than 32768 cipher suites, only the null compression, a whole-second
      time, representable extensions) and its extensions fit their length field. */
  lemma ClientHelloRoundTrips(utf8: Bytes -> bool, h: ClientHello)
    ensures MarshalClient(h).Ok? && TakeClient(utf8, MarshalClient(h).value) == Ok((h, []))
       <==> ClientRepresentable(utf8, h) && |MarshalAll(h.extensions)| < 0x1_0000
  {
    hide TakeClient, TakeExtensions, AllRepresentable, WholeSecond, MarshalAll, ExtensionsField;
    if MarshalClient(h).Ok? {
      TakenClientIsRepresentable(utf8, MarshalClient(h).value);
    }
    if ClientRepresentable(utf8, h) {
      ClientReadsTo(utf8, h, []);
      EmptyUnit(MarshalClient(h).value);
      EmptyUnit(ExtensionsField(h.extensions));
      AllExtensionsTaken(utf8, h.extensions);
      if |MarshalAll(h.extensions)| < 0x1_0000 {
        ExtensionsReadBack(utf8, h.extensions, []);
      }
    }
  }

  // ---------------------------------------------------------------- truncated extensions

  /** The block behind a two-byte length at the position, if all of it is there. */
  function BlockAt(b: Bytes, at: nat): Option<Bytes> {
    if |b| < at + 2 || |b| < at + 2 + Read16(b[at..at + 2]) then None
    else Some(b[at + 2..at + 2 + Read16(b[at..at + 2])])
  }

  /** Where the length of a ClientHello's extensions stands, found by its length fields: behind
      the cookie, the cipher suites and the compression methods. */
  function ClientExtensionsAt(b: Bytes): Option<nat> {
    if |b| < 36 then None
    else
      var suites := 36 + b[35] as int;
      if |b| < suites + 2 then None
      else
        var compression := suites + 2 + Read16(b[suites..suites + 2]) / 2 * 2;
        if |b| <= compression || |b| < compression + 1 + b[compression] as int then None
        else Some(compression + 1 + b[compression] as int)
  }

  /** And of a ServerHello's: behind the session id, one cipher suite and one compression
      method. */
  function ServerExtensionsAt(b: Bytes): Option<nat> {
    if |b| < 35 || |b| < 35 + b[34] as int + 3 then None else Some(35 + b[34] as int + 3)
  }

  predicate TruncatedExtension(b: Bytes, at: Option<nat>) {
    at.Some? && BlockAt(b, at.value).Some? && Leftover(BlockAt(b, at.value).value) != 0
  }

  lemma Drop(b: Bytes, i: nat, j: nat)
    requires i + j <= |b|
    ensures b[i..][j..] == b[i + j..]
    ensures b[i..][..j] == b[i..i + j]
  {
  }

  lemma ExtensionsFail(utf8: Bytes -> bool, b: Bytes, at: nat)
    requires at <= |b|
    ensures TakeExtensions(utf8, b[at..]) == Err(IndexOutOfBounds) <==>
      BlockAt(b, at).Some? && Leftover(BlockAt(b, at).value) != 0
    ensures TakeExtensions(utf8, b[at..]).Err? ==> TakeExtensions(utf8, b[at..]).error in {ErrUnexpectedEof, IndexOutOfBounds}
  {
    hide Walk, Leftover, Read16;
    if |b| >= at + 2 {
      Drop(b, at, 2);
      var n := Read16(b[at..at + 2]);
      if |b| >= at + 2 + n {
        Drop(b, at + 2, n);
        WalkFailsExactly(utf8, b[at + 2..at + 2 + n]);
      }
    }
  }

  lemma {:induction false} CodesTaken(b: Bytes, n: nat)
    ensures TakeCodes(b, n).Ok? <==> |b| >= 2 * n
    ensures TakeCodes(b, n).Ok? ==> TakeCodes(b, n).value.1 == b[2 * n..]
    ensures TakeCodes(b, n).Err? ==> TakeCodes(b, n).error == ErrUnexpectedEof
  {
    hide Read16;
    if n > 0 {
      CodesTaken(b, n - 1);
      if |b| >= 2 * n {
        Drop(b, 2 * (n - 1), 2);
      }
    }
  }

  lemma RandomTaken(b: Bytes)
    ensures TakeRandom(b).Ok? <==> |b| >= 32
    ensures TakeRandom(b).Ok? ==> TakeRandom(b).value.1 == b[32..]
    ensures TakeRandom(b).Err? ==> TakeRandom(b).error == ErrUnexpectedEof
  {
    hide Read32;
    if |b| >= 32 {
      Drop(b, 4, 28);
    }
  }

  lemma SuitesTaken(b: Bytes, at: nat)
    requires at <= |b|
    ensures var r := TakeSuites(b[at..]);
      && (r.Ok? <==> |b| >= at + 2 && |b| >= at + 2 + Read16(b[at..at + 2]) / 2 * 2)
      && (r.Ok? ==> r.value.1 == b[at + 2 + Read16(b[at..at + 2]) / 2 * 2..])
      && (r.Err? ==> r.error == ErrUnexpectedEof)
  {
    hide Read16, TakeCodes;
    if |b| >= at + 2 {
      Drop(b, at, 2);
      var n := Read16(b[at..at + 2]) / 2;
      CodesTaken(b[at + 2..], n);
      if |b| >= at + 2 + 2 * n {
        Drop(b, at + 2, 2 * n);
      }
    }
  }

  lemma CompressionTaken(b: Bytes, at: nat)
    requires at <= |b|
    ensures var r := TakeCompression(b[at..]);
      && (r.Ok? <==> |b| > at && |b| >= at + 1 + b[at] as int)
      && (r.Ok? ==> r.value.1 == b[at + 1 + b[at] as int..])
      && (r.Err? ==> r.error == ErrUnexpectedEof)
  {
    hide SupportedIds;
    if |b| > at {
      Drop(b, at, 1);
      var n := b[at] as int;
      if |b| >= at + 1 + n {
        Drop(b, at + 1, n);
      }
    }
  }

  /** The fields of a ClientHello behind its cookie. */
  function TakeClientTail(utf8: Bytes -> bool, b: Bytes): Result<((seq<CipherSuiteId>, seq<CompressionMethodId>, seq<Extension>), Bytes), Error> {
    var (suites, b1) :- TakeSuites(b);
    var (compression, b2) :- TakeCompression(b1);
    var (extensions, b3) :- TakeExtensions(utf8, b2);
    Ok(((suites, compression, extensions), b3))
  }

  lemma ClientHeadTaken(utf8: Bytes -> bool, b: Bytes)
    ensures if |b| < 36 || |b| < 36 + b[35] as int then TakeClient(utf8, b) == Err(ErrUnexpectedEof)
      else
        var tail := TakeClientTail(utf8, b[36 + b[35] as int..]);
        (TakeClient(utf8, b).Err? <==> tail.Err?) && (tail.Err? ==> TakeClient(utf8, b).error == tail.error)
  {
    hide TakeRandom, TakeSuites, TakeCompression, TakeExtensions;
    if |b| >= 2 {
      Drop(b, 1, 1);
      RandomTaken(b[2..]);
      if |b| >= 36 {
        Drop(b, 2, 32);
        Drop(b, 34, 1);
        Drop(b, 35, 1);
        if |b| >= 36 + b[35] as int {
          Drop(b, 36, b[35] as int);
        }
      }
    }
  }

  lemma ClientTailFails(utf8: Bytes -> bool, b: Bytes, suites: nat)
    requires suites <= |b|
    ensures TakeClientTail(utf8, b[suites..]) == Err(IndexOutOfBounds) <==>
      && |b| >= suites + 2
      && var compression := suites + 2 + Read16(b[suites..suites + 2]) / 2 * 2;
         && |b| > compression && |b| >= compression + 1 + b[compression] as int
         && TruncatedExtension(b, Some(compression + 1 + b[compression] as int))
  {
    hide TakeSuites, TakeCompression, TakeExtensions, Leftover, Read16, BlockAt;
    SuitesTaken(b, suites);
    if TakeSuites(b[suites..]).Ok? {
      var compression := suites + 2 + Read16(b[suites..suites + 2]) / 2 * 2;
      CompressionTaken(b, compression);
      if TakeCompression(b[compression..]).Ok? {
        ExtensionsFail(utf8, b, compression + 1 + b[compression] as int);
      }
    }
  }

  /** Reading a ClientHello ends in the index error exactly when its length fields lead to a
      complete extension block whose own length fields lead to one to three last bytes. */
  lemma ClientFailsExactly(utf8: Bytes -> bool, b: Bytes)
    ensures TakeClient(utf8, b) == Err(IndexOutOfBounds) <==> TruncatedExtension(b, ClientExtensionsAt(b))
  {
    hide TakeClient, TakeClientTail, TruncatedExtension, Read16;
    ClientHeadTaken(utf8, b);
    if |b| >= 36 && |b| >= 36 + b[35] as int {
      ClientTailFails(utf8, b, 36 + b[35] as int);
    }
    NothingTruncated(b);
  }

  lemma NothingTruncated(b: Bytes)
    ensures !TruncatedExtension(b, None)
  {
  }

  /** The same for a ServerHello. */
  lemma ServerFailsExactly(utf8: Bytes -> bool, b: Bytes)
    ensures TakeServer(utf8, b) == Err(IndexOutOfBounds) <==> TruncatedExtension(b, ServerExtensionsAt(b))
  {
    hide TakeRandom, TakeExtensions, Leftover, Read16, BlockAt;
    if |b| >= 2 {
      Drop(b, 1, 1);
      RandomTaken(b[2..]);
      if |b| >= 35 {
        Drop(b, 2, 32);
        Drop(b, 34, 1);
        var at := 35 + b[34] as int;
        if |b| >= at {
          Drop(b, 35, b[34] as int);
          if |b| >= at + 3 {
            Drop(b, at, 2);
            Drop(b, at + 2, 1);
            ExtensionsFail(utf8, b, at + 3);
          }
        }
      }
    }
  }

  // ---------------------------------------------------------------- ServerHello

  datatype ServerHello = ServerHello(
    version: R.ProtocolVersion,
    random: Random,
    cipherSuite: CipherSuiteId,
    compressionMethod: CompressionMethodId,
    extensions: seq<Extension>)
  {
    function Size(): nat {
      2 + (4 + RANDOM_BYTES_LENGTH) + 1 + 2 + 1 + 2 + SizeAll(extensions)
    }
  }

  function MarshalServer(h: ServerHello): Bytes {
    [h.version.major] + ([h.version.minor] + (MarshalRandom(h.random) + ([0] + (Be16(h.cipherSuite.Code())
      + ([h.compressionMethod.Code()] + ExtensionsField(h.extensions))))))
  }

  /** Where everything of a ServerHello is. */
  lemma ServerLayout(h: ServerHello)
    ensures var b := MarshalServer(h);
      && |b| >= 38
      && b[0] == h.version.major && b[1] == h.version.minor && RandomAt(b, 2, h.random) && b[34] == 0
      && Number(b[35..37]) == h.cipherSuite.Code() && b[37] == (if h.compressionMethod.Null? then 0 else 1)
      && ExtensionsAt(b, 38, h.extensions)
  {
    hide MarshalRandom, ExtensionsField, RandomAt, ExtensionsAt, Be16, Number;
    var b := MarshalServer(h);
    var start := [h.version.major] + [h.version.minor] + MarshalRandom(h.random) + [0] + Be16(h.cipherSuite.Code())
                 + [h.compressionMethod.Code()];
    assert b == start + ExtensionsField(h.extensions);
    assert b[2..34] == MarshalRandom(h.random) && b[35..37] == Be16(h.cipherSuite.Code());
    RandomLayout(b, 2, h.random);
    BigEndian(h.cipherSuite.Code(), 0, 0, 0);
    ExtensionsLayout(h.extensions);
    ExtensionsMove(start, ExtensionsField(h.extensions), h.extensions);
  }

  /** Unlike the client's, the server's session id is skipped by its length. */
  function TakeServer(utf8: Bytes -> bool, b: Bytes): Result<(ServerHello, Bytes), Error> {
    var (major, b1) :- TakeU8(b, ErrUnexpectedEof);
    var (minor, b2) :- TakeU8(b1, ErrUnexpectedEof);
    var (random, b3) :- TakeRandom(b2);
    var (n, b4) :- TakeU8(b3, ErrUnexpectedEof);
    var (_, b5) :- TakeExact(b4, n, ErrUnexpectedEof);
    var (suite, b6) :- TakeU16(b5, ErrUnexpectedEof);
    var (compression, b7) :- TakeU8(b6, ErrUnexpectedEof);
    var (extensions, b8) :- TakeExtensions(utf8, b7);
    Ok((ServerHello(R.ProtocolVersion(major, minor), random, CipherSuiteId.FromCode(suite),
                    CompressionMethodId.FromCode(compression), extensions), b8))
  }

  predicate ServerRepresentable(utf8: Bytes -> bool, h: ServerHello) {
    WholeSecond(h.random) && AllRepresentable(utf8, h.extensions)
  }

  lemma ServerSizeIsLength(h: ServerHello)
    ensures |MarshalServer(h)| == h.Size()
  {
    hide MarshalRandom, Be16, MarshalAll, SizeAll;
    SizeAllIsLength(h.extensions);
  }

  lemma ServerReadsTo(utf8: Bytes -> bool, h: ServerHello, rest: Bytes)
    requires ServerRepresentable(utf8, h)
    ensures TakeServer(utf8, MarshalServer(h) + rest)
         == match TakeExtensions(utf8, ExtensionsField(h.extensions) + rest)
            case Ok((es, r)) => Ok((h.(extensions := es), r))
            case Err(e) => Err(e)
  {
    hide TakeU8, TakeU16, TakeExact, TakeRandom, TakeExtensions, MarshalRandom, ExtensionsField, AllRepresentable,
      WholeSecond, Be16;
    var eof := ErrUnexpectedEof;
    var f7 := ExtensionsField(h.extensions);
    var f6 := [h.compressionMethod.Code()] + f7;
    var f5 := Be16(h.cipherSuite.Code()) + f6;
    var f4 := [0] + f5;
    var f3 := MarshalRandom(h.random) + f4;
    var f2 := [h.version.minor] + f3;
    Assoc([h.compressionMethod.Code()], f7, rest);
    Assoc(Be16(h.cipherSuite.Code()), f6, rest);
    Assoc([0], f5, rest);
    Assoc(MarshalRandom(h.random), f4, rest);
    Assoc([h.version.minor], f3, rest);
    Assoc([h.version.major], f2, rest);
    TakeU8Of(h.version.major, f2 + rest, eof);
    TakeU8Of(h.version.minor, f3 + rest, eof);
    RandomReadsBack(h.random, f4 + rest);
    TakeU8Of(0, f5 + rest, eof);
    EmptyUnit(f5 + rest);
    TakeExactOf([], f5 + rest, eof);
    TakeU16Of(h.cipherSuite.Code(), f6 + rest, eof);
    TakeU8Of(h.compressionMethod.Code(), f7 + rest, eof);
  }

  lemma TakenServerIsRepresentable(utf8: Bytes -> bool, b: Bytes)
    ensures TakeServer(utf8, b).Ok? ==> ServerRepresentable(utf8, TakeServer(utf8, b).value.0)
  {
    hide TakeU8, TakeU16, TakeExact, TakeRandom, TakeExtensions, AllRepresentable, WholeSecond;
    if TakeServer(utf8, b).Ok? {
      var eof := ErrUnexpectedEof;
      var b2 := TakeU8(TakeU8(b, eof).value.1, eof).value.1;
      var b3 := TakeRandom(b2).value.1;
      var (n, b4) := TakeU8(b3, eof).value;
      var b6 := TakeU16(TakeExact(b4, n, eof).value.1, eof).value.1;
      TakenRandomIsWhole(b2);
      TakenExtensionsAreRepresentable(utf8, TakeU8(b6, eof).value.1);
    }
  }

  /** A ServerHello comes back from its bytes exactly when its time is a whole second, and its
      extensions are representable and fit their length field. */
  lemma ServerHelloRoundTrips(utf8: Bytes -> bool, h: ServerHello)
    ensures TakeServer(utf8, MarshalServer(h)) == Ok((h, []))
       <==> ServerRepresentable(utf8, h) && |MarshalAll(h.extensions)| < 0x1_0000
  {
    hide TakeServer, TakeExtensions, MarshalServer, AllRepresentable, WholeSecond, MarshalAll, ExtensionsField;
    TakenServerIsRepresentable(utf8, MarshalServer(h));
    if ServerRepresentable(utf8, h) {
      ServerReadsTo(utf8, h, []);
      EmptyUnit(MarshalServer(h));
      EmptyUnit(ExtensionsField(h.extensions));
      AllExtensionsTaken(utf8, h.extensions);
      if |MarshalAll(h.extensions)| < 0x1_0000 {
        ExtensionsReadBack(utf8, h.extensions, []);
      }
    }
  }

  // ---------------------------------------------------------------- on streams

  method WriteRandom(r: Random, w: Writer)
    modifies w
    ensures w.written == old(w.written) + MarshalRandom(r)
  {
    var secs := if r.gmtUnixTime < 0 then 0 else r.gmtUnixTime / SECOND % 0x1_0000_0000;
    w.WriteU32(secs);
    w.WriteAll(r.randomBytes);
    Assoc(old(w.written), Be32(secs), r.randomBytes);
  }

  method WriteExtensions(es: seq<Extension>, w: Writer)
    modifies w
    ensures w.written == old(w.written) + ExtensionsField(es)
  {
    hide MarshalAll, Be16;
    var buffer := new Writer();
    MarshalAllTo(es, buffer);
    EmptyUnit(MarshalAll(es));
    w.WriteU16(|buffer.written| % 0x1_0000);
    w.WriteAll(buffer.written);
    Assoc(old(w.written), Be16(|MarshalAll(es)| % 0x1_0000), MarshalAll(es));
  }

  method WriteSuites(suites: seq<CipherSuiteId>, w: Writer)
    modifies w
    ensures w.written == old(w.written) + SuitesField(suites)
  {
    WriteList(Mapped(suites, SUITE_CODE), w);
  }

  method WriteCompression(ids: seq<CompressionMethodId>, w: Writer)
    modifies w
    ensures w.written == old(w.written) + CompressionField(ids)
  {
    w.WriteU8(|ids| % 0x100);
    ghost var before := w.written;
    for i := 0 to |ids|
      invariant w.written == before + MarshalIds(ids)[..i]
    {
      w.WriteU8(ids[i].Code());
    }
    Assoc(old(w.written), [|ids| % 0x100], MarshalIds(ids));
  }

  method MarshalClientTo(h: ClientHello, w: Writer) returns (r: Result<(), Error>)
    modifies w
    ensures r == match MarshalClient(h) { case Ok(_) => Ok(()) case Err(e) => Err(e) }
    ensures r.Ok? ==> w.written == old(w.written) + MarshalClient(h).value
  {
    hide MarshalRandom, SuitesField, CompressionField, ExtensionsField;
    if |h.cookie| > 255 {
      return Err(ErrCookieTooLong);
    }
    ghost var w0 := w.written;
    w.WriteU8(h.version.major);
    w.WriteU8(h.version.minor);
    WriteRandom(h.random, w);
    w.WriteU8(0);
    w.WriteU8(|h.cookie|);
    w.WriteAll(h.cookie);
    WriteSuites(h.cipherSuites, w);
    WriteCompression(h.compressionMethods, w);
    WriteExtensions(h.extensions, w);
    RegroupClient(w0, [h.version.major], [h.version.minor], MarshalRandom(h.random), [0], [|h.cookie|], h.cookie,
                  SuitesField(h.cipherSuites), CompressionField(h.compressionMethods), ExtensionsField(h.extensions));
    return Ok(());
  }

  lemma RegroupClient(w: Bytes, a: Bytes, b: Bytes, c: Bytes, d: Bytes, e: Bytes, f: Bytes, g: Bytes, h: Bytes,
                      i: Bytes)
    ensures w + a + b + c + d + e + f + g + h + i == w + (a + (b + (c + (d + (e + (f + (g + (h + i))))))))
  {
    Assoc(w + a + b + c + d + e + f + g, h, i);
    Assoc(w + a + b + c + d + e + f, g, h + i);
    Assoc(w + a + b + c + d + e, f, g + (h + i));
    Assoc(w + a + b + c + d, e, f + (g + (h + i)));
    Assoc(w + a + b + c, d, e + (f + (g + (h + i))));
    Assoc(w + a + b, c, d + (e + (f + (g + (h + i)))));
    Assoc(w + a, b, c + (d + (e + (f + (g + (h + i))))));
    Assoc(w, a, b + (c + (d + (e + (f + (g + (h + i)))))));
  }

  method ReadRandom(rd: Reader) returns (r: Result<Random, Error>)
    modifies rd
    ensures Reads(r, rd.rest, TakeRandom(old(rd.rest)))
  {
    hide TakeU32;
    var secs :- rd.ReadU32(ErrUnexpectedEof);
    var bytes :- rd.ReadExact(RANDOM_BYTES_LENGTH, ErrUnexpectedEof);
    return Ok(Random(secs * SECOND, bytes));
  }

  /** The ids are read one by one, and kept where they are supported. */
  method ReadCompression(rd: Reader) returns (r: Result<seq<CompressionMethodId>, Error>)
    modifies rd
    ensures Reads(r, rd.rest, TakeCompression(old(rd.rest)))
  {
    var n :- rd.ReadU8(ErrUnexpectedEof);
    ghost var b := rd.rest;
    var ids := [];
    for i := 0 to n
      invariant i <= |b| && rd.rest == b[i..] && ids == SupportedIds(b[..i])
    {
      var c :- rd.ReadU8(ErrUnexpectedEof);
      assert b[..i + 1][..i] == b[..i];
      var id := CompressionMethodId.FromCode(c);
      if id != CompressionMethodId.Unsupported {
        ids := ids + [id];
      } else {
        EmptyUnit(ids);
      }
    }
    return Ok(ids);
  }

  method ReadExtensions(utf8: Bytes -> bool, rd: Reader) returns (r: Result<seq<Extension>, Error>)
    modifies rd
    ensures Reads(r, rd.rest, TakeExtensions(utf8, old(rd.rest)))
  {
    hide TakeU16, TakeExact, Walk;
    var n :- rd.ReadU16(ErrUnexpectedEof);
    var buffer :- rd.ReadExact(n, ErrUnexpectedEof);
    r := WalkBuffer(utf8, buffer);
  }

  method UnmarshalClientFrom(utf8: Bytes -> bool, rd: Reader) returns (r: Result<ClientHello, Error>)
    modifies rd
    ensures Reads(r, rd.rest, TakeClient(utf8, old(rd.rest)))
  {
    hide TakeU8, TakeExact, TakeRandom, TakeList, TakeCompression, TakeExtensions;
    var major :- rd.ReadU8(ErrUnexpectedEof);
    var minor :- rd.ReadU8(ErrUnexpectedEof);
    var random :- ReadRandom(rd);
    var _ :- rd.ReadU8(ErrUnexpectedEof);
    var cookieLen :- rd.ReadU8(ErrUnexpectedEof);
    var cookie :- rd.ReadExact(cookieLen, ErrUnexpectedEof);
    var codes :- ReadList(rd);
    var compressionMethods :- ReadCompression(rd);
    var extensions :- ReadExtensions(utf8, rd);
    return Ok(ClientHello(R.ProtocolVersion(major, minor), random, cookie, Mapped(codes, SUITE_FROM),
                          compressionMethods, extensions));
  }

  method MarshalServerTo(h: ServerHello, w: Writer)
    modifies w
    ensures w.written == old(w.written) + MarshalServer(h)
  {
    hide MarshalRandom, ExtensionsField, Be16;
    ghost var w0 := w.written;
    w.WriteU8(h.version.major);
    w.WriteU8(h.version.minor);
    WriteRandom(h.random, w);
    w.WriteU8(0);
    w.WriteU16(h.cipherSuite.Code());
    w.WriteU8(h.compressionMethod.Code());
    WriteExtensions(h.extensions, w);
    RegroupServer(w0, [h.version.major], [h.version.minor], MarshalRandom(h.random), [0], Be16(h.cipherSuite.Code()),
                  [h.compressionMethod.Code()], ExtensionsField(h.extensions));
  }

  lemma RegroupServer(w: Bytes, a: Bytes, b: Bytes, c: Bytes, d: Bytes, e: Bytes, f: Bytes, g: Bytes)
    ensures w + a + b + c + d + e + f + g == w + (a + (b + (c + (d + (e + (f + g))))))
  {
    Assoc(w + a + b + c + d + e, f, g);
    Assoc(w + a + b + c + d, e, f + g);
    Assoc(w + a + b + c, d, e + (f + g));
    Assoc(w + a + b, c, d + (e + (f + g)));
    Assoc(w + a, b, c + (d + (e + (f + g))));
    Assoc(w, a, b + (c + (d + (e + (f + g)))));
  }

  method UnmarshalServerFrom(utf8: Bytes -> bool, rd: Reader) returns (r: Result<ServerHello, Error>)
    modifies rd
    ensures Reads(r, rd.rest, TakeServer(utf8, old(rd.rest)))
  {
    hide TakeU8, TakeU16, TakeExact, TakeRandom, TakeExtensions;
    var major :- rd.ReadU8(ErrUnexpectedEof);
    var minor :- rd.ReadU8(ErrUnexpectedEof);
    var random :- ReadRandom(rd);
    var sessionIdLen :- rd.ReadU8(ErrUnexpectedEof);
    var _ :- rd.ReadExact(sessionIdLen, ErrUnexpectedEof);
    var suite :- rd.ReadU16(ErrUnexpectedEof);
    var compression :- rd.ReadU8(ErrUnexpectedEof);
    var extensions :- ReadExtensions(utf8, rd);
    return Ok(ServerHello(R.ProtocolVersion(major, minor), random, CipherSuiteId.FromCode(suite),
                          CompressionMethodId.FromCode(compression), extensions));
  }
}
