/** Reassembly of fragmented handshake messages (section 4.2.3 of RFC 6347). */
module FragmentBuffer {
  import opened Bytes
  import opened Wrappers
  import RecordLayer
  import H = Handshake

  datatype Fragment = Fragment(record: RecordLayer.Header, header: H.Header, data: Bytes) {
    function End(): nat { header.fragmentOffset + header.fragmentLength }

    predicate Ends() { End() == header.length }

    /** An empty fragment that does not end its message leads append_message back to the offset
        it came from. */
    predicate Stuck() { header.fragmentLength == 0 && !Ends() }

    /** As a sender makes it: the data is as long as the header says, within the message. */
    predicate Proper() { |data| == header.fragmentLength && End() <= header.length }
  }

  /** NoReturn is not an error of the source: the call does not come back. */
  datatype Error = ErrRecord(e: RecordLayer.Error) | ErrUnexpectedEof | ErrEmptyFragment | NoReturn

  type Cache = map<U16, seq<Fragment>>

  datatype State = State(cache: Cache, current: U16)

  predicate NoneStuck(frags: seq<Fragment>) {
    forall i :: 0 <= i < |frags| ==> !frags[i].Stuck()
  }

  // ---------------------------------------------------------------- push

  function AddFragment(cache: Cache, f: Fragment): Cache {
    var s := f.header.messageSequence;
    cache[s := (if s in cache then cache[s] else []) + [f]]
  }

  function FragmentLengthIn(header: H.Header, buf: Bytes): (end: nat)
    requires |buf| >= H.HANDSHAKE_HEADER_LENGTH
    ensures H.HANDSHAKE_HEADER_LENGTH <= end <= |buf|
  {
    Min(H.HANDSHAKE_HEADER_LENGTH + header.length, |buf|)
  }

  /** The fragments of one record's payload, in the order push stores them, and whether
      the payload ended cleanly. */
  function ParseFragments(record: RecordLayer.Header, buf: Bytes): (seq<Fragment>, bool)
    decreases |buf|
  {
    if buf == [] then ([], true)
    else match H.UnmarshalHeader(buf)
      case None => ([], false)
      case Some(header) =>
        var end := FragmentLengthIn(header, buf);
        var (rest, ok) := ParseFragments(record, buf[end..]);
        ([Fragment(record, header, buf[H.HANDSHAKE_HEADER_LENGTH..end])] + rest, ok)
  }

  function AddFragments(cache: Cache, frags: seq<Fragment>): Cache
    decreases |frags|
  {
    if frags == [] then cache else AddFragments(AddFragment(cache, frags[0]), frags[1..])
  }

  /** push: fragments parsed before an error stay in the cache. */
  function PushSpec(s: State, buf: Bytes): (State, Result<bool, Error>) {
    match RecordLayer.Unmarshal(buf)
    case Err(e) => (s, Err(ErrRecord(e)))
    case Ok(record) =>
      if record.contentType != RecordLayer.Handshake then (s, Ok(false))
      else
        var (frags, ok) := ParseFragments(record, buf[RecordLayer.RECORD_LAYER_HEADER_SIZE..]);
        (s.(cache := AddFragments(s.cache, frags)), if ok then Ok(true) else Err(ErrUnexpectedEof))
  }

  // ---------------------------------------------------------------- pop

  function FirstAt(frags: seq<Fragment>, target: nat): Option<Fragment> {
    if frags == [] then None
    else if frags[0].header.fragmentOffset == target then Some(frags[0])
    else FirstAt(frags[1..], target)
  }

  lemma {:induction false} FirstAtFacts(frags: seq<Fragment>, target: nat)
    ensures var r := FirstAt(frags, target);
      && (r.Some? ==> r.value in frags && r.value.header.fragmentOffset == target)
      && (r.None? ==> forall f :: f in frags ==> f.header.fragmentOffset != target)
  {
    if frags != [] {
      FirstAtFacts(frags[1..], target);
      assert frags == [frags[0]] + frags[1..];
    }
  }

  /** What append_message comes to: the bytes it prepends, false, or no return at all. */
  datatype Assembly = Complete(bytes: Bytes) | Incomplete | Loops

  /** append_message from an offset. Only the first fragment at an offset is ever tried. */
  function Assemble(target: nat, frags: seq<Fragment>): Assembly
    decreases 0x200_0000 - target
  {
    FirstAtFacts(frags, target);
    match FirstAt(frags, target)
    case None => Incomplete
    case Some(f) =>
      if f.Ends() then Complete(f.data)
      else if f.Stuck() then Loops
      else match Assemble(f.End(), frags)
        case Complete(rest) => Complete(f.data + rest)
        case Incomplete => Incomplete
        case Loops => Loops
  }

  lemma AssembleNeedsFragment(frags: seq<Fragment>)
    requires Assemble(0, frags).Complete?
    ensures frags != []
  {
  }

  function PopSpec(s: State): (State, Result<(Bytes, U16), Error>) {
    if s.current !in s.cache then (s, Err(ErrEmptyFragment))
    else
      var frags := s.cache[s.current];
      match Assemble(0, frags)
      case Incomplete => (s, Err(ErrEmptyFragment))
      case Loops => (s, Err(NoReturn))
      case Complete(raw) =>
        AssembleNeedsFragment(frags);
        var first := frags[0].header;
        var header := first.(fragmentOffset := 0, fragmentLength := first.length);
        (State(s.cache - {s.current}, (s.current + 1) % 0x1_0000),
         Ok((H.MarshalHeader(header) + raw, frags[0].record.epoch)))
  }

  class FragmentBuffer {
    var cache: Cache
    var current: U16

    ghost function View(): State
      reads this
    {
      State(cache, current)
    }

    constructor ()
      ensures View() == State(map[], 0)
    {
      cache := map[];
      current := 0;
    }

    method Push(buf: Bytes) returns (r: Result<bool, Error>)
      modifies this
      ensures (View(), r) == PushSpec(old(View()), buf)
    {
      hide RecordLayer.Unmarshal, H.UnmarshalHeader;
      var record;
      match RecordLayer.Unmarshal(buf) {
        case Err(e) => return Err(ErrRecord(e));
        case Ok(h) => record := h;
      }
      if record.contentType != RecordLayer.Handshake {
        return Ok(false);
      }
      var rest := buf[RecordLayer.RECORD_LAYER_HEADER_SIZE..];
      ghost var all := ParseFragments(record, rest);
      ghost var cache0 := cache;
      while rest != []
        invariant current == old(current)
        invariant all.1 == ParseFragments(record, rest).1
        invariant AddFragments(cache0, all.0) == AddFragments(cache, ParseFragments(record, rest).0)
        decreases |rest|
      {
        var header;
        match H.UnmarshalHeader(rest) {
          case None => return Err(ErrUnexpectedEof);
          case Some(h) => header := h;
        }
        ghost var before := cache;
        if header.messageSequence !in cache {
          cache := cache[header.messageSequence := []];
        }
        var end := FragmentLengthIn(header, rest);
        var f := Fragment(record, header, rest[H.HANDSHAKE_HEADER_LENGTH..end]);
        ghost var tail := ParseFragments(record, rest[end..]).0;
        assert ([f] + tail)[1..] == tail;
        cache := cache[header.messageSequence := cache[header.messageSequence] + [f]];
        assert cache == AddFragment(before, f);
        rest := rest[end..];
      }
      return Ok(true);
    }

    method Pop() returns (r: Result<(Bytes, U16), Error>)
      requires PopSpec(View()).1 != Err(NoReturn)
      modifies this
      ensures (View(), r) == PopSpec(old(View()))
    {
      hide H.MarshalHeader, Assemble;
      if current !in cache {
        return Err(ErrEmptyFragment);
      }
      var frags := cache[current];
      var ok, raw := AppendMessage(0, frags, []);
      if !ok {
        return Err(ErrEmptyFragment);
      }
      EmptyUnit(Assemble(0, frags).bytes);
      AssembleNeedsFragment(frags);
      var first := frags[0].header;
      var header := first.(fragmentOffset := 0, fragmentLength := first.length);
      r := Ok((H.MarshalHeader(header) + raw, frags[0].record.epoch));
      cache := cache - {current};
      current := (current + 1) % 0x1_0000;
    }
  }

  method AppendMessage(target: nat, frags: seq<Fragment>, raw: Bytes) returns (ok: bool, raw': Bytes)
    requires !Assemble(target, frags).Loops?
    ensures ok == Assemble(target, frags).Complete?
    ensures raw' == if ok then Assemble(target, frags).bytes + raw else raw
    decreases 0x200_0000 - target
  {
    assert frags[0..] == frags;
    for i := 0 to |frags|
      invariant FirstAt(frags, target) == FirstAt(frags[i..], target)
    {
      var f := frags[i];
      assert frags[i..][1..] == frags[i + 1..];
      if f.header.fragmentOffset == target {
        raw' := raw;
        if f.End() != f.header.length {
          ok, raw' := AppendMessage(f.End(), frags, raw');
          if !ok {
            return;
          }
          Assoc(f.data, Assemble(f.End(), frags).bytes, raw);
        }
        return true, f.data + raw';
      }
    }
    return false, raw;
  }

  // ---------------------------------------------------------------- when pop returns

  /** append_message with the recursion cut off after a number of calls: None when there are
      more of them. */
  function Unrolled(calls: nat, target: nat, frags: seq<Fragment>): Option<Option<Bytes>> {
    if calls == 0 then None
    else match FirstAt(frags, target)
      case None => Some(None)
      case Some(f) =>
        if f.Ends() then Some(Some(f.data))
        else match Unrolled(calls - 1, f.End(), frags)
          case Some(Some(rest)) => Some(Some(f.data + rest))
          case other => other
  }

  /** Loops means what it says: however many calls are allowed, there are more. Otherwise at
      most one call for every offset up to the largest end of a fragment is needed, and the
      result is the one of Assemble. */
  lemma {:induction false} LoopsIsUnbounded(calls: nat, target: nat, frags: seq<Fragment>)
    ensures Assemble(target, frags).Loops? ==> Unrolled(calls, target, frags) == None
    ensures !Assemble(target, frags).Loops? && calls > 0x200_0000 - target && calls > 0 ==>
              Unrolled(calls, target, frags) == match Assemble(target, frags)
                case Complete(bytes) => Some(Some(bytes))
                case _ => Some(None)
    decreases calls
  {
    FirstAtFacts(frags, target);
    if calls > 0 && FirstAt(frags, target).Some? {
      LoopsIsUnbounded(calls - 1, FirstAt(frags, target).value.End(), frags);
    }
  }

  lemma LoopsExactly(frags: seq<Fragment>)
    ensures Assemble(0, frags).Loops? <==> forall calls: nat :: Unrolled(calls, 0, frags) == None
  {
    forall calls: nat ensures Assemble(0, frags).Loops? ==> Unrolled(calls, 0, frags) == None {
      LoopsIsUnbounded(calls, 0, frags);
    }
    LoopsIsUnbounded(0x200_0001, 0, frags);
  }

  /** The offset that append_message has come to after n steps: each goes to the end of the
      first fragment at the offset, unless that fragment ends the message. */
  function After(frags: seq<Fragment>, target: nat, n: nat): Option<nat>
    decreases n
  {
    if n == 0 then Some(target)
    else match FirstAt(frags, target)
      case None => None
      case Some(f) => if f.Ends() then None else After(frags, f.End(), n - 1)
  }

  ghost predicate Reaches(frags: seq<Fragment>, target: nat, o: nat) {
    exists n: nat :: After(frags, target, n) == Some(o)
  }

  lemma ReachesItself(frags: seq<Fragment>, target: nat)
    ensures Reaches(frags, target, target)
  {
    assert After(frags, target, 0) == Some(target);
  }

  /** What is reached is the offset itself and what is reached from the next one. */
  lemma ReachesNext(frags: seq<Fragment>, target: nat, o: nat)
    ensures Reaches(frags, target, o) <==>
      || o == target
      || (FirstAt(frags, target).Some? && !FirstAt(frags, target).value.Ends()
          && Reaches(frags, FirstAt(frags, target).value.End(), o))
  {
    ReachesItself(frags, target);
    var first := FirstAt(frags, target);
    if Reaches(frags, target, o) {
      var n: nat :| After(frags, target, n) == Some(o);
      if n > 0 {
        assert After(frags, first.value.End(), n - 1) == Some(o);
      }
    }
    if first.Some? && !first.value.Ends() && Reaches(frags, first.value.End(), o) {
      var n: nat :| After(frags, first.value.End(), n) == Some(o);
      assert After(frags, target, n + 1) == Some(o);
    }
  }

  /** A stuck fragment keeps the search at its offset. */
  lemma {:induction false} StuckStays(frags: seq<Fragment>, target: nat, n: nat)
    requires FirstAt(frags, target).Some? && FirstAt(frags, target).value.Stuck()
    ensures After(frags, target, n) == Some(target)
    decreases n
  {
    FirstAtFacts(frags, target);
    if n > 0 {
      StuckStays(frags, target, n - 1);
    }
  }

  ghost predicate ReachesStuck(frags: seq<Fragment>, target: nat) {
    exists o: nat ::
      Reaches(frags, target, o) && FirstAt(frags, o).Some? && FirstAt(frags, o).value.Stuck()
  }

  ghost predicate ReachesEnd(frags: seq<Fragment>, target: nat) {
    exists o: nat ::
      Reaches(frags, target, o) && FirstAt(frags, o).Some? && FirstAt(frags, o).value.Ends()
  }

  ghost predicate ReachesGap(frags: seq<Fragment>, target: nat) {
    exists o: nat ::
      Reaches(frags, target, o) && FirstAt(frags, o).None?
  }

  /** The three outcomes, exactly: append_message does not return when the chain of first
      fragments gets to an offset whose first fragment is empty and does not end the message,
      succeeds when it gets to one that ends the message, and fails when it gets to an offset
      where no fragment starts. Other fragments, whatever they are, do not matter. */
  lemma {:induction false} AssembleFollowsChain(target: nat, frags: seq<Fragment>)
    ensures Assemble(target, frags).Loops? <==> ReachesStuck(frags, target)
    ensures Assemble(target, frags).Complete? <==> ReachesEnd(frags, target)
    ensures Assemble(target, frags).Incomplete? <==> ReachesGap(frags, target)
    decreases 0x200_0000 - target
  {
    FirstAtFacts(frags, target);
    var first := FirstAt(frags, target);
    forall o: nat
      ensures Reaches(frags, target, o) <==>
        (o == target || (first.Some? && !first.value.Ends() && Reaches(frags, first.value.End(), o)))
    {
      ReachesNext(frags, target, o);
    }
    if first.Some? && !first.value.Ends() {
      if first.value.Stuck() {
        forall o: nat | Reaches(frags, target, o) ensures o == target {
          var n: nat :| After(frags, target, n) == Some(o);
          StuckStays(frags, target, n);
        }
      } else {
        AssembleFollowsChain(first.value.End(), frags);
      }
    }
  }

  /** In particular it returns when no fragment is empty unless it ends its message. */
  lemma NoneStuckReturns(target: nat, frags: seq<Fragment>)
    requires NoneStuck(frags)
    ensures !Assemble(target, frags).Loops?
  {
    AssembleFollowsChain(target, frags);
    forall o: nat ensures FirstAt(frags, o).Some? ==> !FirstAt(frags, o).value.Stuck() {
      FirstAtFacts(frags, o);
    }
  }

  /** The header of an empty fragment that claims to be the start of a longer message. */
  function StuckHeader(typ: H.HandshakeType, seqNo: U16): (h: H.Header) {
    H.Header(typ, 1, seqNo, 0, 0)
  }

  /** push accepts a record with such a fragment, and pop does not return from it unless a
      fragment at offset 0 came before it. */
  lemma StuckRecordIsAccepted(s: State, record: RecordLayer.Header, typ: H.HandshakeType)
    requires record.contentType == RecordLayer.Handshake && record.sequenceNumber <= RecordLayer.MAX_SEQUENCE_NUMBER
    requires record.version == RecordLayer.PROTOCOL_VERSION1_0 || record.version == RecordLayer.PROTOCOL_VERSION1_2
    requires s.current in s.cache ==> FirstAt(s.cache[s.current], 0).None?
    ensures var pkt := RecordLayer.Marshal(record).value + H.MarshalHeader(StuckHeader(typ, s.current));
      var (s', r) := PushSpec(s, pkt);
      r == Ok(true) && s'.current == s.current && PopSpec(s').1 == Err(NoReturn)
  {
    var header := StuckHeader(typ, s.current);
    var payload := H.MarshalHeader(header);
    RecordLayer.HeaderRoundTrip(record, payload);
    var pkt := RecordLayer.Marshal(record).value + payload;
    assert pkt[RecordLayer.RECORD_LAYER_HEADER_SIZE..] == payload;
    var f := Fragment(record, header, []);
    OneFragment(record, f);
    assert AddFragments(s.cache, [f]) == AddFragments(AddFragment(s.cache, f), [f][1..]);
    var before := if s.current in s.cache then s.cache[s.current] else [];
    FirstOfAppended(before, f);
  }

  lemma OneFragment(record: RecordLayer.Header, f: Fragment)
    requires f.data == [] && f.record == record
    ensures ParseFragments(record, H.MarshalHeader(f.header)) == ([f], true)
  {
    var buf := H.MarshalHeader(f.header);
    EmptyUnit(buf);
    H.HeaderRoundTrip(f.header, []);
    assert ParseFragments(record, []) == ([], true);
    assert buf[H.HANDSHAKE_HEADER_LENGTH..] == [];
    assert [f] + [] == [f];
  }

  lemma {:induction false} FirstOfAppended(frags: seq<Fragment>, f: Fragment)
    requires FirstAt(frags, f.header.fragmentOffset).None?
    ensures FirstAt(frags + [f], f.header.fragmentOffset) == Some(f)
  {
    if frags == [] {
      assert [] + [f] == [f];
    } else {
      FirstOfAppended(frags[1..], f);
      assert (frags + [f])[1..] == frags[1..] + [f];
    }
  }

  // ---------------------------------------------------------------- soundness

  /** Every fragment is a slice of one message body, however the slices overlap. */
  predicate AreSlices(frags: seq<Fragment>, body: Bytes) {
    forall f :: f in frags ==>
      && f.header.length == |body|
      && f.End() <= |body|
      && f.data == body[f.header.fragmentOffset..f.End()]
  }

  /** Reassembly is sound: whenever append_message succeeds, the bytes are exactly the
      message from that offset on. The recursion measure is length minus offset. */
  lemma {:induction false} AssembleSound(target: nat, frags: seq<Fragment>, body: Bytes)
    requires AreSlices(frags, body) && Assemble(target, frags).Complete?
    ensures target <= |body| && Assemble(target, frags).bytes == body[target..]
    decreases |body| - target
  {
    FirstAtFacts(frags, target);
    var f := FirstAt(frags, target).value;
    if f.End() != f.header.length {
      AssembleSound(f.End(), frags, body);
      assert body[target..] == body[target..f.End()] + body[f.End()..];
    }
  }

  // ---------------------------------------------------------------- one fragmentation

  /** The offsets at which a body of n bytes is cut for fragments of at most mtu bytes. */
  function Cuts(n: nat, mtu: nat, from: nat): set<nat>
    requires mtu > 0 && from <= n
    decreases n - from
  {
    {from} + if n - from <= mtu then {} else Cuts(n, mtu, from + mtu)
  }

  lemma {:induction false} CutsBounds(n: nat, mtu: nat, from: nat)
    requires mtu > 0 && from <= n
    ensures forall o :: o in Cuts(n, mtu, from) ==> from <= o <= n && (o < n || o == from == n)
    decreases n - from
  {
    if n - from > mtu {
      CutsBounds(n, mtu, from + mtu);
    }
  }

  /** From a cut on, the cuts are that cut and those from the next one. */
  lemma {:induction false} CutsFromCut(n: nat, mtu: nat, from: nat, o: nat)
    requires mtu > 0 && from <= o <= n && o in Cuts(n, mtu, from)
    ensures Cuts(n, mtu, o) == set x | x in Cuts(n, mtu, from) && x >= o
    decreases n - from
  {
    CutsBounds(n, mtu, from);
    if o != from {
      CutsBounds(n, mtu, from + mtu);
      CutsFromCut(n, mtu, from + mtu, o);
    }
  }

  function PieceEnd(n: nat, mtu: nat, o: nat): nat
    requires o <= n
  {
    if n - o <= mtu then n else o + mtu
  }

  /** Every fragment is the piece of the body between two consecutive cuts. */
  predicate ArePieces(frags: seq<Fragment>, body: Bytes, mtu: nat)
    requires mtu > 0
  {
    forall f :: f in frags ==>
      && f.header.fragmentOffset in Cuts(|body|, mtu, 0)
      && f.header.fragmentOffset <= |body|
      && f.header.length == |body|
      && f.End() == PieceEnd(|body|, mtu, f.header.fragmentOffset)
      && f.data == body[f.header.fragmentOffset..f.End()]
  }

  function Offsets(frags: seq<Fragment>): set<nat> {
    set f | f in frags :: f.header.fragmentOffset
  }

  lemma PiecesAreSlices(frags: seq<Fragment>, body: Bytes, mtu: nat)
    requires mtu > 0 && ArePieces(frags, body, mtu)
    ensures NoneStuck(frags) && AreSlices(frags, body)
  {
    forall i | 0 <= i < |frags| ensures !frags[i].Stuck() {
      assert frags[i] in frags;
      CutsBounds(|body|, mtu, 0);
    }
  }

  lemma {:induction false} AssembleFromCut(frags: seq<Fragment>, body: Bytes, mtu: nat, o: nat)
    requires mtu > 0 && ArePieces(frags, body, mtu)
    requires o <= |body| && o in Cuts(|body|, mtu, 0)
    ensures Assemble(o, frags).Complete? <==> Cuts(|body|, mtu, o) <= Offsets(frags)
    decreases |body| - o
  {
    FirstAtFacts(frags, o);
    CutsBounds(|body|, mtu, 0);
    CutsFromCut(|body|, mtu, 0, o);
    if FirstAt(frags, o).Some? && |body| - o > mtu {
      assert o + mtu in Cuts(|body|, mtu, o);
      AssembleFromCut(frags, body, mtu, o + mtu);
      assert FirstAt(frags, o).value.header.fragmentOffset in Offsets(frags);
    }
  }

  /** When all copies of a message share one fragmentation, append_message succeeds exactly
      when every piece has arrived, and then yields the body. */
  lemma AssembleComplete(frags: seq<Fragment>, body: Bytes, mtu: nat)
    requires mtu > 0 && ArePieces(frags, body, mtu)
    ensures Assemble(0, frags) == if Cuts(|body|, mtu, 0) <= Offsets(frags) then Complete(body) else Incomplete
  {
    AssembleFromCut(frags, body, mtu, 0);
    PiecesAreSlices(frags, body, mtu);
    NoneStuckReturns(0, frags);
    if Assemble(0, frags).Complete? {
      AssembleSound(0, frags, body);
      assert body[0..] == body;
    }
  }

  predicate Covered(frags: seq<Fragment>, o: nat) {
    exists f :: f in frags && f.header.fragmentOffset <= o < f.End()
  }

  /** Covering slices of two fragmentations need not assemble: here [0, 2) and [1, 4) of four
      bytes. After [0, 2) the search goes on at 2, where no fragment starts. */
  lemma FragmentationsMustAgree(record: RecordLayer.Header, typ: H.HandshakeType, seqNo: U16, body: Bytes)
    requires |body| == 4
    ensures var frags := [Fragment(record, H.Header(typ, 4, seqNo, 0, 2), body[0..2]),
                          Fragment(record, H.Header(typ, 4, seqNo, 1, 3), body[1..4])];
      && AreSlices(frags, body)
      && (forall o :: 0 <= o < |body| ==> Covered(frags, o))
      && Assemble(0, frags) == Incomplete
  {
    var frags := [Fragment(record, H.Header(typ, 4, seqNo, 0, 2), body[0..2]),
                  Fragment(record, H.Header(typ, 4, seqNo, 1, 3), body[1..4])];
    assert frags[0] in frags && frags[1] in frags;
    forall o | 0 <= o < |body| ensures Covered(frags, o) {
      assert (if o < 2 then frags[0] else frags[1]) in frags;
    }
    assert frags[1..] == [frags[1]] && frags[1..][1..] == [];
    assert FirstAt(frags[1..], 2) == None;
    assert FirstAt(frags, 2) == None && FirstAt(frags, 0) == Some(frags[0]);
    assert Assemble(2, frags) == Incomplete;
  }

  // ---------------------------------------------------------------- several fragments in a record

  function Payload(frags: seq<Fragment>): Bytes {
    if frags == [] then [] else H.MarshalHeader(frags[0].header) + frags[0].data + Payload(frags[1..])
  }

  /** A fragment is cut off by the length of the whole message, so that a record parses back
      into the fragments it was put together from exactly when all but the last are whole
      messages. */
  lemma {:induction false} RecordParsesBack(record: RecordLayer.Header, frags: seq<Fragment>)
    requires AllProper(record, frags)
    ensures ParseFragments(record, Payload(frags)) == (frags, true) <==> AllButLastWhole(frags)
  {
    hide ParseFragments, Payload;
    if frags == [] {
      NothingToParse(record);
    } else {
      var f, rest := frags[0], frags[1..];
      RecordParsesBack(record, rest);
      WholeTail(frags);
      if rest == [] || f.header.fragmentLength == f.header.length {
        CutsTheFirst(record, frags);
        var (parsed, ok) := ParseFragments(record, Payload(rest));
        assert frags == [f] + rest;
        assert ([f] + parsed)[1..] == parsed;
      } else {
        CutsTooLate(record, frags);
      }
    }
  }

  predicate AllProper(record: RecordLayer.Header, frags: seq<Fragment>) {
    forall i :: 0 <= i < |frags| ==> frags[i].Proper() && frags[i].record == record
  }

  predicate AllButLastWhole(frags: seq<Fragment>) {
    forall i :: 0 <= i < |frags| - 1 ==> frags[i].header.fragmentLength == frags[i].header.length
  }

  lemma WholeTail(frags: seq<Fragment>)
    requires frags != []
    ensures AllButLastWhole(frags) <==>
      (|frags| > 1 ==> frags[0].header.fragmentLength == frags[0].header.length) && AllButLastWhole(frags[1..])
  {
    var rest := frags[1..];
    assert forall i :: 0 <= i < |rest| ==> rest[i] == frags[i + 1];
    if AllButLastWhole(rest) {
      assert forall i :: 0 < i < |frags| - 1 ==> frags[i] == rest[i - 1];
    }
  }

  lemma NothingToParse(record: RecordLayer.Header)
    ensures ParseFragments(record, Payload([])) == ([], true)
  {
  }

  lemma CutsTheFirst(record: RecordLayer.Header, frags: seq<Fragment>)
    requires frags != [] && frags[0].Proper() && frags[0].record == record
    requires frags[1..] == [] || frags[0].header.fragmentLength == frags[0].header.length
    ensures var (rest, ok) := ParseFragments(record, Payload(frags[1..]));
      ParseFragments(record, Payload(frags)) == ([frags[0]] + rest, ok)
  {
    var f, tail := frags[0], Payload(frags[1..]);
    var buf := Payload(frags);
    Assoc(H.MarshalHeader(f.header), f.data, tail);
    H.HeaderRoundTrip(f.header, f.data + tail);
    var end := FragmentLengthIn(f.header, buf);
    assert end == H.HANDSHAKE_HEADER_LENGTH + |f.data|;
    assert buf[H.HANDSHAKE_HEADER_LENGTH..end] == f.data && buf[end..] == tail;
  }

  lemma CutsTooLate(record: RecordLayer.Header, frags: seq<Fragment>)
    requires |frags| > 1 && frags[0].Proper() && frags[0].header.fragmentLength < frags[0].header.length
    ensures var parsed := ParseFragments(record, Payload(frags)).0; parsed != [] && parsed[0] != frags[0]
  {
    var f, tail := frags[0], Payload(frags[1..]);
    Assoc(H.MarshalHeader(f.header), f.data, tail);
    H.HeaderRoundTrip(f.header, f.data + tail);
    LongerThanHeader(frags[1..]);
    var (rest, _) := ParseFragments(record, Payload(frags)[FragmentLengthIn(f.header, Payload(frags))..]);
    var data := Payload(frags)[H.HANDSHAKE_HEADER_LENGTH..FragmentLengthIn(f.header, Payload(frags))];
    assert |data| > |f.data|;
    assert ParseFragments(record, Payload(frags)).0 == [Fragment(record, f.header, data)] + rest;
  }

  lemma LongerThanHeader(frags: seq<Fragment>)
    requires frags != []
    ensures |Payload(frags)| >= H.HANDSHAKE_HEADER_LENGTH
  {
  }

  // ---------------------------------------------------------------- epochs

  /** All fragments came in records of the epoch. */
  predicate InEpoch(frags: seq<Fragment>, epoch: U16) {
    forall i :: 0 <= i < |frags| ==> frags[i].record.epoch == epoch
  }

  /** Every message in the buffer has all its fragments from one epoch. */
  predicate EpochsApart(cache: Cache) {
    forall k :: k in cache && cache[k] != [] ==> InEpoch(cache[k], cache[k][0].record.epoch)
  }

  /** A fragment is of the epoch of those already there, if there are any. */
  predicate Joins(cache: Cache, f: Fragment) {
    var k := f.header.messageSequence;
    k in cache && cache[k] != [] ==> cache[k][0].record.epoch == f.record.epoch
  }

  lemma AddKeepsApart(cache: Cache, f: Fragment)
    requires EpochsApart(cache)
    ensures EpochsApart(AddFragment(cache, f)) <==> Joins(cache, f)
  {
    var k, after := f.header.messageSequence, AddFragment(cache, f);
    var before := if k in cache then cache[k] else [];
    assert after[k] == before + [f] && after[k][|before|] == f;
    if Joins(cache, f) {
      forall q | q in after && after[q] != [] ensures InEpoch(after[q], after[q][0].record.epoch) {
        if q == k {
          assert forall i :: 0 <= i < |before| ==> before[i].record.epoch == f.record.epoch;
        }
      }
    }
  }

  lemma JoinsAfter(cache: Cache, f: Fragment, g: Fragment)
    requires g.record.epoch == f.record.epoch && Joins(cache, f)
    ensures Joins(AddFragment(cache, f), g) <==> Joins(cache, g)
  {
  }

  /** One fragment that does not join is enough, and it stays. */
  lemma {:induction false} MixedStays(cache: Cache, frags: seq<Fragment>)
    requires !EpochsApart(cache)
    ensures !EpochsApart(AddFragments(cache, frags))
    decreases |frags|
  {
    if frags != [] {
      var k :| k in cache && cache[k] != [] && !InEpoch(cache[k], cache[k][0].record.epoch);
      var after := AddFragment(cache, frags[0]);
      var i :| 0 <= i < |cache[k]| && cache[k][i].record.epoch != cache[k][0].record.epoch;
      assert after[k][i] == cache[k][i] && after[k][0] == cache[k][0];
      assert !InEpoch(after[k], after[k][0].record.epoch);
      MixedStays(after, frags[1..]);
    }
  }

  lemma {:induction false} AddAllKeepsApart(cache: Cache, frags: seq<Fragment>, epoch: U16)
    requires EpochsApart(cache) && InEpoch(frags, epoch)
    ensures EpochsApart(AddFragments(cache, frags)) <==> forall i :: 0 <= i < |frags| ==> Joins(cache, frags[i])
    decreases |frags|
  {
    hide EpochsApart, Joins, AddFragment;
    if frags != [] {
      var f, rest, after := frags[0], frags[1..], AddFragment(cache, frags[0]);
      AddKeepsApart(cache, f);
      if Joins(cache, f) {
        AddAllKeepsApart(after, rest, epoch);
        forall i | 0 <= i < |rest| ensures Joins(after, rest[i]) <==> Joins(cache, frags[i + 1]) {
          JoinsAfter(cache, f, rest[i]);
        }
        if forall i :: 0 <= i < |rest| ==> Joins(after, rest[i]) {
          forall i | 0 <= i < |frags| ensures Joins(cache, frags[i]) {
            if i > 0 {
              assert Joins(after, rest[i - 1]);
            }
          }
        }
      } else {
        MixedStays(after, rest);
      }
    }
  }

  lemma {:induction false} ParsedInEpoch(record: RecordLayer.Header, buf: Bytes)
    ensures InEpoch(ParseFragments(record, buf).0, record.epoch)
    decreases |buf|
  {
    hide H.UnmarshalHeader;
    if buf != [] && H.UnmarshalHeader(buf).Some? {
      ParsedInEpoch(record, buf[FragmentLengthIn(H.UnmarshalHeader(buf).value, buf)..]);
    }
  }

  /** push keeps epochs apart exactly when every fragment of the record joins what the buffer
      has of its message. */
  lemma PushKeepsApartExactly(s: State, buf: Bytes)
    requires EpochsApart(s.cache)
    ensures EpochsApart(PushSpec(s, buf).0.cache) <==>
      var record := RecordLayer.Unmarshal(buf);
      record.Ok? && record.value.contentType == RecordLayer.Handshake ==>
        var frags := ParseFragments(record.value, buf[RecordLayer.RECORD_LAYER_HEADER_SIZE..]).0;
        forall i :: 0 <= i < |frags| ==> Joins(s.cache, frags[i])
  {
    hide EpochsApart, Joins, ParseFragments;
    match RecordLayer.Unmarshal(buf) {
      case Err(_) =>
      case Ok(record) =>
        ParsedInEpoch(record, buf[RecordLayer.RECORD_LAYER_HEADER_SIZE..]);
        AddAllKeepsApart(s.cache, ParseFragments(record, buf[RecordLayer.RECORD_LAYER_HEADER_SIZE..]).0, record.epoch);
    }
  }

  /** Then pop keeps them apart too, and hands a message on with the epoch that all its
      fragments came in. */
  lemma PopsInItsEpoch(s: State)
    requires EpochsApart(s.cache)
    ensures EpochsApart(PopSpec(s).0.cache)
    ensures PopSpec(s).1.Ok? ==> s.current in s.cache && InEpoch(s.cache[s.current], PopSpec(s).1.value.1)
  {
    hide Assemble, H.MarshalHeader;
    if PopSpec(s).1.Ok? {
      AssembleNeedsFragment(s.cache[s.current]);
    }
  }

  /** A fragment on the wire, in a record of its own. */
  function OnTheWire(f: Fragment): Bytes
    requires f.record.sequenceNumber <= RecordLayer.MAX_SEQUENCE_NUMBER
  {
    RecordLayer.Marshal(f.record).value + Payload([f])
  }

  predicate CanBeSent(f: Fragment) {
    && f.Proper()
    && f.record.contentType == RecordLayer.Handshake && f.record.sequenceNumber <= RecordLayer.MAX_SEQUENCE_NUMBER
    && (f.record.version == RecordLayer.PROTOCOL_VERSION1_0 || f.record.version == RecordLayer.PROTOCOL_VERSION1_2)
  }

  lemma PushesOne(s: State, f: Fragment)
    requires CanBeSent(f)
    ensures PushSpec(s, OnTheWire(f)) == (s.(cache := AddFragment(s.cache, f)), Ok(true))
  {
    hide AddFragment, RecordLayer.Unmarshal, RecordLayer.Marshal, Payload, ParseFragments;
    var payload := Payload([f]);
    RecordLayer.HeaderRoundTrip(f.record, payload);
    assert OnTheWire(f)[RecordLayer.RECORD_LAYER_HEADER_SIZE..] == payload;
    RecordParsesBack(f.record, [f]);
    assert AddFragments(s.cache, [f]) == AddFragments(AddFragment(s.cache, f), [f][1..]);
  }

  /** Without that it need not: two halves of a message that came in different epochs are put
      together, and the message has the epoch of the first. */
  lemma EpochsMix(s: State, f: Fragment, g: Fragment)
    requires CanBeSent(f) && CanBeSent(g) && f.record.epoch != g.record.epoch
    requires s.current !in s.cache && f.header.messageSequence == g.header.messageSequence == s.current
    requires f.header.length == g.header.length == g.End()
    requires f.header.fragmentOffset == 0 && g.header.fragmentOffset == f.header.fragmentLength > 0
    requires g.header.fragmentLength > 0
    ensures var (s1, r1) := PushSpec(s, OnTheWire(f)); var (s2, r2) := PushSpec(s1, OnTheWire(g));
      && r1 == Ok(true) && r2 == Ok(true)
      && PopSpec(s2).1 == Ok((H.MarshalHeader(f.header.(fragmentLength := f.header.length)) + (f.data + g.data), f.record.epoch))
  {
    hide PushSpec, OnTheWire, H.MarshalHeader;
    PushesOne(s, f);
    var s1 := s.(cache := AddFragment(s.cache, f));
    PushesOne(s1, g);
    var frags := [f, g];
    assert [] + [f] == [f] && [f] + [g] == frags;
    assert AddFragment(s1.cache, g)[s.current] == frags;
    assert frags[1..] == [g];
    assert FirstAt([g], g.header.fragmentOffset) == Some(g);
    assert FirstAt(frags, 0) == Some(f) && FirstAt(frags, f.End()) == Some(g);
    assert Assemble(f.End(), frags) == Complete(g.data);
    assert Assemble(0, frags) == Complete(f.data + g.data);
  }

  /** The fragments that append_message puts together, in order. */
  function Pieces(target: nat, frags: seq<Fragment>): seq<Fragment>
    requires Assemble(target, frags).Complete?
    decreases 0x200_0000 - target
  {
    FirstAtFacts(frags, target);
    var f := FirstAt(frags, target).value;
    [f] + if f.Ends() then [] else Pieces(f.End(), frags)
  }

  function DataOf(frags: seq<Fragment>): seq<Bytes> {
    seq(|frags|, i requires 0 <= i < |frags| => frags[i].data)
  }

  lemma {:induction false} PiecesMakeTheMessage(target: nat, frags: seq<Fragment>)
    requires Assemble(target, frags).Complete?
    ensures Concat(DataOf(Pieces(target, frags))) == Assemble(target, frags).bytes
    decreases 0x200_0000 - target
  {
    FirstAtFacts(frags, target);
    var f := FirstAt(frags, target).value;
    if f.Ends() {
      assert DataOf([f]) == [f.data] && [f.data][1..] == [];
      assert Concat([]) == [];
      EmptyUnit(f.data);
      EmptyUnit([f]);
    } else {
      PiecesMakeTheMessage(f.End(), frags);
      var rest := Pieces(f.End(), frags);
      assert DataOf([f] + rest) == [f.data] + DataOf(rest);
      assert ([f.data] + DataOf(rest))[1..] == DataOf(rest);
    }
  }

  lemma {:induction false} PiecesInEpoch(target: nat, frags: seq<Fragment>, epoch: U16)
    requires Assemble(target, frags).Complete?
    ensures InEpoch(Pieces(target, frags), epoch) <==>
      forall o: nat :: Reaches(frags, target, o) ==> FirstAt(frags, o).Some? && FirstAt(frags, o).value.record.epoch == epoch
    decreases 0x200_0000 - target
  {
    FirstAtFacts(frags, target);
    ReachesItself(frags, target);
    var f := FirstAt(frags, target).value;
    forall o: nat ensures Reaches(frags, target, o) <==> o == target || (!f.Ends() && Reaches(frags, f.End(), o)) {
      ReachesNext(frags, target, o);
    }
    if !f.Ends() {
      PiecesInEpoch(f.End(), frags, epoch);
      InEpochCons(f, Pieces(f.End(), frags), epoch);
    } else {
      InEpochCons(f, [], epoch);
    }
  }

  lemma InEpochCons(f: Fragment, rest: seq<Fragment>, epoch: U16)
    ensures InEpoch([f] + rest, epoch) <==> f.record.epoch == epoch && InEpoch(rest, epoch)
  {
    if InEpoch([f] + rest, epoch) {
      assert ([f] + rest)[0] == f;
      assert forall i :: 0 <= i < |rest| ==> ([f] + rest)[i + 1] == rest[i];
    }
  }

  /** The fragments of a popped message all came in the epoch it is handed on with exactly when
      the first fragment at every offset that append_message gets to did. */
  lemma PopsInItsEpochExactly(s: State)
    requires PopSpec(s).1.Ok?
    ensures var frags, epoch := s.cache[s.current], PopSpec(s).1.value.1;
      && PopSpec(s).1.value.0[H.HANDSHAKE_HEADER_LENGTH..] == Concat(DataOf(Pieces(0, frags)))
      && (InEpoch(Pieces(0, frags), epoch) <==>
            forall o: nat :: Reaches(frags, 0, o) ==>
              FirstAt(frags, o).Some? && FirstAt(frags, o).value.record.epoch == epoch)
  {
    hide Assemble, Pieces, Reaches, H.MarshalHeader;
    var frags := s.cache[s.current];
    PiecesMakeTheMessage(0, frags);
    PiecesInEpoch(0, frags, PopSpec(s).1.value.1);
  }

  // ---------------------------------------------------------------- the first at an offset counts

  /** The earliest stored fragment that starts at an offset. */
  predicate Earliest(frags: seq<Fragment>, target: nat, i: nat) {
    && i < |frags| && frags[i].header.fragmentOffset == target
    && forall j :: 0 <= j < i ==> frags[j].header.fragmentOffset != target
  }

  /** By index: that is the one tried. */
  lemma {:induction false} FirstAtExactly(frags: seq<Fragment>, target: nat, f: Fragment)
    ensures FirstAt(frags, target) == Some(f) <==> exists i: nat :: Earliest(frags, target, i) && frags[i] == f
  {
    if frags != [] && frags[0].header.fragmentOffset == target {
      assert Earliest(frags, target, 0);
    } else if frags != [] {
      var rest := frags[1..];
      FirstAtExactly(rest, target, f);
      forall i: nat ensures Earliest(frags, target, i + 1) <==> Earliest(rest, target, i) {
        assert forall j :: 0 <= j < i < |rest| ==> rest[j] == frags[j + 1];
        assert forall j :: 0 < j <= i < |rest| ==> frags[j] == rest[j - 1];
      }
      if i: nat :| Earliest(rest, target, i) && rest[i] == f {
        assert Earliest(frags, target, i + 1) && frags[i + 1] == f;
      }
      if i: nat :| Earliest(frags, target, i) && frags[i] == f {
        assert Earliest(frags, target, i - 1 + 1);
        assert Earliest(rest, target, i - 1) && rest[i - 1] == f;
      }
    }
  }

  predicate Starts(frags: seq<Fragment>, offset: nat) {
    exists i :: 0 <= i < |frags| && frags[i].header.fragmentOffset == offset
  }

  /** Nothing stored behind them starts where none of the earlier ones does. */
  predicate NoNewStart(frags: seq<Fragment>, more: seq<Fragment>) {
    forall i :: 0 <= i < |more| ==> Starts(frags, more[i].header.fragmentOffset)
  }

  lemma FirstAtKept(frags: seq<Fragment>, more: seq<Fragment>, target: nat)
    requires NoNewStart(frags, more)
    ensures FirstAt(frags + more, target) == FirstAt(frags, target)
  {
    var all := frags + more;
    FirstAtFacts(all, target);
    FirstAtFacts(frags, target);
    if FirstAt(frags, target).Some? {
      var f := FirstAt(frags, target).value;
      FirstAtExactly(frags, target, f);
      FirstAtExactly(all, target, f);
      var i: nat :| Earliest(frags, target, i) && frags[i] == f;
      assert all[i] == f && forall j :: 0 <= j < i ==> all[j] == frags[j];
      assert Earliest(all, target, i);
    }
  }

  lemma {:induction false} AssembleKept(frags: seq<Fragment>, more: seq<Fragment>, target: nat)
    requires NoNewStart(frags, more)
    ensures Assemble(target, frags + more) == Assemble(target, frags)
    decreases 0x200_0000 - target
  {
    hide FirstAt, NoNewStart;
    FirstAtFacts(frags, target);
    FirstAtKept(frags, more, target);
    var first := FirstAt(frags, target);
    if first.Some? && !first.value.Ends() && !first.value.Stuck() {
      AssembleKept(frags, more, first.value.End());
    }
  }

  /** A cache that has, of one message, what another has and some fragments behind it. */
  ghost predicate Behind(before: Cache, after: Cache, k: U16) {
    k in before && k in after && exists more :: after[k] == before[k] + more && NoNewStart(before[k], more)
  }

  /** The fragments of a record that belong to a message start where one is already stored. */
  predicate OnlyRepeats(cache: Cache, frags: seq<Fragment>, k: U16)
    requires k in cache
  {
    forall i :: 0 <= i < |frags| && frags[i].header.messageSequence == k ==>
      Starts(cache[k], frags[i].header.fragmentOffset)
  }

  lemma AddedBehind(before: Cache, cache: Cache, f: Fragment, k: U16)
    requires Behind(before, cache, k)
    requires f.header.messageSequence == k ==> Starts(before[k], f.header.fragmentOffset)
    ensures Behind(before, AddFragment(cache, f), k)
  {
    if f.header.messageSequence == k {
      var more :| cache[k] == before[k] + more && NoNewStart(before[k], more);
      Assoc(before[k], more, [f]);
      assert AddFragment(cache, f)[k] == before[k] + (more + [f]);
      assert NoNewStart(before[k], more + [f]);
    }
  }

  lemma {:induction false} AllAddedBehind(before: Cache, cache: Cache, frags: seq<Fragment>, k: U16)
    requires Behind(before, cache, k) && OnlyRepeats(before, frags, k)
    ensures Behind(before, AddFragments(cache, frags), k)
    decreases |frags|
  {
    hide Behind, Starts, AddFragment;
    if frags != [] {
      AddedBehind(before, cache, frags[0], k);
      AllAddedBehind(before, AddFragment(cache, frags[0]), frags[1..], k);
    }
  }

  lemma BehindItself(cache: Cache, k: U16)
    requires k in cache
    ensures Behind(cache, cache, k)
  {
    assert cache[k] == cache[k] + [] && NoNewStart(cache[k], []);
  }

  /** The first fragment to arrive for an offset is the one that counts: a record all whose
      fragments of the current message start where one is stored changes nothing that pop
      returns, whatever their lengths and data. */
  lemma LaterAtAnOffsetIsIgnored(s: State, buf: Bytes)
    requires s.current in s.cache
    requires var record := RecordLayer.Unmarshal(buf);
      record.Ok? && record.value.contentType == RecordLayer.Handshake ==>
        OnlyRepeats(s.cache, ParseFragments(record.value, buf[RecordLayer.RECORD_LAYER_HEADER_SIZE..]).0, s.current)
    ensures PopSpec(PushSpec(s, buf).0).1 == PopSpec(s).1
  {
    hide RecordLayer.Unmarshal, ParseFragments, AddFragments, OnlyRepeats, Assemble, H.MarshalHeader, NoNewStart;
    match RecordLayer.Unmarshal(buf) {
      case Err(_) =>
      case Ok(record) =>
        if record.contentType == RecordLayer.Handshake {
          var parsed := ParseFragments(record, buf[RecordLayer.RECORD_LAYER_HEADER_SIZE..]).0;
          BehindItself(s.cache, s.current);
          AllAddedBehind(s.cache, s.cache, parsed, s.current);
          var frags, after := s.cache[s.current], AddFragments(s.cache, parsed)[s.current];
          var more :| after == frags + more && NoNewStart(frags, more);
          AssembleKept(frags, more, 0);
          if Assemble(0, frags).Complete? {
            AssembleNeedsFragment(frags);
          }
        }
    }
  }

  /** So the whole message that is sent again behind a shorter first piece of it does not help:
      the message stays incomplete, although the later fragment alone would complete it. */
  lemma ShortPieceFirst(s: State, f: Fragment, g: Fragment)
    requires CanBeSent(f) && CanBeSent(g)
    requires s.current !in s.cache && f.header.messageSequence == g.header.messageSequence == s.current
    requires f.header.fragmentOffset == g.header.fragmentOffset == 0
    requires 0 < f.header.fragmentLength < f.header.length == g.header.length == g.header.fragmentLength
    ensures PopSpec(PushSpec(PushSpec(s, OnTheWire(f)).0, OnTheWire(g)).0).1 == Err(ErrEmptyFragment)
    ensures PopSpec(PushSpec(s, OnTheWire(g)).0).1 == Ok((H.MarshalHeader(g.header) + g.data, g.record.epoch))
  {
    hide PushSpec, OnTheWire, H.MarshalHeader;
    PushesOne(s, f);
    var s1 := s.(cache := AddFragment(s.cache, f));
    PushesOne(s1, g);
    PushesOne(s, g);
    assert [] + [f] == [f] && [] + [g] == [g] && [f] + [g] == [f, g];
    assert AddFragment(s1.cache, g)[s.current] == [f, g] && AddFragment(s.cache, g)[s.current] == [g];
    assert [f, g][1..] == [g] && [g][1..] == [];
    assert FirstAt([g], f.End()) == None;
    assert FirstAt([f, g], f.End()) == None && FirstAt([f, g], 0) == Some(f);
    assert Assemble(f.End(), [f, g]) == Incomplete;
  }

  // ---------------------------------------------------------------- what push and pop leave

  /** push says true when it has taken a whole handshake record, false when the record is of
      another kind and untouched, and fails otherwise. */
  lemma PushSaysExactly(s: State, buf: Bytes)
    ensures var (t, r) := PushSpec(s, buf); var record := RecordLayer.Unmarshal(buf);
      && (r == Ok(false) <==> record.Ok? && record.value.contentType != RecordLayer.Handshake)
      && (r == Ok(true) <==>
            && record.Ok? && record.value.contentType == RecordLayer.Handshake
            && ParseFragments(record.value, buf[RecordLayer.RECORD_LAYER_HEADER_SIZE..]).1)
      && (r == Err(ErrUnexpectedEof) <==> record.Ok? && r != Ok(false) && r != Ok(true))
      && (record.Err? || r == Ok(false) ==> t == s)
      && t.current == s.current
  {
    hide RecordLayer.Unmarshal, ParseFragments;
  }

  /** pop takes out the message it returns, goes on to the next number and leaves every other
      message; and when it returns none it leaves everything. */
  lemma PopTakesItOut(s: State)
    ensures var (t, r) := PopSpec(s);
      && (r.Ok? ==>
            && t.current == (if s.current == 0xFFFF then 0 else s.current + 1) && s.current !in t.cache
            && forall k :: k != s.current ==> (k in t.cache <==> k in s.cache) && (k in t.cache ==> t.cache[k] == s.cache[k]))
      && (r.Err? ==> t == s)
  {
    hide Assemble, H.MarshalHeader;
  }
}
