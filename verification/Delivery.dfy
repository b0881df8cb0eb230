/** End-to-end delivery of handshake messages: whatever the network does with the
    sender's datagrams, the receiver hands on a prefix of the messages, in order, each
    once and byte for byte as the sender cached it. */
module Delivery {
  import opened Bytes
  import opened Wrappers
  import RL = RecordLayer
  import H = Handshake
  import FB = FragmentBuffer
  import opened Conn

  datatype Sent = Sent(message: H.Message, epoch: U16)

  /** A handshake direction: whole messages numbered from 0. */
  predicate Numbered(ms: seq<Sent>) {
    |ms| < 0x1_0000 &&
    forall k :: 0 <= k < |ms| ==>
      && ms[k].message.Whole()
      && ms[k].message.header.messageSequence == k
  }

  function CutsOf(m: H.Message, mtu: nat): set<nat>
    requires mtu > 0
  {
    FB.Cuts(|m.body|, mtu, 0)
  }

  // ---------------------------------------------------------------- arrivals

  /** A record as it reaches the fragment buffer: the fragment of message k at offset o, or
      something that is not a handshake record. */
  datatype Arrival = Piece(record: Record, k: nat, o: nat) | Other(record: Record)

  predicate GoodVersion(r: Record) {
    r.header.version == RL.PROTOCOL_VERSION1_0 || r.header.version == RL.PROTOCOL_VERSION1_2
  }

  predicate Genuine(ms: seq<Sent>, mtu: nat, a: Arrival)
    requires mtu > 0 && Numbered(ms)
  {
    GoodVersion(a.record) &&
    match a
    case Piece(r, k, o) =>
      && k < |ms| && o in CutsOf(ms[k].message, mtu) && o <= |ms[k].message.body|
      && r.header.contentType == RL.Handshake
      && r.header.epoch == ms[k].epoch
      && r.payload == FragmentAt(ms[k].message, mtu, o)
    case Other(r) => r.header.contentType != RL.Handshake
  }

  predicate AllGenuine(ms: seq<Sent>, mtu: nat, arrivals: seq<Arrival>)
    requires mtu > 0 && Numbered(ms)
  {
    forall i :: 0 <= i < |arrivals| ==> Genuine(ms, mtu, arrivals[i])
  }

  function Arrived(arrivals: seq<Arrival>): set<(nat, nat)> {
    set a | a in arrivals && a.Piece? :: (a.k, a.o)
  }

  predicate Complete(ms: seq<Sent>, mtu: nat, arrived: set<(nat, nat)>, k: nat)
    requires mtu > 0 && k < |ms|
  {
    forall o :: o in CutsOf(ms[k].message, mtu) ==> (k, o) in arrived
  }

  // ---------------------------------------------------------------- invariant

  function PieceFragment(ms: seq<Sent>, mtu: nat, r: Record, k: nat, o: nat): FB.Fragment
    requires mtu > 0 && Numbered(ms) && k < |ms| && o <= |ms[k].message.body|
  {
    var m := ms[k].message;
    FB.Fragment(r.header, PieceHeader(m, mtu, o), m.body[o..FB.PieceEnd(|m.body|, mtu, o)])
  }

  predicate CachedFor(sent: Sent, mtu: nat, frags: seq<FB.Fragment>)
    requires mtu > 0
  {
    && frags != []
    && FB.ArePieces(frags, sent.message.body, mtu)
    && forall f :: f in frags ==>
         && f.record.epoch == sent.epoch
         && f.header.typ == sent.message.header.typ
         && f.header.messageSequence == sent.message.header.messageSequence
  }

  function OffsetsIn(cache: FB.Cache, k: U16): set<nat> {
    if k in cache then FB.Offsets(cache[k]) else {}
  }

  function Whole(sent: Sent): (Bytes, U16) {
    (sent.message.Marshal(), sent.epoch)
  }

  ghost predicate CacheInvariant(ms: seq<Sent>, mtu: nat, arrived: set<(nat, nat)>, s: FB.State)
    requires mtu > 0 && Numbered(ms)
  {
    && s.current <= |ms|
    && (forall q :: q in s.cache ==> q < |ms| && CachedFor(ms[q], mtu, s.cache[q]))
    && (forall q, o :: s.current <= q < |ms| ==> (o in OffsetsIn(s.cache, q) <==> (q, o) in arrived))
    && (forall k :: 0 <= k < s.current ==> Complete(ms, mtu, arrived, k))
  }

  predicate Settled(ms: seq<Sent>, mtu: nat, arrived: set<(nat, nat)>, s: FB.State)
    requires mtu > 0 && Numbered(ms)
  {
    s.current < |ms| ==> !Complete(ms, mtu, arrived, s.current)
  }

  // ---------------------------------------------------------------- one record

  /** A payload that is one fragment parses to just that fragment. */
  lemma ParseOne(record: RL.Header, header: H.Header, data: Bytes)
    requires |data| <= header.length
    ensures FB.ParseFragments(record, H.MarshalHeader(header) + data) == ([FB.Fragment(record, header, data)], true)
  {
    H.HeaderRoundTrip(header, data);
    var buf := H.MarshalHeader(header) + data;
    var end := FB.FragmentLengthIn(header, buf);
    assert end == |buf| && buf[end..] == [] && buf[H.HANDSHAKE_HEADER_LENGTH..end] == data;
    assert FB.ParseFragments(record, []) == ([], true);
    var f := FB.Fragment(record, header, data);
    assert [f] + [] == [f];
  }

  /** push of a genuine record adds its fragment, or nothing. */
  lemma PushGenuine(ms: seq<Sent>, mtu: nat, a: Arrival, s: FB.State)
    requires mtu > 0 && Numbered(ms) && Genuine(ms, mtu, a)
    ensures FB.PushSpec(s, Wire(a.record)) == match a
      case Piece(r, k, o) => (s.(cache := FB.AddFragment(s.cache, PieceFragment(ms, mtu, r, k, o))), Ok(true))
      case Other(_) => (s, Ok(false))
  {
    var r := a.record;
    RL.HeaderRoundTrip(r.header, r.payload);
    assert Wire(r)[RL.RECORD_LAYER_HEADER_SIZE..] == r.payload;
    if a.Piece? {
      var m, o := ms[a.k].message, a.o;
      var header := PieceHeader(m, mtu, o);
      var data := m.body[o..FB.PieceEnd(|m.body|, mtu, o)];
      assert r.payload == H.MarshalHeader(header) + data;
      var f := PieceFragment(ms, mtu, r, a.k, o);
      ParseOne(r.header, header, data);
      assert FB.AddFragments(s.cache, [f]) == FB.AddFragments(FB.AddFragment(s.cache, f), [f][1..]);
    }
  }

  lemma PushKeeps(ms: seq<Sent>, mtu: nat, arrived: set<(nat, nat)>, s: FB.State, r: Record, k: nat, o: nat)
    requires mtu > 0 && Numbered(ms) && CacheInvariant(ms, mtu, arrived, s)
    requires Genuine(ms, mtu, Piece(r, k, o))
    ensures CacheInvariant(ms, mtu, arrived + {(k, o)},
              s.(cache := FB.AddFragment(s.cache, PieceFragment(ms, mtu, r, k, o))))
  {
    hide CachedFor, PieceFragment, CutsOf;
    var f := PieceFragment(ms, mtu, r, k, o);
    var cache := FB.AddFragment(s.cache, f);
    var before := if k in s.cache then s.cache[k] else [];
    AddPiece(ms, mtu, r, k, o, before);
    assert cache[k] == before + [f];
    forall q, o' | s.current <= q < |ms|
      ensures o' in OffsetsIn(cache, q) <==> (q, o') in arrived + {(k, o)}
    {
    }
    forall q | 0 <= q < s.current ensures Complete(ms, mtu, arrived + {(k, o)}, q) {
      assert Complete(ms, mtu, arrived, q);
    }
  }

  lemma AddPiece(ms: seq<Sent>, mtu: nat, r: Record, k: nat, o: nat, before: seq<FB.Fragment>)
    requires mtu > 0 && Numbered(ms) && Genuine(ms, mtu, Piece(r, k, o))
    requires before == [] || CachedFor(ms[k], mtu, before)
    ensures PieceFragment(ms, mtu, r, k, o).header.messageSequence == k
    ensures var after := before + [PieceFragment(ms, mtu, r, k, o)];
      CachedFor(ms[k], mtu, after) && FB.Offsets(after) == FB.Offsets(before) + {o}
  {
  }

  // ---------------------------------------------------------------- popping

  /** pop yields the next message, whole, exactly when it is complete. */
  lemma PopExact(ms: seq<Sent>, mtu: nat, arrived: set<(nat, nat)>, s: FB.State)
    requires mtu > 0 && Numbered(ms) && CacheInvariant(ms, mtu, arrived, s)
    ensures var (s', r) := FB.PopSpec(s);
      if s.current < |ms| && Complete(ms, mtu, arrived, s.current)
      then r == Ok(Whole(ms[s.current])) && s'.current == s.current + 1 && CacheInvariant(ms, mtu, arrived, s')
      else r == Err(FB.ErrEmptyFragment)
  {
    var k := s.current;
    if k in s.cache {
      var sent, frags := ms[k], s.cache[k];
      FB.AssembleComplete(frags, sent.message.body, mtu);
      assert Complete(ms, mtu, arrived, k) <==> CutsOf(sent.message, mtu) <= FB.Offsets(frags) by {
        forall o ensures o in FB.Offsets(frags) <==> (k, o) in arrived {
          assert FB.Offsets(frags) == OffsetsIn(s.cache, k);
        }
      }
      if FB.Assemble(0, frags).Complete? {
        assert frags[0] in frags;
        var first := frags[0].header;
        assert first.(fragmentOffset := 0, fragmentLength := first.length) == sent.message.header;
      }
    } else if k < |ms| {
      assert 0 in CutsOf(ms[k].message, mtu);
    }
  }

  /** The messages released since the next one was number from. */
  predicate Released(ms: seq<Sent>, from: nat, outs: seq<(Bytes, U16)>, s: FB.State) {
    && s.current == from + |outs| <= |ms|
    && forall i :: 0 <= i < |outs| ==> outs[i] == Whole(ms[from + i])
  }

  lemma ReleasedConcat(ms: seq<Sent>, from: nat, a: seq<(Bytes, U16)>, s: FB.State, b: seq<(Bytes, U16)>, s': FB.State)
    requires Released(ms, from, a, s) && Released(ms, s.current, b, s')
    ensures Released(ms, from, a + b, s')
  {
  }

  lemma {:induction false} DrainExact(ms: seq<Sent>, mtu: nat, arrived: set<(nat, nat)>, s: FB.State)
    requires mtu > 0 && Numbered(ms) && CacheInvariant(ms, mtu, arrived, s)
    ensures var (s', outs) := Drain(s);
      && CacheInvariant(ms, mtu, arrived, s') && Settled(ms, mtu, arrived, s')
      && Released(ms, s.current, outs, s')
    ensures !Hangs(s)
    decreases |ms| - s.current
  {
    hide Complete, FB.PopSpec, Whole, CachedFor, OffsetsIn;
    PopExact(ms, mtu, arrived, s);
    var (s1, r) := FB.PopSpec(s);
    if r.Ok? {
      DrainExact(ms, mtu, arrived, s1);
      var (s2, rest) := Drain(s1);
      ReleasedConcat(ms, s.current, [r.value], s1, rest, s2);
    }
  }

  // ---------------------------------------------------------------- runs

  ghost predicate RunInvariant(ms: seq<Sent>, mtu: nat, arrivals: seq<Arrival>, s: FB.State)
    requires mtu > 0 && Numbered(ms)
  {
    CacheInvariant(ms, mtu, Arrived(arrivals), s) && Settled(ms, mtu, Arrived(arrivals), s)
  }

  lemma InitialInvariant(ms: seq<Sent>, mtu: nat)
    requires mtu > 0 && Numbered(ms)
    ensures RunInvariant(ms, mtu, [], FB.State(map[], 0)) && Released(ms, 0, [], FB.State(map[], 0))
  {
    assert Arrived([]) == {};
    assert |ms| > 0 ==> 0 in CutsOf(ms[0].message, mtu);
  }

  /** One more record. */
  function Step(ms: seq<Sent>, mtu: nat, init: seq<Arrival>, a: Arrival, s: FB.State): (r: (FB.State, seq<(Bytes, U16)>))
    requires mtu > 0 && Numbered(ms) && Genuine(ms, mtu, a) && RunInvariant(ms, mtu, init, s)
    ensures RunInvariant(ms, mtu, init + [a], r.0) && Released(ms, s.current, r.1, r.0)
  {
    StepKeeps(ms, mtu, init, a, s);
    Receive(s, Wire(a.record))
  }

  /** The fragment buffer after a run of records, and every message released in it. */
  function Run(ms: seq<Sent>, mtu: nat, arrivals: seq<Arrival>): (r: (FB.State, seq<(Bytes, U16)>))
    requires mtu > 0 && Numbered(ms) && AllGenuine(ms, mtu, arrivals)
    ensures RunInvariant(ms, mtu, arrivals, r.0) && Released(ms, 0, r.1, r.0)
  {
    hide *;
    if arrivals == [] then
      InitialInvariant(ms, mtu);
      (FB.State(map[], 0), [])
    else
      GenuineSplit(ms, mtu, arrivals);
      var init, a := arrivals[..|arrivals| - 1], arrivals[|arrivals| - 1];
      var (s, done) := Run(ms, mtu, init);
      var (s', outs) := Step(ms, mtu, init, a, s);
      ReleasedConcat(ms, 0, done, s, outs, s');
      (s', done + outs)
  }

  lemma GenuineSplit(ms: seq<Sent>, mtu: nat, arrivals: seq<Arrival>)
    requires mtu > 0 && Numbered(ms) && AllGenuine(ms, mtu, arrivals) && arrivals != []
    ensures var init, a := arrivals[..|arrivals| - 1], arrivals[|arrivals| - 1];
      AllGenuine(ms, mtu, init) && Genuine(ms, mtu, a) && init + [a] == arrivals
  {
  }

  lemma StepKeeps(ms: seq<Sent>, mtu: nat, init: seq<Arrival>, a: Arrival, s: FB.State)
    requires mtu > 0 && Numbered(ms) && Genuine(ms, mtu, a)
    requires RunInvariant(ms, mtu, init, s)
    ensures !ReceiveHangs(s, Wire(a.record))
    ensures var (s', outs) := Receive(s, Wire(a.record));
      && RunInvariant(ms, mtu, init + [a], s') && Released(ms, s.current, outs, s')
  {
    PushGenuine(ms, mtu, a, s);
    var arrived := Arrived(init + [a]);
    match a {
      case Piece(r, k, o) =>
        assert arrived == Arrived(init) + {(k, o)};
        PushKeeps(ms, mtu, Arrived(init), s, r, k, o);
        var s1 := FB.PushSpec(s, Wire(r)).0;
        DrainExact(ms, mtu, arrived, s1);
      case Other(_) =>
        assert arrived == Arrived(init);
    }
  }

  /** How many messages, counted from the first, are complete. */
  function LeadingComplete(ms: seq<Sent>, mtu: nat, arrived: set<(nat, nat)>, k: nat): (n: nat)
    requires mtu > 0 && k <= |ms|
    ensures k <= n <= |ms|
    decreases |ms| - k
  {
    if k < |ms| && Complete(ms, mtu, arrived, k) then LeadingComplete(ms, mtu, arrived, k + 1) else k
  }

  lemma {:induction false} LeadingCompleteIs(ms: seq<Sent>, mtu: nat, arrived: set<(nat, nat)>, k: nat, n: nat)
    requires mtu > 0 && k <= n <= |ms|
    requires forall i :: k <= i < n ==> Complete(ms, mtu, arrived, i)
    requires n < |ms| ==> !Complete(ms, mtu, arrived, n)
    ensures LeadingComplete(ms, mtu, arrived, k) == n
    decreases n - k
  {
    if k < n {
      LeadingCompleteIs(ms, mtu, arrived, k + 1, n);
    }
  }

  /** Delivery is exact: after any arrivals of genuine records, in any order and with any
      repeats, the pop loop has yielded exactly the leading complete messages, in order. */
  lemma DeliveryExact(ms: seq<Sent>, mtu: nat, arrivals: seq<Arrival>)
    requires mtu > 0 && Numbered(ms) && AllGenuine(ms, mtu, arrivals)
    ensures var n := LeadingComplete(ms, mtu, Arrived(arrivals), 0);
      Run(ms, mtu, arrivals).1 == seq(n, i requires 0 <= i < n => Whole(ms[i]))
  {
    var (s, done) := Run(ms, mtu, arrivals);
    LeadingCompleteIs(ms, mtu, Arrived(arrivals), 0, s.current);
  }

  /** Once every fragment has arrived at least once, every message has been delivered. */
  lemma DeliveryComplete(ms: seq<Sent>, mtu: nat, arrivals: seq<Arrival>)
    requires mtu > 0 && Numbered(ms) && AllGenuine(ms, mtu, arrivals)
    requires forall k, o :: 0 <= k < |ms| && o in CutsOf(ms[k].message, mtu) ==> (k, o) in Arrived(arrivals)
    ensures Run(ms, mtu, arrivals).1 == seq(|ms|, i requires 0 <= i < |ms| => Whole(ms[i]))
  {
    LeadingCompleteIs(ms, mtu, Arrived(arrivals), 0, |ms|);
    DeliveryExact(ms, mtu, arrivals);
  }
}
