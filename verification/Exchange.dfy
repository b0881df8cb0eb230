/** What sending puts into the sender's cache, and what its messages are to the receiver. */
module Exchange {
  import opened Bytes
  import opened Wrappers
  import H = Handshake
  import HC = HandshakeCache
  import opened Conn
  import opened Delivery

  // ---------------------------------------------------------------- the sender's cache

  lemma {:induction false} PushAllCons(items: seq<HC.Item>, x: HC.Item, xs: seq<HC.Item>)
    ensures HC.PushAll(items, [x] + xs) == HC.PushAll(HC.PushSpec(items, x), xs)
  {
    hide HC.PushSpec;
    var all := [x] + xs;
    if xs == [] {
      assert all == [x] && all[..0] == [];
      assert HC.PushAll(items, []) == items;
    } else {
      assert all[..|all| - 1] == [x] + xs[..|xs| - 1];
      PushAllCons(items, x, xs[..|xs| - 1]);
    }
  }

  /** How many packets of a batch are tried: all of them, or as many as it takes to fail. */
  function Tried(s: SendState, pkts: seq<Packet>, mtu: nat, isClient: bool): (n: nat)
    requires mtu > 0 && AllSendable(pkts)
    ensures n <= |pkts|
    ensures SendAll(s, pkts, mtu, isClient).1.Ok? ==> n == |pkts|
    decreases |pkts|
  {
    if pkts == [] then 0
    else
      var (s1, r) := SendOne(s, pkts[0], mtu, isClient);
      if r.Err? then 1 else 1 + Tried(s1, pkts[1..], mtu, isClient)
  }

  /** A batch pushes its handshake messages, whole, to the sender's cache, up to the one that
      fails. */
  lemma {:induction false} SendingCaches(s: SendState, pkts: seq<Packet>, mtu: nat, isClient: bool)
    requires mtu > 0 && AllSendable(pkts)
    ensures SendAll(s, pkts, mtu, isClient).0.items
         == HC.PushAll(s.items, ItemsSentBy(pkts[..Tried(s, pkts, mtu, isClient)], isClient))
    decreases |pkts|
  {
    hide HC.PushSpec, StampAll, FragmentsFrom, H.MarshalHeader;
    if pkts != [] {
      var (s1, r) := SendOne(s, pkts[0], mtu, isClient);
      var rest := if r.Err? then [] else pkts[1..][..Tried(s1, pkts[1..], mtu, isClient)];
      var tried := pkts[..Tried(s, pkts, mtu, isClient)];
      assert tried == [pkts[0]] + rest && tried[1..] == rest;
      if r.Ok? {
        SendingCaches(s1, pkts[1..], mtu, isClient);
      }
      match pkts[0].content {
        case HandshakeContent(m) => PushAllCons(s.items, ItemOf(m, pkts[0].epoch, isClient), ItemsSentBy(rest, isClient));
        case Plain(_, _) => EmptyUnit(ItemsSentBy(rest, isClient));
      }
    }
  }

  // ---------------------------------------------------------------- the receiver's cache

  predicate Parses(accepts: HC.BodyParser, sent: Sent) {
    sent.message.header.typ.HasParser() && accepts(sent.message.header.typ, sent.message.body)
  }

  function ItemsOf(ms: seq<Sent>, isClient: bool): seq<HC.Item> {
    seq(|ms|, i requires 0 <= i < |ms| => ItemOf(ms[i].message, ms[i].epoch, isClient))
  }

  function Wholes(ms: seq<Sent>): seq<(Bytes, U16)> {
    seq(|ms|, i requires 0 <= i < |ms| => Whole(ms[i]))
  }

  lemma DeliveredParses(accepts: HC.BodyParser, sent: Sent)
    requires Parses(accepts, sent)
    ensures HC.UnmarshalMessage(accepts, Whole(sent).0) == Some(sent.message)
  {
    HC.ParsesBack(accepts, sent.message);
  }

  // ---------------------------------------------------------------- both caches

  /** The messages of the exchange: the client's and the server's. */
  predicate IsExchanged(cms: seq<Sent>, sms: seq<Sent>, x: HC.Item) {
    x in ItemsOf(cms, true) || x in ItemsOf(sms, false)
  }

  lemma ExchangeHasOneMessagePerKey(cms: seq<Sent>, sms: seq<Sent>, x: HC.Item, y: HC.Item)
    requires Numbered(cms) && Numbered(sms)
    requires IsExchanged(cms, sms, x) && IsExchanged(cms, sms, y) && HC.SameKey(x, y)
    ensures x == y
  {
  }
}
