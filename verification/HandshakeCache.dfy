/** The cache of sent and received handshake messages, from which both ends compute
    transcripts: section 7.4.9 of RFC 5246 and section 3 of RFC 7627. */
module HandshakeCache {
  import opened Bytes
  import opened Wrappers
  import H = Handshake

  datatype Item = Item(typ: H.HandshakeType, isClient: bool, epoch: U16, messageSequence: U16, data: Bytes)

  datatype Rule = Rule(typ: H.HandshakeType, epoch: U16, isClient: bool, optional: bool)

  datatype Error = ErrMissingMandatory | ErrUnmarshal | ErrGap

  /** Which bodies the per-type parsers accept; those parsers are not part of this model. */
  type BodyParser = (H.HandshakeType, Bytes) -> bool

  /** Handshake::unmarshal. */
  function UnmarshalMessage(accepts: BodyParser, data: Bytes): Option<H.Message> {
    match H.UnmarshalHeader(data)
    case None => None
    case Some(header) =>
      var body := data[H.HANDSHAKE_HEADER_LENGTH..];
      if header.typ.HasParser() && accepts(header.typ, body) then Some(H.Message(header, body)) else None
  }

  /** What a message is when it comes back: itself, if its parser takes the body. */
  lemma ParsesBack(accepts: BodyParser, m: H.Message)
    ensures UnmarshalMessage(accepts, m.Marshal())
         == if m.header.typ.HasParser() && accepts(m.header.typ, m.body) then Some(m) else None
  {
    H.HeaderRoundTrip(m.header, m.body);
    assert m.Marshal()[H.HANDSHAKE_HEADER_LENGTH..] == m.body;
  }

  // ---------------------------------------------------------------- push

  predicate SameKey(a: Item, b: Item) {
    a.messageSequence == b.messageSequence && a.isClient == b.isClient
  }

  predicate Taken(items: seq<Item>, x: Item) {
    exists i :: 0 <= i < |items| && SameKey(items[i], x)
  }

  function PushSpec(items: seq<Item>, x: Item): seq<Item> {
    if Taken(items, x) then items else items + [x]
  }

  /** No two cached messages share sender and sequence number. */
  predicate UniqueKeys(items: seq<Item>) {
    forall i, j :: 0 <= i < j < |items| ==> !SameKey(items[i], items[j])
  }

  // ---------------------------------------------------------------- pull

  predicate Matches(c: Item, r: Rule) {
    c.typ == r.typ && c.isClient == r.isClient && c.epoch == r.epoch
  }

  /** The message a rule selects: the matching one with the highest sequence number. */
  function Best(items: seq<Item>, r: Rule): Option<Item> {
    if items == [] then None
    else
      var best := Best(items[..|items| - 1], r);
      var c := items[|items| - 1];
      if !Matches(c, r) || (best.Some? && best.value.messageSequence >= c.messageSequence) then best else Some(c)
  }

  function Pull(items: seq<Item>, rules: seq<Rule>): seq<Item> {
    if rules == [] then []
    else (match Best(items, rules[0]) case Some(c) => [c] case None => []) + Pull(items, rules[1..])
  }

  function Merge(items: seq<Item>): Bytes {
    if items == [] then [] else items[0].data + Merge(items[1..])
  }

  function PullAndMergeSpec(items: seq<Item>, rules: seq<Rule>): Bytes {
    Merge(Pull(items, rules))
  }

  function SessionRules(epoch: U16): seq<Rule> {
    [Rule(H.ClientHello, epoch, true, false),
     Rule(H.ServerHello, epoch, false, false),
     Rule(H.Certificate, epoch, false, false),
     Rule(H.ServerKeyExchange, epoch, false, false),
     Rule(H.CertificateRequest, epoch, false, false),
     Rule(H.ServerHelloDone, epoch, false, false),
     Rule(H.Certificate, epoch, true, false),
     Rule(H.ClientKeyExchange, epoch, true, false)]
  }

  function SessionHashSpec(sha256: Bytes -> Bytes, items: seq<Item>, epoch: U16, additional: Bytes): Bytes {
    sha256(PullAndMergeSpec(items, SessionRules(epoch)) + additional)
  }

  // ---------------------------------------------------------------- full_pull_map

  predicate MissesMandatory(items: seq<Item>, rules: seq<Rule>) {
    exists i :: 0 <= i < |rules| && !rules[i].optional && Best(items, rules[i]).None?
  }

  /** The first loop: messages by type, a later rule of the same type replacing an earlier one. */
  function ByType(items: seq<Item>, rules: seq<Rule>): map<H.HandshakeType, Item> {
    if rules == [] then map[]
    else
      var r := rules[|rules| - 1];
      var m := ByType(items, rules[..|rules| - 1]);
      match Best(items, r) case Some(c) => m[r.typ := c] case None => m
  }

  /** The second loop: the chosen messages must parse and be numbered consecutively. */
  function Chain(accepts: BodyParser, chosen: map<H.HandshakeType, Item>, seqNo: int, rules: seq<Rule>,
                 out: map<H.HandshakeType, H.Message>): Result<(int, map<H.HandshakeType, H.Message>), Error>
    decreases |rules|
  {
    if rules == [] then Ok((seqNo, out))
    else if rules[0].typ !in chosen then Chain(accepts, chosen, seqNo, rules[1..], out)
    else match UnmarshalMessage(accepts, chosen[rules[0].typ].data)
      case None => Err(ErrUnmarshal)
      case Some(m) =>
        if seqNo % 0x1_0000 != m.header.messageSequence then Err(ErrGap)
        else Chain(accepts, chosen, seqNo + 1, rules[1..], out[rules[0].typ := m])
  }

  function FullPullSpec(accepts: BodyParser, items: seq<Item>, start: int, rules: seq<Rule>)
    : Result<(int, map<H.HandshakeType, H.Message>), Error>
  {
    if MissesMandatory(items, rules) then Err(ErrMissingMandatory)
    else Chain(accepts, ByType(items, rules), start, rules, map[])
  }

  class HandshakeCache {
    var cache: seq<Item>

    constructor ()
      ensures cache == []
    {
      cache := [];
    }

    method Push(data: Bytes, epoch: U16, messageSequence: U16, typ: H.HandshakeType, isClient: bool)
      returns (added: bool)
      modifies this
      ensures var x := Item(typ, isClient, epoch, messageSequence, data);
        cache == PushSpec(old(cache), x) && added == !Taken(old(cache), x)
    {
      var x := Item(typ, isClient, epoch, messageSequence, data);
      for i := 0 to |cache|
        invariant cache == old(cache)
        invariant forall j :: 0 <= j < i ==> !SameKey(cache[j], x)
      {
        if cache[i].messageSequence == messageSequence && cache[i].isClient == isClient {
          assert SameKey(cache[i], x);
          return false;
        }
      }
      cache := cache + [x];
      return true;
    }

    method Select(r: Rule) returns (item: Option<Item>)
      ensures item == Best(cache, r)
    {
      item := None;
      for i := 0 to |cache|
        invariant item == Best(cache[..i], r)
      {
        var c := cache[i];
        assert cache[..i + 1][..i] == cache[..i];
        if c.typ == r.typ && c.isClient == r.isClient && c.epoch == r.epoch {
          match item {
            case Some(x) =>
              if x.messageSequence < c.messageSequence {
                item := Some(c);
              }
            case None =>
              item := Some(c);
          }
        }
      }
      assert cache[..|cache|] == cache;
    }

    method PullRules(rules: seq<Rule>) returns (out: seq<Item>)
      ensures out == Pull(cache, rules)
    {
      out := [];
      assert rules[0..] == rules;
      for i := 0 to |rules|
        invariant Pull(cache, rules) == out + Pull(cache, rules[i..])
      {
        var item := Select(rules[i]);
        ghost var rest := Pull(cache, rules[i + 1..]);
        assert rules[i..][0] == rules[i] && rules[i..][1..] == rules[i + 1..];
        match item {
          case Some(c) =>
            assert out + ([c] + rest) == (out + [c]) + rest;
            out := out + [c];
          case None =>
            assert [] + rest == rest;
        }
      }
    }

    method PullAndMerge(rules: seq<Rule>) returns (merged: Bytes)
      ensures merged == PullAndMergeSpec(cache, rules)
    {
      merged := [];
      var pulled := PullRules(rules);
      assert pulled[0..] == pulled;
      for i := 0 to |pulled|
        invariant merged + Merge(pulled[i..]) == Merge(pulled)
      {
        assert pulled[i..][1..] == pulled[i + 1..];
        assert merged + (pulled[i].data + Merge(pulled[i + 1..])) == (merged + pulled[i].data) + Merge(pulled[i + 1..]);
        merged := merged + pulled[i].data;
      }
    }

    method SessionHash(sha256: Bytes -> Bytes, epoch: U16, additional: Bytes) returns (hash: Bytes)
      ensures hash == SessionHashSpec(sha256, cache, epoch, additional)
    {
      var merged := PullAndMerge(SessionRules(epoch));
      hash := sha256(merged + additional);
    }

    method FullPullMap(accepts: BodyParser, start: int, rules: seq<Rule>)
      returns (r: Result<(int, map<H.HandshakeType, H.Message>), Error>)
      ensures r == FullPullSpec(accepts, cache, start, rules)
    {
      var chosen: map<H.HandshakeType, Item> := map[];
      for i := 0 to |rules|
        invariant chosen == ByType(cache, rules[..i])
        invariant forall j :: 0 <= j < i && !rules[j].optional ==> Best(cache, rules[j]).Some?
      {
        var item := Select(rules[i]);
        if !rules[i].optional && item.None? {
          return Err(ErrMissingMandatory);
        }
        assert rules[..i + 1][..i] == rules[..i];
        match item {
          case Some(c) => chosen := chosen[rules[i].typ := c];
          case None =>
        }
      }
      assert rules[..|rules|] == rules[0..] == rules;
      var out: map<H.HandshakeType, H.Message> := map[];
      var seqNo := start;
      for i := 0 to |rules|
        invariant Chain(accepts, chosen, start, rules, map[]) == Chain(accepts, chosen, seqNo, rules[i..], out)
      {
        assert rules[i..][1..] == rules[i + 1..];
        var t := rules[i].typ;
        if t in chosen {
          match UnmarshalMessage(accepts, chosen[t].data) {
            case None => return Err(ErrUnmarshal);
            case Some(m) =>
              if seqNo % 0x1_0000 != m.header.messageSequence {
                return Err(ErrGap);
              }
              seqNo := seqNo + 1;
              out := out[t := m];
          }
        }
      }
      return Ok((seqNo, out));
    }
  }

  // ---------------------------------------------------------------- what pull means

  /** The selected message is cached, matches, and no matching message is numbered higher. */
  lemma {:induction false} BestMeans(items: seq<Item>, r: Rule)
    ensures match Best(items, r)
      case Some(x) => x in items && Matches(x, r)
        && (forall y :: y in items && Matches(y, r) ==> y.messageSequence <= x.messageSequence)
      case None => forall y :: y in items ==> !Matches(y, r)
  {
    if items != [] {
      var init := items[..|items| - 1];
      BestMeans(init, r);
      assert items == init + [items[|items| - 1]];
    }
  }

  /** A matching message numbered higher than those before it and no lower than those behind. */
  predicate Highest(items: seq<Item>, r: Rule, i: nat) {
    && i < |items| && Matches(items[i], r)
    && (forall j :: 0 <= j < i && Matches(items[j], r) ==> items[j].messageSequence < items[i].messageSequence)
    && (forall j :: i < j < |items| && Matches(items[j], r) ==> items[j].messageSequence <= items[i].messageSequence)
  }

  /** By place: on equal numbers the one cached first is selected. */
  lemma {:induction false} BestExactly(items: seq<Item>, r: Rule, x: Item)
    ensures Best(items, r) == Some(x) <==> exists i: nat :: Highest(items, r, i) && items[i] == x
  {
    if items != [] {
      var n := |items| - 1;
      var init, c := items[..n], items[n];
      BestMeans(init, r);
      if Best(init, r).Some? {
        BestExactly(init, r, Best(init, r).value);
        var k: nat :| Highest(init, r, k) && init[k] == Best(init, r).value;
        assert items[k] == init[k] && forall j :: 0 <= j < n ==> items[j] == init[j];
        if Matches(c, r) && c.messageSequence > items[k].messageSequence {
          assert Highest(items, r, n);
        } else {
          assert Highest(items, r, k);
        }
      } else if Matches(c, r) {
        assert forall j :: 0 <= j < n ==> items[j] in init;
        assert Highest(items, r, n);
      }
    }
  }

  /** A rule selects the same message from two caches that hold the same matching ones. */
  lemma BestDependsOnMatching(a: seq<Item>, b: seq<Item>, r: Rule)
    requires UniqueKeys(a) && UniqueKeys(b)
    requires forall x :: Matches(x, r) ==> (x in a <==> x in b)
    ensures Best(a, r) == Best(b, r)
  {
    BestMeans(a, r);
    BestMeans(b, r);
    if Best(a, r).Some? && Best(b, r).Some? {
      var x, y := Best(a, r).value, Best(b, r).value;
      assert y in a && x in b;
      assert SameKey(x, y);
    }
  }

  predicate MatchesAny(x: Item, rules: seq<Rule>) {
    exists i :: 0 <= i < |rules| && Matches(x, rules[i])
  }

  lemma {:induction false} PullDependsOnMatching(a: seq<Item>, b: seq<Item>, rules: seq<Rule>)
    requires UniqueKeys(a) && UniqueKeys(b)
    requires forall x :: MatchesAny(x, rules) ==> (x in a <==> x in b)
    ensures Pull(a, rules) == Pull(b, rules)
  {
    if rules != [] {
      forall x | Matches(x, rules[0]) ensures x in a <==> x in b {
        assert MatchesAny(x, rules);
      }
      BestDependsOnMatching(a, b, rules[0]);
      forall x | MatchesAny(x, rules[1..]) ensures MatchesAny(x, rules) {
        var i :| 0 <= i < |rules[1..]| && Matches(x, rules[1..][i]);
        assert Matches(x, rules[i + 1]);
      }
      PullDependsOnMatching(a, b, rules[1..]);
    }
  }

  /** The cache after a run of pushes. */
  function PushAll(items: seq<Item>, pushes: seq<Item>): seq<Item> {
    if pushes == [] then items else PushSpec(PushAll(items, pushes[..|pushes| - 1]), pushes[|pushes| - 1])
  }

  /** The cache after a run of pushes into an empty one. */
  function Feed(pushes: seq<Item>): seq<Item> {
    PushAll([], pushes)
  }

  /** No two different messages share sender and sequence number. */
  predicate OneMessagePerKey(pushes: seq<Item>) {
    forall x, y :: x in pushes && y in pushes && SameKey(x, y) ==> x == y
  }

  /** Whatever is pushed, keys stay unique and nothing is invented; and if no two different
      messages share a key, everything pushed is there. */
  lemma {:induction false} PushAllHolds(items: seq<Item>, pushes: seq<Item>)
    requires UniqueKeys(items)
    ensures var after := PushAll(items, pushes);
      && UniqueKeys(after)
      && (forall x :: x in after ==> x in items || x in pushes)
      && (forall x :: x in items ==> x in after)
      && (OneMessagePerKey(items + pushes) ==> forall x :: x in pushes ==> x in after)
  {
    if pushes != [] {
      var init, last := pushes[..|pushes| - 1], pushes[|pushes| - 1];
      assert pushes == init + [last];
      assert forall x :: x in items + init ==> x in items + pushes;
      PushAllHolds(items, init);
      var before := PushAll(items, init);
      if OneMessagePerKey(items + pushes) && Taken(before, last) {
        var i :| 0 <= i < |before| && SameKey(before[i], last);
        assert before[i] in items + pushes && last in items + pushes;
      }
    }
  }

  /** Transcripts depend on the set of messages, not on the order or number of pushes. */
  lemma TranscriptIsOrderFree(p: seq<Item>, q: seq<Item>, rules: seq<Rule>)
    requires OneMessagePerKey(p) && (forall x :: x in p <==> x in q)
    ensures PullAndMergeSpec(Feed(p), rules) == PullAndMergeSpec(Feed(q), rules)
  {
    assert [] + p == p && [] + q == q;
    PushAllHolds([], p);
    assert OneMessagePerKey(q);
    PushAllHolds([], q);
    PullDependsOnMatching(Feed(p), Feed(q), rules);
  }

  /** With two different messages under one key the order does matter: the first one wins. */
  lemma TranscriptOrderMattersOnConflict()
    ensures exists x, y, r ::
              SameKey(x, y) && PullAndMergeSpec(Feed([x, y]), [r]) != PullAndMergeSpec(Feed([y, x]), [r])
  {
    var x := Item(H.ClientHello, true, 0, 0, [1]);
    var y := Item(H.ClientHello, true, 0, 0, [2]);
    var r := Rule(H.ClientHello, 0, true, false);
    FirstWins(x, y, r);
    FirstWins(y, x, r);
  }

  lemma FirstWins(x: Item, y: Item, r: Rule)
    requires SameKey(x, y) && Matches(x, r)
    ensures PullAndMergeSpec(Feed([x, y]), [r]) == x.data
  {
    assert [x, y][..1] == [x] && [x][..0] == [];
    assert Feed([]) == [] && !Taken(Feed([]), x);
    assert Feed([x]) == [x] && Taken([x], y);
    assert Best([x], r) == Some(x);
    assert Pull([x], [r]) == [x] + Pull([x], []);
    assert Merge([x]) == x.data + Merge([]);
  }

  ghost predicate SameElements(p: seq<Item>, q: seq<Item>) {
    forall x :: x in p <==> x in q
  }

  /** Messages are order-free when any order of pushing them, with any repeats, leaves the same
      ones in the cache. */
  ghost predicate OrderFree(p: seq<Item>) {
    forall q: seq<Item> :: SameElements(p, q) ==> SameElements(Feed(p), Feed(q))
  }

  /** They are exactly when no two different ones share sender and sequence number. */
  lemma OrderFreeExactly(p: seq<Item>)
    ensures OrderFree(p) <==> OneMessagePerKey(p)
  {
    if OneMessagePerKey(p) {
      forall q: seq<Item> | SameElements(p, q) ensures SameElements(Feed(p), Feed(q)) {
        EmptyUnit(p);
        EmptyUnit(q);
        PushAllHolds([], p);
        PushAllHolds([], q);
      }
    }
    if OrderFree(p) {
      forall x, y | x in p && y in p && SameKey(x, y) ensures x == y {
        FirstStays(x, p);
        FirstStays(y, p);
        assert SameElements(p, [x] + p) && SameElements(p, [y] + p);
        assert SameElements(Feed(p), Feed([x] + p)) && SameElements(Feed(p), Feed([y] + p));
        PushAllHolds([], p);
        OnePerKey(Feed(p), x, y);
      }
    }
  }

  lemma OnePerKey(items: seq<Item>, x: Item, y: Item)
    requires UniqueKeys(items) && x in items && y in items && SameKey(x, y)
    ensures x == y
  {
  }

  /** What is pushed first is there. */
  lemma {:induction false} FirstStays(x: Item, p: seq<Item>)
    ensures x in Feed([x] + p)
  {
    if p == [] {
      assert [x] + p == [x] && [x][..0] == [];
      assert PushAll([], []) == [];
      assert PushAll([], [x]) == PushSpec([], x);
    } else {
      FirstStays(x, p[..|p| - 1]);
      assert ([x] + p)[..|p|] == [x] + p[..|p| - 1];
    }
  }

  // ---------------------------------------------------------------- what full_pull_map means

  predicate DistinctTypes(rules: seq<Rule>) {
    forall i, j :: 0 <= i < j < |rules| ==> rules[i].typ != rules[j].typ
  }

  /** The pulled messages parse and carry consecutive sequence numbers from start. */
  predicate GapFree(accepts: BodyParser, pulled: seq<Item>, start: int) {
    forall i :: 0 <= i < |pulled| ==>
      var m := UnmarshalMessage(accepts, pulled[i].data);
      m.Some? && m.value.header.messageSequence == (start + i) % 0x1_0000
  }

  function Messages(accepts: BodyParser, pulled: seq<Item>, out: map<H.HandshakeType, H.Message>)
    : map<H.HandshakeType, H.Message>
  {
    if pulled == [] then out
    else match UnmarshalMessage(accepts, pulled[0].data)
      case Some(m) => Messages(accepts, pulled[1..], out[pulled[0].typ := m])
      case None => out
  }

  lemma {:induction false} ByTypeMeans(items: seq<Item>, rules: seq<Rule>)
    requires DistinctTypes(rules)
    ensures forall r :: r in rules ==>
      match Best(items, r)
      case Some(c) => r.typ in ByType(items, rules) && ByType(items, rules)[r.typ] == c
      case None => r.typ !in ByType(items, rules)
    ensures forall t :: t in ByType(items, rules) ==> exists r :: r in rules && r.typ == t
  {
    hide Best;
    if rules != [] {
      var init, last := rules[..|rules| - 1], rules[|rules| - 1];
      assert rules == init + [last];
      ByTypeMeans(items, init);
      forall r | r in init ensures r.typ != last.typ {
        var i :| 0 <= i < |init| && init[i] == r;
        assert rules[i] == r;
      }
      forall t | t in ByType(items, rules) ensures exists r :: r in rules && r.typ == t {
        if t in ByType(items, init) {
          var r :| r in init && r.typ == t;
          assert r in rules;
        } else {
          assert last in rules;
        }
      }
    }
  }

  predicate ChosenBy(items: seq<Item>, chosen: map<H.HandshakeType, Item>, rules: seq<Rule>) {
    forall r :: r in rules ==>
      match Best(items, r)
      case Some(c) => r.typ in chosen && chosen[r.typ] == c
      case None => r.typ !in chosen
  }

  lemma GapFreeCons(accepts: BodyParser, c: Item, p: seq<Item>, start: int)
    ensures GapFree(accepts, [c] + p, start) <==>
      var m := UnmarshalMessage(accepts, c.data);
      m.Some? && m.value.header.messageSequence == start % 0x1_0000 && GapFree(accepts, p, start + 1)
  {
    hide UnmarshalMessage;
    var cp := [c] + p;
    assert cp[0] == c && forall i :: 0 <= i < |p| ==> cp[i + 1] == p[i];
    if GapFree(accepts, cp, start) {
      forall i | 0 <= i < |p|
        ensures var m := UnmarshalMessage(accepts, p[i].data);
          m.Some? && m.value.header.messageSequence == (start + 1 + i) % 0x1_0000
      {
        assert cp[i + 1] == p[i];
      }
    }
  }

  lemma MessagesCons(accepts: BodyParser, c: Item, p: seq<Item>, out: map<H.HandshakeType, H.Message>)
    requires UnmarshalMessage(accepts, c.data).Some?
    ensures Messages(accepts, [c] + p, out)
         == Messages(accepts, p, out[c.typ := UnmarshalMessage(accepts, c.data).value])
  {
    assert ([c] + p)[0] == c && ([c] + p)[1..] == p;
  }

  type Pulled = Result<(int, map<H.HandshakeType, H.Message>), Error>

  /** What the second loop returns on the messages p that pull selects. */
  predicate ChainOutcome(accepts: BodyParser, r: Pulled, p: seq<Item>, seqNo: int, out: map<H.HandshakeType, H.Message>) {
    && (r.Ok? <==> GapFree(accepts, p, seqNo))
    && (r.Ok? ==> r.value == (seqNo + |p|, Messages(accepts, p, out)))
  }

  lemma ChainTake(accepts: BodyParser, c: Item, m: H.Message, r: Pulled, p: seq<Item>, seqNo: int,
                  out: map<H.HandshakeType, H.Message>)
    requires UnmarshalMessage(accepts, c.data) == Some(m) && m.header.messageSequence == seqNo % 0x1_0000
    requires ChainOutcome(accepts, r, p, seqNo + 1, out[c.typ := m])
    ensures ChainOutcome(accepts, r, [c] + p, seqNo, out)
  {
    GapFreeCons(accepts, c, p, seqNo);
    MessagesCons(accepts, c, p, out);
  }

  lemma {:induction false} ChainMeans(accepts: BodyParser, items: seq<Item>, chosen: map<H.HandshakeType, Item>,
                                      seqNo: int, rules: seq<Rule>, out: map<H.HandshakeType, H.Message>)
    requires ChosenBy(items, chosen, rules)
    ensures ChainOutcome(accepts, Chain(accepts, chosen, seqNo, rules, out), Pull(items, rules), seqNo, out)
    decreases |rules|
  {
    if rules != [] {
      var r0, rest := rules[0], rules[1..];
      assert r0 in rules;
      forall r | r in rest ensures r in rules {
      }
      var p := Pull(items, rest);
      if r0.typ !in chosen {
        ChainMeans(accepts, items, chosen, seqNo, rest, out);
        assert Pull(items, rules) == [] + p == p;
      } else {
        var c := chosen[r0.typ];
        BestMeans(items, r0);
        assert Pull(items, rules) == [c] + p;
        var m := UnmarshalMessage(accepts, c.data);
        if m.Some? && m.value.header.messageSequence == seqNo % 0x1_0000 {
          ChainMeans(accepts, items, chosen, seqNo + 1, rest, out[r0.typ := m.value]);
          ChainTake(accepts, c, m.value, Chain(accepts, chosen, seqNo, rules, out), p, seqNo, out);
        } else {
          GapFreeCons(accepts, c, p, seqNo);
        }
      }
    }
  }

  /** full_pull_map succeeds exactly when every mandatory message is there and the messages
      that pull selects, in rule order, are numbered consecutively from start; the returned
      number is start plus how many there are. */
  lemma FullPullIsGapFree(accepts: BodyParser, items: seq<Item>, start: int, rules: seq<Rule>)
    requires DistinctTypes(rules)
    ensures var p := Pull(items, rules); var r := FullPullSpec(accepts, items, start, rules);
      && (r.Ok? <==> !MissesMandatory(items, rules) && GapFree(accepts, p, start))
      && (r.Ok? ==> r.value == (start + |p|, Messages(accepts, p, map[])))
  {
    hide Best, Pull, Chain, Messages, GapFree, ByType;
    ByTypeMeans(items, rules);
    if !MissesMandatory(items, rules) {
      ChainMeans(accepts, items, ByType(items, rules), start, rules, map[]);
    }
  }

  /** The place of the first pulled message that does not parse or is numbered out of turn. */
  predicate FirstBad(accepts: BodyParser, pulled: seq<Item>, start: int, i: nat) {
    && i < |pulled| && GapFree(accepts, pulled[..i], start)
    && var m := UnmarshalMessage(accepts, pulled[i].data);
       m.None? || m.value.header.messageSequence != (start + i) % 0x1_0000
  }

  lemma BadBehind(accepts: BodyParser, c: Item, p: seq<Item>, start: int, j: nat)
    requires FirstBad(accepts, p, start + 1, j)
    requires var m := UnmarshalMessage(accepts, c.data); m.Some? && m.value.header.messageSequence == start % 0x1_0000
    ensures FirstBad(accepts, [c] + p, start, j + 1) && ([c] + p)[j + 1] == p[j]
  {
    hide UnmarshalMessage, GapFree;
    var all := [c] + p;
    GapFreeCons(accepts, c, p[..j], start);
    assert all[..j + 1] == [c] + p[..j];
  }

  lemma BadFirst(accepts: BodyParser, c: Item, p: seq<Item>, start: int)
    requires var m := UnmarshalMessage(accepts, c.data); m.None? || m.value.header.messageSequence != start % 0x1_0000
    ensures FirstBad(accepts, [c] + p, start, 0)
  {
    hide UnmarshalMessage;
    assert ([c] + p)[..0] == [];
  }

  lemma {:induction false} ChainFails(accepts: BodyParser, items: seq<Item>, chosen: map<H.HandshakeType, Item>,
                                      seqNo: int, rules: seq<Rule>, out: map<H.HandshakeType, H.Message>)
    returns (i: nat)
    requires ChosenBy(items, chosen, rules) && Chain(accepts, chosen, seqNo, rules, out).Err?
    ensures var p := Pull(items, rules);
      && FirstBad(accepts, p, seqNo, i) && i < |p|
      && Chain(accepts, chosen, seqNo, rules, out).error
         == if UnmarshalMessage(accepts, p[i].data).None? then ErrUnmarshal else ErrGap
    decreases |rules|
  {
    hide Best, UnmarshalMessage, FirstBad;
    var r0, rest := rules[0], rules[1..];
    assert r0 in rules;
    forall r | r in rest ensures r in rules {
    }
    var p := Pull(items, rest);
    if r0.typ !in chosen {
      i := ChainFails(accepts, items, chosen, seqNo, rest, out);
      EmptyUnit(p);
    } else {
      var c := chosen[r0.typ];
      BestMeans(items, r0);
      var m := UnmarshalMessage(accepts, c.data);
      assert Pull(items, rules) == [c] + p;
      if m.Some? && m.value.header.messageSequence == seqNo % 0x1_0000 {
        var j := ChainFails(accepts, items, chosen, seqNo + 1, rest, out[r0.typ := m.value]);
        BadBehind(accepts, c, p, seqNo, j);
        i := j + 1;
      } else {
        BadFirst(accepts, c, p, seqNo);
        i := 0;
      }
    }
  }

  /** And what its errors mean: a mandatory message is missing; or the first message in rule order
      that is not as it should be does not parse; or that message is numbered out of turn. */
  lemma FullPullFailsExactly(accepts: BodyParser, items: seq<Item>, start: int, rules: seq<Rule>)
    requires DistinctTypes(rules) && FullPullSpec(accepts, items, start, rules).Err?
    ensures var e := FullPullSpec(accepts, items, start, rules).error; var p := Pull(items, rules);
      if MissesMandatory(items, rules) then e == ErrMissingMandatory
      else exists i: nat :: FirstBad(accepts, p, start, i)
             && e == if UnmarshalMessage(accepts, p[i].data).None? then ErrUnmarshal else ErrGap
  {
    hide Best, Pull, Chain, ByType, UnmarshalMessage, MissesMandatory, FirstBad;
    ByTypeMeans(items, rules);
    if !MissesMandatory(items, rules) {
      var i := ChainFails(accepts, items, ByType(items, rules), start, rules, map[]);
      BadFits(accepts, Pull(items, rules), start, i);
    }
  }

  lemma BadFits(accepts: BodyParser, p: seq<Item>, start: int, i: nat)
    requires FirstBad(accepts, p, start, i)
    ensures i < |p|
  {
  }

  // ---------------------------------------------------------------- what the messages are

  predicate NoneOfType(p: seq<Item>, t: H.HandshakeType) {
    forall i :: 0 <= i < |p| ==> p[i].typ != t
  }

  lemma {:induction false} MessagesKeep(accepts: BodyParser, p: seq<Item>, out: map<H.HandshakeType, H.Message>,
                                        t: H.HandshakeType)
    requires NoneOfType(p, t)
    requires forall i :: 0 <= i < |p| ==> UnmarshalMessage(accepts, p[i].data).Some?
    ensures (t in Messages(accepts, p, out) <==> t in out)
    ensures t in out ==> Messages(accepts, p, out)[t] == out[t]
    decreases |p|
  {
    hide UnmarshalMessage;
    if p != [] {
      MessagesKeep(accepts, p[1..], out[p[0].typ := UnmarshalMessage(accepts, p[0].data).value], t);
    }
  }

  lemma {:induction false} PulledTypes(items: seq<Item>, rules: seq<Rule>, x: Item)
    requires x in Pull(items, rules)
    ensures exists i :: 0 <= i < |rules| && Best(items, rules[i]) == Some(x) && rules[i].typ == x.typ
  {
    hide Best;
    if rules != [] {
      BestMeans(items, rules[0]);
      if Best(items, rules[0]) != Some(x) {
        PulledTypes(items, rules[1..], x);
        var i :| 0 <= i < |rules[1..]| && Best(items, rules[1..][i]) == Some(x) && rules[1..][i].typ == x.typ;
        assert rules[i + 1] == rules[1..][i];
      }
    }
  }

  /** The message that a pull returns under a rule's type is the one the cache has for the
      rule. */
  lemma {:induction false} MessagesOf(accepts: BodyParser, items: seq<Item>, rules: seq<Rule>,
                                      out: map<H.HandshakeType, H.Message>, i: nat)
    requires DistinctTypes(rules) && i < |rules| && rules[i].typ !in out
    requires forall x :: x in Pull(items, rules) ==> UnmarshalMessage(accepts, x.data).Some?
    ensures var t := rules[i].typ; var msgs := Messages(accepts, Pull(items, rules), out);
      var best := Best(items, rules[i]);
      && (t in msgs <==> best.Some?)
      && (best.Some? && t in msgs ==> Some(msgs[t]) == UnmarshalMessage(accepts, best.value.data))
    decreases |rules|
  {
    hide UnmarshalMessage, Best;
    var p := Pull(items, rules);
    var rest := Pull(items, rules[1..]);
    BestMeans(items, rules[0]);
    assert forall x :: x in rest ==> x in p;
    forall k | 0 <= k < |rest| && i == 0 ensures rest[k].typ != rules[0].typ {
      PulledTypes(items, rules[1..], rest[k]);
      var j :| 0 <= j < |rules[1..]| && Best(items, rules[1..][j]) == Some(rest[k]) && rules[1..][j].typ == rest[k].typ;
      assert rules[1..][j] == rules[j + 1];
    }
    var first := Best(items, rules[0]);
    if first.Some? {
      assert p == [first.value] + rest && p[0] == first.value && p[1..] == rest;
      assert first.value in p;
      var m := UnmarshalMessage(accepts, first.value.data).value;
      NextMessages(accepts, items, rules, out[first.value.typ := m], i);
    } else {
      EmptyUnit(rest);
      NextMessages(accepts, items, rules, out, i);
    }
  }

  lemma NextMessages(accepts: BodyParser, items: seq<Item>, rules: seq<Rule>, out: map<H.HandshakeType, H.Message>,
                     i: nat)
    requires DistinctTypes(rules) && i < |rules|
    requires forall x :: x in Pull(items, rules[1..]) ==> UnmarshalMessage(accepts, x.data).Some?
    requires i == 0 ==> NoneOfType(Pull(items, rules[1..]), rules[0].typ)
    requires i > 0 ==> rules[i].typ !in out
    ensures var t := rules[i].typ; var msgs := Messages(accepts, Pull(items, rules[1..]), out);
      var best := Best(items, rules[i]);
      && (i == 0 ==> (t in msgs <==> t in out) && (t in out ==> msgs[t] == out[t]))
      && (i > 0 ==> (t in msgs <==> best.Some?))
      && (i > 0 && best.Some? && t in msgs ==> Some(msgs[t]) == UnmarshalMessage(accepts, best.value.data))
    decreases |rules|, 0
  {
    hide UnmarshalMessage, Best, Messages;
    if i == 0 {
      MessagesKeep(accepts, Pull(items, rules[1..]), out, rules[0].typ);
    } else {
      assert rules[1..][i - 1] == rules[i];
      MessagesOf(accepts, items, rules[1..], out, i - 1);
    }
  }

  /** The cached message that a rule selects. */
  function MessageFor(accepts: BodyParser, items: seq<Item>, r: Rule): Option<H.Message> {
    match Best(items, r)
    case None => None
    case Some(x) => UnmarshalMessage(accepts, x.data)
  }

  predicate Returned(accepts: BodyParser, items: seq<Item>, msgs: map<H.HandshakeType, H.Message>, r: Rule) {
    && (r.typ in msgs <==> MessageFor(accepts, items, r).Some?)
    && (r.typ in msgs ==> msgs[r.typ] == MessageFor(accepts, items, r).value)
    && (Best(items, r).Some? <==> MessageFor(accepts, items, r).Some?)
  }

  lemma {:induction false} ParsesWhenPulled(accepts: BodyParser, items: seq<Item>, rules: seq<Rule>, i: nat)
    requires i < |rules|
    requires forall x :: x in Pull(items, rules) ==> UnmarshalMessage(accepts, x.data).Some?
    ensures Best(items, rules[i]).Some? ==> MessageFor(accepts, items, rules[i]).Some?
    decreases i
  {
    hide Best, UnmarshalMessage;
    if i > 0 {
      assert rules[1..][i - 1] == rules[i];
      ParsesWhenPulled(accepts, items, rules[1..], i - 1);
    }
  }

  /** What full_pull_map returns, rule by rule. */
  lemma FullPullMeans(accepts: BodyParser, items: seq<Item>, start: int, rules: seq<Rule>)
    requires DistinctTypes(rules)
    ensures var r := FullPullSpec(accepts, items, start, rules); var p := Pull(items, rules);
      && (r.Ok? <==> !MissesMandatory(items, rules) && GapFree(accepts, p, start))
      && (r.Ok? ==>
            && r.value.0 == start + |p|
            && forall i :: 0 <= i < |rules| ==> Returned(accepts, items, r.value.1, rules[i]))
  {
    hide FullPullSpec, Pull, Best, Messages, UnmarshalMessage, MissesMandatory;
    FullPullIsGapFree(accepts, items, start, rules);
    if FullPullSpec(accepts, items, start, rules).Ok? {
      var p := Pull(items, rules);
      forall x | x in p ensures UnmarshalMessage(accepts, x.data).Some? {
        var k :| 0 <= k < |p| && p[k] == x;
      }
      forall i | 0 <= i < |rules| ensures Returned(accepts, items, Messages(accepts, p, map[]), rules[i]) {
        MessagesOf(accepts, items, rules, map[], i);
        ParsesWhenPulled(accepts, items, rules, i);
      }
    }
  }

  // ---------------------------------------------------------------- what a transcript is made of

  /** Of one sender's messages of a type in an epoch, one that none is numbered higher than, or
      None when there are none. */
  ghost predicate LastOf(items: seq<Item>, typ: H.HandshakeType, epoch: U16, isClient: bool, x: Option<Item>) {
    match x
    case None => forall y :: y in items ==> y.typ != typ || y.epoch != epoch || y.isClient != isClient
    case Some(v) =>
      && v in items && v.typ == typ && v.epoch == epoch && v.isClient == isClient
      && forall y :: y in items && y.typ == typ && y.epoch == epoch && y.isClient == isClient ==>
           y.messageSequence <= v.messageSequence
  }

  /** There is just one such, and it is what the rule selects. */
  lemma BestIsLast(items: seq<Item>, r: Rule, x: Option<Item>)
    requires UniqueKeys(items)
    ensures LastOf(items, r.typ, r.epoch, r.isClient, x) <==> Best(items, r) == x
  {
    BestMeans(items, r);
    var best := Best(items, r);
    if LastOf(items, r.typ, r.epoch, r.isClient, x) {
      match x {
        case None =>
        case Some(v) =>
          assert Matches(v, r) && Matches(best.value, r);
          OnePerKey(items, v, best.value);
      }
    }
  }

  function Text(x: Option<Item>): Bytes {
    match x case Some(v) => v.data case None => []
  }

  lemma PullStarts(items: seq<Item>, rules: seq<Rule>, x: Option<Item>)
    requires rules != [] && Best(items, rules[0]) == x
    ensures PullAndMergeSpec(items, rules) == Text(x) + PullAndMergeSpec(items, rules[1..])
  {
    hide Best;
    var rest := Pull(items, rules[1..]);
    match x {
      case Some(c) =>
        assert ([c] + rest)[0] == c && ([c] + rest)[1..] == rest;
      case None =>
        EmptyUnit(rest);
        EmptyUnit(Merge(rest));
    }
  }

  /** The messages of a session in an epoch, of each kind the last. */
  datatype Session = Session(
    clientHello: Option<Item>,
    serverHello: Option<Item>,
    serverCertificate: Option<Item>,
    serverKeyExchange: Option<Item>,
    certificateRequest: Option<Item>,
    serverHelloDone: Option<Item>,
    clientCertificate: Option<Item>,
    clientKeyExchange: Option<Item>)
  {
    /** Section 3 of RFC 7627: what was exchanged from ClientHello to ClientKeyExchange. */
    function Merged(): Bytes {
      Text(clientHello) + (Text(serverHello) + (Text(serverCertificate) + (Text(serverKeyExchange)
      + (Text(certificateRequest) + (Text(serverHelloDone) + (Text(clientCertificate) + Text(clientKeyExchange)))))))
    }
  }

  ghost predicate IsSession(items: seq<Item>, epoch: U16, c: Session) {
    && LastOf(items, H.ClientHello, epoch, true, c.clientHello)
    && LastOf(items, H.ServerHello, epoch, false, c.serverHello)
    && LastOf(items, H.Certificate, epoch, false, c.serverCertificate)
    && LastOf(items, H.ServerKeyExchange, epoch, false, c.serverKeyExchange)
    && LastOf(items, H.CertificateRequest, epoch, false, c.certificateRequest)
    && LastOf(items, H.ServerHelloDone, epoch, false, c.serverHelloDone)
    && LastOf(items, H.Certificate, epoch, true, c.clientCertificate)
    && LastOf(items, H.ClientKeyExchange, epoch, true, c.clientKeyExchange)
  }

  /** The session text is the last ClientHello, the server's flight in the order of section
      7.3 of RFC 5246, the client's Certificate and its ClientKeyExchange, as far as they are
      there; the session hash is over that and what is added. */
  lemma SessionIs(items: seq<Item>, epoch: U16, c: Session)
    requires UniqueKeys(items) && IsSession(items, epoch, c)
    ensures PullAndMergeSpec(items, SessionRules(epoch)) == c.Merged()
    ensures forall sha256: Bytes -> Bytes, more: Bytes ::
              SessionHashSpec(sha256, items, epoch, more) == sha256(c.Merged() + more)
  {
    hide Best, LastOf, PullAndMergeSpec, UniqueKeys;
    var rules := SessionRules(epoch);
    BestIsLast(items, rules[0], c.clientHello);
    BestIsLast(items, rules[1], c.serverHello);
    BestIsLast(items, rules[2], c.serverCertificate);
    BestIsLast(items, rules[3], c.serverKeyExchange);
    BestIsLast(items, rules[4], c.certificateRequest);
    BestIsLast(items, rules[5], c.serverHelloDone);
    BestIsLast(items, rules[6], c.clientCertificate);
    BestIsLast(items, rules[7], c.clientKeyExchange);
    PullStarts(items, rules, c.clientHello);
    PullStarts(items, rules[1..], c.serverHello);
    PullStarts(items, rules[2..], c.serverCertificate);
    PullStarts(items, rules[3..], c.serverKeyExchange);
    PullStarts(items, rules[4..], c.certificateRequest);
    PullStarts(items, rules[5..], c.serverHelloDone);
    PullStarts(items, rules[6..], c.clientCertificate);
    PullStarts(items, rules[7..], c.clientKeyExchange);
    assert rules[1..][1..] == rules[2..] && rules[2..][1..] == rules[3..] && rules[3..][1..] == rules[4..];
    assert rules[4..][1..] == rules[5..] && rules[5..][1..] == rules[6..] && rules[6..][1..] == rules[7..];
    assert rules[7..][1..] == [];
    NothingPulled(items);
    EmptyUnit(Text(c.clientKeyExchange));
  }

  lemma NothingPulled(items: seq<Item>)
    ensures PullAndMergeSpec(items, []) == []
  {
  }

  /** The first rule that matches a message, or the number of rules when none does. */
  function Place(x: Item, rules: seq<Rule>): nat {
    if rules == [] || Matches(x, rules[0]) then 0 else 1 + Place(x, rules[1..])
  }

  /** The messages follow each other as the rules they match do. */
  predicate InRuleOrder(found: seq<Item>, rules: seq<Rule>) {
    forall i, j :: 0 <= i < j < |found| ==> Place(found[i], rules) < Place(found[j], rules)
  }

  predicate Overlap(r: Rule, q: Rule) {
    r.typ == q.typ && r.epoch == q.epoch && r.isClient == q.isClient
  }

  predicate RulesApart(rules: seq<Rule>) {
    forall p, q :: 0 <= p < q < |rules| ==> !Overlap(rules[p], rules[q])
  }

  ghost predicate AreThose(items: seq<Item>, rules: seq<Rule>, found: seq<Item>) {
    forall x :: x in found <==> x in items && MatchesAny(x, rules)
  }

  lemma AnyMeans(x: Item, rules: seq<Rule>)
    requires rules != []
    ensures MatchesAny(x, rules) <==> Matches(x, rules[0]) || MatchesAny(x, rules[1..])
  {
    if MatchesAny(x, rules[1..]) {
      var i :| 0 <= i < |rules[1..]| && Matches(x, rules[1..][i]);
      assert Matches(x, rules[i + 1]);
    }
    if MatchesAny(x, rules) {
      var i :| 0 <= i < |rules| && Matches(x, rules[i]);
      if i > 0 {
        assert Matches(x, rules[1..][i - 1]);
      }
    }
  }

  lemma RestApart(rules: seq<Rule>, x: Item)
    requires RulesApart(rules) && rules != [] && Matches(x, rules[0])
    ensures RulesApart(rules[1..]) && !MatchesAny(x, rules[1..])
  {
    assert forall p :: 0 <= p < |rules[1..]| ==> rules[1..][p] == rules[p + 1];
  }

  /** When all a cache has for the rules is in the order of the rules, pull selects just that. */
  lemma {:induction false} PullIsInOrder(items: seq<Item>, rules: seq<Rule>, found: seq<Item>)
    requires RulesApart(rules) && InRuleOrder(found, rules) && AreThose(items, rules, found)
    ensures Pull(items, rules) == found
    decreases |rules|
  {
    hide Best, MatchesAny, Matches, InRuleOrder, RulesApart, AreThose;
    if rules == [] {
      NoRules(items, found);
    } else if found != [] && Matches(found[0], rules[0]) {
      FirstMatches(items, rules, found);
      PullIsInOrder(items, rules[1..], found[1..]);
      assert found == [found[0]] + found[1..];
    } else {
      NoneMatches(items, rules, found);
      PullIsInOrder(items, rules[1..], found);
      EmptyUnit(found);
    }
  }

  lemma NoRules(items: seq<Item>, found: seq<Item>)
    requires AreThose(items, [], found)
    ensures found == []
  {
    hide MatchesAny;
    if found != [] {
      MatchesNone(found[0]);
    }
  }

  lemma MatchesNone(x: Item)
    ensures !MatchesAny(x, [])
  {
  }

  lemma FirstMatches(items: seq<Item>, rules: seq<Rule>, found: seq<Item>)
    requires RulesApart(rules) && InRuleOrder(found, rules) && AreThose(items, rules, found)
    requires rules != [] && found != [] && Matches(found[0], rules[0])
    ensures Best(items, rules[0]) == Some(found[0])
    ensures RulesApart(rules[1..]) && InRuleOrder(found[1..], rules[1..]) && AreThose(items, rules[1..], found[1..])
  {
    hide Best, MatchesAny, RulesApart, Matches;
    var first, tail := found[0], found[1..];
    assert found == [first] + tail;
    BestMeans(items, rules[0]);
    RestApart(rules, first);
    forall i | 0 <= i < |tail| ensures Place(tail[i], rules) == 1 + Place(tail[i], rules[1..]) {
      assert tail[i] == found[i + 1];
    }
    forall x ensures MatchesAny(x, rules) <==> Matches(x, rules[0]) || MatchesAny(x, rules[1..]) {
      AnyMeans(x, rules);
    }
    forall x | x in tail ensures !Matches(x, rules[0]) {
      var i :| 0 <= i < |tail| && tail[i] == x;
    }
    assert forall x :: x in found <==> x == first || x in tail;
  }

  lemma NoneMatches(items: seq<Item>, rules: seq<Rule>, found: seq<Item>)
    requires RulesApart(rules) && InRuleOrder(found, rules) && AreThose(items, rules, found)
    requires rules != [] && (found == [] || !Matches(found[0], rules[0]))
    ensures Best(items, rules[0]) == None
    ensures RulesApart(rules[1..]) && InRuleOrder(found, rules[1..]) && AreThose(items, rules[1..], found)
  {
    hide Best, MatchesAny, Matches;
    BestMeans(items, rules[0]);
    forall x ensures MatchesAny(x, rules) <==> Matches(x, rules[0]) || MatchesAny(x, rules[1..]) {
      AnyMeans(x, rules);
    }
    forall i | 0 <= i < |found| ensures Place(found[i], rules) == 1 + Place(found[i], rules[1..]) {
      if i > 0 {
        assert Place(found[0], rules) < Place(found[i], rules);
      }
    }
    forall x | x in found ensures !Matches(x, rules[0]) {
      var i :| 0 <= i < |found| && found[i] == x;
      assert Place(found[i], rules) > 0;
    }
    assert forall p :: 0 <= p < |rules[1..]| ==> rules[1..][p] == rules[p + 1];
  }
}
