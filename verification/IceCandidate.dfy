/** ICE candidates, candidate pairs and the priorities that rank them (sections 5.1.2 and
    6.1.2.3 of RFC 8445). */
module IceCandidate {
  import opened Bytes
  import opened Wrappers

  type U64 = x: int | 0 <= x < 0x1_0000_0000_0000_0000

  datatype NetworkType = Unspecified | Udp4 | Udp6

  datatype CandidateType = Unspecified | Host

  /** Addresses are canonical texts, so that a candidate's address is that of its socket. */
  datatype SocketAddr = SocketAddr(ip: string, port: U16)

  datatype Candidate = Candidate(
    networkType: NetworkType,
    typ: CandidateType,
    address: string,
    port: U16,
    related: Option<SocketAddr>,
    component: U16,
    priorityOverride: U32)
  {
    function Addr(): SocketAddr { SocketAddr(address, port) }
  }

  const DEFAULT_LOCAL_PREFERENCE := 65535

  function Preference(t: CandidateType): nat {
    if t.Host? then 126 else 0
  }

  function CandidatePriority(c: Candidate): (p: U32)
    ensures 1 <= p && (c.priorityOverride == 0 ==> p < 0x8000_0000)
  {
    if c.priorityOverride != 0 then c.priorityOverride
    else 0x100_0000 * Preference(c.typ) + 0x100 * DEFAULT_LOCAL_PREFERENCE + (256 - c.component)
  }

  /** The formula of section 5.1.2.1 of RFC 8445, its three parts in the bits they fill: a host
      candidate of the first component has the priority 2130706431. */
  lemma CandidatePriorityIs(c: Candidate)
    requires c.priorityOverride == 0 && c.component <= 256
    ensures var p := CandidatePriority(c);
      && p / 0x100_0000 == (if c.typ.Host? then 126 else 0) + (if c.component == 0 then 1 else 0)
      && (c.component > 0 ==> p / 0x100 % 0x1_0000 == 65535 && p % 0x100 == 256 - c.component)
      && (c.typ.Host? && c.component == 1 ==> p == 2130706431)
  {
    var t := if c.typ.Host? then 126 else 0;
    if c.component > 0 {
      var low := 256 - c.component;
      Fields(t, 65535, low);
    }
  }

  lemma Fields(a: nat, b: nat, c: nat)
    requires b < 0x1_0000 && c < 0x100
    ensures var p := 0x100_0000 * a + 0x100 * b + c;
      p / 0x100_0000 == a && p / 0x100 % 0x1_0000 == b && p % 0x100 == c
  {
  }

  /** Candidates are the same whatever their priority and component. */
  predicate Equal(a: Candidate, b: Candidate) {
    && a.networkType == b.networkType
    && a.typ == b.typ
    && a.address == b.address
    && a.port == b.port
    && a.related == b.related
  }

  lemma EqualExactly(a: Candidate, b: Candidate)
    ensures Equal(a, b) <==> b == a.(component := b.component, priorityOverride := b.priorityOverride)
  {
  }

  datatype PairState = Waiting | InProgress | Failed | Succeeded

  datatype Pair = Pair(
    local: Candidate,
    remote: Candidate,
    controlling: bool,
    requests: U16,
    state: PairState,
    nominated: bool)

  function NewPair(local: Candidate, remote: Candidate, controlling: bool): Pair {
    Pair(local, remote, controlling, 0, Waiting, false)
  }

  // ---------------------------------------------------------------- priority

  function MinMax(g: nat, d: nat): (nat, nat) {
    if g <= d then (g, d) else (d, g)
  }

  /** g is the priority of the controlling agent's candidate, d of the controlled one's. */
  function Priority(g: nat, d: nat): nat {
    var (min, max) := MinMax(g, d);
    0xFFFF_FFFF * min + 2 * max + if g > d then 1 else 0
  }

  /** The formula of section 6.1.2.3 of RFC 8445. */
  function RfcPriority(g: nat, d: nat): nat {
    var (min, max) := MinMax(g, d);
    0x1_0000_0000 * min + 2 * max + if g > d then 1 else 0
  }

  function PairPriority(p: Pair): U64 {
    var l, r := CandidatePriority(p.local), CandidatePriority(p.remote);
    PriorityFits(l, r);
    PriorityFits(r, l);
    if p.controlling then Priority(l, r) else Priority(r, l)
  }

  /** The arithmetic just fits: the largest value is that of two maximal priorities, and it is
      the largest 64-bit number. */
  lemma PriorityFits(g: U32, d: U32)
    ensures Priority(g, d) < 0x1_0000_0000_0000_0000
    ensures Priority(g, d) == 0xFFFF_FFFF_FFFF_FFFF <==> g == d == 0xFFFF_FFFF
  {
    var (min, max) := MinMax(g, d);
    assert 0xFFFF_FFFF * min <= 0xFFFF_FFFF * 0xFFFF_FFFF;
  }

  predicate Before(g: nat, d: nat, g': nat, d': nat) {
    var (min, max) := MinMax(g, d);
    var (min', max') := MinMax(g', d');
    || min < min'
    || (min == min' && max < max')
    || (min == min' && max == max' && g <= d && g' > d')
  }

  /** For priorities from 1 to 2^31, and so for those section 5.1.2 of RFC 8445 allows, pairs
      are ordered by the smaller priority, then the larger, then whether the controlling
      side's is larger, which is also the order of the standard's own formula. */
  lemma PriorityRanks(g: nat, d: nat, g': nat, d': nat)
    requires 1 <= g <= 0x8000_0000 && 1 <= d <= 0x8000_0000
    requires 1 <= g' <= 0x8000_0000 && 1 <= d' <= 0x8000_0000
    ensures Priority(g, d) < Priority(g', d') <==> Before(g, d, g', d')
    ensures RfcPriority(g, d) < RfcPriority(g', d') <==> Before(g, d, g', d')
  {
    var (min, max) := MinMax(g, d);
    var (min', max') := MinMax(g', d');
    if min < min' {
      assert 0xFFFF_FFFF * (min' - min) >= 0xFFFF_FFFF;
    } else if min > min' {
      assert 0xFFFF_FFFF * (min - min') >= 0xFFFF_FFFF;
    }
  }

  /** The standard's priority of a pair, for an agent in the given role. The pair itself
      remembers the role that the agent had when the pair was formed. */
  function RfcPairPriority(p: Pair, controlling: bool): nat {
    var l, r := CandidatePriority(p.local), CandidatePriority(p.remote);
    if controlling then RfcPriority(l, r) else RfcPriority(r, l)
  }

  predicate Within(p: Pair, limit: nat) {
    CandidatePriority(p.local) <= limit && CandidatePriority(p.remote) <= limit
  }

  /** Two pairs come in the same order, or are level, in the program and in the standard. */
  predicate RankAlike(p: Pair, q: Pair, controlling: bool) {
    && (PairPriority(p) < PairPriority(q) <==> RfcPairPriority(p, controlling) < RfcPairPriority(q, controlling))
    && (PairPriority(q) < PairPriority(p) <==> RfcPairPriority(q, controlling) < RfcPairPriority(p, controlling))
  }

  /** The role that the pair remembers is not the agent's any more. */
  predicate IsStale(p: Pair, controlling: bool) {
    p.controlling != controlling
  }

  predicate SamePriorities(p: Pair, q: Pair) {
    var (l, r) := (CandidatePriority(p.local), CandidatePriority(p.remote));
    var (l', r') := (CandidatePriority(q.local), CandidatePriority(q.remote));
    (l == l' && r == r') || (l == r' && r == l')
  }

  /** Two pairs between the same two different priorities, one of them stale, or both and the
      priorities the other way round. */
  predicate Misranked(p: Pair, q: Pair, controlling: bool) {
    && SamePriorities(p, q) && CandidatePriority(p.local) != CandidatePriority(p.remote)
    && (if IsStale(p, controlling) then
          IsStale(q, controlling) ==> CandidatePriority(p.local) != CandidatePriority(q.local)
        else IsStale(q, controlling))
  }

  /** For priorities up to 2^31 these are exactly the pairs that rank differently. */
  lemma RankAlikeExactly(p: Pair, q: Pair, controlling: bool)
    requires Within(p, 0x8000_0000) && Within(q, 0x8000_0000)
    ensures RankAlike(p, q, controlling) <==> !Misranked(p, q, controlling)
  {
    var (l, r) := (CandidatePriority(p.local), CandidatePriority(p.remote));
    var (l', r') := (CandidatePriority(q.local), CandidatePriority(q.remote));
    var (g, d) := if p.controlling then (l, r) else (r, l);
    var (g', d') := if q.controlling then (l', r') else (r', l');
    var (h, e) := if controlling then (l, r) else (r, l);
    var (h', e') := if controlling then (l', r') else (r', l');
    hide Priority, RfcPriority;
    PriorityRanks(g, d, g', d');
    PriorityRanks(g', d', g, d);
    PriorityRanks(h, e, h', e');
    PriorityRanks(h', e', h, e);
  }

  /** All pairs of candidates with priorities up to the limit rank as the standard has it, when
      the role they remember is the agent's, or whatever it is. */
  ghost predicate RanksAsStandard(limit: nat, current: bool, controlling: bool) {
    forall p: Pair, q: Pair ::
      (&& Within(p, limit) && Within(q, limit)
       && (current ==> !IsStale(p, controlling) && !IsStale(q, controlling)))
      ==> RankAlike(p, q, controlling)
  }

  /** That is so up to 2^31, and no further, as long as the roles are current; without that it
      fails as soon as there are two different priorities. */
  lemma RanksExactly(limit: nat, current: bool, controlling: bool)
    ensures RanksAsStandard(limit, current, controlling) <==> limit <= 1 || (current && limit <= 0x8000_0000)
  {
    if limit <= 1 || (current && limit <= 0x8000_0000) {
      forall p: Pair, q: Pair | Within(p, limit) && Within(q, limit)
                                && (current ==> !IsStale(p, controlling) && !IsStale(q, controlling))
        ensures RankAlike(p, q, controlling)
      {
        RankAlikeExactly(p, q, controlling);
      }
    } else if current {
      RankingFailsAbove31Bits(controlling);
      var p, q := PairOf(0x8000_0001, 1, controlling), PairOf(2, 2, controlling);
      assert Within(p, limit) && Within(q, limit);
    } else {
      var p := PairOf(2, 1, controlling);
      var q := p.(controlling := !controlling);
      assert Within(p, limit) && Within(q, limit);
      RankAlikeExactly(p, q, controlling);
    }
  }

  function WithPriority(p: U32): Candidate {
    At(0, p)
  }

  function At(port: U16, p: U32): Candidate {
    Candidate(Udp4, Host, "", port, None, 1, p)
  }

  /** A new pair whose controlling side has priority g and whose controlled side has d. */
  function PairOf(g: U32, d: U32, controlling: bool): Pair {
    if controlling then NewPair(WithPriority(g), WithPriority(d), true)
    else NewPair(WithPriority(d), WithPriority(g), false)
  }

  /** The first priority at which the two orders part: a pair of 2^31+1 and 1 against one of 2
      and 2, which the standard ranks higher and the program ranks the same. */
  lemma RankingFailsAbove31Bits(controlling: bool)
    ensures var p, q := PairOf(0x8000_0001, 1, controlling), PairOf(2, 2, controlling);
      PairPriority(p) == PairPriority(q) && RfcPairPriority(p, controlling) < RfcPairPriority(q, controlling)
  {
  }

  /** Two stale pairs, of 5 and 3 and of 3 and 5, rank the other way round. */
  lemma StaleRolesReverse(controlling: bool)
    ensures var p, q := PairOf(5, 3, !controlling), PairOf(3, 5, !controlling);
      && PairPriority(q) < PairPriority(p)
      && RfcPairPriority(p, controlling) < RfcPairPriority(q, controlling)
  {
  }

  /** The two ends of a pair agree on its priority exactly when they remember opposite roles, or
      when the two candidates have the same priority. */
  lemma EndsAgreeExactly(p: Pair, q: Pair)
    requires q.local == p.remote && q.remote == p.local
    ensures PairPriority(p) == PairPriority(q) <==>
      p.controlling != q.controlling || CandidatePriority(p.local) == CandidatePriority(p.remote)
  {
  }

  /** For two agents in opposite roles: when the pair is stale on both sides or on neither. */
  lemma StaleOnOneSide(p: Pair, q: Pair, controlling: bool)
    requires q.local == p.remote && q.remote == p.local
    ensures PairPriority(p) == PairPriority(q) <==>
      (IsStale(p, controlling) <==> IsStale(q, !controlling)) || CandidatePriority(p.local) == CandidatePriority(p.remote)
  {
  }

  // ---------------------------------------------------------------- best pairs

  predicate Available(p: Pair) { p.state != Failed }

  predicate Valid(p: Pair) { p.state == Succeeded }

  /** i is the earliest eligible pair that no eligible pair outranks. */
  predicate EarliestBest(list: seq<Pair>, eligible: Pair -> bool, i: nat) {
    && i < |list| && eligible(list[i])
    && (forall j :: 0 <= j < |list| && eligible(list[j]) ==> PairPriority(list[j]) <= PairPriority(list[i]))
    && (forall j :: 0 <= j < i && eligible(list[j]) ==> PairPriority(list[j]) < PairPriority(list[i]))
  }

  /** The earliest best eligible pair, if any pair is eligible. */
  function Best(list: seq<Pair>, eligible: Pair -> bool): (best: Option<nat>)
    ensures best.Some? ==> EarliestBest(list, eligible, best.value)
    ensures best.None? ==> forall j :: 0 <= j < |list| ==> !eligible(list[j])
  {
    hide PairPriority;
    if list == [] then None
    else
      var n := |list| - 1;
      assert forall j :: 0 <= j < n ==> list[..n][j] == list[j];
      var b := Best(list[..n], eligible);
      if !eligible(list[n]) || (b.Some? && PairPriority(list[b.value]) >= PairPriority(list[n])) then
        b
      else
        Some(n)
  }

  /** The earliest best pair is unique, so that the property of Best leaves it no choice. */
  lemma BestIsUnique(list: seq<Pair>, eligible: Pair -> bool, i: nat)
    requires EarliestBest(list, eligible, i)
    ensures Best(list, eligible) == Some(i)
  {
    var b := Best(list, eligible);
  }

  /** With current roles and priorities up to 2^31 it is also the standard's best pair. */
  lemma BestIsTheStandards(list: seq<Pair>, eligible: Pair -> bool, controlling: bool, i: nat)
    requires EarliestBest(list, eligible, i)
    requires forall j :: 0 <= j < |list| ==> Within(list[j], 0x8000_0000) && !IsStale(list[j], controlling)
    ensures forall j :: 0 <= j < |list| && eligible(list[j]) ==>
      && RfcPairPriority(list[j], controlling) <= RfcPairPriority(list[i], controlling)
      && (j < i ==> RfcPairPriority(list[j], controlling) < RfcPairPriority(list[i], controlling))
  {
    hide PairPriority, RfcPairPriority;
    forall j | 0 <= j < |list| && eligible(list[j])
      ensures RankAlike(list[j], list[i], controlling)
    {
      RankAlikeExactly(list[j], list[i], controlling);
    }
  }

  method GetBestAvailableCandidatePair(checklist: seq<Pair>) returns (best: Option<nat>)
    ensures best == Best(checklist, Available)
  {
    best := None;
    for i := 0 to |checklist|
      invariant best == Best(checklist[..i], Available)
    {
      assert checklist[..i + 1][..i] == checklist[..i];
      var p := checklist[i];
      if p.state == Failed {
        continue;
      }
      if best.Some? {
        if PairPriority(checklist[best.value]) < PairPriority(p) {
          best := Some(i);
        }
      } else {
        best := Some(i);
      }
    }
    assert checklist[..|checklist|] == checklist;
  }

  method GetBestValidCandidatePair(checklist: seq<Pair>) returns (best: Option<nat>)
    ensures best == Best(checklist, Valid)
  {
    best := None;
    for i := 0 to |checklist|
      invariant best == Best(checklist[..i], Valid)
    {
      assert checklist[..i + 1][..i] == checklist[..i];
      var p := checklist[i];
      if p.state != Succeeded {
        continue;
      }
      if best.Some? {
        if PairPriority(checklist[best.value]) < PairPriority(p) {
          best := Some(i);
        }
      } else {
        best := Some(i);
      }
    }
    assert checklist[..|checklist|] == checklist;
  }
}
