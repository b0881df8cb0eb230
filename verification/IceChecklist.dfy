/** The checklist of an ICE agent is the cross product of its candidates: one pair for every
    local and remote candidate of the same network type. */
module IceChecklist {
  import opened Wrappers
  import opened IceCandidate
  import opened IceAgent
  import opened IceSafety

  /** Candidates are filed under their network type, no two of them equal. */
  predicate Filed(m: Candidates) {
    && (forall t, i :: t in m && 0 <= i < |m[t]| ==> m[t][i].networkType == t)
    && (forall t, i, j :: t in m && 0 <= i < j < |m[t]| ==> !Equal(m[t][i], m[t][j]))
  }

  predicate IsPair(p: Pair, local: Candidate, remote: Candidate) {
    p.local == local && p.remote == remote
  }

  /** Every pair joins a local to a remote candidate of the same network type. */
  predicate Sound(s: State) {
    forall k :: 0 <= k < |s.checklist| ==>
      && s.checklist[k].local in Of(s.local, s.checklist[k].local.networkType)
      && s.checklist[k].remote in Of(s.remote, s.checklist[k].local.networkType)
  }

  /** No two pairs join equal candidates. */
  predicate Distinct(s: State) {
    forall j, k :: 0 <= j < k < |s.checklist| ==>
      !(Equal(s.checklist[j].local, s.checklist[k].local) && Equal(s.checklist[j].remote, s.checklist[k].remote))
  }

  predicate HasPair(list: seq<Pair>, local: Candidate, remote: Candidate) {
    exists k :: 0 <= k < |list| && IsPair(list[k], local, remote)
  }

  /** Every local and remote candidate of the same network type are joined. */
  predicate Complete(s: State) {
    forall t, i, j :: t in s.local && t in s.remote && 0 <= i < |s.local[t]| && 0 <= j < |s.remote[t]| ==>
      HasPair(s.checklist, s.local[t][i], s.remote[t][j])
  }

  predicate CrossProduct(s: State) {
    Filed(s.local) && Filed(s.remote) && Sound(s) && Distinct(s) && Complete(s)
  }

  // ---------------------------------------------------------------- steps that leave it alone

  /** The same candidates, and the same pairs of them. */
  predicate SamePairs(s: State, t: State) {
    && s.local == t.local && s.remote == t.remote && |s.checklist| == |t.checklist|
    && forall k :: 0 <= k < |s.checklist| ==>
         s.checklist[k].local == t.checklist[k].local && s.checklist[k].remote == t.checklist[k].remote
  }

  lemma SameIsTransitive(s: State, t: State, u: State)
    requires SamePairs(s, t) && SamePairs(t, u)
    ensures SamePairs(s, u)
  {
  }

  lemma SameKeepsCross(s: State, t: State)
    requires CrossProduct(s) && SamePairs(s, t)
    ensures CrossProduct(t)
  {
    hide Equal;
    forall ty, i, j | ty in t.local && ty in t.remote && 0 <= i < |t.local[ty]| && 0 <= j < |t.remote[ty]|
      ensures HasPair(t.checklist, t.local[ty][i], t.remote[ty][j])
    {
      assert HasPair(s.checklist, s.local[ty][i], s.remote[ty][j]);
      var k :| 0 <= k < |s.checklist| && IsPair(s.checklist[k], s.local[ty][i], s.remote[ty][j]);
      assert IsPair(t.checklist[k], t.local[ty][i], t.remote[ty][j]);
    }
  }

  lemma {:induction false} SendAllOnlyPending(s: State, clock: Clock, remotes: seq<Candidate>, n: nat)
    requires n <= |remotes|
    ensures var t := SendAll(s, clock, remotes, n); t == s.(pending := t.pending)
  {
    if n > 0 {
      SendAllOnlyPending(s, clock, remotes, n - 1);
    }
  }

  lemma SendSame(s: State, now: nat, id: Option<TransactionId>, remote: Candidate, useCandidate: bool)
    ensures var t := Send(s, now, id, remote, useCandidate); SamePairs(s, t) && t.connection == s.connection
  {
  }

  lemma PingSame(s: State, clock: Clock)
    ensures SamePairs(s, PingAll(s, clock))
    ensures PingAll(s, clock).connection == s.connection
  {
    hide SendAll;
    var (list, remotes) := PingList(s.checklist, s.config.maxBindingRequests);
    SendAllOnlyPending(s.(checklist := list), clock, remotes, |remotes|);
  }

  lemma SetSelectedSame(s: State, i: nat)
    requires i < |s.checklist|
    ensures SamePairs(s, SetSelected(s, i))
  {
  }

  lemma SameItself(s: State)
    ensures SamePairs(s, s)
  {
  }

  /** Candidates survive unless the connection turns failed. */
  lemma ValidateSame(s: State, silence: nat)
    ensures var t := ValidateSelected(s, silence);
      s.connection == ConnectionState.Failed || t.connection != ConnectionState.Failed ==> SamePairs(s, t)
    ensures ValidateSelected(s, silence).selected == s.selected
    ensures ValidateSelected(s, silence).checklist == s.checklist
  {
  }

  lemma KeepaliveSame(s: State, clock: Clock)
    requires s.selected.Some? ==> s.selected.value < |s.checklist|
    ensures SamePairs(s, CheckKeepalive(s, clock)) && CheckKeepalive(s, clock).connection == s.connection
  {
    hide Send, SamePairs;
    SameItself(s);
    if s.selected.Some? {
      SendSame(s, clock.now, clock.ids(0), s.checklist[s.selected.value].remote, false);
    }
  }

  lemma NominateSame(s: State, clock: Clock)
    requires InBounds(s)
    ensures SamePairs(s, NominatePair(s, clock)) && NominatePair(s, clock).connection == s.connection
  {
    hide Send, SamePairs;
    SameItself(s);
    if s.nominated.Some? {
      SendSame(s, clock.now, clock.ids(0), s.checklist[s.nominated.value].remote, true);
    }
  }

  lemma ContactCandidatesSame(s: State, clock: Clock)
    requires InBounds(s)
    ensures var t := ContactCandidates(s, clock);
      s.connection == ConnectionState.Failed || t.connection != ConnectionState.Failed ==> SamePairs(s, t)
  {
    hide SamePairs, PingAll, CheckKeepalive, ValidateSelected, NominatePair, Nominate, Best;
    PingSame(s, clock);
    NominateSame(s, clock);
    ValidateSame(s, clock.silence);
    var t := ValidateSelected(s, clock.silence);
    KeepaliveSame(t, clock);
    if SamePairs(s, t) {
      SameIsTransitive(s, t, CheckKeepalive(t, clock));
    }
    var best := Best(s.checklist, Valid);
    if best.Some? {
      NominationSame(s, clock, best.value);
    }
  }

  lemma NominationSame(s: State, clock: Clock, i: nat)
    requires InBounds(s) && i < |s.checklist|
    ensures InBounds(Nominate(s, i))
    ensures var t := NominatePair(Nominate(s, i), clock); SamePairs(s, t) && t.connection == s.connection
  {
    hide NominatePair;
    NominateSame(Nominate(s, i), clock);
  }

  /** A round of checks leaves candidates and pairs alone unless it finds the connection
      failed. */
  lemma ContactSame(s: State, clock: Clock)
    requires InBounds(s)
    ensures var t := ContactSpec(s, clock);
      s.connection == ConnectionState.Failed || t.connection != ConnectionState.Failed ==> SamePairs(s, t)
  {
    hide ContactCandidates;
    if s.connection != ConnectionState.Failed {
      var s1 := if s.connection == Checking && s.lastState != Checking then s.(checkingSince := clock.now) else s;
      ContactCandidatesSame(s1, clock);
    }
  }

  lemma SuccessSame(s: State, clock: Clock, id: TransactionId, local: Candidate, remote: Candidate, source: SocketAddr)
    requires InBounds(s)
    ensures SamePairs(s, SuccessResponse(s, clock, id, local, remote, source))
  {
    hide SamePairs, FindPair, FindRequest, Unexpired, SetSelected;
    var live := Unexpired(s.pending, clock.now);
    var r := FindRequest(live, id);
    PendingSame(s, live);
    if r.Some? {
      var s1 := s.(pending := Without(live, r.value));
      PendingSame(s, Without(live, r.value));
      var i := FindPair(s.checklist, local, remote);
      if i.Some? {
        var s2 := s1.(checklist := s.checklist[i.value := s.checklist[i.value].(state := Succeeded)]);
        SucceededSame(s1, i.value);
        SameIsTransitive(s, s1, s2);
        SetSelectedSame(s2, i.value);
        SameIsTransitive(s, s2, SetSelected(s2, i.value));
      }
    }
  }

  lemma PendingSame(s: State, pending: seq<BindingRequest>)
    ensures SamePairs(s, s.(pending := pending))
  {
  }

  lemma SucceededSame(s: State, i: nat)
    requires i < |s.checklist|
    ensures SamePairs(s, s.(checklist := s.checklist[i := s.checklist[i].(state := Succeeded)]))
  {
  }

  lemma RequestSame(s: State, clock: Clock, useCandidate: bool, local: Candidate, remote: Candidate)
    requires InBounds(s) && FindPair(s.checklist, local, remote).Some?
    ensures SamePairs(s, RequestControlling(s, clock, local, remote))
    ensures SamePairs(s, RequestControlled(s, clock, useCandidate, local, remote))
  {
    hide SamePairs, FindPair, Send, SetSelected, NominatePair, Best;
    var i := FindPair(s.checklist, local, remote);
    SameItself(s);
    SendSame(s, clock.now, clock.ids(0), remote, false);
    SetSelectedSame(s, i.value);
    var t := s.(nominated := i);
    NominateSame(t, clock);
    assert SamePairs(s, t) by { NominatedSame(s, i); }
    SameIsTransitive(s, t, NominatePair(t, clock));
  }

  lemma NominatedSame(s: State, i: Option<nat>)
    ensures SamePairs(s, s.(nominated := i))
  {
  }

  /** Known candidates already form a pair, so a binding request between them adds none. */
  lemma KnownPair(s: State, local: Candidate, remote: Candidate)
    requires CrossProduct(s) && Known(Of(s.local, local.networkType), local)
    requires remote in Of(s.remote, local.networkType)
    ensures FindPair(s.checklist, local, remote).Some?
  {
    hide Filed, Sound, Distinct;
    var t := local.networkType;
    var i :| 0 <= i < |Of(s.local, t)| && Equal(Of(s.local, t)[i], local);
    var j :| 0 <= j < |Of(s.remote, t)| && Of(s.remote, t)[j] == remote;
    assert HasPair(s.checklist, s.local[t][i], s.remote[t][j]);
    FoundIfPaired(s.checklist, s.local[t][i], local, remote);
  }

  lemma FoundIfPaired(list: seq<Pair>, l: Candidate, local: Candidate, remote: Candidate)
    requires HasPair(list, l, remote) && Equal(l, local)
    ensures FindPair(list, local, remote).Some?
  {
    var k :| 0 <= k < |list| && IsPair(list[k], l, remote);
    assert Equal(list[k].local, local) && Equal(list[k].remote, remote);
  }

  lemma InboundSame(s: State, clock: Clock, m: Message, local: Candidate, source: SocketAddr)
    requires InBounds(s) && CrossProduct(s) && Known(Of(s.local, local.networkType), local)
    ensures SamePairs(s, InboundSpec(s, clock, m, local, source))
  {
    hide CrossProduct, Known, FindPair, FindAddr, SuccessResponse, RequestControlling, RequestControlled;
    var remote := FindAddr(Of(s.remote, local.networkType), source);
    if remote.Some? {
      SuccessSame(s, clock, m.id, local, remote.value, source);
      KnownPair(s, local, remote.value);
      RequestSame(s, clock, m.useCandidate, local, remote.value);
    }
  }

  // ---------------------------------------------------------------- adding candidates

  lemma FiledPush(m: Candidates, c: Candidate)
    requires Filed(m) && !Known(Of(m, c.networkType), c)
    ensures Filed(Push(m, c))
    ensures forall t :: Of(Push(m, c), t) == if t == c.networkType then Of(m, t) + [c] else Of(m, t)
  {
  }

  /** Unequal to every known candidate of its type, c is unequal to every filed one. */
  lemma FreshIsUnequal(m: Candidates, c: Candidate, d: Candidate)
    requires Filed(m) && !Known(Of(m, c.networkType), c) && d in Of(m, d.networkType)
    ensures !Equal(d, c)
  {
    var i :| 0 <= i < |Of(m, d.networkType)| && Of(m, d.networkType)[i] == d;
    assert d.networkType == c.networkType ==> !Equal(Of(m, c.networkType)[i], c);
  }

  lemma FiledMember(m: Candidates, t: NetworkType, c: Candidate)
    requires Filed(m) && c in Of(m, t)
    ensures c.networkType == t
  {
  }

  lemma OldPairStays(s: State, list: seq<Pair>, ty: NetworkType, i: nat, j: nat)
    requires Complete(s) && ty in s.local && ty in s.remote && i < |s.local[ty]| && j < |s.remote[ty]|
    requires |list| >= |s.checklist| && list[..|s.checklist|] == s.checklist
    ensures HasPair(list, s.local[ty][i], s.remote[ty][j])
  {
    assert HasPair(s.checklist, s.local[ty][i], s.remote[ty][j]);
    var k :| 0 <= k < |s.checklist| && IsPair(s.checklist[k], s.local[ty][i], s.remote[ty][j]);
    assert list[k] == list[..|s.checklist|][k];
    assert IsPair(list[k], s.local[ty][i], s.remote[ty][j]);
  }

  lemma HasPairAt(list: seq<Pair>, k: nat, local: Candidate, remote: Candidate)
    requires k < |list| && IsPair(list[k], local, remote)
    ensures HasPair(list, local, remote)
  {
  }

  lemma AddedRemotePairs(s: State, c: Candidate)
    requires !Known(Of(s.remote, c.networkType), c)
    ensures var t := AddRemoteSpec(s, c); var n, locals := |s.checklist|, Of(s.local, c.networkType);
      && |t.checklist| == n + |locals| && t.checklist[..n] == s.checklist
      && (forall k :: 0 <= k < n ==> t.checklist[k] == s.checklist[k])
      && (forall k :: n <= k < n + |locals| ==> t.checklist[k] == NewPair(locals[k - n], c, s.controlling))
  {
    hide Known;
  }

  lemma AddedRemoteSound(s: State, c: Candidate)
    requires CrossProduct(s) && !Known(Of(s.remote, c.networkType), c)
    ensures Sound(AddRemoteSpec(s, c))
  {
    hide Equal, Known, AddRemoteSpec, Filed, Distinct, Complete;
    var n, locals := |s.checklist|, Of(s.local, c.networkType);
    var t := AddRemoteSpec(s, c);
    AddedRemotePairs(s, c);
    FiledPush(s.remote, c);
    AddRemoteFiles(s, c);
    forall k | 0 <= k < |t.checklist|
      ensures t.checklist[k].local in Of(t.local, t.checklist[k].local.networkType)
      ensures t.checklist[k].remote in Of(t.remote, t.checklist[k].local.networkType)
    {
      if k >= n {
        assert t.checklist[k] == NewPair(locals[k - n], c, s.controlling);
        FiledMember(s.local, c.networkType, locals[k - n]);
        assert (Of(s.remote, c.networkType) + [c])[|Of(s.remote, c.networkType)|] == c;
      }
    }
  }

  lemma AddRemoteFiles(s: State, c: Candidate)
    requires !Known(Of(s.remote, c.networkType), c)
    ensures var t := AddRemoteSpec(s, c); t.remote == Push(s.remote, c) && t.local == s.local
  {
    hide Known, Pairs, Push;
  }

  lemma AddedRemoteDistinct(s: State, c: Candidate)
    requires CrossProduct(s) && !Known(Of(s.remote, c.networkType), c)
    ensures Distinct(AddRemoteSpec(s, c))
  {
    hide Equal, Known, AddRemoteSpec, Complete;
    var n, locals := |s.checklist|, Of(s.local, c.networkType);
    var t := AddRemoteSpec(s, c);
    AddedRemotePairs(s, c);
    forall j, k | 0 <= j < k < |t.checklist|
      ensures !(Equal(t.checklist[j].local, t.checklist[k].local) && Equal(t.checklist[j].remote, t.checklist[k].remote))
    {
      if k < n {
        assert t.checklist[j] == s.checklist[j] && t.checklist[k] == s.checklist[k];
      } else {
        assert t.checklist[k] == NewPair(locals[k - n], c, s.controlling);
        if j < n {
          assert t.checklist[j] == s.checklist[j];
          FiledMember(s.remote, s.checklist[j].local.networkType, s.checklist[j].remote);
          FreshIsUnequal(s.remote, c, s.checklist[j].remote);
        } else {
          assert t.checklist[j] == NewPair(locals[j - n], c, s.controlling);
        }
      }
    }
  }

  lemma AddedRemoteComplete(s: State, c: Candidate)
    requires CrossProduct(s) && !Known(Of(s.remote, c.networkType), c)
    ensures Complete(AddRemoteSpec(s, c))
  {
    hide Equal, Known, AddRemoteSpec, Filed, Distinct, Sound, HasPair;
    var n := |s.checklist|;
    var t := AddRemoteSpec(s, c);
    AddedRemotePairs(s, c);
    AddRemoteFiles(s, c);
    FiledPush(s.remote, c);
    forall ty, i, j | ty in t.local && ty in t.remote && 0 <= i < |t.local[ty]| && 0 <= j < |t.remote[ty]|
      ensures HasPair(t.checklist, t.local[ty][i], t.remote[ty][j])
    {
      assert t.remote[ty] == Of(t.remote, ty);
      if j < |Of(s.remote, ty)| {
        OldPairStays(s, t.checklist, ty, i, j);
      } else {
        HasPairAt(t.checklist, n + i, t.local[ty][i], t.remote[ty][j]);
      }
    }
  }

  lemma AddRemoteKeepsCross(s: State, c: Candidate)
    requires CrossProduct(s)
    ensures CrossProduct(AddRemoteSpec(s, c))
  {
    hide Known, Filed, Sound, Distinct, Complete, Push, Pairs;
    if !Known(Of(s.remote, c.networkType), c) {
      FiledPush(s.remote, c);
      AddedRemoteSound(s, c);
      AddedRemoteDistinct(s, c);
      AddedRemoteComplete(s, c);
    }
  }

  lemma AddedLocalPairs(s: State, c: Candidate)
    requires !Known(Of(s.local, c.networkType), c)
    ensures var t := AddLocalSpec(s, c); var n, remotes := |s.checklist|, Of(s.remote, c.networkType);
      && |t.checklist| == n + |remotes| && t.checklist[..n] == s.checklist
      && (forall k :: 0 <= k < n ==> t.checklist[k] == s.checklist[k])
      && (forall k :: n <= k < n + |remotes| ==> t.checklist[k] == NewPair(c, remotes[k - n], s.controlling))
  {
    hide Known;
  }

  lemma AddedLocalSound(s: State, c: Candidate)
    requires CrossProduct(s) && !Known(Of(s.local, c.networkType), c)
    ensures Sound(AddLocalSpec(s, c))
  {
    hide Equal, Known, AddLocalSpec, Filed, Distinct, Complete;
    var n, remotes := |s.checklist|, Of(s.remote, c.networkType);
    var t := AddLocalSpec(s, c);
    AddedLocalPairs(s, c);
    FiledPush(s.local, c);
    AddLocalFiles(s, c);
    forall k | 0 <= k < |t.checklist|
      ensures t.checklist[k].local in Of(t.local, t.checklist[k].local.networkType)
      ensures t.checklist[k].remote in Of(t.remote, t.checklist[k].local.networkType)
    {
      if k >= n {
        assert t.checklist[k] == NewPair(c, remotes[k - n], s.controlling);
        assert (Of(s.local, c.networkType) + [c])[|Of(s.local, c.networkType)|] == c;
      }
    }
  }

  lemma AddLocalFiles(s: State, c: Candidate)
    requires !Known(Of(s.local, c.networkType), c)
    ensures var t := AddLocalSpec(s, c); t.local == Push(s.local, c) && t.remote == s.remote
  {
    hide Known, Pairs, Push;
  }

  lemma AddedLocalDistinct(s: State, c: Candidate)
    requires CrossProduct(s) && !Known(Of(s.local, c.networkType), c)
    ensures Distinct(AddLocalSpec(s, c))
  {
    hide Equal, Known, AddLocalSpec, Complete;
    var n, remotes := |s.checklist|, Of(s.remote, c.networkType);
    var t := AddLocalSpec(s, c);
    AddedLocalPairs(s, c);
    forall j, k | 0 <= j < k < |t.checklist|
      ensures !(Equal(t.checklist[j].local, t.checklist[k].local) && Equal(t.checklist[j].remote, t.checklist[k].remote))
    {
      if k < n {
        assert t.checklist[j] == s.checklist[j] && t.checklist[k] == s.checklist[k];
      } else {
        assert t.checklist[k] == NewPair(c, remotes[k - n], s.controlling);
        if j < n {
          assert t.checklist[j] == s.checklist[j];
          FreshIsUnequal(s.local, c, s.checklist[j].local);
        } else {
          assert t.checklist[j] == NewPair(c, remotes[j - n], s.controlling);
        }
      }
    }
  }

  lemma AddedLocalComplete(s: State, c: Candidate)
    requires CrossProduct(s) && !Known(Of(s.local, c.networkType), c)
    ensures Complete(AddLocalSpec(s, c))
  {
    hide Equal, Known, AddLocalSpec, Filed, Distinct, Sound, HasPair, Push, NewPair;
    var n := |s.checklist|;
    var t := AddLocalSpec(s, c);
    AddedLocalPairs(s, c);
    AddLocalFiles(s, c);
    FiledPush(s.local, c);
    forall ty, i, j | ty in t.local && ty in t.remote && 0 <= i < |t.local[ty]| && 0 <= j < |t.remote[ty]|
      ensures HasPair(t.checklist, t.local[ty][i], t.remote[ty][j])
    {
      assert t.local[ty] == Of(t.local, ty);
      if i < |Of(s.local, ty)| {
        OldPairStays(s, t.checklist, ty, i, j);
      } else {
        NewPairIsPair(c, t.remote[ty][j], s.controlling);
        HasPairAt(t.checklist, n + j, t.local[ty][i], t.remote[ty][j]);
      }
    }
  }

  lemma NewPairIsPair(local: Candidate, remote: Candidate, controlling: bool)
    ensures IsPair(NewPair(local, remote, controlling), local, remote)
  {
  }

  lemma AddLocalKeepsCross(s: State, c: Candidate)
    requires CrossProduct(s)
    ensures CrossProduct(AddLocalSpec(s, c))
  {
    hide Known, Filed, Sound, Distinct, Complete, Push, Pairs;
    if !Known(Of(s.local, c.networkType), c) {
      FiledPush(s.local, c);
      AddedLocalSound(s, c);
      AddedLocalDistinct(s, c);
      AddedLocalComplete(s, c);
    }
  }

  // ---------------------------------------------------------------- runs

  /** Messages arrive on the sockets of known local candidates. */
  predicate Possible(s: State, e: Event) {
    Enabled(s, e) && (e.Inbound? ==> Known(Of(s.local, e.local.networkType), e.local))
  }

  /** The candidates are deleted when the connection fails and when the agent is closed. */
  predicate Deletes(s: State, e: Event, t: State) {
    || (s.connection != ConnectionState.Failed && t.connection == ConnectionState.Failed)
    || (e.Close? && !s.closed)
  }

  lemma StepKeepsCross(s: State, e: Event)
    requires Safe(s) && Possible(s, e)
    requires CrossProduct(s) && !Deletes(s, e, Step(s, e))
    ensures CrossProduct(Step(s, e))
  {
    hide CrossProduct, AddLocalSpec, AddRemoteSpec, ContactSpec, InboundSpec, Safe, Known;
    match e
    case AddLocal(c) => AddLocalKeepsCross(s, c);
    case AddRemote(c) => AddRemoteKeepsCross(s, c);
    case Start(now, controlling, ufrag, pwd) => SameKeepsCross(s, Step(s, e));
    case Contact(clock) =>
      ContactSame(s, clock);
      SameKeepsCross(s, Step(s, e));
    case Inbound(clock, m, local, source) =>
      InboundSame(s, clock, m, local, source);
      SameKeepsCross(s, Step(s, e));
    case Restart(now, ufrag, pwd, gathering) =>
      if RestartSpec(s, now, ufrag, pwd, gathering).1.Ok? {
        RestartIsCross(s, e);
      }
    case Close =>
  }

  /** A restart begins with an empty, hence complete, checklist. */
  lemma RestartIsCross(s: State, e: Event)
    requires Restarts(s, e)
    ensures CrossProduct(RestartSpec(s, e.now, e.ufrag, e.pwd, e.gathering).0)
  {
  }

  /** A run, with a mark that the candidates were deleted since the beginning or since the last
      successful restart. */
  function Track(s: State, deleted: bool, events: seq<Event>): (State, bool)
    requires Safe(s)
    decreases |events|
  {
    if events == [] || !Possible(s, events[0]) then (s, deleted)
    else
      StepKeeps(s, events[0]);
      var t := Step(s, events[0]);
      Track(t, !Restarts(s, events[0]) && (deleted || Deletes(s, events[0], t)), events[1..])
  }

  /** In every run, in any order and with duplicates, the checklist is the cross product of the
      candidates until these are deleted, and again from the next restart on. */
  lemma {:induction false} ChecklistIsCrossProduct(s: State, deleted: bool, events: seq<Event>)
    requires Safe(s) && (!deleted ==> CrossProduct(s))
    ensures !Track(s, deleted, events).1 ==> CrossProduct(Track(s, deleted, events).0)
    decreases |events|
  {
    hide Safe, CrossProduct, Step, Deletes, Restarts, Enabled, Known;
    if events != [] && Possible(s, events[0]) {
      var e := events[0];
      StepKeeps(s, e);
      var t := Step(s, e);
      if Restarts(s, e) {
        RestartStep(s, e);
      } else if !deleted && !Deletes(s, e, t) {
        StepKeepsCross(s, e);
      }
      ChecklistIsCrossProduct(t, !Restarts(s, e) && (deleted || Deletes(s, e, t)), events[1..]);
    }
  }

  lemma RestartStep(s: State, e: Event)
    requires Safe(s) && Restarts(s, e)
    ensures CrossProduct(Step(s, e))
  {
    RestartIsCross(s, e);
  }

  /** A new agent has no candidates, and so its checklist is complete. */
  lemma FreshAgentIsCrossProduct(config: Config, controlling: bool, events: seq<Event>)
    ensures Safe(Initial(config, controlling))
    ensures var (s, deleted) := Track(Initial(config, controlling), false, events); !deleted ==> CrossProduct(s)
  {
    InitialIsSafe(config, controlling);
    ChecklistIsCrossProduct(Initial(config, controlling), false, events);
  }

  // ---------------------------------------------------------------- which pair is nominated

  /** Only a controlling agent nominates, and in every step it nominates the best pair: on a
      timer the earliest best of the succeeded ones, on a binding request the requested pair,
      if that is the earliest best of all that have not failed. Both of its candidates have
      waited long enough. */
  lemma NominatesOnlyTheBest(s: State, e: Event)
    requires Safe(s) && Possible(s, e) && CrossProduct(s)
    requires s.nominated.None? && Step(s, e).nominated.Some?
    ensures s.controlling && s.selected.None? && (e.Contact? || e.Inbound?)
    ensures var i := Step(s, e).nominated.value;
      && i < |s.checklist| && s.checklist[i].state == Succeeded
      && PairNominatable(s.startTime, s.config.hostAcceptanceMinWait, e.clock.now, s.checklist[i])
      && EarliestBest(s.checklist, if e.Contact? then Valid else Available, i)
  {
    hide Safe, CrossProduct, Known, PingAll, CheckKeepalive, ValidateSelected, Best, FindAddr, AddLocalSpec,
      AddRemoteSpec;
    match e
    case AddLocal(c) => AddsNominateNone(s, c);
    case AddRemote(c) => AddsNominateNone(s, c);
    case Contact(clock) => ContactNominates(s, clock);
    case Inbound(clock, m, local, source) => InboundNominates(s, clock, m, local, source);
    case Start(_, _, _, _) =>
    case Restart(_, _, _, _) =>
    case Close =>
  }

  lemma AddsNominateNone(s: State, c: Candidate)
    ensures AddLocalSpec(s, c).nominated == s.nominated && AddRemoteSpec(s, c).nominated == s.nominated
  {
    hide Known, Pairs, Push;
  }

  lemma ContactNominates(s: State, clock: Clock)
    requires InBounds(s) && s.nominated.None? && ContactSpec(s, clock).nominated.Some?
    ensures s.controlling && s.selected.None?
    ensures var i := ContactSpec(s, clock).nominated.value;
      && EarliestBest(s.checklist, Valid, i)
      && PairNominatable(s.startTime, s.config.hostAcceptanceMinWait, clock.now, s.checklist[i])
  {
    hide ContactCandidates, EarliestBest, PairNominatable;
    var s1 := if s.connection == Checking && s.lastState != Checking then s.(checkingSince := clock.now) else s;
    CandidatesNominate(s1, clock);
  }

  lemma CandidatesNominate(s: State, clock: Clock)
    requires InBounds(s) && s.nominated.None?
    ensures ContactCandidates(s, clock).nominated.Some? ==>
      && s.controlling && s.selected.None?
      && var i := ContactCandidates(s, clock).nominated.value;
         && EarliestBest(s.checklist, Valid, i)
         && PairNominatable(s.startTime, s.config.hostAcceptanceMinWait, clock.now, s.checklist[i])
  {
    hide PingAll, CheckKeepalive, ValidateSelected, Best, Send, PairNominatable;
    OthersNominateNone(s, clock);
  }

  lemma OthersNominateNone(s: State, clock: Clock)
    requires InBounds(s)
    ensures PingAll(s, clock).nominated == s.nominated
    ensures ValidateSelected(s, clock.silence).nominated == s.nominated
    ensures InBounds(ValidateSelected(s, clock.silence))
    ensures CheckKeepalive(ValidateSelected(s, clock.silence), clock).nominated == s.nominated
    ensures forall t: State, id, r: Candidate, u :: Send(t, clock.now, id, r, u).nominated == t.nominated
  {
    hide PingList, SendAll, Unexpired;
    var (list, remotes) := PingList(s.checklist, s.config.maxBindingRequests);
    SendAllOnlyPending(s.(checklist := list), clock, remotes, |remotes|);
  }

  lemma InboundNominates(s: State, clock: Clock, m: Message, local: Candidate, source: SocketAddr)
    requires InBounds(s) && CrossProduct(s) && s.nominated.None? && InboundSpec(s, clock, m, local, source).nominated.Some?
    ensures s.controlling && s.selected.None?
    ensures var i := InboundSpec(s, clock, m, local, source).nominated.value;
      && i < |s.checklist| && s.checklist[i].state == Succeeded
      && EarliestBest(s.checklist, Available, i)
      && PairNominatable(s.startTime, s.config.hostAcceptanceMinWait, clock.now, s.checklist[i])
  {
    hide CrossProduct, PairNominatable, FindAddr, EarliestBest, SuccessResponse, RequestControlling, RequestControlled;
    var remote := FindAddr(Of(s.remote, local.networkType), source).value;
    ResponseNominatesNone(s, clock, m.id, local, remote, source);
    ControlledNominatesNone(s, clock, m.useCandidate, local, remote);
    if RequestControlling(s, clock, local, remote).nominated.Some? {
      RequestNominates(s, clock, local, remote);
    }
  }

  lemma ResponseNominatesNone(s: State, clock: Clock, id: TransactionId, local: Candidate, remote: Candidate,
                              source: SocketAddr)
    requires InBounds(s)
    ensures SuccessResponse(s, clock, id, local, remote, source).nominated == s.nominated
  {
    hide Unexpired, FindRequest, FindPair, SetSelected;
    var live := Unexpired(s.pending, clock.now);
    var r, i := FindRequest(live, id), FindPair(s.checklist, local, remote);
    if r.Some? && i.Some? {
      var list := s.checklist[i.value := s.checklist[i.value].(state := Succeeded)];
      SelectingNominatesNone(s.(pending := Without(live, r.value), checklist := list), i.value);
    }
  }

  lemma ControlledNominatesNone(s: State, clock: Clock, useCandidate: bool, local: Candidate, remote: Candidate)
    requires InBounds(s)
    ensures RequestControlled(s, clock, useCandidate, local, remote).nominated == s.nominated
  {
    hide Send, SetSelected, FindPair;
    var s1 := if FindPair(s.checklist, local, remote).Some? then s
              else s.(checklist := s.checklist + [NewPair(local, remote, s.controlling)]);
    var i := FindPair(s1.checklist, local, remote);
    SendNominates(s1, clock.now, clock.ids(0), remote, false);
    if i.Some? {
      SelectingNominatesNone(s1, i.value);
    }
  }

  lemma SendNominates(s: State, now: nat, id: Option<TransactionId>, remote: Candidate, useCandidate: bool)
    ensures Send(s, now, id, remote, useCandidate).nominated == s.nominated
  {
  }

  lemma SelectingNominatesNone(s: State, i: nat)
    requires i < |s.checklist|
    ensures SetSelected(s, i).nominated == s.nominated
  {
  }

  lemma RequestNominates(s: State, clock: Clock, local: Candidate, remote: Candidate)
    requires InBounds(s) && CrossProduct(s) && s.nominated.None? && RequestControlling(s, clock, local, remote).nominated.Some?
    ensures s.selected.None?
    ensures var i := RequestControlling(s, clock, local, remote).nominated.value;
      && i < |s.checklist| && s.checklist[i].state == Succeeded
      && EarliestBest(s.checklist, Available, i)
      && PairNominatable(s.startTime, s.config.hostAcceptanceMinWait, clock.now, s.checklist[i])
  {
    hide Best, Send, PairNominatable, FindPair, Filed, Sound, Complete, Distinct, Equal, PairPriority;
    var i := FindPair(s.checklist, local, remote).value;
    var j := Best(s.checklist, Available).value;
    SamePlace(s, i, j);
    SendNominates(s.(nominated := Some(i)), clock.now, clock.ids(0), s.checklist[i].remote, true);
  }

  lemma SamePlace(s: State, i: nat, j: nat)
    requires Distinct(s) && i < |s.checklist| && j < |s.checklist|
    requires Equal(s.checklist[j].local, s.checklist[i].local) && Equal(s.checklist[j].remote, s.checklist[i].remote)
    ensures i == j
  {
  }

  // ---------------------------------------------------------------- which pair is selected

  lemma FoundExactly(s: State, local: Candidate, remote: Candidate, i: nat)
    requires Distinct(s) && i < |s.checklist|
    ensures FindPair(s.checklist, local, remote) == Some(i) <==>
      Equal(s.checklist[i].local, local) && Equal(s.checklist[i].remote, remote)
  {
    var f := FindPair(s.checklist, local, remote);
    if Equal(s.checklist[i].local, local) && Equal(s.checklist[i].remote, remote) {
      if f.value < i {
        assert Equal(s.checklist[f.value].local, s.checklist[i].local);
      }
    }
  }

  /** A controlling agent selects in one way: on a response that comes back from the address of
      the nominated pair. It selects the nominated pair exactly when that is the pair of the
      local candidate it was read on and the remote one found; when no two pairs are equal,
      when these are the nominated pair's. */
  lemma SelectsTheNominatedExactly(s: State, e: Event)
    requires Safe(s) && Enabled(s, e) && s.controlling
    requires s.selected.None? && Step(s, e).selected.Some?
    ensures e.Inbound? && s.nominated.Some? && Step(s, e).nominated == s.nominated
    ensures var remote := FindAddr(Of(s.remote, e.local.networkType), e.source); var p := s.checklist[s.nominated.value];
      && remote.Some? && remote.value.Addr() == p.remote.Addr()
      && (Step(s, e).selected == s.nominated <==> FindPair(s.checklist, e.local, remote.value) == s.nominated)
      && (Distinct(s) ==>
            (Step(s, e).selected == s.nominated <==> Equal(p.local, e.local) && Equal(p.remote, remote.value)))
  {
    hide Distinct, Known, Safe, PairPriority, FindAddr, FindPair, Equal, SuccessResponse, RequestControlling,
      AddLocalSpec, AddRemoteSpec, ContactSpec, Keeps;
    StepKeeps(s, e);
    SafeMeans(s);
    match e {
      case AddLocal(c) => AddsSelectNone(s, c);
      case AddRemote(c) => AddsSelectNone(s, c);
      case Contact(clock) => ContactSelectsNone(s, clock);
      case Inbound(clock, m, local, source) =>
        var remote := FindAddr(Of(s.remote, local.networkType), source).value;
        RequestSelectsNone(s, clock, local, remote);
        ResponseSelects(s, clock, m.id, local, remote);
      case Start(_, _, _, _) =>
      case Restart(_, _, _, _) =>
      case Close =>
    }
  }

  lemma SafeMeans(s: State)
    requires Safe(s)
    ensures InBounds(s)
  {
  }

  lemma AddsSelectNone(s: State, c: Candidate)
    ensures AddLocalSpec(s, c).selected == s.selected && AddRemoteSpec(s, c).selected == s.selected
  {
    hide Known, Pairs, Push;
  }

  lemma ContactSelectsNone(s: State, clock: Clock)
    requires InBounds(s)
    ensures ContactSpec(s, clock).selected == s.selected
  {
    hide ContactCandidates;
    if s.connection != ConnectionState.Failed {
      var s1 := if s.connection == Checking && s.lastState != Checking then s.(checkingSince := clock.now) else s;
      CandidatesSelectNone(s1, clock);
    }
  }

  lemma CandidatesSelectNone(s: State, clock: Clock)
    requires InBounds(s)
    ensures ContactCandidates(s, clock).selected == s.selected
  {
    hide PingAll, CheckKeepalive, ValidateSelected, NominatePair, Best, PairNominatable;
    PingSelectsNone(s, clock);
    ValidateSame(s, clock.silence);
    SendingSelectsNone(s, clock);
    SendingSelectsNone(ValidateSelected(s, clock.silence), clock);
    var best := Best(s.checklist, Valid);
    if best.Some? {
      SendingSelectsNone(Nominate(s, best.value), clock);
    }
  }

  lemma SendingSelectsNone(s: State, clock: Clock)
    requires s.selected.Some? ==> s.selected.value < |s.checklist|
    ensures CheckKeepalive(s, clock).selected == s.selected
    ensures InBounds(s) ==> NominatePair(s, clock).selected == s.selected
  {
    hide Unexpired;
  }

  lemma PingSelectsNone(s: State, clock: Clock)
    ensures PingAll(s, clock).selected == s.selected
  {
    hide SendAll;
    var (list, remotes) := PingList(s.checklist, s.config.maxBindingRequests);
    SendAllOnlyPending(s.(checklist := list), clock, remotes, |remotes|);
  }

  lemma RequestSelectsNone(s: State, clock: Clock, local: Candidate, remote: Candidate)
    requires InBounds(s)
    ensures RequestControlling(s, clock, local, remote).selected == s.selected
  {
    hide FindPair, Best, Unexpired, PairNominatable;
  }

  lemma ResponseSelects(s: State, clock: Clock, id: TransactionId, local: Candidate, remote: Candidate)
    requires Safe(s) && s.controlling && s.selected.None?
    ensures var t := SuccessResponse(s, clock, id, local, remote, remote.Addr());
      t.selected.Some? ==>
        && s.nominated.Some? && t.nominated == s.nominated
        && var p := s.checklist[s.nominated.value];
           && remote.Addr() == p.remote.Addr()
           && (t.selected == s.nominated <==> FindPair(s.checklist, local, remote) == s.nominated)
           && (Distinct(s) ==> (t.selected == s.nominated <==> Equal(p.local, local) && Equal(p.remote, remote)))
  {
    hide Unexpired, FindRequest, FindPair, Distinct, Equal, Safe;
    SafeMeans(s);
    var live := Unexpired(s.pending, clock.now);
    UnexpiredSubset(s.pending, clock.now);
    var r := FindRequest(live, id);
    var i := FindPair(s.checklist, local, remote);
    if r.Some? && i.Some? && live[r.value].isUseCandidate {
      PendingFits(s, live[r.value]);
      if Distinct(s) {
        FoundExactly(s, local, remote, s.nominated.value);
      }
    }
  }
}
