/** The ICE agent: candidates, checklist, pending requests and the nominated and selected pair,
    and the handlers that change them. Each handler is one atomic step. */
module IceAgent {
  import opened Bytes
  import opened Wrappers
  import opened IceCandidate

  const MAX_BINDING_REQUEST_TIMEOUT: nat := 4000

  type TransactionId = nat

  datatype ConnectionState = New | Checking | Connected | Completed | Failed | Disconnected | Closed | Unspecified

  datatype Error =
    | ErrMultipleStart
    | ErrRemoteUfragEmpty
    | ErrRemotePwdEmpty
    | ErrLocalUfragInsufficientBits
    | ErrLocalPwdInsufficientBits
    | ErrRestartWhenGathering
    | ErrClosed

  /** What does not change once the agent is made; durations are milliseconds. */
  datatype Config = Config(
    lite: bool,
    maxBindingRequests: U16,
    hostAcceptanceMinWait: nat,
    disconnectedTimeout: nat,
    failedTimeout: nat,
    keepaliveInterval: nat)

  datatype BindingRequest = BindingRequest(
    timestamp: nat,
    transactionId: TransactionId,
    destination: SocketAddr,
    isUseCandidate: bool)

  type Candidates = map<NetworkType, seq<Candidate>>

  /** The nominated and the selected pair are places in the checklist, whose pairs are shared. */
  datatype State = State(
    config: Config,
    started: bool,
    closed: bool,
    controlling: bool,
    startTime: nat,
    nominated: Option<nat>,
    selected: Option<nat>,
    connection: ConnectionState,
    local: Candidates,
    remote: Candidates,
    pending: seq<BindingRequest>,
    checklist: seq<Pair>,
    lastState: ConnectionState,
    checkingSince: nat)

  /** What a step reads of the outside: the time, how long ago the selected pair's candidates
      were heard and used, and the ids of the requests it builds, none when one cannot be
      built. */
  datatype Clock = Clock(now: nat, silence: nat, idle: nat, ids: nat -> Option<TransactionId>)

  // ---------------------------------------------------------------- candidates and checklist

  function Of(m: Candidates, t: NetworkType): seq<Candidate> {
    if t in m then m[t] else []
  }

  predicate Known(cands: seq<Candidate>, c: Candidate) {
    exists i :: 0 <= i < |cands| && Equal(cands[i], c)
  }

  function Push(m: Candidates, c: Candidate): Candidates {
    m[c.networkType := Of(m, c.networkType) + [c]]
  }

  function Pairs(locals: seq<Candidate>, remotes: seq<Candidate>, controlling: bool): seq<Pair>
    requires |locals| == |remotes|
  {
    seq(|locals|, i requires 0 <= i < |locals| => NewPair(locals[i], remotes[i], controlling))
  }

  function Repeat(c: Candidate, n: nat): (r: seq<Candidate>)
    ensures |r| == n
  {
    seq(n, _ => c)
  }

  function AddRemoteSpec(s: State, c: Candidate): State {
    if Known(Of(s.remote, c.networkType), c) then s
    else
      var locals := Of(s.local, c.networkType);
      s.(remote := Push(s.remote, c),
         checklist := s.checklist + Pairs(locals, Repeat(c, |locals|), s.controlling))
  }

  function AddLocalSpec(s: State, c: Candidate): State {
    if Known(Of(s.local, c.networkType), c) then s
    else
      var remotes := Of(s.remote, c.networkType);
      s.(local := Push(s.local, c),
         checklist := s.checklist + Pairs(Repeat(c, |remotes|), remotes, s.controlling))
  }

  /** The first pair of equal candidates. */
  function FindPair(list: seq<Pair>, local: Candidate, remote: Candidate): (i: Option<nat>)
    ensures i.Some? ==>
      && i.value < |list|
      && Equal(list[i.value].local, local) && Equal(list[i.value].remote, remote)
      && forall j :: 0 <= j < i.value ==> !(Equal(list[j].local, local) && Equal(list[j].remote, remote))
    ensures i.None? ==> forall j :: 0 <= j < |list| ==> !(Equal(list[j].local, local) && Equal(list[j].remote, remote))
  {
    if list == [] then None
    else if Equal(list[0].local, local) && Equal(list[0].remote, remote) then Some(0)
    else
      match FindPair(list[1..], local, remote)
      case None => None
      case Some(i) => Some(i + 1)
  }

  predicate FirstAtAddr(cands: seq<Candidate>, addr: SocketAddr, i: nat)
    requires i < |cands|
  {
    cands[i].Addr() == addr && forall j :: 0 <= j < i ==> cands[j].Addr() != addr
  }

  /** The first remote candidate at the address. */
  function FindAddr(cands: seq<Candidate>, addr: SocketAddr): (c: Option<Candidate>)
    ensures c.Some? ==>
      c.value in cands && c.value.Addr() == addr && exists i :: 0 <= i < |cands| && FirstAtAddr(cands, addr, i) && cands[i] == c.value
    ensures c.None? ==> forall i :: 0 <= i < |cands| ==> cands[i].Addr() != addr
  {
    if cands == [] then None
    else if cands[0].Addr() == addr then Some(cands[0])
    else FindAddr(cands[1..], addr)
  }

  // ---------------------------------------------------------------- connection state

  function UpdateConnection(s: State, c: ConnectionState): State {
    if s.connection == c then s
    else if c == ConnectionState.Failed then s.(local := map[], remote := map[], connection := c)
    else s.(connection := c)
  }

  function SetSelected(s: State, i: nat): State
    requires i < |s.checklist|
  {
    UpdateConnection(s.(checklist := s.checklist[i := s.checklist[i].(nominated := true)], selected := Some(i)), Connected)
  }

  function ValidateSelected(s: State, silence: nat): State {
    if s.selected.None? then s
    else
      var c := s.config;
      var total := if c.failedTimeout != 0 then c.failedTimeout + c.disconnectedTimeout else 0;
      UpdateConnection(s, if total != 0 && silence > total then ConnectionState.Failed
                          else if c.disconnectedTimeout != 0 && silence > c.disconnectedTimeout then Disconnected
                          else Connected)
  }

  // ---------------------------------------------------------------- pending requests

  function Unexpired(pending: seq<BindingRequest>, now: nat): seq<BindingRequest> {
    if pending == [] then []
    else
      (if now < pending[0].timestamp + MAX_BINDING_REQUEST_TIMEOUT then [pending[0]] else [])
      + Unexpired(pending[1..], now)
  }

  function FindRequest(pending: seq<BindingRequest>, id: TransactionId): (i: Option<nat>)
    ensures i.Some? ==>
      && i.value < |pending| && pending[i.value].transactionId == id
      && forall j :: 0 <= j < i.value ==> pending[j].transactionId != id
    ensures i.None? ==> forall j :: 0 <= j < |pending| ==> pending[j].transactionId != id
  {
    if pending == [] then None
    else if pending[0].transactionId == id then Some(0)
    else
      match FindRequest(pending[1..], id)
      case None => None
      case Some(i) => Some(i + 1)
  }

  function Without(pending: seq<BindingRequest>, i: nat): seq<BindingRequest>
    requires i < |pending|
  {
    pending[..i] + pending[i + 1..]
  }

  /** A request is remembered with its destination, if it could be built. */
  function Send(s: State, now: nat, id: Option<TransactionId>, remote: Candidate, useCandidate: bool): State {
    if id.None? then s
    else s.(pending := Unexpired(s.pending, now) + [BindingRequest(now, id.value, remote.Addr(), useCandidate)])
  }

  // ---------------------------------------------------------------- checks

  function PingOne(p: Pair, max: U16): (Pair, bool) {
    if p.state != Waiting && p.state != InProgress then (p, false)
    else if p.requests > max then (p.(state := PairState.Failed), false)
    else (p.(state := InProgress, requests := (p.requests + 1) % 0x1_0000), true)
  }

  /** The checklist after a round of checks, and the remote candidates to be pinged. */
  function PingList(list: seq<Pair>, max: U16): (r: (seq<Pair>, seq<Candidate>))
    ensures |r.0| == |list|
    ensures forall i :: 0 <= i < |list| ==> r.0[i] == PingOne(list[i], max).0
  {
    if list == [] then ([], [])
    else
      var n := |list| - 1;
      var (done, pings) := PingList(list[..n], max);
      var (p, ping) := PingOne(list[n], max);
      (done + [p], if ping then pings + [list[n].remote] else pings)
  }

  /** The requests for the first n of the candidates. */
  function SendAll(s: State, clock: Clock, remotes: seq<Candidate>, n: nat): State
    requires n <= |remotes|
  {
    if n == 0 then s
    else Send(SendAll(s, clock, remotes, n - 1), clock.now, clock.ids(n - 1), remotes[n - 1], false)
  }

  function PingAll(s: State, clock: Clock): State {
    var (list, remotes) := PingList(s.checklist, s.config.maxBindingRequests);
    SendAll(s.(checklist := list), clock, remotes, |remotes|)
  }

  function CheckKeepalive(s: State, clock: Clock): State
    requires s.selected.Some? ==> s.selected.value < |s.checklist|
  {
    var interval := s.config.keepaliveInterval;
    if s.selected.Some? && interval != 0 && (clock.idle > interval || clock.silence > interval) then
      Send(s, clock.now, clock.ids(0), s.checklist[s.selected.value].remote, false)
    else s
  }

  predicate IsNominatable(startTime: nat, minWait: nat, now: nat, c: Candidate) {
    c.typ.Host? && now > startTime + minWait
  }

  predicate PairNominatable(startTime: nat, minWait: nat, now: nat, p: Pair) {
    IsNominatable(startTime, minWait, now, p.local) && IsNominatable(startTime, minWait, now, p.remote)
  }

  function NominatePair(s: State, clock: Clock): State
    requires s.nominated.Some? ==> s.nominated.value < |s.checklist|
  {
    if s.nominated.None? then s
    else Send(s, clock.now, clock.ids(0), s.checklist[s.nominated.value].remote, true)
  }

  /** The nominated and the selected pair are in the checklist. */
  predicate InBounds(s: State) {
    && (s.nominated.Some? ==> s.nominated.value < |s.checklist|)
    && (s.selected.Some? ==> s.selected.value < |s.checklist|)
  }

  function Nominate(s: State, i: nat): State
    requires i < |s.checklist|
  {
    s.(nominated := Some(i), checklist := s.checklist[i := s.checklist[i].(nominated := true)])
  }

  function ContactControlling(s: State, clock: Clock): State
    requires InBounds(s)
  {
    if s.selected.Some? then CheckKeepalive(ValidateSelected(s, clock.silence), clock)
    else if s.nominated.Some? then NominatePair(s, clock)
    else
      var best := Best(s.checklist, Valid);
      if best.Some? && PairNominatable(s.startTime, s.config.hostAcceptanceMinWait, clock.now, s.checklist[best.value]) then
        NominatePair(Nominate(s, best.value), clock)
      else PingAll(s, clock)
  }

  function ContactControlled(s: State, clock: Clock): State
    requires InBounds(s)
  {
    if s.config.lite then ValidateSelected(s, clock.silence)
    else if s.selected.Some? then CheckKeepalive(ValidateSelected(s, clock.silence), clock)
    else PingAll(s, clock)
  }

  function ContactCandidates(s: State, clock: Clock): State
    requires InBounds(s)
  {
    if s.controlling then ContactControlling(s, clock) else ContactControlled(s, clock)
  }

  /** One round of the check loop. */
  function ContactSpec(s: State, clock: Clock): State
    requires InBounds(s)
  {
    if s.connection == ConnectionState.Failed then s.(lastState := ConnectionState.Failed)
    else
      var s1 := if s.connection == Checking && s.lastState != Checking then s.(checkingSince := clock.now) else s;
      if s1.connection == Checking
         && clock.now > s1.checkingSince + s1.config.disconnectedTimeout + s1.config.failedTimeout then
        UpdateConnection(s1, ConnectionState.Failed).(lastState := ConnectionState.Failed)
      else
        var s2 := ContactCandidates(s1, clock);
        s2.(lastState := s2.connection)
  }

  // ---------------------------------------------------------------- inbound messages

  datatype Class = Request | Success | Indication | OtherClass

  /** A decoded binding message: its class, the attributes that are looked at, its transaction,
      and whether username and message integrity were found right. */
  datatype Message = Message(
    binding: bool,
    class_: Class,
    controlling: bool,
    controlled: bool,
    useCandidate: bool,
    id: TransactionId,
    authentic: bool)

  function SuccessResponse(s: State, clock: Clock, id: TransactionId, local: Candidate, remote: Candidate, source: SocketAddr): State
    requires InBounds(s)
  {
    var pending := Unexpired(s.pending, clock.now);
    var r := FindRequest(pending, id);
    if r.None? then s.(pending := pending)
    else
      var request := pending[r.value];
      var s1 := s.(pending := Without(pending, r.value));
      var i := FindPair(s.checklist, local, remote);
      if request.destination != source || i.None? then s1
      else
        var s2 := s1.(checklist := s.checklist[i.value := s.checklist[i.value].(state := Succeeded)]);
        if s.controlling && request.isUseCandidate && s.selected.None? then SetSelected(s2, i.value) else s2
  }

  function RequestControlling(s: State, clock: Clock, local: Candidate, remote: Candidate): State
    requires InBounds(s)
  {
    var i := FindPair(s.checklist, local, remote);
    if i.None? then s.(checklist := s.checklist + [NewPair(local, remote, s.controlling)])
    else
      var p := s.checklist[i.value];
      if p.state == Succeeded && s.nominated.None? && s.selected.None? then
        var best := Best(s.checklist, Available);
        if best.Some? && Equal(s.checklist[best.value].local, p.local) && Equal(s.checklist[best.value].remote, p.remote)
           && PairNominatable(s.startTime, s.config.hostAcceptanceMinWait, clock.now, p) then
          NominatePair(s.(nominated := i), clock)
        else s
      else s
  }

  function RequestControlled(s: State, clock: Clock, useCandidate: bool, local: Candidate, remote: Candidate): State
    requires InBounds(s)
  {
    var s1 := if FindPair(s.checklist, local, remote).Some? then s
              else s.(checklist := s.checklist + [NewPair(local, remote, s.controlling)]);
    var i := FindPair(s1.checklist, local, remote);
    if i.None? then s1
    else if useCandidate && s1.checklist[i.value].state == Succeeded then
      if s1.selected.None? then SetSelected(s1, i.value) else s1
    else Send(s1, clock.now, clock.ids(0), remote, false)
  }

  function InboundSpec(s: State, clock: Clock, m: Message, local: Candidate, source: SocketAddr): State
    requires InBounds(s)
  {
    if !m.binding || m.class_ == OtherClass then s
    else if s.controlling && (m.controlling || m.useCandidate) then s
    else if !s.controlling && m.controlled then s
    else
      var remote := FindAddr(Of(s.remote, local.networkType), source);
      if !m.authentic || remote.None? then s
      else if m.class_ == Success then SuccessResponse(s, clock, m.id, local, remote.value, source)
      else if m.class_ == Request then
        if s.controlling then RequestControlling(s, clock, local, remote.value)
        else RequestControlled(s, clock, m.useCandidate, local, remote.value)
      else s
  }

  // ---------------------------------------------------------------- start, restart, close

  /** The selector's start: only the controlling one has anything to forget. */
  function StartSelector(s: State, now: nat): State {
    if s.controlling then s.(nominated := None, startTime := now) else s
  }

  function StartSpec(s: State, now: nat, controlling: bool, remoteUfrag: string, remotePwd: string): (State, Result<(), Error>) {
    if s.started || s.closed then (s, Err(ErrMultipleStart))
    else if remoteUfrag == "" then (s, Err(ErrRemoteUfragEmpty))
    else if remotePwd == "" then (s, Err(ErrRemotePwdEmpty))
    else
      var s1 := StartSelector(s.(controlling := controlling), now).(started := true);
      (UpdateConnection(s1, Checking), Ok(()))
  }

  /** The credentials are those given or, where empty, generated ones. */
  function RestartSpec(s: State, now: nat, ufrag: string, pwd: string, gathering: bool): (State, Result<(), Error>) {
    if |ufrag| * 8 < 24 then (s, Err(ErrLocalUfragInsufficientBits))
    else if |pwd| * 8 < 128 then (s, Err(ErrLocalPwdInsufficientBits))
    else if gathering then (s, Err(ErrRestartWhenGathering))
    else if s.closed then (s, Err(ErrClosed))
    else
      var s1 := StartSelector(s.(pending := [], checklist := [], selected := None, local := map[], remote := map[]), now);
      (if s1.connection != New then UpdateConnection(s1, Checking) else s1, Ok(()))
  }

  function CloseSpec(s: State): (State, Result<(), Error>) {
    if s.closed then (s, Err(ErrClosed))
    else (UpdateConnection(s.(closed := true, local := map[], remote := map[]), ConnectionState.Closed), Ok(()))
  }

  function Initial(config: Config, controlling: bool): State {
    State(config, false, false, controlling, 0, None, None, New, map[], map[], [], [], ConnectionState.Unspecified, 0)
  }

  // ---------------------------------------------------------------- the agent in place

  class Agent {
    const config: Config
    var started: bool
    var closed: bool
    var controlling: bool
    var startTime: nat
    var nominated: Option<nat>
    var selected: Option<nat>
    var connection: ConnectionState
    var local: Candidates
    var remote: Candidates
    var pending: seq<BindingRequest>
    var checklist: seq<Pair>
    var lastState: ConnectionState
    var checkingSince: nat

    ghost function View(): State
      reads this
    {
      State(config, started, closed, controlling, startTime, nominated, selected, connection, local, remote,
            pending, checklist, lastState, checkingSince)
    }

    constructor (config: Config, controlling: bool)
      ensures View() == Initial(config, controlling)
    {
      this.config := config;
      this.controlling := controlling;
      started, closed, startTime := false, false, 0;
      nominated, selected, connection := None, None, New;
      local, remote, pending, checklist := map[], map[], [], [];
      lastState, checkingSince := ConnectionState.Unspecified, 0;
    }

    method AddPair(l: Candidate, r: Candidate)
      modifies this`checklist
      ensures checklist == old(checklist) + [NewPair(l, r, controlling)]
    {
      checklist := checklist + [NewPair(l, r, controlling)];
    }

    method FindPairInList(l: Candidate, r: Candidate) returns (found: Option<nat>)
      ensures found == FindPair(checklist, l, r)
    {
      for i := 0 to |checklist|
        invariant forall j :: 0 <= j < i ==> !(Equal(checklist[j].local, l) && Equal(checklist[j].remote, r))
      {
        if Equal(checklist[i].local, l) && Equal(checklist[i].remote, r) {
          return Some(i);
        }
      }
      return None;
    }

    method AddRemoteCandidate(c: Candidate)
      modifies this
      ensures View() == AddRemoteSpec(old(View()), c)
    {
      var cands := Of(remote, c.networkType);
      for i := 0 to |cands|
        invariant forall j :: 0 <= j < i ==> !Equal(cands[j], c)
      {
        if Equal(cands[i], c) {
          return;
        }
      }
      remote := remote[c.networkType := cands + [c]];
      var locals := Of(local, c.networkType);
      ghost var repeated := Repeat(c, |locals|);
      for i := 0 to |locals|
        invariant checklist == old(checklist) + Pairs(locals[..i], repeated[..i], controlling)
        invariant View() == old(View()).(remote := Push(old(remote), c), checklist := checklist)
      {
        AddPair(locals[i], c);
        assert Pairs(locals[..i + 1], repeated[..i + 1], controlling)
            == Pairs(locals[..i], repeated[..i], controlling) + [NewPair(locals[i], c, controlling)];
      }
      assert locals[..|locals|] == locals && repeated[..|locals|] == repeated;
    }

    method AddCandidate(c: Candidate)
      modifies this
      ensures View() == AddLocalSpec(old(View()), c)
    {
      var cands := Of(local, c.networkType);
      for i := 0 to |cands|
        invariant forall j :: 0 <= j < i ==> !Equal(cands[j], c)
      {
        if Equal(cands[i], c) {
          return;
        }
      }
      local := local[c.networkType := cands + [c]];
      var remotes := Of(remote, c.networkType);
      ghost var repeated := Repeat(c, |remotes|);
      for i := 0 to |remotes|
        invariant checklist == old(checklist) + Pairs(repeated[..i], remotes[..i], controlling)
        invariant View() == old(View()).(local := Push(old(local), c), checklist := checklist)
      {
        AddPair(c, remotes[i]);
        assert Pairs(repeated[..i + 1], remotes[..i + 1], controlling)
            == Pairs(repeated[..i], remotes[..i], controlling) + [NewPair(c, remotes[i], controlling)];
      }
      assert remotes[..|remotes|] == remotes && repeated[..|remotes|] == repeated;
    }

    method DeleteAllCandidates()
      modifies this`local, this`remote
      ensures local == map[] && remote == map[]
    {
      local := map[];
      remote := map[];
    }

    method UpdateConnectionState(c: ConnectionState)
      modifies this`connection, this`local, this`remote
      ensures View() == UpdateConnection(old(View()), c)
    {
      if connection != c {
        if c == ConnectionState.Failed {
          DeleteAllCandidates();
        }
        connection := c;
      }
    }

    method SetSelectedPair(i: nat)
      requires i < |checklist|
      modifies this
      ensures View() == SetSelected(old(View()), i)
    {
      checklist := checklist[i := checklist[i].(nominated := true)];
      selected := Some(i);
      UpdateConnectionState(Connected);
    }

    method ValidateSelectedPair(silence: nat) returns (valid: bool)
      modifies this`connection, this`local, this`remote
      ensures valid == selected.Some?
      ensures View() == ValidateSelected(old(View()), silence)
    {
      valid := selected.Some?;
      if valid {
        var totalTimeToFailure := config.failedTimeout;
        if totalTimeToFailure != 0 {
          totalTimeToFailure := totalTimeToFailure + config.disconnectedTimeout;
        }
        if totalTimeToFailure != 0 && silence > totalTimeToFailure {
          UpdateConnectionState(ConnectionState.Failed);
        } else if config.disconnectedTimeout != 0 && silence > config.disconnectedTimeout {
          UpdateConnectionState(Disconnected);
        } else {
          UpdateConnectionState(Connected);
        }
      }
    }

    method InvalidatePendingBindingRequests(now: nat)
      modifies this`pending
      ensures pending == Unexpired(old(pending), now)
    {
      var temp := [];
      var all := pending;
      assert all[0..] == all;
      for i := 0 to |all|
        invariant pending == all && temp + Unexpired(all[i..], now) == Unexpired(all, now)
      {
        assert all[i..][0] == all[i] && all[i..][1..] == all[i + 1..];
        if now < all[i].timestamp + MAX_BINDING_REQUEST_TIMEOUT {
          Assoc(temp, [all[i]], Unexpired(all[i + 1..], now));
          temp := temp + [all[i]];
        } else {
          EmptyUnit(Unexpired(all[i + 1..], now));
        }
      }
      EmptyUnit(temp);
      pending := temp;
    }

    /** Removes and returns the unexpired request that the response answers. */
    method HandleInboundBindingSuccess(now: nat, id: TransactionId) returns (request: Option<BindingRequest>)
      modifies this`pending
      ensures var live := Unexpired(old(pending), now); var r := FindRequest(live, id);
        && request == (if r.Some? then Some(live[r.value]) else None)
        && pending == if r.Some? then Without(live, r.value) else live
    {
      InvalidatePendingBindingRequests(now);
      for i := 0 to |pending|
        invariant pending == Unexpired(old(pending), now)
        invariant forall j :: 0 <= j < i ==> pending[j].transactionId != id
      {
        if pending[i].transactionId == id {
          request := Some(pending[i]);
          pending := pending[..i] + pending[i + 1..];
          return;
        }
      }
      return None;
    }

    method SendBindingRequest(now: nat, id: Option<TransactionId>, r: Candidate, useCandidate: bool)
      modifies this`pending
      ensures View() == Send(old(View()), now, id, r, useCandidate)
    {
      if id.Some? {
        InvalidatePendingBindingRequests(now);
        pending := pending + [BindingRequest(now, id.value, r.Addr(), useCandidate)];
      }
    }

    /** What ping_all does with one pair of the checklist. */
    method PingPair(i: nat) returns (ping: bool)
      requires i < |checklist|
      modifies this`checklist
      ensures (checklist, ping) == (old(checklist)[i := PingOne(old(checklist)[i], config.maxBindingRequests).0],
                                    PingOne(old(checklist)[i], config.maxBindingRequests).1)
    {
      var p := checklist[i];
      if p.state == Waiting {
        p := p.(state := InProgress);
      } else if p.state != InProgress {
        assert checklist[i := p] == checklist;
        return false;
      }
      ping := p.requests <= config.maxBindingRequests;
      if ping {
        p := p.(requests := (p.requests + 1) % 0x1_0000);
      } else {
        p := p.(state := PairState.Failed);
      }
      checklist := checklist[i := p];
    }

    method PingAllCandidates(clock: Clock)
      modifies this`pending, this`checklist
      ensures View() == PingAll(old(View()), clock)
    {
      hide PingOne, Send;
      var remotes := [];
      ghost var all := checklist;
      for i := 0 to |checklist|
        invariant View() == old(View()).(checklist := checklist)
        invariant |checklist| == |all| && checklist[i..] == all[i..]
        invariant (checklist[..i], remotes) == PingList(all[..i], config.maxBindingRequests)
      {
        ghost var before := checklist;
        assert before[i] == before[i..][0] == all[i..][0] == all[i];
        assert all[..i + 1][..i] == all[..i];
        var ping := PingPair(i);
        assert checklist[..i + 1] == before[..i] + [checklist[i]];
        assert checklist[i + 1..] == before[i..][1..];
        KeepsCandidates(all[i], config.maxBindingRequests);
        if ping {
          remotes := remotes + [checklist[i].remote];
        }
      }
      assert checklist[..|all|] == checklist && all[..|all|] == all;
      ghost var s := View();
      for k := 0 to |remotes|
        invariant View() == SendAll(s, clock, remotes, k)
      {
        SendBindingRequest(clock.now, clock.ids(k), remotes[k], false);
      }
    }

    method CheckKeepaliveNow(clock: Clock)
      requires selected.Some? ==> selected.value < |checklist|
      modifies this`pending
      ensures View() == CheckKeepalive(old(View()), clock)
    {
      hide Send;
      if selected.Some? {
        if config.keepaliveInterval != 0
           && (clock.idle > config.keepaliveInterval || clock.silence > config.keepaliveInterval) {
          SendBindingRequest(clock.now, clock.ids(0), checklist[selected.value].remote, false);
        }
      }
    }

    method NominatePairNow(clock: Clock)
      requires nominated.Some? ==> nominated.value < |checklist|
      modifies this`pending
      ensures View() == NominatePair(old(View()), clock)
    {
      hide Send;
      if nominated.Some? {
        SendBindingRequest(clock.now, clock.ids(0), checklist[nominated.value].remote, true);
      }
    }

    method Contact(clock: Clock)
      requires InBounds(View())
      modifies this
      ensures View() == ContactSpec(old(View()), clock)
    {
      hide PingAll, NominatePair, CheckKeepalive, ValidateSelected, Best;
      if connection == ConnectionState.Failed {
        lastState := connection;
        return;
      }
      if connection == Checking {
        if lastState != Checking {
          checkingSince := clock.now;
        }
        if clock.now > checkingSince + config.disconnectedTimeout + config.failedTimeout {
          UpdateConnectionState(ConnectionState.Failed);
          lastState := connection;
          return;
        }
      }
      if controlling {
        ContactAsControlling(clock);
      } else {
        ContactAsControlled(clock);
      }
      lastState := connection;
    }

    method ContactAsControlling(clock: Clock)
      requires InBounds(View())
      modifies this
      ensures View() == ContactControlling(old(View()), clock)
    {
      hide PingAll, NominatePair, CheckKeepalive, UpdateConnection, Best;
      if selected.Some? {
        var valid := ValidateSelectedPair(clock.silence);
        if valid {
          CheckKeepaliveNow(clock);
        }
      } else if nominated.Some? {
        NominatePairNow(clock);
      } else {
        var best := GetBestValidCandidatePair(checklist);
        if best.Some? && PairNominatable(startTime, config.hostAcceptanceMinWait, clock.now, checklist[best.value]) {
          checklist := checklist[best.value := checklist[best.value].(nominated := true)];
          nominated := best;
          NominatePairNow(clock);
        } else {
          PingAllCandidates(clock);
        }
      }
    }

    method ContactAsControlled(clock: Clock)
      requires InBounds(View())
      modifies this
      ensures View() == ContactControlled(old(View()), clock)
    {
      hide PingAll, CheckKeepalive, UpdateConnection;
      if config.lite {
        var _ := ValidateSelectedPair(clock.silence);
      } else if selected.Some? {
        var valid := ValidateSelectedPair(clock.silence);
        if valid {
          CheckKeepaliveNow(clock);
        }
      } else {
        PingAllCandidates(clock);
      }
    }

    method HandleSuccessResponse(clock: Clock, id: TransactionId, l: Candidate, r: Candidate, source: SocketAddr)
      requires InBounds(View())
      modifies this
      ensures View() == SuccessResponse(old(View()), clock, id, l, r, source)
    {
      hide Unexpired, FindRequest, FindPair, UpdateConnection;
      var request := HandleInboundBindingSuccess(clock.now, id);
      if request.None? || request.value.destination != source {
        return;
      }
      var selectedIsNone := selected.None?;
      var i := FindPairInList(l, r);
      if i.Some? {
        checklist := checklist[i.value := checklist[i.value].(state := Succeeded)];
        if controlling && request.value.isUseCandidate && selectedIsNone {
          SetSelectedPair(i.value);
        }
      }
    }

    method HandleBindingRequestControlling(clock: Clock, l: Candidate, r: Candidate)
      requires InBounds(View()) && controlling
      modifies this
      ensures View() == RequestControlling(old(View()), clock, l, r)
    {
      hide FindPair, NominatePair, Best;
      var i := FindPairInList(l, r);
      if i.Some? {
        var p := checklist[i.value];
        if p.state == Succeeded && nominated.None? && selected.None? {
          var best := GetBestAvailableCandidatePair(checklist);
          if best.Some? {
            var b := checklist[best.value];
            if Equal(b.local, p.local) && Equal(b.remote, p.remote) && PairNominatable(startTime, config.hostAcceptanceMinWait, clock.now, p) {
              nominated := i;
              NominatePairNow(clock);
            }
          }
        }
      } else {
        AddPair(l, r);
      }
    }

    method HandleBindingRequestControlled(clock: Clock, useCandidate: bool, l: Candidate, r: Candidate)
      requires InBounds(View()) && !controlling
      modifies this
      ensures View() == RequestControlled(old(View()), clock, useCandidate, l, r)
    {
      hide FindPair, Send, UpdateConnection;
      var i := FindPairInList(l, r);
      if i.None? {
        AddPair(l, r);
      }
      i := FindPairInList(l, r);
      if i.Some? {
        if useCandidate && checklist[i.value].state == Succeeded {
          if selected.None? {
            SetSelectedPair(i.value);
          }
        } else {
          SendBindingRequest(clock.now, clock.ids(0), r, false);
        }
      }
    }

    method FindRemoteCandidate(t: NetworkType, addr: SocketAddr) returns (c: Option<Candidate>)
      ensures c == FindAddr(Of(remote, t), addr)
    {
      var cands := Of(remote, t);
      assert cands[0..] == cands;
      for i := 0 to |cands|
        invariant FindAddr(cands[i..], addr) == FindAddr(cands, addr)
      {
        assert cands[i..][0] == cands[i] && cands[i..][1..] == cands[i + 1..];
        if cands[i].Addr() == addr {
          return Some(cands[i]);
        }
      }
      return None;
    }

    method HandleInbound(clock: Clock, m: Message, l: Candidate, source: SocketAddr)
      requires InBounds(View())
      modifies this
      ensures View() == InboundSpec(old(View()), clock, m, l, source)
    {
      hide FindAddr, SuccessResponse, RequestControlling, RequestControlled;
      if !m.binding || !(m.class_ == Success || m.class_ == Request || m.class_ == Indication) {
        return;
      }
      if controlling {
        if m.controlling {
          return;
        } else if m.useCandidate {
          return;
        }
      } else if m.controlled {
        return;
      }
      var remoteCandidate := FindRemoteCandidate(l.networkType, source);
      if m.class_ == Success {
        if !m.authentic || remoteCandidate.None? {
          return;
        }
        HandleSuccessResponse(clock, m.id, l, remoteCandidate.value, source);
      } else if m.class_ == Request {
        if !m.authentic || remoteCandidate.None? {
          return;
        }
        if controlling {
          HandleBindingRequestControlling(clock, l, remoteCandidate.value);
        } else {
          HandleBindingRequestControlled(clock, m.useCandidate, l, remoteCandidate.value);
        }
      }
    }

    method StartSelectorNow(now: nat)
      modifies this`nominated, this`startTime
      ensures View() == StartSelector(old(View()), now)
    {
      if controlling {
        nominated := None;
        startTime := now;
      }
    }

    method StartConnectivityChecks(now: nat, isControlling: bool, remoteUfrag: string, remotePwd: string)
      returns (r: Result<(), Error>)
      modifies this
      ensures (View(), r) == StartSpec(old(View()), now, isControlling, remoteUfrag, remotePwd)
    {
      if started || closed {
        return Err(ErrMultipleStart);
      }
      if remoteUfrag == "" {
        return Err(ErrRemoteUfragEmpty);
      } else if remotePwd == "" {
        return Err(ErrRemotePwdEmpty);
      }
      controlling := isControlling;
      StartSelectorNow(now);
      started := true;
      UpdateConnectionState(Checking);
      return Ok(());
    }

    method Restart(now: nat, ufrag: string, pwd: string, gathering: bool) returns (r: Result<(), Error>)
      modifies this
      ensures (View(), r) == RestartSpec(old(View()), now, ufrag, pwd, gathering)
    {
      if |ufrag| * 8 < 24 {
        return Err(ErrLocalUfragInsufficientBits);
      }
      if |pwd| * 8 < 128 {
        return Err(ErrLocalPwdInsufficientBits);
      }
      if gathering {
        return Err(ErrRestartWhenGathering);
      }
      if closed {
        return Err(ErrClosed);
      }
      pending := [];
      checklist := [];
      selected := None;
      DeleteAllCandidates();
      StartSelectorNow(now);
      if connection != New {
        UpdateConnectionState(Checking);
      }
      return Ok(());
    }

    method Close() returns (r: Result<(), Error>)
      modifies this
      ensures (View(), r) == CloseSpec(old(View()))
    {
      if closed {
        return Err(ErrClosed);
      }
      closed := true;
      DeleteAllCandidates();
      UpdateConnectionState(ConnectionState.Closed);
      return Ok(());
    }
  }

  lemma KeepsCandidates(p: Pair, max: U16)
    ensures PingOne(p, max).0.local == p.local && PingOne(p, max).0.remote == p.remote
  {
  }
}
