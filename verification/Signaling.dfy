/** The offer/answer machine of a peer connection (section 4.3.1 of the W3C WebRTC 1.0
    recommendation): which descriptions are pending and current in each signaling state. */
module Signaling {
  import opened Bytes
  import opened Wrappers

  datatype SdpType = Unspecified | Offer | Pranswer | Answer | Rollback

  datatype Description = Description(typ: SdpType, sdp: string)

  datatype SignalingState = Stable | HaveLocalOffer | HaveRemoteOffer | HaveLocalPranswer | HaveRemotePranswer | Closed

  datatype Op = SetLocal | SetRemote

  datatype Error =
    | ErrConnectionClosed
    | ErrPeerConnSDPTypeInvalidValue
    | ErrPeerConnSDPTypeInvalidValueSetLocalDescription
    | ErrSDPDoesNotMatchOffer
    | ErrSDPDoesNotMatchAnswer
    | ErrSignalingStateCannotRollback
    | ErrSignalingStateProposedTransitionInvalid
    | ErrSdpUnmarshal
    | ErrRemoteDetails

  /** check_next_signaling_state, branch by branch. */
  function CheckNext(cur: SignalingState, next: SignalingState, op: Op, typ: SdpType): Result<SignalingState, Error> {
    if typ == Rollback && cur == Stable then Err(ErrSignalingStateCannotRollback)
    else
      match cur
      case Stable =>
        if op == SetLocal && typ == Offer && next == HaveLocalOffer then Ok(next)
        else if op == SetRemote && typ == Offer && next == HaveRemoteOffer then Ok(next)
        else Err(ErrSignalingStateProposedTransitionInvalid)
      case HaveLocalOffer =>
        if op == SetRemote && typ == Answer && next == Stable then Ok(next)
        else if op == SetRemote && typ == Pranswer && next == HaveRemotePranswer then Ok(next)
        else Err(ErrSignalingStateProposedTransitionInvalid)
      case HaveRemotePranswer =>
        if op == SetRemote && typ == Answer && next == Stable then Ok(next)
        else Err(ErrSignalingStateProposedTransitionInvalid)
      case HaveRemoteOffer =>
        if op == SetLocal && typ == Answer && next == Stable then Ok(next)
        else if op == SetLocal && typ == Pranswer && next == HaveLocalPranswer then Ok(next)
        else Err(ErrSignalingStateProposedTransitionInvalid)
      case HaveLocalPranswer =>
        if op == SetLocal && typ == Answer && next == Stable then Ok(next)
        else Err(ErrSignalingStateProposedTransitionInvalid)
      case Closed => Err(ErrSignalingStateProposedTransitionInvalid)
  }

  datatype State = State(
    closed: bool,
    signaling: SignalingState,
    lastOffer: string,
    lastAnswer: string,
    pendingLocal: Option<Description>,
    pendingRemote: Option<Description>,
    currentLocal: Option<Description>,
    currentRemote: Option<Description>)

  const INITIAL := State(false, Stable, "", "", None, None, None, None)

  /** The state that a description of the type would lead to. */
  function Target(op: Op, typ: SdpType): SignalingState {
    match typ
    case Offer => if op == SetLocal then HaveLocalOffer else HaveRemoteOffer
    case Pranswer => if op == SetLocal then HaveLocalPranswer else HaveRemotePranswer
    case _ => Stable
  }

  /** Local descriptions must be what was last created. */
  function Mismatch(s: State, d: Description, op: Op): Option<Error> {
    if op == SetLocal && d.typ == Offer && d.sdp != s.lastOffer then Some(ErrSDPDoesNotMatchOffer)
    else if op == SetLocal && (d.typ == Answer || d.typ == Pranswer) && d.sdp != s.lastAnswer then Some(ErrSDPDoesNotMatchAnswer)
    else None
  }

  /** The descriptions after an accepted call. */
  function Applied(s: State, d: Description, op: Op): State {
    match d.typ
    case Answer =>
      if op == SetLocal then
        s.(pendingLocal := None, pendingRemote := None, currentLocal := Some(d), currentRemote := s.pendingRemote)
      else
        s.(pendingLocal := None, pendingRemote := None, currentLocal := s.pendingLocal, currentRemote := Some(d))
    case Rollback => if op == SetLocal then s.(pendingLocal := None) else s.(pendingRemote := None)
    case _ => if op == SetLocal then s.(pendingLocal := Some(d)) else s.(pendingRemote := Some(d))
  }

  function SetDescriptionSpec(s: State, d: Description, op: Op): (State, Result<(), Error>) {
    if s.closed then (s, Err(ErrConnectionClosed))
    else if d.typ == Unspecified then (s, Err(ErrPeerConnSDPTypeInvalidValue))
    else if Mismatch(s, d, op).Some? then (s, Err(Mismatch(s, d, op).value))
    else
      match CheckNext(s.signaling, Target(op, d.typ), op, d.typ)
      case Err(e) => (s, Err(e))
      case Ok(next) => (Applied(s, d, op).(signaling := next), Ok(()))
  }

  /** What the SDP parser and the transports think of a description. */
  datatype World = World(parses: string -> bool, usable: Description -> bool)

  function SetLocalSpec(s: State, w: World, d: Description): (State, Result<(), Error>) {
    if s.closed then (s, Err(ErrConnectionClosed))
    else if d.sdp == "" && d.typ != Offer then (s, Err(ErrPeerConnSDPTypeInvalidValueSetLocalDescription))
    else
      var d := if d.sdp == "" then d.(sdp := s.lastOffer) else d;
      if !w.parses(d.sdp) then (s, Err(ErrSdpUnmarshal)) else SetDescriptionSpec(s, d, SetLocal)
  }

  /** The transport details are looked at only after the description has been set. */
  function SetRemoteSpec(s: State, w: World, d: Description): (State, Result<(), Error>) {
    if s.closed then (s, Err(ErrConnectionClosed))
    else if !w.parses(d.sdp) then (s, Err(ErrSdpUnmarshal))
    else
      var (s', r) := SetDescriptionSpec(s, d, SetRemote);
      if r.Ok? && !w.usable(d) then (s', Err(ErrRemoteDetails)) else (s', r)
  }

  // ---------------------------------------------------------------- what holds in every state

  predicate Is(d: Option<Description>, typ: SdpType) {
    d.Some? && d.value.typ == typ
  }

  /** Both current descriptions absent, or one offer and one answer. */
  predicate Negotiated(s: State) {
    || (s.currentLocal.None? && s.currentRemote.None?)
    || (Is(s.currentLocal, Offer) && Is(s.currentRemote, Answer))
    || (Is(s.currentLocal, Answer) && Is(s.currentRemote, Offer))
  }

  /** The signaling state says exactly which descriptions are pending, and of what type. */
  predicate Consistent(s: State) {
    && Negotiated(s)
    && match s.signaling
       case Stable => s.pendingLocal.None? && s.pendingRemote.None?
       case HaveLocalOffer => Is(s.pendingLocal, Offer) && s.pendingRemote.None?
       case HaveRemoteOffer => s.pendingLocal.None? && Is(s.pendingRemote, Offer)
       case HaveLocalPranswer => Is(s.pendingLocal, Pranswer) && Is(s.pendingRemote, Offer)
       case HaveRemotePranswer => Is(s.pendingLocal, Offer) && Is(s.pendingRemote, Pranswer)
       case Closed => false
  }

  /** In a consistent state the pending descriptions determine the signaling state. */
  lemma PendingFixesState(s: State, t: State)
    requires Consistent(s) && Consistent(t)
    ensures s.signaling == t.signaling <==>
      && (forall typ :: Is(s.pendingLocal, typ) <==> Is(t.pendingLocal, typ))
      && (forall typ :: Is(s.pendingRemote, typ) <==> Is(t.pendingRemote, typ))
  {
    assert s.pendingLocal.Some? ==> Is(s.pendingLocal, s.pendingLocal.value.typ);
    assert t.pendingLocal.Some? ==> Is(t.pendingLocal, t.pendingLocal.value.typ);
    assert s.pendingRemote.Some? ==> Is(s.pendingRemote, s.pendingRemote.value.typ);
    assert t.pendingRemote.Some? ==> Is(t.pendingRemote, t.pendingRemote.value.typ);
  }

  /** One call keeps the state consistent, whoever is offering; a rejected call changes
      nothing. */
  lemma SetDescriptionKeeps(s: State, d: Description, op: Op)
    requires Consistent(s)
    ensures var (t, r) := SetDescriptionSpec(s, d, op);
      Consistent(t) && (r.Err? ==> t == s) && (t.closed == s.closed && t.lastOffer == s.lastOffer && t.lastAnswer == s.lastAnswer)
  {
  }

  /** Exactly the calls that the offer/answer exchange needs are accepted. */
  lemma AcceptedExactly(s: State, d: Description, op: Op)
    ensures SetDescriptionSpec(s, d, op).1.Ok? <==>
      && !s.closed && Mismatch(s, d, op).None?
      && (|| (s.signaling == Stable && d.typ == Offer)
          || (s.signaling == HaveLocalOffer && op == SetRemote && d.typ in {Answer, Pranswer})
          || (s.signaling == HaveRemotePranswer && op == SetRemote && d.typ == Answer)
          || (s.signaling == HaveRemoteOffer && op == SetLocal && d.typ in {Answer, Pranswer})
          || (s.signaling == HaveLocalPranswer && op == SetLocal && d.typ == Answer))
  {
  }

  /** And why the others are refused, the first reason that applies. */
  lemma RefusedFor(s: State, d: Description, op: Op)
    requires SetDescriptionSpec(s, d, op).1.Err?
    ensures var e := SetDescriptionSpec(s, d, op).1.error;
      && (e == ErrConnectionClosed <==> s.closed)
      && (e == ErrPeerConnSDPTypeInvalidValue <==> !s.closed && d.typ == Unspecified)
      && (e == ErrSDPDoesNotMatchOffer <==> !s.closed && op == SetLocal && d.typ == Offer && d.sdp != s.lastOffer)
      && (e == ErrSDPDoesNotMatchAnswer <==>
            !s.closed && op == SetLocal && d.typ in {Answer, Pranswer} && d.sdp != s.lastAnswer)
      && (e == ErrSignalingStateCannotRollback <==> !s.closed && d.typ == Rollback && s.signaling == Stable)
      && e in {ErrConnectionClosed, ErrPeerConnSDPTypeInvalidValue, ErrSDPDoesNotMatchOffer, ErrSDPDoesNotMatchAnswer,
               ErrSignalingStateCannotRollback, ErrSignalingStateProposedTransitionInvalid}
  {
  }

  /** A rollback is refused in every state. */
  lemma RollbackIsRejected(s: State, sdp: string, op: Op)
    ensures SetDescriptionSpec(s, Description(Rollback, sdp), op).0 == s
    ensures SetDescriptionSpec(s, Description(Rollback, sdp), op).1.Err?
  {
  }

  /** A failing set_remote_description has changed the state exactly when the description was
      set and only its transport details were refused. */
  lemma FailedRemoteMayHaveSet(s: State, w: World, d: Description)
    requires Consistent(s) && SetRemoteSpec(s, w, d).1.Err?
    ensures SetRemoteSpec(s, w, d).0 != s <==>
      w.parses(d.sdp) && !w.usable(d) && SetDescriptionSpec(s, d, SetRemote).1.Ok?
  {
    SetDescriptionKeeps(s, d, SetRemote);
    if w.parses(d.sdp) && SetDescriptionSpec(s, d, SetRemote).1.Ok? {
      assert SetDescriptionSpec(s, d, SetRemote).0.signaling != s.signaling;
    }
  }

  // ---------------------------------------------------------------- what the descriptions are

  function Pending(s: State, op: Op): Option<Description> {
    if op == SetLocal then s.pendingLocal else s.pendingRemote
  }

  function Current(s: State, op: Op): Option<Description> {
    if op == SetLocal then s.currentLocal else s.currentRemote
  }

  function Other(op: Op): Op {
    if op == SetLocal then SetRemote else SetLocal
  }

  /** What an accepted description becomes: an answer is current on its side and the offer that
      was pending on the other side is current there, with nothing pending any more; an offer or
      a provisional answer is pending on its side and moves nothing else. */
  lemma AcceptedBecomes(s: State, d: Description, op: Op)
    requires Consistent(s) && SetDescriptionSpec(s, d, op).1.Ok?
    ensures var t := SetDescriptionSpec(s, d, op).0;
      if d.typ == Answer then
        && Current(t, op) == Some(d) && Current(t, Other(op)) == Pending(s, Other(op))
        && Is(Pending(s, Other(op)), Offer)
        && Pending(t, op).None? && Pending(t, Other(op)).None?
      else
        && Pending(t, op) == Some(d) && Pending(t, Other(op)) == Pending(s, Other(op))
        && (d.typ == Pranswer ==> Is(Pending(s, Other(op)), Offer))
        && Current(t, op) == Current(s, op) && Current(t, Other(op)) == Current(s, Other(op))
  {
  }

  /** A description that was set, and on which side. */
  datatype Entry = Entry(op: Op, d: Description)

  /** The last entry of a type among those from lo to hi. */
  predicate IsLast(log: seq<Entry>, typ: SdpType, lo: nat, hi: nat, i: nat) {
    && lo <= i < hi <= |log| && log[i].d.typ == typ
    && forall j :: i < j < hi ==> log[j].d.typ != typ
  }

  predicate NoneIn(log: seq<Entry>, typ: SdpType, lo: nat) {
    forall j :: lo <= j < |log| ==> log[j].d.typ != typ
  }

  /** The last offer, when no answer has come after it. */
  predicate IsOpen(log: seq<Entry>, i: nat) {
    IsLast(log, Offer, 0, |log|, i) && NoneIn(log, Answer, i)
  }

  /** The current descriptions are the last answer and the last offer before it. */
  ghost predicate CurrentIsLast(s: State, log: seq<Entry>) {
    && (NoneIn(log, Answer, 0) ==> s.currentLocal.None? && s.currentRemote.None?)
    && forall j: nat :: IsLast(log, Answer, 0, |log|, j) ==>
         && Current(s, log[j].op) == Some(log[j].d)
         && exists i: nat :: IsLast(log, Offer, 0, j, i)
              && log[i].op == Other(log[j].op) && Current(s, log[i].op) == Some(log[i].d)
  }

  /** The pending descriptions are the last offer, if it is open, and the last provisional answer
      to it. */
  ghost predicate PendingIsLast(s: State, log: seq<Entry>) {
    && ((forall i: nat :: !IsOpen(log, i)) <==> s.signaling == Stable)
    && forall i: nat :: IsOpen(log, i) ==>
         && Pending(s, log[i].op) == Some(log[i].d)
         && (NoneIn(log, Pranswer, i) ==> Pending(s, Other(log[i].op)).None?)
         && forall k: nat :: IsLast(log, Pranswer, i, |log|, k) ==>
              log[k].op == Other(log[i].op) && Pending(s, log[k].op) == Some(log[k].d)
  }

  lemma LastAfter(log: seq<Entry>, x: Entry, typ: SdpType, lo: nat)
    requires lo <= |log|
    ensures var after := log + [x];
      && (NoneIn(after, typ, lo) <==> x.d.typ != typ && NoneIn(log, typ, lo))
      && (forall i: nat :: IsLast(after, typ, lo, |after|, i) <==>
            if x.d.typ == typ then i == |log| else IsLast(log, typ, lo, |log|, i))
      && (forall hi: nat, i: nat :: hi <= |log| ==> (IsLast(after, typ, lo, hi, i) <==> IsLast(log, typ, lo, hi, i)))
  {
    var after := log + [x];
    assert after[|log|] == x && forall j :: 0 <= j < |log| ==> after[j] == log[j];
    if NoneIn(after, typ, lo) {
      assert after[|log|].d.typ != typ;
    }
  }

  lemma OpenAfter(log: seq<Entry>, x: Entry, i: nat)
    ensures IsOpen(log + [x], i) <==>
      match x.d.typ
      case Offer => i == |log|
      case Answer => false
      case _ => IsOpen(log, i)
  {
    hide NoneIn, IsLast;
    LastAfter(log, x, Offer, 0);
    OpenFits(log, i);
    OpenFits(log + [x], i);
    if i <= |log| {
      LastAfter(log, x, Answer, i);
    }
    if x.d.typ == Offer {
      JustTheLast(log);
    }
  }

  lemma JustTheLast(log: seq<Entry>)
    ensures NoneIn(log, Answer, |log|)
  {
  }

  lemma OpenFits(log: seq<Entry>, i: nat)
    ensures IsOpen(log, i) ==> i < |log| && log[i].d.typ == Offer
  {
  }

  lemma OneIsOpen(log: seq<Entry>, i: nat, j: nat)
    requires IsOpen(log, i) && IsOpen(log, j)
    ensures i == j
  {
  }

  /** An accepted description keeps this so. */
  lemma AcceptedKeepsLast(s: State, d: Description, op: Op, log: seq<Entry>)
    requires Consistent(s) && SetDescriptionSpec(s, d, op).1.Ok?
    requires CurrentIsLast(s, log) && PendingIsLast(s, log)
    ensures var t := SetDescriptionSpec(s, d, op).0;
      CurrentIsLast(t, log + [Entry(op, d)]) && PendingIsLast(t, log + [Entry(op, d)])
  {
    hide IsOpen, IsLast, NoneIn, Consistent, SetDescriptionSpec;
    AcceptedMovesState(s, d, op);
    AcceptedBecomes(s, d, op);
    AcceptedKeepsCurrent(s, d, op, log);
    AcceptedKeepsPending(s, d, op, log);
  }

  lemma AcceptedMovesState(s: State, d: Description, op: Op)
    requires Consistent(s) && SetDescriptionSpec(s, d, op).1.Ok?
    ensures d.typ == Offer || d.typ == Pranswer || d.typ == Answer
    ensures SetDescriptionSpec(s, d, op).0.signaling == Stable <==> d.typ == Answer
    ensures s.signaling == Stable <==> d.typ == Offer
    ensures d.typ != Offer ==> Is(Pending(s, Other(op)), Offer) && !Is(Pending(s, op), Offer)
    ensures d.typ == Offer ==> Pending(s, Other(op)).None?
  {
  }

  lemma AcceptedKeepsCurrent(s: State, d: Description, op: Op, log: seq<Entry>)
    requires Consistent(s) && SetDescriptionSpec(s, d, op).1.Ok?
    requires CurrentIsLast(s, log) && PendingIsLast(s, log)
    ensures CurrentIsLast(SetDescriptionSpec(s, d, op).0, log + [Entry(op, d)])
  {
    hide IsLast, NoneIn, Consistent, SetDescriptionSpec;
    var t, x, after := SetDescriptionSpec(s, d, op).0, Entry(op, d), log + [Entry(op, d)];
    AcceptedMovesState(s, d, op);
    AcceptedBecomes(s, d, op);
    LastAfter(log, x, Answer, 0);
    LastAfter(log, x, Offer, 0);
    assert after[|log|] == x && forall j :: 0 <= j < |log| ==> after[j] == log[j];
    if d.typ == Answer {
      var i: nat :| IsOpen(log, i);
      OpenFits(log, i);
      assert log[i].op == Other(op);
      assert IsLast(after, Offer, 0, |log|, i);
    } else {
      forall j: nat | IsLast(after, Answer, 0, |after|, j)
        ensures j < |log| && Current(t, log[j].op) == Some(log[j].d)
          && exists i: nat :: IsLast(after, Offer, 0, j, i) && i < |log|
               && log[i].op == Other(log[j].op) && Current(t, log[i].op) == Some(log[i].d)
      {
        LastFits(log, Answer, 0, |log|, j);
        var i := OfferBefore(s, log, j);
        assert IsLast(after, Offer, 0, j, i);
      }
    }
  }

  lemma OfferBefore(s: State, log: seq<Entry>, j: nat) returns (i: nat)
    requires CurrentIsLast(s, log) && IsLast(log, Answer, 0, |log|, j)
    ensures IsLast(log, Offer, 0, j, i) && i < j < |log|
    ensures log[i].op == Other(log[j].op) && Current(s, log[i].op) == Some(log[i].d)
  {
    i :| IsLast(log, Offer, 0, j, i) && log[i].op == Other(log[j].op) && Current(s, log[i].op) == Some(log[i].d);
  }

  lemma LastFits(log: seq<Entry>, typ: SdpType, lo: nat, hi: nat, i: nat)
    requires IsLast(log, typ, lo, hi, i)
    ensures lo <= i < hi <= |log| && log[i].d.typ == typ
  {
  }

  lemma AcceptedKeepsPending(s: State, d: Description, op: Op, log: seq<Entry>)
    requires Consistent(s) && SetDescriptionSpec(s, d, op).1.Ok?
    requires PendingIsLast(s, log)
    ensures PendingIsLast(SetDescriptionSpec(s, d, op).0, log + [Entry(op, d)])
  {
    hide IsLast, NoneIn, IsOpen, Consistent, SetDescriptionSpec;
    var t, x, after := SetDescriptionSpec(s, d, op).0, Entry(op, d), log + [Entry(op, d)];
    AcceptedMovesState(s, d, op);
    AcceptedBecomes(s, d, op);
    assert after[|log|] == x && forall j :: 0 <= j < |log| ==> after[j] == log[j];
    forall i: nat ensures IsOpen(after, i) <==>
      (match d.typ case Offer => i == |log| case Answer => false case _ => IsOpen(log, i))
    {
      OpenAfter(log, x, i);
    }
    if d.typ == Offer {
      assert IsOpen(after, |log|);
      forall k: nat ensures !IsLast(after, Pranswer, |log|, |after|, k) {
        NothingBehind(log, x, k);
      }
    } else if d.typ == Pranswer {
      var i: nat :| IsOpen(log, i);
      OpenFits(log, i);
      LastAfter(log, x, Pranswer, i);
      forall j: nat | IsOpen(log, j) ensures j == i {
        OneIsOpen(log, i, j);
      }
      assert IsOpen(after, i);
    }
  }

  lemma NothingBehind(log: seq<Entry>, x: Entry, k: nat)
    requires x.d.typ == Offer
    ensures !IsLast(log + [x], Pranswer, |log|, |log| + 1, k)
  {
  }

  // ---------------------------------------------------------------- runs

  datatype Call =
    | CreateOffer(sdp: string)
    | SetLocalDescription(d: Description)
    | SetRemoteDescription(d: Description)

  function Step(s: State, w: World, c: Call): State {
    match c
    case CreateOffer(sdp) => if s.closed then s else s.(lastOffer := sdp)
    case SetLocalDescription(d) => SetLocalSpec(s, w, d).0
    case SetRemoteDescription(d) => SetRemoteSpec(s, w, d).0
  }

  function Run(s: State, w: World, calls: seq<Call>): State
    decreases |calls|
  {
    if calls == [] then s else Run(Step(s, w, calls[0]), w, calls[1..])
  }

  /** Since nothing creates answers, a connection never accepts one of its own: only its offer
      is ever the current local description. */
  predicate OnlyOffers(s: State) {
    && s.lastAnswer == ""
    && s.signaling != HaveLocalPranswer
    && (s.currentLocal.Some? ==> s.currentLocal.value.typ == Offer)
  }

  lemma StepKeeps(s: State, w: World, c: Call)
    requires Consistent(s) && OnlyOffers(s)
    ensures Consistent(Step(s, w, c)) && OnlyOffers(Step(s, w, c))
  {
    match c
    case CreateOffer(_) =>
    case SetLocalDescription(d) =>
      SetDescriptionKeeps(s, if d.sdp == "" then d.(sdp := s.lastOffer) else d, SetLocal);
    case SetRemoteDescription(d) =>
      SetDescriptionKeeps(s, d, SetRemote);
  }

  /** In every reachable state the descriptions agree with the signaling state, and the only
      negotiated pair is a local offer with a remote answer. */
  lemma {:induction false} RunsAreConsistent(s: State, w: World, calls: seq<Call>)
    requires Consistent(s) && OnlyOffers(s)
    ensures var t := Run(s, w, calls);
      && Consistent(t) && OnlyOffers(t)
      && (t.signaling == Stable ==>
            && t.pendingLocal.None? && t.pendingRemote.None?
            && ((t.currentLocal.None? && t.currentRemote.None?) || (Is(t.currentLocal, Offer) && Is(t.currentRemote, Answer))))
    decreases |calls|
  {
    hide Step;
    if calls != [] {
      StepKeeps(s, w, calls[0]);
      RunsAreConsistent(Step(s, w, calls[0]), w, calls[1..]);
    }
  }

  /** Every run of a new connection. */
  lemma NewConnectionIsConsistent(w: World, calls: seq<Call>)
    ensures var t := Run(INITIAL, w, calls); Consistent(t) && OnlyOffers(t)
  {
    RunsAreConsistent(INITIAL, w, calls);
  }

  /** And so a connection that was sent an offer stays with that offer for good: no call is
      accepted any more. */
  lemma {:induction false} RemoteOfferIsFinal(s: State, w: World, calls: seq<Call>)
    requires Consistent(s) && OnlyOffers(s) && s.signaling == HaveRemoteOffer
    ensures var t := Run(s, w, calls); t == s.(lastOffer := t.lastOffer)
    decreases |calls|
  {
    if calls != [] {
      var t := Step(s, w, calls[0]);
      assert t == s.(lastOffer := t.lastOffer);
      RemoteOfferIsFinal(t, w, calls[1..]);
    }
  }

  /** The description that a call sets, if it sets one. */
  function SetBy(s: State, w: World, c: Call): seq<Entry> {
    match c
    case CreateOffer(_) => []
    case SetLocalDescription(d) =>
      if SetLocalSpec(s, w, d).1.Ok? then [Entry(SetLocal, if d.sdp == "" then d.(sdp := s.lastOffer) else d)] else []
    case SetRemoteDescription(d) =>
      if !s.closed && w.parses(d.sdp) && SetDescriptionSpec(s, d, SetRemote).1.Ok? then [Entry(SetRemote, d)] else []
  }

  /** All that are set in a run, in order. */
  function Log(s: State, w: World, calls: seq<Call>): seq<Entry>
    decreases |calls|
  {
    if calls == [] then [] else SetBy(s, w, calls[0]) + Log(Step(s, w, calls[0]), w, calls[1..])
  }

  lemma StepKeepsLast(s: State, w: World, c: Call, log: seq<Entry>)
    requires Consistent(s) && CurrentIsLast(s, log) && PendingIsLast(s, log)
    ensures Consistent(Step(s, w, c))
    ensures CurrentIsLast(Step(s, w, c), log + SetBy(s, w, c)) && PendingIsLast(Step(s, w, c), log + SetBy(s, w, c))
  {
    hide CurrentIsLast, PendingIsLast, SetDescriptionSpec, Consistent;
    EmptyUnit(log);
    match c
    case CreateOffer(sdp) => OfferKeepsLast(s, sdp, log);
    case SetLocalDescription(d) =>
      var d := if d.sdp == "" then d.(sdp := s.lastOffer) else d;
      SetDescriptionKeeps(s, d, SetLocal);
      if SetDescriptionSpec(s, d, SetLocal).1.Ok? {
        AcceptedKeepsLast(s, d, SetLocal, log);
      }
    case SetRemoteDescription(d) =>
      SetDescriptionKeeps(s, d, SetRemote);
      if SetDescriptionSpec(s, d, SetRemote).1.Ok? {
        AcceptedKeepsLast(s, d, SetRemote, log);
      }
  }

  lemma OfferKeepsLast(s: State, sdp: string, log: seq<Entry>)
    requires Consistent(s) && CurrentIsLast(s, log) && PendingIsLast(s, log)
    ensures var t := s.(lastOffer := sdp); Consistent(t) && CurrentIsLast(t, log) && PendingIsLast(t, log)
  {
    hide IsLast, IsOpen, NoneIn;
  }

  lemma {:induction false} RunKeepsLast(s: State, w: World, calls: seq<Call>, log: seq<Entry>)
    requires Consistent(s) && CurrentIsLast(s, log) && PendingIsLast(s, log)
    ensures var t, all := Run(s, w, calls), log + Log(s, w, calls); CurrentIsLast(t, all) && PendingIsLast(t, all)
    decreases |calls|
  {
    hide CurrentIsLast, PendingIsLast, Step, SetBy, Consistent;
    if calls == [] {
      EmptyUnit(log);
    } else {
      StepKeepsLast(s, w, calls[0], log);
      RunKeepsLast(Step(s, w, calls[0]), w, calls[1..], log + SetBy(s, w, calls[0]));
      Assoc(log, SetBy(s, w, calls[0]), Log(Step(s, w, calls[0]), w, calls[1..]));
    }
  }

  /** Over any calls to a new connection, accepted or refused: what is current is the last
      answer that was set and the last offer before it, and what is pending is the last offer,
      if no answer has been set since, and the last provisional answer to it. */
  lemma DescriptionsAreTheLastSet(w: World, calls: seq<Call>)
    ensures CurrentIsLast(Run(INITIAL, w, calls), Log(INITIAL, w, calls))
    ensures PendingIsLast(Run(INITIAL, w, calls), Log(INITIAL, w, calls))
  {
    assert CurrentIsLast(INITIAL, []) && PendingIsLast(INITIAL, []);
    RunKeepsLast(INITIAL, w, calls, []);
    EmptyUnit(Log(INITIAL, w, calls));
  }

  // ---------------------------------------------------------------- the connection in place

  class PeerConnection {
    var closed: bool
    var signaling: SignalingState
    var lastOffer: string
    var lastAnswer: string
    var pendingLocal: Option<Description>
    var pendingRemote: Option<Description>
    var currentLocal: Option<Description>
    var currentRemote: Option<Description>

    ghost function View(): State
      reads this
    {
      State(closed, signaling, lastOffer, lastAnswer, pendingLocal, pendingRemote, currentLocal, currentRemote)
    }

    constructor ()
      ensures View() == INITIAL
    {
      closed, signaling, lastOffer, lastAnswer := false, Stable, "", "";
      pendingLocal, pendingRemote, currentLocal, currentRemote := None, None, None, None;
    }

    method SetDescription(d: Description, op: Op) returns (r: Result<(), Error>)
      modifies this
      ensures (View(), r) == SetDescriptionSpec(old(View()), d, op)
    {
      if closed {
        return Err(ErrConnectionClosed);
      } else if d.typ == Unspecified {
        return Err(ErrPeerConnSDPTypeInvalidValue);
      }
      var cur := signaling;
      var next;
      match op {
        case SetLocal =>
          match d.typ {
            case Offer =>
              if d.sdp != lastOffer {
                return Err(ErrSDPDoesNotMatchOffer);
              }
              next := CheckNext(cur, HaveLocalOffer, SetLocal, d.typ);
              if next.Ok? {
                pendingLocal := Some(d);
              }
            case Answer =>
              if d.sdp != lastAnswer {
                return Err(ErrSDPDoesNotMatchAnswer);
              }
              next := CheckNext(cur, Stable, SetLocal, d.typ);
              if next.Ok? {
                var pending := pendingRemote;
                pendingRemote := None;
                pendingLocal := None;
                currentLocal := Some(d);
                currentRemote := pending;
              }
            case Rollback =>
              next := CheckNext(cur, Stable, SetLocal, d.typ);
              if next.Ok? {
                pendingLocal := None;
              }
            case Pranswer =>
              if d.sdp != lastAnswer {
                return Err(ErrSDPDoesNotMatchAnswer);
              }
              next := CheckNext(cur, HaveLocalPranswer, SetLocal, d.typ);
              if next.Ok? {
                pendingLocal := Some(d);
              }
          }
        case SetRemote =>
          match d.typ {
            case Offer =>
              next := CheckNext(cur, HaveRemoteOffer, SetRemote, d.typ);
              if next.Ok? {
                pendingRemote := Some(d);
              }
            case Answer =>
              next := CheckNext(cur, Stable, SetRemote, d.typ);
              if next.Ok? {
                var pending := pendingLocal;
                pendingLocal := None;
                pendingRemote := None;
                currentRemote := Some(d);
                currentLocal := pending;
              }
            case Rollback =>
              next := CheckNext(cur, Stable, SetRemote, d.typ);
              if next.Ok? {
                pendingRemote := None;
              }
            case Pranswer =>
              next := CheckNext(cur, HaveRemotePranswer, SetRemote, d.typ);
              if next.Ok? {
                pendingRemote := Some(d);
              }
          }
      }
      if next.Err? {
        return Err(next.error);
      }
      signaling := next.value;
      return Ok(());
    }

    method SetLocalDescriptionOf(w: World, desc: Description) returns (r: Result<(), Error>)
      modifies this
      ensures (View(), r) == SetLocalSpec(old(View()), w, desc)
    {
      if closed {
        return Err(ErrConnectionClosed);
      }
      var d := desc;
      if d.sdp == "" {
        if d.typ != Offer {
          return Err(ErrPeerConnSDPTypeInvalidValueSetLocalDescription);
        }
        d := d.(sdp := lastOffer);
      }
      if !w.parses(d.sdp) {
        return Err(ErrSdpUnmarshal);
      }
      r := SetDescription(d, SetLocal);
    }

    method SetRemoteDescriptionOf(w: World, d: Description) returns (r: Result<(), Error>)
      modifies this
      ensures (View(), r) == SetRemoteSpec(old(View()), w, d)
    {
      if closed {
        return Err(ErrConnectionClosed);
      }
      if !w.parses(d.sdp) {
        return Err(ErrSdpUnmarshal);
      }
      r := SetDescription(d, SetRemote);
      if r.Ok? && !w.usable(d) {
        return Err(ErrRemoteDetails);
      }
    }
  }
}
