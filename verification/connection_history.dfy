/**
 What a run leaves on display: the last error and the phase are traced back to the event that put them there, and an
 active fallback shows in the phase exactly under a condition on the events since.
 */
module ConnectionHistory {
  import opened Basics
  import opened SessionTypes
  import opened Reducer
  import opened SessionRuns
  import opened Policies
  import opened ConnectionLaws
  import SessionInvariants

  // ----- The last error -----

  function LossCode(event: ProtocolEvent): ErrorCode
    requires IsLoss(event)
  {
    match event
    case TransportDisconnected(_) => TransportDisconnectedCode
    case TransportFailed(_) => TransportFailureCode
    case FrameSendFailed(_) => SendFailedCode
  }

  function LossText(event: ProtocolEvent): string
    requires IsLoss(event)
  {
    match event
    case TransportDisconnected(reason) => reason
    case TransportFailed(message) => message
    case FrameSendFailed(message) => message
  }

  /**
   The error an event puts on display: a loss outside fallback, a request for fallback, an error received, or a policy
   violated.
   */
  function Raised(s: SessionState, event: ProtocolEvent, nowMs: i64): Option<SessionError>
  {
    if IsLoss(event) then
      if s.link.fallback.active then None
      else Some(SessionError(TransportFailure, LossCode(event), Supplied(LossText(event)), nowMs))
    else if event.FallbackActivated? then
      Some(SessionError(TransportFailure, FallbackActivatedCode, Cause(event.cause), nowMs))
    else if event.FrameReceived? && event.frame.ErrorNotice? then
      Some(SessionError(event.frame.category, Received(event.frame.code), Supplied(event.frame.message), nowMs))
    else
      var next := Reduce(s, event, nowMs).room;
      if Violates(s.room, event, next)
      then Some(SessionError(PolicyFailure, ViolationCode(s.room, event, next), Fixed, nowMs))
      else None
  }

  /** A check that finds its policy kept while an error of that policy is on display. */
  predicate Settles(s: SessionState, event: ProtocolEvent)
  {
    || (ChecksPayment(event) && IsPaymentPolicyError(s.link.lastError))
    || (ChecksKeyEpoch(s.room, event) && IsE2eePolicyError(s.link.lastError))
  }

  predicate IsHandshakeAck(event: ProtocolEvent)
  {
    event.FrameReceived? && event.frame.HandshakeAck?
  }

  /** The events that take an error off the display, if they do not raise one themselves. */
  predicate Withdraws(s: SessionState, event: ProtocolEvent)
  {
    event.ConnectRequested? || event.TransportConnected? || event.ManualDisconnected? || IsHandshakeAck(event)
    || Settles(s, event)
  }

  lemma ErrorStep(s: SessionState, event: ProtocolEvent, nowMs: i64)
    ensures Reduce(s, event, nowMs).link.lastError
         == if Raised(s, event, nowMs).Some? then Raised(s, event, nowMs)
            else if Withdraws(s, event) then None
            else s.link.lastError
  {
    var next := Reduce(s, event, nowMs);
    if IsLoss(event) {
      LossStep(s, event, nowMs);
    } else if !event.FallbackActivated? && !(event.FrameReceived? && event.frame.ErrorNotice?) {
      if Violates(s.room, event, next.room) {
        ViolationOutcome(s, event, nowMs);
      } else {
        QuietErrorStep(s, event, nowMs);
      }
    }
  }

  lemma LossStep(s: SessionState, event: ProtocolEvent, nowMs: i64)
    requires IsLoss(event)
    ensures !Withdraws(s, event)
    ensures Reduce(s, event, nowMs).link.lastError
         == if Raised(s, event, nowMs).Some? then Raised(s, event, nowMs) else s.link.lastError
  {
    if !s.link.fallback.active {
      LossIsRecorded(s, event, nowMs);
    }
  }

  lemma QuietErrorStep(s: SessionState, event: ProtocolEvent, nowMs: i64)
    requires !IsLoss(event) && !event.FallbackActivated? && !(event.FrameReceived? && event.frame.ErrorNotice?)
    requires !Violates(s.room, event, Reduce(s, event, nowMs).room)
    ensures Reduce(s, event, nowMs).link.lastError == if Withdraws(s, event) then None else s.link.lastError
  {
  }

  /** The i-th event of a run raises an error. */
  function RaisedAt(start: SessionState, events: seq<Timed>, i: nat): Option<SessionError>
    requires i < |events|
  {
    Raised(Run(start, events[..i]), events[i].event, events[i].nowMs)
  }

  predicate WithdrawsAt(start: SessionState, events: seq<Timed>, i: nat)
    requires i < |events|
  {
    Withdraws(Run(start, events[..i]), events[i].event)
  }

  /** The i-th event raised an error that no later event replaced or withdrew. */
  ghost predicate IsOrigin(start: SessionState, events: seq<Timed>, i: nat, error: SessionError)
    requires i < |events|
  {
    && RaisedAt(start, events, i) == Some(error)
    && forall j :: i < j < |events| ==> RaisedAt(start, events, j).None? && !WithdrawsAt(start, events, j)
  }

  lemma PrefixesAgree(start: SessionState, events: seq<Timed>, i: nat)
    requires i + 1 < |events|
    ensures RaisedAt(start, events[..|events| - 1], i) == RaisedAt(start, events, i)
    ensures WithdrawsAt(start, events[..|events| - 1], i) == WithdrawsAt(start, events, i)
    ensures RestoresAt(start, events[..|events| - 1], i) == RestoresAt(start, events, i)
  {
    assert events[..|events| - 1][..i] == events[..i];
  }

  /**
   An error is on display after a run exactly if some event of the run raised it and no later event replaced or withdrew
   it.
   */
  lemma {:induction false} ErrorHasItsOrigin(config: MeetingConfig, events: seq<Timed>, error: SessionError)
    ensures var start := InitialState(config);
            Run(start, events).link.lastError == Some(error)
            <==> exists i :: 0 <= i < |events| && IsOrigin(start, events, i, error)
  {
    if events != [] {
      var start, n := InitialState(config), |events| - 1;
      ErrorHasItsOrigin(config, events[..n], error);
      ErrorStep(Run(start, events[..n]), events[n].event, events[n].nowMs);
      OriginStep(start, events, error);
    }
  }

  lemma OriginStep(start: SessionState, events: seq<Timed>, error: SessionError)
    requires events != []
    ensures var n := |events| - 1;
            (exists i :: 0 <= i < |events| && IsOrigin(start, events, i, error))
            <==> (|| RaisedAt(start, events, n) == Some(error)
                  || (&& RaisedAt(start, events, n).None? && !WithdrawsAt(start, events, n)
                      && exists i :: 0 <= i < n && IsOrigin(start, events[..n], i, error)))
  {
    var n := |events| - 1;
    forall i | 0 <= i < n
      ensures RaisedAt(start, events[..n], i) == RaisedAt(start, events, i)
      ensures WithdrawsAt(start, events[..n], i) == WithdrawsAt(start, events, i)
    {
      PrefixesAgree(start, events, i);
    }
    if RaisedAt(start, events, n) == Some(error) {
      assert IsOrigin(start, events, n, error);
    }
    if RaisedAt(start, events, n).None? && !WithdrawsAt(start, events, n) {
      if i :| 0 <= i < n && IsOrigin(start, events[..n], i, error) {
        assert IsOrigin(start, events, i, error);
      }
    }
    if i :| 0 <= i < |events| && IsOrigin(start, events, i, error) {
      if i < n {
        assert IsOrigin(start, events[..n], i, error);
      }
    }
  }

  // ----- The truth of the text on display -----

  /** A check of what an inbound code claims: of the settlement, or of the key epoch. */
  predicate Rechecks(code: string, room: Room, event: ProtocolEvent)
  {
    if IsPaymentCode(Received(code)) then ChecksPayment(event) else ChecksKeyEpoch(room, event)
  }

  /** The claim of the i-th event's code held when it arrived, and no later event checked it. */
  ghost predicate HeldUnchecked(start: SessionState, events: seq<Timed>, i: nat)
    requires i < |events| && Spoofs(events[i].event)
  {
    var code := events[i].event.frame.code;
    && TextIsTrue(code, Run(start, events[..i]).room)
    && forall j :: i < j < |events| ==> !Rechecks(code, Run(start, events[..j]).room, events[j].event)
  }

  /** A check that neither raises nor withdraws an error finds the claim false; without one the claim stands. */
  lemma ClaimStep(s: SessionState, event: ProtocolEvent, nowMs: i64, code: string)
    requires IsPaymentCode(Received(code)) || code == "e2ee_epoch_required"
    requires Raised(s, event, nowMs).None? && !Withdraws(s, event)
    ensures TextIsTrue(code, Reduce(s, event, nowMs).room)
            <==> TextIsTrue(code, s.room) && !Rechecks(code, s.room, event)
  {
    if Rechecks(code, s.room, event) {
      CheckedClaim(s, event, nowMs, code);
    } else {
      UncheckedClaim(s, event, nowMs, code);
    }
  }

  /** What a code claims is about the settlement only, or about the key epoch only. */
  lemma ClaimOfCode(code: string, room: Room)
    requires IsPaymentCode(Received(code)) || code == "e2ee_epoch_required"
    ensures TextIsTrue(code, room) <==>
            if IsPaymentCode(Received(code)) then
              && PaymentOutstanding(room)
              && (code == "payment_settlement_blocked" ==> room.payment.status.Blocked?)
              && (code == "payment_settlement_required" ==> room.payment.status.Pending?)
            else KeyEpochMissing(room)
  {
    assert code[0] == if IsPaymentCode(Received(code)) then 'p' else 'e';
  }

  lemma CheckedClaim(s: SessionState, event: ProtocolEvent, nowMs: i64, code: string)
    requires IsPaymentCode(Received(code)) || code == "e2ee_epoch_required"
    requires Raised(s, event, nowMs).None? && Rechecks(code, s.room, event)
    ensures !TextIsTrue(code, Reduce(s, event, nowMs).room)
  {
    ClaimOfCode(code, Reduce(s, event, nowMs).room);
    assert !Violates(s.room, event, Reduce(s, event, nowMs).room);
  }

  lemma UncheckedClaim(s: SessionState, event: ProtocolEvent, nowMs: i64, code: string)
    requires IsPaymentCode(Received(code)) || code == "e2ee_epoch_required"
    requires !Rechecks(code, s.room, event)
    ensures TextIsTrue(code, Reduce(s, event, nowMs).room) <==> TextIsTrue(code, s.room)
  {
    ClaimOfCode(code, s.room);
    ClaimOfCode(code, Reduce(s, event, nowMs).room);
    if IsPaymentCode(Received(code)) {
      PaymentUnchanged(s, event, nowMs);
    } else {
      KeyEpochUnchanged(s, event, nowMs);
    }
  }

  lemma PaymentUnchanged(s: SessionState, event: ProtocolEvent, nowMs: i64)
    requires !ChecksPayment(event)
    ensures var room := Reduce(s, event, nowMs).room; room.payment == s.room.payment && room.config == s.room.config
  {
  }

  lemma KeyEpochUnchanged(s: SessionState, event: ProtocolEvent, nowMs: i64)
    requires !ChecksKeyEpoch(s.room, event)
    ensures KeyEpochMissing(Reduce(s, event, nowMs).room) <==> KeyEpochMissing(s.room)
  {
  }

  /** While a spoofing frame's error is on display, its text is true exactly if it was on arrival and never checked. */
  lemma {:induction false} SpoofedTextExactly(start: SessionState, events: seq<Timed>, i: nat, error: SessionError)
    requires i < |events| && Spoofs(events[i].event) && IsOrigin(start, events, i, error)
    ensures TextIsTrue(events[i].event.frame.code, Run(start, events).room) <==> HeldUnchecked(start, events, i)
    decreases |events|
  {
    var n := |events| - 1;
    var earlier := events[..n];
    var before := Run(start, earlier);
    if i < n {
      forall j | 0 <= j < n ensures earlier[..j] == events[..j] {
      }
      OriginBefore(start, events, i, error);
      SpoofedTextExactly(start, earlier, i, error);
      assert RaisedAt(start, events, n).None? && !WithdrawsAt(start, events, n);
      ClaimStep(before, events[n].event, events[n].nowMs, events[i].event.frame.code);
    } else {
      HandshakeAndErrorOutcome(before, events[n].event.frame, events[n].nowMs);
    }
  }

  lemma OriginBefore(start: SessionState, events: seq<Timed>, i: nat, error: SessionError)
    requires i + 1 < |events| && IsOrigin(start, events, i, error)
    ensures IsOrigin(start, events[..|events| - 1], i, error)
  {
    var n := |events| - 1;
    forall j | 0 <= j < n
      ensures RaisedAt(start, events[..n], j) == RaisedAt(start, events, j)
      ensures WithdrawsAt(start, events[..n], j) == WithdrawsAt(start, events, j)
    {
      PrefixesAgree(start, events, j);
    }
  }

  /** The i-th event is no spoofing frame on display, or what it claimed held on arrival and was not checked since. */
  ghost predicate IsHonest(start: SessionState, events: seq<Timed>, i: nat, error: SessionError)
    requires i < |events|
  {
    Spoofs(events[i].event) && IsOrigin(start, events, i, error) ==> HeldUnchecked(start, events, i)
  }

  /**
   The code text on display after a run is true of the room exactly if it does not come from a spoofing frame, or what
   the frame claimed held on arrival and was not checked since.
   */
  lemma ErrorTextExactly(config: MeetingConfig, events: seq<Timed>, error: SessionError)
    requires Run(InitialState(config), events).link.lastError == Some(error)
    ensures TextIsTrue(CodeText(error.code), Run(InitialState(config), events).room)
            <==> forall i :: 0 <= i < |events| ==> IsHonest(InitialState(config), events, i, error)
  {
    OwnErrorLifecycle(config, events);
    ErrorHasItsOrigin(config, events, error);
    var i :| 0 <= i < |events| && IsOrigin(InitialState(config), events, i, error);
    OnlyTheOriginCounts(InitialState(config), events, i, error);
    OriginDecides(config, events, i, error);
  }

  lemma OnlyTheOriginCounts(start: SessionState, events: seq<Timed>, i: nat, error: SessionError)
    requires i < |events| && IsOrigin(start, events, i, error)
    ensures IsHonest(start, events, i, error)
            <==> forall j :: 0 <= j < |events| ==> IsHonest(start, events, j, error)
  {
    forall j | 0 <= j < |events| && j != i ensures IsHonest(start, events, j, error) {
      OriginIsUnique(start, events, i, j, error);
    }
  }

  lemma OriginDecides(config: MeetingConfig, events: seq<Timed>, i: nat, error: SessionError)
    requires var s := Run(InitialState(config), events); OwnErrorIsCurrent(s) && s.link.lastError == Some(error)
    requires i < |events| && IsOrigin(InitialState(config), events, i, error)
    ensures TextIsTrue(CodeText(error.code), Run(InitialState(config), events).room)
            <==> IsHonest(InitialState(config), events, i, error)
  {
    if Spoofs(events[i].event) {
      SpoofDecides(InitialState(config), events, i, error);
    } else {
      OwnOrigin(config, events, i, error);
    }
  }

  lemma SpoofDecides(start: SessionState, events: seq<Timed>, i: nat, error: SessionError)
    requires i < |events| && Spoofs(events[i].event) && IsOrigin(start, events, i, error)
    ensures TextIsTrue(CodeText(error.code), Run(start, events).room) <==> HeldUnchecked(start, events, i)
  {
    SpoofedTextExactly(start, events, i, error);
    CodeIsReceived(start, events, i, error);
    assert CodeText(error.code) == events[i].event.frame.code;
  }

  lemma OriginIsUnique(start: SessionState, events: seq<Timed>, i: nat, j: nat, error: SessionError)
    requires i < |events| && j < |events| && i != j && IsOrigin(start, events, i, error)
    ensures !IsOrigin(start, events, j, error)
  {
    var k := if i < j then j else i;
    assert k > i ==> RaisedAt(start, events, k).None?;
  }

  /** A spoofing frame shows its own code. */
  lemma CodeIsReceived(start: SessionState, events: seq<Timed>, i: nat, error: SessionError)
    requires i < |events| && RaisedAt(start, events, i) == Some(error) && Spoofs(events[i].event)
    ensures error.code == Received(events[i].event.frame.code)
  {
  }

  /** Any other event shows a code whose text is true. */
  lemma OwnOrigin(config: MeetingConfig, events: seq<Timed>, i: nat, error: SessionError)
    requires var s := Run(InitialState(config), events); OwnErrorIsCurrent(s) && s.link.lastError == Some(error)
    requires i < |events| && RaisedAt(InitialState(config), events, i) == Some(error) && !Spoofs(events[i].event)
    ensures TextIsTrue(CodeText(error.code), Run(InitialState(config), events).room)
  {
    if error.code.Received? {
      ReceivedCodesAreReceived(InitialState(config), events, i, error);
    }
    OwnTexts(Run(InitialState(config), events));
  }

  /** Only an error frame puts a received code on display. */
  lemma ReceivedCodesAreReceived(start: SessionState, events: seq<Timed>, i: nat, error: SessionError)
    requires i < |events| && RaisedAt(start, events, i) == Some(error) && error.code.Received?
    ensures events[i].event.FrameReceived? && events[i].event.frame.ErrorNotice?
    ensures error.code.text == events[i].event.frame.code
  {
  }

  // ----- The phase during a fallback -----

  /** The events that hide an active fallback behind another phase. */
  predicate Hides(event: ProtocolEvent)
  {
    || event.ConnectRequested? || event.TransportConnected? || event.ManualDisconnected?
    || (event.FrameReceived? && event.frame.MediaProfileNegotiation?
        && event.frame.preferredProfile.Hdr? && event.frame.negotiatedProfile.Sdr?)
  }

  /** The events that show an active fallback again, or show it in the first place. */
  predicate Restores(s: SessionState, event: ProtocolEvent, nowMs: i64)
  {
    || event.FallbackActivated? || IsLoss(event) || IsHandshakeAck(event)
    || (event.FrameReceived? && event.frame.ErrorNotice?)
    || Violates(s.room, event, Reduce(s, event, nowMs).room)
    || Settles(s, event)
  }

  predicate RestoresAt(start: SessionState, events: seq<Timed>, i: nat)
    requires i < |events|
  {
    Restores(Run(start, events[..i]), events[i].event, events[i].nowMs)
  }

  lemma HidingIsNotRestoring(s: SessionState, event: ProtocolEvent, nowMs: i64)
    requires Hides(event)
    ensures !Restores(s, event, nowMs)
  {
  }

  /**
   While fallback is active, the phase says so after an event that restores it, and after one that leaves it alone if it
   did before.
   */
  lemma ShownStep(s: SessionState, event: ProtocolEvent, nowMs: i64)
    requires SessionInvariants.LinkInv(s.room, s.link)
    requires Reduce(s, event, nowMs).link.fallback.active
    ensures Reduce(s, event, nowMs).link.phase.FallbackActive?
            <==> Restores(s, event, nowMs) || (s.link.phase.FallbackActive? && !Hides(event))
  {
    var next := Reduce(s, event, nowMs);
    if Hides(event) {
      HidingIsNotRestoring(s, event, nowMs);
    } else if Violates(s.room, event, next.room) {
      ViolationOutcome(s, event, nowMs);
    } else {
      PlainShownStep(s, event, nowMs);
    }
  }

  lemma PlainShownStep(s: SessionState, event: ProtocolEvent, nowMs: i64)
    requires SessionInvariants.LinkInv(s.room, s.link)
    requires Reduce(s, event, nowMs).link.fallback.active
    requires !Hides(event) && !Violates(s.room, event, Reduce(s, event, nowMs).room)
    ensures Reduce(s, event, nowMs).link.phase.FallbackActive?
            <==> Restores(s, event, nowMs) || s.link.phase.FallbackActive?
  {
    if event.FrameReceived? {
      FrameOutcome(s, event.frame, nowMs);
    }
  }

  /** What the frames that violate nothing and check nothing do to the connection. */
  lemma FrameOutcome(s: SessionState, frame: ProtocolFrame, nowMs: i64)
    ensures var next := ReduceFrame(s, frame, nowMs).link;
            && (frame.HandshakeAck? || frame.ErrorNotice? || frame.MediaProfileNegotiation? ==>
                  next.fallback == s.link.fallback)
            && (frame.PresenceDelta? || frame.PermissionsSnapshot? || frame.RecordingNotice? ==> next == s.link)
            && (frame.KeyRotationAck? || frame.Handshake? || frame.DeviceCapability? ==> next == s.link)
            && (frame.Ping? || frame.Pong? ==> next == s.link)
  {
    QuietFrames(s, frame, nowMs);
    if frame.HandshakeAck? || frame.ErrorNotice? {
      HandshakeAndErrorOutcome(s, frame, nowMs);
    } else if frame.MediaProfileNegotiation? {
      MediaOutcome(s, frame, nowMs);
    }
  }

  /** The step that starts a fallback shows it. */
  lemma StartRestores(s: SessionState, event: ProtocolEvent, nowMs: i64)
    requires !s.link.fallback.active && Reduce(s, event, nowMs).link.fallback.active
    ensures Restores(s, event, nowMs)
  {
    WhatStartsFallback(s, event, nowMs);
  }

  /**
   The phase is `FallbackActive` after a run exactly if fallback is active and, since the last event that hides it,
   some event restored it.
   */
  lemma {:induction false} FallbackShows(config: MeetingConfig, events: seq<Timed>)
    ensures var start := InitialState(config);
            var link := Run(start, events).link;
            link.phase.FallbackActive? <==>
              && link.fallback.active
              && exists i :: 0 <= i < |events| && RestoredFor(start, events, i)
  {
    SessionInvariants.ReachableInv(config, events);
    if events != [] {
      var start, n := InitialState(config), |events| - 1;
      var before := Run(start, events[..n]);
      FallbackShows(config, events[..n]);
      SessionInvariants.ReachableInv(config, events[..n]);
      RestoredStep(start, events);
      if Run(start, events).link.fallback.active {
        ShownStep(before, events[n].event, events[n].nowMs);
        if !before.link.fallback.active {
          StartRestores(before, events[n].event, events[n].nowMs);
        }
      }
    }
  }

  /** The i-th event restores, and no later one hides. */
  ghost predicate RestoredFor(start: SessionState, events: seq<Timed>, i: nat)
    requires i < |events|
  {
    RestoresAt(start, events, i) && forall j :: i < j < |events| ==> !Hides(events[j].event)
  }

  lemma RestoredStep(start: SessionState, events: seq<Timed>)
    requires events != []
    ensures var n := |events| - 1;
            (exists i :: 0 <= i < |events| && RestoredFor(start, events, i))
            <==> (|| RestoresAt(start, events, n)
                  || (!Hides(events[n].event) && exists i :: 0 <= i < n && RestoredFor(start, events[..n], i)))
  {
    var n := |events| - 1;
    forall i | 0 <= i < n ensures RestoresAt(start, events[..n], i) == RestoresAt(start, events, i) {
      PrefixesAgree(start, events, i);
    }
    if RestoresAt(start, events, n) {
      assert RestoredFor(start, events, n);
    }
    if !Hides(events[n].event) {
      if i :| 0 <= i < n && RestoredFor(start, events[..n], i) {
        assert RestoredFor(start, events, i);
      }
    }
    if i :| 0 <= i < |events| && RestoredFor(start, events, i) {
      if i < n {
        assert RestoredFor(start, events[..n], i);
      }
    }
  }

  /** A requested fallback hides behind the next connection request. */
  lemma FallbackHides(config: MeetingConfig, cause: FallbackReason, firstMs: i64, secondMs: i64)
    ensures var link := Run(InitialState(config), [Timed(ProtocolEvent.FallbackActivated(cause), firstMs),
                                                   Timed(ConnectRequested, secondMs)]).link;
            link.fallback.active && link.phase.Connecting?
  {
    var e0, e1 := Timed(ProtocolEvent.FallbackActivated(cause), firstMs), Timed(ConnectRequested, secondMs);
    var start := InitialState(config);
    assert [e0, e1][..1] == [e0] && [e0][..0] == [];
    assert Run(start, [e0]) == Reduce(start, e0.event, firstMs);
    ConnectionMarks(Run(start, [e0]), e1.event, secondMs);
  }

  // ----- The phase outside fallback -----

  /**
   The events after which a session outside fallback is connected: the handshake, or a negotiation or a check that finds
   it complete.
   */
  predicate Connects(s: SessionState, event: ProtocolEvent, nowMs: i64)
  {
    var next := Reduce(s, event, nowMs);
    || IsHandshakeAck(event)
    || (event.FrameReceived? && event.frame.MediaProfileNegotiation? && !Hides(event) && next.room.handshakeComplete)
    || (Settles(s, event) && !Violates(s.room, event, next.room) && next.room.handshakeComplete)
  }

  /** The events after which a session outside fallback is not connected. */
  predicate Disconnects(s: SessionState, event: ProtocolEvent, nowMs: i64)
  {
    || Hides(event) || event.FallbackRecovered? || IsLoss(event)
    || (event.FrameReceived? && event.frame.ErrorNotice?)
    || Violates(s.room, event, Reduce(s, event, nowMs).room)
  }

  lemma ConnectedStep(s: SessionState, event: ProtocolEvent, nowMs: i64)
    requires SessionInvariants.LinkInv(s.room, s.link)
    requires !Reduce(s, event, nowMs).link.fallback.active
    ensures Reduce(s, event, nowMs).link.phase.Connected?
            <==> Connects(s, event, nowMs) || (s.link.phase.Connected? && !Disconnects(s, event, nowMs))
  {
    var next := Reduce(s, event, nowMs);
    if Violates(s.room, event, next.room) {
      ViolationOutcome(s, event, nowMs);
    } else {
      PlainConnectedStep(s, event, nowMs);
    }
  }

  lemma PlainConnectedStep(s: SessionState, event: ProtocolEvent, nowMs: i64)
    requires SessionInvariants.LinkInv(s.room, s.link)
    requires !Reduce(s, event, nowMs).link.fallback.active && !Violates(s.room, event, Reduce(s, event, nowMs).room)
    ensures Reduce(s, event, nowMs).link.phase.Connected?
            <==> Connects(s, event, nowMs) || (s.link.phase.Connected? && !Disconnects(s, event, nowMs))
  {
    if event.FrameReceived? {
      FrameOutcome(s, event.frame, nowMs);
    }
  }

  predicate ConnectsAt(start: SessionState, events: seq<Timed>, i: nat)
    requires i < |events|
  {
    Connects(Run(start, events[..i]), events[i].event, events[i].nowMs)
  }

  predicate DisconnectsAt(start: SessionState, events: seq<Timed>, i: nat)
    requires i < |events|
  {
    Disconnects(Run(start, events[..i]), events[i].event, events[i].nowMs)
  }

  /** The i-th event connects, and no later one disconnects. */
  ghost predicate ConnectedSince(start: SessionState, events: seq<Timed>, i: nat)
    requires i < |events|
  {
    ConnectsAt(start, events, i) && forall j :: i < j < |events| ==> !DisconnectsAt(start, events, j)
  }

  lemma ConnectedSinceStep(start: SessionState, events: seq<Timed>)
    requires events != []
    ensures var n := |events| - 1;
            (exists i :: 0 <= i < |events| && ConnectedSince(start, events, i))
            <==> (|| ConnectsAt(start, events, n)
                  || (!DisconnectsAt(start, events, n)
                      && exists i :: 0 <= i < n && ConnectedSince(start, events[..n], i)))
  {
    var n := |events| - 1;
    forall i | 0 <= i < n
      ensures ConnectsAt(start, events[..n], i) == ConnectsAt(start, events, i)
      ensures DisconnectsAt(start, events[..n], i) == DisconnectsAt(start, events, i)
    {
      assert events[..n][..i] == events[..i];
    }
    if ConnectsAt(start, events, n) {
      assert ConnectedSince(start, events, n);
    }
    if !DisconnectsAt(start, events, n) {
      if i :| 0 <= i < n && ConnectedSince(start, events[..n], i) {
        assert ConnectedSince(start, events, i);
      }
    }
    if i :| 0 <= i < |events| && ConnectedSince(start, events, i) {
      if i < n {
        assert ConnectedSince(start, events[..n], i);
      }
    }
  }

  lemma OnlyRecoveryDisconnectsFallback(s: SessionState, event: ProtocolEvent, nowMs: i64)
    requires s.link.fallback.active && !Reduce(s, event, nowMs).link.fallback.active
    ensures Disconnects(s, event, nowMs) && !Connects(s, event, nowMs) && !Reduce(s, event, nowMs).link.phase.Connected?
  {
    SessionInvariants.OnlyRecoveryEndsFallback(s, event, nowMs);
  }

  /**
   A session is connected after a run exactly if fallback is not active and some event connected it that none
   disconnected since.
   */
  lemma {:induction false} ConnectedHasItsOrigin(config: MeetingConfig, events: seq<Timed>)
    ensures var start := InitialState(config);
            var link := Run(start, events).link;
            link.phase.Connected? <==>
              && !link.fallback.active
              && exists i :: 0 <= i < |events| && ConnectedSince(start, events, i)
  {
    SessionInvariants.ReachableInv(config, events);
    if events != [] {
      var start, n := InitialState(config), |events| - 1;
      var before := Run(start, events[..n]);
      ConnectedHasItsOrigin(config, events[..n]);
      SessionInvariants.ReachableInv(config, events[..n]);
      ConnectedSinceStep(start, events);
      if !Run(start, events).link.fallback.active {
        if before.link.fallback.active {
          OnlyRecoveryDisconnectsFallback(before, events[n].event, events[n].nowMs);
        } else {
          ConnectedStep(before, events[n].event, events[n].nowMs);
        }
      }
    }
  }
}
