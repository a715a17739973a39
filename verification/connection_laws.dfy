/** How the connection weathers failures during a fallback, and what the recovery time reported at its end measures. */
module ConnectionLaws {
  import opened Basics
  import opened SessionTypes
  import opened Reducer
  import opened SessionRuns
  import opened Policies
  import SessionInvariants

  predicate IsLoss(event: ProtocolEvent)
  {
    event.TransportDisconnected? || event.TransportFailed? || event.FrameSendFailed?
  }

  /** An active fallback absorbs any number of losses: no error is recorded and the fallback itself is untouched. */
  lemma {:induction false} FallbackAbsorbsLosses(start: SessionState, events: seq<Timed>)
    requires start.link.fallback.active && events != []
    requires forall i :: 0 <= i < |events| ==> IsLoss(events[i].event)
    ensures Run(start, events).link == start.link.(phase := FallbackActive)
  {
    var n := |events| - 1;
    if n > 0 {
      FallbackAbsorbsLosses(start, events[..n]);
    }
  }

  /**
   Outside a fallback a loss degrades the connection and is recorded with its own text and time; only a lost transport
   undoes the handshake.
   */
  lemma LossIsRecorded(s: SessionState, event: ProtocolEvent, nowMs: i64)
    requires !s.link.fallback.active && IsLoss(event)
    ensures var next := Reduce(s, event, nowMs);
            && next.link.phase.Degraded?
            && next.link.fallback == s.link.fallback
            && next.link.lastError.Some?
            && next.link.lastError.value.category.TransportFailure?
            && next.link.lastError.value.code
               == (if event.TransportDisconnected? then TransportDisconnectedCode
                   else if event.TransportFailed? then TransportFailureCode
                   else SendFailedCode)
            && next.link.lastError.value.message
               == Supplied(if event.TransportDisconnected? then event.reason else event.message)
            && next.link.lastError.value.atMs == nowMs
            && next.room == s.room.(handshakeComplete := s.room.handshakeComplete && event.FrameSendFailed?)
  {
  }

  /**
   A connection request, a new transport and a manual disconnect clear the error and leave fallback alone; only a new
   transport keeps the handshake.
   */
  lemma ConnectionMarks(s: SessionState, event: ProtocolEvent, nowMs: i64)
    requires event.ConnectRequested? || event.TransportConnected? || event.ManualDisconnected?
    ensures var next := Reduce(s, event, nowMs);
            && next.link == Link(if event.ManualDisconnected? then Disconnected else Connecting, s.link.fallback, None)
            && next.room == s.room.(handshakeComplete := s.room.handshakeComplete && event.TransportConnected?)
  {
  }

  /**
   A completed handshake connects, unless fallback is active, and an inbound error disturbs, unless fallback is active;
   neither touches the fallback.
   */
  lemma HandshakeAndErrorOutcome(s: SessionState, frame: ProtocolFrame, nowMs: i64)
    requires frame.HandshakeAck? || frame.ErrorNotice?
    ensures var next := ReduceFrame(s, frame, nowMs);
            && next.link.fallback == s.link.fallback
            && (s.link.fallback.active ==> next.link.phase.FallbackActive?)
            && (frame.HandshakeAck? ==>
                  next.link.lastError == None && (!s.link.fallback.active ==> next.link.phase.Connected?))
            && (frame.ErrorNotice? ==>
                  && next.room == s.room
                  && next.link.lastError
                     == Some(SessionError(frame.category, Received(frame.code), Supplied(frame.message), nowMs))
                  && (!s.link.fallback.active ==>
                        next.link.phase == if frame.category.PolicyFailure? then ConnectionPhase.Error else Degraded))
  {
  }

  /**
   Frames that only inform about the room never touch the connection; greetings and heartbeats change nothing at all.
   */
  lemma QuietFrames(s: SessionState, frame: ProtocolFrame, nowMs: i64)
    ensures frame.PresenceDelta? || frame.PermissionsSnapshot? || frame.RecordingNotice? || frame.KeyRotationAck? ==>
              ReduceFrame(s, frame, nowMs).link == s.link
    ensures frame.Handshake? || frame.DeviceCapability? || frame.Ping? || frame.Pong? ==>
              ReduceFrame(s, frame, nowMs) == s
  {
  }

  /**
   A media negotiation touches the phase only: HDR answered with SDR degrades, any other outcome connects a session that
   has its handshake and no fallback.
   */
  lemma MediaOutcome(s: SessionState, frame: ProtocolFrame, nowMs: i64)
    requires frame.MediaProfileNegotiation?
    ensures var next := ReduceFrame(s, frame, nowMs);
            var downgraded := frame.preferredProfile.Hdr? && frame.negotiatedProfile.Sdr?;
            var established := s.room.handshakeComplete && !s.link.fallback.active;
            && (next.link.fallback, next.link.lastError) == (s.link.fallback, s.link.lastError)
            && (downgraded ==> next.link.phase.Degraded?)
            && (!downgraded && established ==> next.link.phase.Connected?)
            && (!downgraded && !established ==> next.link == s.link)
  {
  }

  /**
   A recovery disconnects, keeps the error and the activation time, and reports the time since the activation, or zero
   on a clock that ran back.
   */
  lemma RecoveryOutcome(s: SessionState, nowMs: i64)
    ensures var next, was := Reduce(s, FallbackRecovered, nowMs).link, s.link.fallback.activatedAtMs;
            && next.phase.Disconnected? && next.lastError == s.link.lastError
            && !next.fallback.active && next.fallback.reason == None
            && next.fallback.activatedAtMs == was && next.fallback.recoveredAtMs == Some(nowMs)
            && (next.fallback.lastRtoMs.None? <==> was.None?)
            && (was.Some? && -I64_MAX <= nowMs - was.value <= I64_MAX ==>
                  next.fallback.lastRtoMs == Some(Max(0, nowMs - was.value)))
  {
  }

  // ----- The history of a fallback -----

  /** The code of the policy a step violates. */
  function ViolationCode(room: Room, event: ProtocolEvent, next: Room): ErrorCode
    requires Violates(room, event, next)
  {
    if IsRejected(room, event) then
      if event.frame.E2eeKeyEpoch? then E2eeSignatureMissing
      else RejectionCode(event.frame, HasRequiredSignature(event.frame.signature, room.config))
    else if ChecksPayment(event) && PaymentOutstanding(next) then
      if next.payment.status.Blocked? then PaymentSettlementBlocked else PaymentSettlementRequired
    else E2eeEpochRequired
  }

  /**
   Why fallback is active after a run, if it is: the last request since the last recovery, or, without one, the first
   policy violation since then that occurred while the configuration preferred fallback.
   */
  function CauseOnRecord(start: SessionState, events: seq<Timed>): Option<FallbackReason>
  {
    if events == [] then start.link.fallback.reason else
      var n := |events| - 1;
      var earlier := CauseOnRecord(start, events[..n]);
      var event, before, after := events[n].event, Run(start, events[..n]).room, Run(start, events).room;
      if event.FallbackRecovered? then None
      else if event.FallbackActivated? then Some(event.cause)
      else if earlier.None? && Violates(before, event, after) && after.config.preferWebFallbackOnPolicyFailure
      then Some(ByPolicy(ViolationCode(before, event, after)))
      else earlier
  }

  lemma CauseStep(s: SessionState, event: ProtocolEvent, nowMs: i64)
    requires SessionInvariants.LinkInv(s.room, s.link)
    requires !event.FallbackRecovered? && !event.FallbackActivated?
    ensures var next, was := Reduce(s, event, nowMs), s.link.fallback.reason;
            next.link.fallback.reason ==
            if was.None? && Violates(s.room, event, next.room) && next.room.config.preferWebFallbackOnPolicyFailure
            then Some(ByPolicy(ViolationCode(s.room, event, next.room))) else was
  {
    var next := Reduce(s, event, nowMs);
    if Violates(s.room, event, next.room) {
      ViolationOutcome(s, event, nowMs);
    } else {
      NoViolationNoFallback(s, event, nowMs);
    }
  }

  /** A step that violates a policy fails with the code of that policy. */
  lemma ViolationOutcome(s: SessionState, event: ProtocolEvent, nowMs: i64)
    requires Violates(s.room, event, Reduce(s, event, nowMs).room)
    ensures var next := Reduce(s, event, nowMs);
            FailsWith(s.link.fallback, next, ViolationCode(s.room, event, next.room), nowMs)
  {
    var next := Reduce(s, event, nowMs);
    if IsRejected(s.room, event) {
      RejectionOutcome(s, event, nowMs);
    } else if ChecksPayment(event) && PaymentOutstanding(next.room) {
      PaymentOutcome(s, event, nowMs);
    } else {
      KeyEpochOutcome(s, event, nowMs);
    }
  }

  lemma NoViolationNoFallback(s: SessionState, event: ProtocolEvent, nowMs: i64)
    requires !Violates(s.room, event, Reduce(s, event, nowMs).room)
    requires !event.FallbackRecovered? && !event.FallbackActivated?
    ensures Reduce(s, event, nowMs).link.fallback == s.link.fallback
  {
  }

  /**
   The reason on record after any run is the cause its history gives, and fallback is active exactly while there is one.
   */
  lemma {:induction false} FallbackHasItsCause(config: MeetingConfig, events: seq<Timed>)
    ensures var start := InitialState(config);
            var fallback := Run(start, events).link.fallback;
            fallback.reason == CauseOnRecord(start, events) && (fallback.active <==> fallback.reason.Some?)
  {
    SessionInvariants.ReachableInv(config, events);
    if events != [] {
      var n := |events| - 1;
      var before := Run(InitialState(config), events[..n]);
      FallbackHasItsCause(config, events[..n]);
      SessionInvariants.ReachableInv(config, events[..n]);
      if !events[n].event.FallbackRecovered? && !events[n].event.FallbackActivated? {
        CauseStep(before, events[n].event, events[n].nowMs);
      }
    }
  }

  /** Once recorded, an activation time stands through every run that does not activate fallback explicitly. */
  lemma {:induction false} ActivationTimeStands(start: SessionState, events: seq<Timed>)
    requires start.link.fallback.activatedAtMs.Some?
    requires forall i :: 0 <= i < |events| ==> !events[i].event.FallbackActivated?
    ensures Run(start, events).link.fallback.activatedAtMs == start.link.fallback.activatedAtMs
  {
    if events != [] {
      var n := |events| - 1;
      ActivationTimeStands(start, events[..n]);
      ActivationStep(Run(start, events[..n]), events[n].event, events[n].nowMs);
    }
  }

  lemma ActivationStep(s: SessionState, event: ProtocolEvent, nowMs: i64)
    requires s.link.fallback.activatedAtMs.Some? && !event.FallbackActivated?
    ensures Reduce(s, event, nowMs).link.fallback.activatedAtMs == s.link.fallback.activatedAtMs
  {
  }

  /** The difference of two clock readings fits 64 bits. */
  predicate Comparable(since: i64, now: i64)
  {
    -I64_MAX <= now - since <= I64_MAX
  }

  /** The recovery time reported at the end of a run, from any state that has an activation recorded. */
  function ReportedRto(begun: SessionState, events: seq<Timed>, now: i64): Option<i64>
  {
    Reduce(Run(begun, events), FallbackRecovered, now).link.fallback.lastRtoMs
  }

  lemma RtoFromActivation(begun: SessionState, events: seq<Timed>, since: i64, now: i64)
    requires begun.link.fallback.activatedAtMs == Some(since) && Comparable(since, now)
    requires forall i :: 0 <= i < |events| ==> !events[i].event.FallbackActivated?
    ensures ReportedRto(begun, events, now) == Some(Max(0, now - since))
  {
    ActivationTimeStands(begun, events);
    RecoveryOutcome(Run(begun, events), now);
  }

  /**
   A requested fallback reports, at its recovery, exactly the time since it was last requested, or zero on a clock that
   ran back.
   */
  lemma RequestedFallbackRto(start: SessionState, cause: FallbackReason, since: i64, events: seq<Timed>, now: i64)
    requires Comparable(since, now)
    requires forall i :: 0 <= i < |events| ==> !events[i].event.FallbackActivated?
    ensures ReportedRto(Reduce(start, ProtocolEvent.FallbackActivated(cause), since), events, now)
            == Some(Max(0, now - since))
  {
    RtoFromActivation(Reduce(start, ProtocolEvent.FallbackActivated(cause), since), events, since, now);
  }

  /**
   A fallback begun by a policy failure reports its own duration exactly when no earlier activation is on record:
   a recovery leaves the old activation time behind, and the next policy failure keeps it.
   */
  lemma PolicyFallbackRto(start: SessionState, event: ProtocolEvent, since: i64, events: seq<Timed>, now: i64)
    requires !start.link.fallback.active && !event.FallbackActivated?
    requires Reduce(start, event, since).link.fallback.active
    requires forall i :: 0 <= i < |events| ==> !events[i].event.FallbackActivated?
    requires Comparable(since, now)
    requires start.link.fallback.activatedAtMs.Some? ==> Comparable(start.link.fallback.activatedAtMs.value, now)
    ensures var recorded := start.link.fallback.activatedAtMs;
            var rto := ReportedRto(Reduce(start, event, since), events, now);
            && rto.Some?
            && (rto.value == Max(0, now - since) <==>
                  || recorded == None || recorded == Some(since)
                  || (recorded.value >= now && since >= now))
  {
    PolicyActivationTime(start, event, since);
    var recorded := start.link.fallback.activatedAtMs;
    RtoFromActivation(Reduce(start, event, since), events, if recorded.Some? then recorded.value else since, now);
  }

  lemma PolicyActivationTime(s: SessionState, event: ProtocolEvent, nowMs: i64)
    requires !s.link.fallback.active && !event.FallbackActivated?
    requires Reduce(s, event, nowMs).link.fallback.active
    ensures Reduce(s, event, nowMs).link.fallback.activatedAtMs
         == if s.link.fallback.activatedAtMs.Some? then s.link.fallback.activatedAtMs else Some(nowMs)
  {
  }

  /** A drill of 10 ms, a recovery, and a later policy failure of 10 ms: the second recovery reports 110 ms. */
  lemma RtoSpansEarlierFallback(config: MeetingConfig)
    requires config.preferWebFallbackOnPolicyFailure
    ensures var events := [
              Timed(ProtocolEvent.FallbackActivated(ByRequest("drill")), 0),
              Timed(FallbackRecovered, 10),
              Timed(FrameReceived(RoleGrant("a", Host, "b", None, 0)), 100),
              Timed(FallbackRecovered, 110)];
            Run(InitialState(config), events).link.fallback.lastRtoMs == Some(110)
  {
    var e0 := Timed(ProtocolEvent.FallbackActivated(ByRequest("drill")), 0);
    var e1 := Timed(FallbackRecovered, 10);
    var e2 := Timed(FrameReceived(RoleGrant("a", Host, "b", None, 0)), 100);
    var e3 := Timed(FallbackRecovered, 110);
    var events := [e0, e1, e2, e3];
    assert events[..3] == [e0, e1, e2] && events[..3][..2] == [e0, e1] && events[..2][..1] == [e0];
    var s1 := Reduce(InitialState(config), e0.event, 0);
    assert Run(InitialState(config), [e0]) == s1;
    var s2 := Reduce(s1, e1.event, 10);
    assert Run(InitialState(config), [e0, e1]) == s2;
    assert IsRejected(s2.room, e2.event);
    RejectionOutcome(s2, e2.event, 100);
  }
}
