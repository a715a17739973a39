/** Invariants of every reachable session state. */
module SessionInvariants {
  import opened Basics
  import opened SessionTypes
  import opened Reducer
  import opened SessionRuns
  import RosterLaws

  ghost predicate LinkInv(room: Room, link: Link)
  {
    && (link.phase.FallbackActive? ==> link.fallback.active)
    && (link.phase.Connected? ==> room.handshakeComplete && !link.fallback.active)
    && (link.phase.Error? ==>
          !link.fallback.active && link.lastError.Some? && link.lastError.value.category.PolicyFailure?)
    && (room.handshakeComplete ==> room.resumeToken.Some?)
    && (link.fallback.active <==> link.fallback.reason.Some?)
    && (link.fallback.active ==> link.fallback.activatedAtMs.Some?)
    && (link.fallback.lastRtoMs.Some? ==> link.fallback.recoveredAtMs.Some? && link.fallback.lastRtoMs.value >= 0)
  }

  ghost predicate Inv(s: SessionState)
  {
    LinkInv(s.room, s.link) && RosterLaws.KeyedById(s.room.participants)
  }

  lemma FrameKeepsLinkInv(s: SessionState, frame: ProtocolFrame, nowMs: i64)
    requires LinkInv(s.room, s.link)
    ensures var next := ReduceFrame(s, frame, nowMs); LinkInv(next.room, next.link)
  {
    if frame.SessionPolicy? || frame.E2eeKeyEpoch? || frame.PaymentPolicy? || frame.PaymentSettlement? {
      EnforcementKeepsLinkInv(s, frame, nowMs);
    }
  }

  lemma EnforcementKeepsLinkInv(s: SessionState, frame: ProtocolFrame, nowMs: i64)
    requires LinkInv(s.room, s.link)
    requires frame.SessionPolicy? || frame.E2eeKeyEpoch? || frame.PaymentPolicy? || frame.PaymentSettlement?
    ensures var next := ReduceFrame(s, frame, nowMs); LinkInv(next.room, next.link)
  {
    if frame.SessionPolicy? {
      SessionPolicyKeepsLinkInv(s, frame, nowMs);
    }
  }

  lemma SessionPolicyKeepsLinkInv(s: SessionState, frame: ProtocolFrame, nowMs: i64)
    requires LinkInv(s.room, s.link) && frame.SessionPolicy?
    ensures var next := ReduceFrame(s, frame, nowMs); LinkInv(next.room, next.link)
  {
  }

  lemma FrameKeepsKeys(s: SessionState, frame: ProtocolFrame, nowMs: i64)
    requires RosterLaws.KeyedById(s.room.participants)
    ensures RosterLaws.KeyedById(ReduceFrame(s, frame, nowMs).room.participants)
  {
    if frame.PresenceDelta? {
      RosterLaws.DeltaKeepsKeys(s.room.participants, frame);
    }
  }

  lemma StepKeepsInv(s: SessionState, event: ProtocolEvent, nowMs: i64)
    requires Inv(s)
    ensures Inv(Reduce(s, event, nowMs))
  {
    if event.FrameReceived? {
      FrameKeepsLinkInv(s, event.frame, nowMs);
      FrameKeepsKeys(s, event.frame, nowMs);
    }
  }

  /** The joint invariant holds after every run from the initial state. */
  lemma {:induction false} ReachableInv(config: MeetingConfig, events: seq<Timed>)
    ensures Inv(Run(InitialState(config), events))
  {
    if events != [] {
      var n := |events| - 1;
      ReachableInv(config, events[..n]);
      StepKeepsInv(Run(InitialState(config), events[..n]), events[n].event, events[n].nowMs);
    }
  }

  /** An active fallback ends at a step exactly when the step is a recovery. */
  lemma OnlyRecoveryEndsFallback(s: SessionState, event: ProtocolEvent, nowMs: i64)
    requires s.link.fallback.active
    ensures !Reduce(s, event, nowMs).link.fallback.active <==> event.FallbackRecovered?
  {
  }
}
