/** Policy failures: which steps are failures, what they do to the connection, and how long their errors live. */
module Policies {
  import opened Basics
  import opened SessionTypes
  import opened Reducer
  import opened SessionRuns
  import Text

  // ----- Rejected control frames -----

  predicate NeedsAuthority(frame: ProtocolFrame)
  {
    frame.RoleGrant? || frame.RoleRevoke? || frame.ModerationSigned? || frame.SessionPolicy?
  }

  /** A control frame that is unsigned where signatures are demanded, or sent by someone without authority. */
  predicate IsRejected(room: Room, event: ProtocolEvent)
  {
    && event.FrameReceived?
    && var frame := event.frame;
       && (NeedsAuthority(frame) || frame.E2eeKeyEpoch?)
       && (|| !HasRequiredSignature(frame.signature, room.config)
           || (NeedsAuthority(frame) && !ActorIsAuthorized(frame.issuer, room.participants)))
  }

  // ----- Policy violations -----

  /** The room demands a settled payment and does not have one. */
  predicate PaymentOutstanding(room: Room)
  {
    && room.config.requirePaymentSettlement
    && room.payment.required
    && (room.payment.status.Pending? || room.payment.status.Blocked?)
  }

  /** The room demands end-to-end encryption and no key epoch has been announced. */
  predicate KeyEpochMissing(room: Room)
  {
    room.policy.e2eeRequired && room.e2ee.currentEpoch <= 0
  }

  predicate ChecksPayment(event: ProtocolEvent)
  {
    event.ConfigUpdated? || (event.FrameReceived? && (event.frame.PaymentPolicy? || event.frame.PaymentSettlement?))
  }

  /** An accepted session policy that is not out of date, or an accepted key epoch. */
  predicate ChecksKeyEpoch(room: Room, event: ProtocolEvent)
  {
    && event.FrameReceived?
    && !IsRejected(room, event)
    && (event.frame.E2eeKeyEpoch? || (event.frame.SessionPolicy? && event.frame.policyEpoch >= room.policy.epoch))
  }

  /** The step from `room` to `next` by `event` violates a policy. */
  predicate Violates(room: Room, event: ProtocolEvent, next: Room)
  {
    || IsRejected(room, event)
    || (ChecksPayment(event) && PaymentOutstanding(next))
    || (ChecksKeyEpoch(room, event) && KeyEpochMissing(next))
  }

  /**
   A policy failure: the error is named and stamped, and fallback results when the configuration prefers it or it is
   active already. An earlier reason and an earlier activation time stand.
   */
  ghost predicate FailsWith(was: FallbackState, next: SessionState, code: ErrorCode, nowMs: i64)
  {
    var fallback := next.link.fallback;
    && next.link.lastError == Some(SessionError(PolicyFailure, code, Fixed, nowMs))
    && fallback.active == (was.active || next.room.config.preferWebFallbackOnPolicyFailure)
    && next.link.phase == (if fallback.active then FallbackActive else ConnectionPhase.Error)
    && (fallback.active ==> fallback.reason == if was.reason.Some? then was.reason else Some(ByPolicy(code)))
    && (fallback.active ==>
          fallback.activatedAtMs == if was.activatedAtMs.Some? then was.activatedAtMs else Some(nowMs))
    && (fallback.recoveredAtMs, fallback.lastRtoMs) == (was.recoveredAtMs, was.lastRtoMs)
  }

  lemma RejectionOutcome(s: SessionState, event: ProtocolEvent, nowMs: i64)
    requires IsRejected(s.room, event)
    ensures var code := if event.frame.E2eeKeyEpoch? then E2eeSignatureMissing
                        else RejectionCode(event.frame, HasRequiredSignature(event.frame.signature, s.room.config));
            FailsWith(s.link.fallback, Reduce(s, event, nowMs), code, nowMs)
  {
  }

  lemma PaymentOutcome(s: SessionState, event: ProtocolEvent, nowMs: i64)
    requires ChecksPayment(event) && PaymentOutstanding(Reduce(s, event, nowMs).room)
    ensures var next := Reduce(s, event, nowMs);
            FailsWith(s.link.fallback, next,
                      if next.room.payment.status.Blocked? then PaymentSettlementBlocked
                      else PaymentSettlementRequired, nowMs)
  {
  }

  lemma KeyEpochOutcome(s: SessionState, event: ProtocolEvent, nowMs: i64)
    requires ChecksKeyEpoch(s.room, event) && KeyEpochMissing(Reduce(s, event, nowMs).room)
    ensures FailsWith(s.link.fallback, Reduce(s, event, nowMs), E2eeEpochRequired, nowMs)
  {
  }

  /**
   A step that settles the question withdraws a payment error and restores the phase; any other error, and with it the
   whole connection, stays as it is.
   */
  lemma PaymentWithdrawal(s: SessionState, event: ProtocolEvent, nowMs: i64)
    requires ChecksPayment(event) && !PaymentOutstanding(Reduce(s, event, nowMs).room)
    ensures Withdrawn(s, Reduce(s, event, nowMs), IsPaymentPolicyError(s.link.lastError))
  {
  }

  /** The same for a key epoch that arrives, or a policy that no longer asks for one. */
  lemma KeyEpochWithdrawal(s: SessionState, event: ProtocolEvent, nowMs: i64)
    requires ChecksKeyEpoch(s.room, event) && !KeyEpochMissing(Reduce(s, event, nowMs).room)
    ensures Withdrawn(s, Reduce(s, event, nowMs), IsE2eePolicyError(s.link.lastError))
  {
  }

  ghost predicate Withdrawn(s: SessionState, next: SessionState, matching: bool)
  {
    if !matching then next.link == s.link else
      && next.link.lastError == None && next.link.fallback == s.link.fallback
      && (next.link.phase.FallbackActive? <==> s.link.fallback.active)
      && (next.link.phase.Connected? <==> next.room.handshakeComplete && !s.link.fallback.active)
      && (next.link.phase.Connecting? <==> !next.room.handshakeComplete && !s.link.fallback.active)
  }

  function KindText(frame: ProtocolFrame): string
    requires NeedsAuthority(frame)
  {
    match frame
    case RoleGrant(_, _, _, _, _) => "role_grant"
    case RoleRevoke(_, _, _, _, _) => "role_revoke"
    case ModerationSigned(_, _, _, _, _) => "moderation"
    case SessionPolicy(_, _, _, _, _, _, _, _, _, _) => "session_policy"
  }

  /** The text of a rejection is the kind of the frame and which of the two checks failed. */
  lemma RejectionText(s: SessionState, event: ProtocolEvent, nowMs: i64)
    requires IsRejected(s.room, event) && NeedsAuthority(event.frame)
    ensures var next := Reduce(s, event, nowMs);
            && next.link.lastError.Some?
            && CodeText(next.link.lastError.value.code) == KindText(event.frame)
                 + if HasRequiredSignature(event.frame.signature, s.room.config) then "_not_authorized"
                   else "_signature_missing"
  {
    RejectionCodeText(event.frame, HasRequiredSignature(event.frame.signature, s.room.config));
  }

  lemma RejectionCodeText(frame: ProtocolFrame, signed: bool)
    requires NeedsAuthority(frame)
    ensures CodeText(RejectionCode(frame, signed)) == KindText(frame) + if signed then "_not_authorized"
                                                                        else "_signature_missing"
  {
    match frame
    case RoleGrant(_, _, _, _, _) => RoleGrantTexts();
    case RoleRevoke(_, _, _, _, _) => RoleRevokeTexts();
    case ModerationSigned(_, _, _, _, _) => ModerationTexts();
    case SessionPolicy(_, _, _, _, _, _, _, _, _, _) => SessionPolicyTexts();
  }

  lemma RoleGrantTexts()
    ensures "role_grant_not_authorized" == "role_grant" + "_not_authorized"
    ensures "role_grant_signature_missing" == "role_grant" + "_signature_missing"
  {
  }

  lemma RoleRevokeTexts()
    ensures "role_revoke_not_authorized" == "role_revoke" + "_not_authorized"
    ensures "role_revoke_signature_missing" == "role_revoke" + "_signature_missing"
  {
  }

  lemma ModerationTexts()
    ensures "moderation_not_authorized" == "moderation" + "_not_authorized"
    ensures "moderation_signature_missing" == "moderation" + "_signature_missing"
  {
  }

  lemma SessionPolicyTexts()
    ensures "session_policy_not_authorized" == "session_policy" + "_not_authorized"
    ensures "session_policy_signature_missing" == "session_policy" + "_signature_missing"
  {
  }

  /**
   Fallback starts at a step exactly when it is requested, or the step violates a policy and the configuration then in
   force prefers fallback.
   */
  lemma WhatStartsFallback(s: SessionState, event: ProtocolEvent, nowMs: i64)
    requires !s.link.fallback.active
    ensures var next := Reduce(s, event, nowMs);
            next.link.fallback.active <==>
              || event.FallbackActivated?
              || (Violates(s.room, event, next.room) && next.room.config.preferWebFallbackOnPolicyFailure)
  {
    if event.FrameReceived? {
      FrameStartsFallback(s, event.frame, nowMs);
    }
  }

  lemma FrameStartsFallback(s: SessionState, frame: ProtocolFrame, nowMs: i64)
    requires !s.link.fallback.active
    ensures var event := FrameReceived(frame);
            var next := Reduce(s, event, nowMs);
            next.link.fallback.active <==>
              Violates(s.room, event, next.room) && next.room.config.preferWebFallbackOnPolicyFailure
  {
  }

  // ----- The life of a policy error -----

  /** The two families of codes the reducer looks for are exactly the code texts with the prefixes it tests. */
  lemma CodeFamilies(code: ErrorCode)
    ensures IsPaymentCode(code) <==>
              || Text.StartsWith(CodeText(code), "payment_settlement_")
              || CodeText(code) == "payment_unsettled"
    ensures IsE2eeCode(code) <==> Text.StartsWith(CodeText(code), "e2ee_")
  {
    if !code.Received? {
      PaymentInitial(code);
      E2eeInitial(code);
    }
  }

  lemma PaymentInitial(code: ErrorCode)
    requires !code.Received?
    ensures IsPaymentCode(code) <==> Text.StartsWith(CodeText(code), "payment_settlement_")
    ensures CodeText(code) != "payment_unsettled"
  {
    if IsPaymentCode(code) {
      assert CodeText(code)[8] == 's';
    } else {
      NoPaymentInitial(code);
    }
  }

  lemma NoPaymentInitial(code: ErrorCode)
    requires !code.Received? && !IsPaymentCode(code)
    ensures CodeText(code) != "" && CodeText(code)[0] != 'p'
  {
  }

  lemma E2eeInitial(code: ErrorCode)
    requires !code.Received?
    ensures IsE2eeCode(code) <==> Text.StartsWith(CodeText(code), "e2ee_")
  {
    if !IsE2eeCode(code) {
      NoE2eeInitial(code);
    }
  }

  lemma NoE2eeInitial(code: ErrorCode)
    requires !code.Received? && !IsE2eeCode(code)
    ensures CodeText(code) != "" && CodeText(code)[0] != 'e'
  {
  }

  /** An inbound error frame that carries one of the codes the reducer raises and withdraws by itself. */
  predicate Spoofs(event: ProtocolEvent)
  {
    && event.FrameReceived?
    && event.frame.ErrorNotice?
    && (IsPaymentCode(Received(event.frame.code)) || event.frame.code == "e2ee_epoch_required")
  }

  /** A payment or key-epoch error is on display only while its cause persists. */
  ghost predicate ErrorsAreCurrent(s: SessionState)
  {
    s.link.lastError.Some? ==>
      var error := s.link.lastError.value;
      && (IsPaymentCode(error.code) ==>
            && error.category.PolicyFailure?
            && PaymentOutstanding(s.room)
            && error.code == if s.room.payment.status.Blocked? then PaymentSettlementBlocked
                             else PaymentSettlementRequired)
      && (error.code == E2eeEpochRequired ==> error.category.PolicyFailure? && KeyEpochMissing(s.room))
      && error.code != Received("e2ee_epoch_required")
  }

  lemma StepKeepsErrorsCurrent(s: SessionState, event: ProtocolEvent, nowMs: i64)
    requires ErrorsAreCurrent(s) && !Spoofs(event)
    ensures ErrorsAreCurrent(Reduce(s, event, nowMs))
  {
    if event.FrameReceived? {
      FrameKeepsErrorsCurrent(s, event.frame, nowMs);
    }
  }

  lemma FrameKeepsErrorsCurrent(s: SessionState, frame: ProtocolFrame, nowMs: i64)
    requires ErrorsAreCurrent(s) && !Spoofs(FrameReceived(frame))
    ensures ErrorsAreCurrent(ReduceFrame(s, frame, nowMs))
  {
  }

  /** In every run without spoofing error frames, payment and key-epoch errors never outlive their causes. */
  lemma {:induction false} ErrorLifecycle(config: MeetingConfig, events: seq<Timed>)
    requires forall i :: 0 <= i < |events| ==> !Spoofs(events[i].event)
    ensures ErrorsAreCurrent(Run(InitialState(config), events))
  {
    if events != [] {
      var n := |events| - 1;
      ErrorLifecycle(config, events[..n]);
      StepKeepsErrorsCurrent(Run(InitialState(config), events[..n]), events[n].event, events[n].nowMs);
    }
  }

  /** A payment or key-epoch error that the reducer raised itself is on display only while its cause persists. */
  ghost predicate OwnErrorIsCurrent(s: SessionState)
  {
    s.link.lastError.Some? ==>
      var error := s.link.lastError.value;
      && (IsPaymentCode(error.code) && !error.code.Received? ==>
            && error.category.PolicyFailure?
            && PaymentOutstanding(s.room)
            && error.code == if s.room.payment.status.Blocked? then PaymentSettlementBlocked
                             else PaymentSettlementRequired)
      && (error.code == E2eeEpochRequired ==> error.category.PolicyFailure? && KeyEpochMissing(s.room))
  }

  lemma StepKeepsOwnErrorCurrent(s: SessionState, event: ProtocolEvent, nowMs: i64)
    requires OwnErrorIsCurrent(s)
    ensures OwnErrorIsCurrent(Reduce(s, event, nowMs))
  {
    if event.FrameReceived? {
      FrameKeepsOwnErrorCurrent(s, event.frame, nowMs);
    }
  }

  lemma FrameKeepsOwnErrorCurrent(s: SessionState, frame: ProtocolFrame, nowMs: i64)
    requires OwnErrorIsCurrent(s)
    ensures OwnErrorIsCurrent(ReduceFrame(s, frame, nowMs))
  {
  }

  /** In every run, whatever error frames come in, the errors the reducer raises itself never outlive their causes. */
  lemma {:induction false} OwnErrorLifecycle(config: MeetingConfig, events: seq<Timed>)
    ensures OwnErrorIsCurrent(Run(InitialState(config), events))
  {
    if events != [] {
      var n := |events| - 1;
      OwnErrorLifecycle(config, events[..n]);
      StepKeepsOwnErrorCurrent(Run(InitialState(config), events[..n]), events[n].event, events[n].nowMs);
    }
  }

  /** What a code text claims about the room. */
  predicate TextIsTrue(text: string, room: Room)
  {
    && (Text.StartsWith(text, "payment_settlement_") || text == "payment_unsettled" ==> PaymentOutstanding(room))
    && (text == "payment_settlement_blocked" ==> room.payment.status.Blocked?)
    && (text == "payment_settlement_required" ==> room.payment.status.Pending?)
    && (text == "e2ee_epoch_required" ==> KeyEpochMissing(room))
  }

  /** The code text on display, if any, is true of the room. */
  predicate TextIsCurrent(s: SessionState)
  {
    s.link.lastError.Some? ==> TextIsTrue(CodeText(s.link.lastError.value.code), s.room)
  }

  /** Without spoofing error frames, the code text a user sees is always true. */
  lemma ErrorTextLifecycle(config: MeetingConfig, events: seq<Timed>)
    requires forall i :: 0 <= i < |events| ==> !Spoofs(events[i].event)
    ensures TextIsCurrent(Run(InitialState(config), events))
  {
    ErrorLifecycle(config, events);
    CurrentTexts(Run(InitialState(config), events));
  }

  lemma CurrentTexts(s: SessionState)
    requires ErrorsAreCurrent(s)
    ensures TextIsCurrent(s)
  {
    if s.link.lastError.Some? {
      CodeFamilies(s.link.lastError.value.code);
      if !s.link.lastError.value.code.Received? {
        TextsIdentifyCodes(s.link.lastError.value.code);
      }
    }
  }

  /** The text of an error is true if the reducer raised the error itself, or the text is outside both families. */
  lemma OwnTexts(s: SessionState)
    requires OwnErrorIsCurrent(s) && s.link.lastError.Some?
    requires var code := s.link.lastError.value.code;
             code.Received? ==> !IsPaymentCode(code) && code.text != "e2ee_epoch_required"
    ensures TextIsCurrent(s)
  {
    CodeFamilies(s.link.lastError.value.code);
    if !s.link.lastError.value.code.Received? {
      TextsIdentifyCodes(s.link.lastError.value.code);
    }
  }

  /** No two of the reducer's own codes share a text, for the texts the lifecycle speaks of. */
  lemma TextsIdentifyCodes(code: ErrorCode)
    requires !code.Received?
    ensures CodeText(code) == "payment_settlement_blocked" ==> code == PaymentSettlementBlocked
    ensures CodeText(code) == "payment_settlement_required" ==> code == PaymentSettlementRequired
    ensures CodeText(code) == "e2ee_epoch_required" ==> code == E2eeEpochRequired
  {
  }

  /** An inbound error frame shows a true text exactly if what its code claims happens to hold of the room. */
  lemma SpoofedText(s: SessionState, frame: ProtocolFrame, nowMs: i64)
    requires frame.ErrorNotice?
    ensures TextIsCurrent(ReduceFrame(s, frame, nowMs)) <==> TextIsTrue(frame.code, s.room)
  {
  }

  /** One frame is enough to show a settlement error where no settlement is asked for, whatever the configuration. */
  lemma SpoofedSettlement(config: MeetingConfig, frame: ProtocolFrame, nowMs: i64)
    requires frame.ErrorNotice? && IsPaymentCode(Received(frame.code))
    ensures !TextIsCurrent(Run(InitialState(config), [Timed(FrameReceived(frame), nowMs)]))
  {
    var start, events := InitialState(config), [Timed(FrameReceived(frame), nowMs)];
    assert events[..0] == [];
    SpoofedText(start, frame, nowMs);
    assert Run(start, events) == ReduceFrame(start, frame, nowMs);
  }

  /** And one after a key epoch to show a key-epoch error where there is a key epoch. */
  lemma SpoofedKeyEpoch(config: MeetingConfig, epoch: i32, category: ErrorCategory, message: string, nowMs: i64)
    requires epoch > 0
    ensures var events := [Timed(FrameReceived(E2eeKeyEpoch(epoch, "host", Some("signature"), 0)), nowMs),
                           Timed(FrameReceived(ErrorNotice(category, "e2ee_epoch_required", message)), nowMs)];
            !TextIsCurrent(Run(InitialState(config), events))
  {
    var announced := Timed(FrameReceived(E2eeKeyEpoch(epoch, "host", Some("signature"), 0)), nowMs);
    var spoof := Timed(FrameReceived(ErrorNotice(category, "e2ee_epoch_required", message)), nowMs);
    var start := InitialState(config);
    assert [announced, spoof][..1] == [announced] && [announced][..0] == [];
    assert Run(start, [announced]) == Reduce(start, announced.event, nowMs);
    AnnouncedEpochCounts(start, epoch, nowMs);
    SpoofedText(Run(start, [announced]), spoof.event.frame, nowMs);
  }

  lemma AnnouncedEpochCounts(s: SessionState, epoch: i32, nowMs: i64)
    requires epoch > 0
    ensures !KeyEpochMissing(ReduceFrame(s, E2eeKeyEpoch(epoch, "host", Some("signature"), 0), nowMs).room)
  {
    assert !Text.IsWhitespace("signature"[0]);
  }
}
