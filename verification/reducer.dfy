/**
 The pure session reducer: the next state for each inbound frame and each session event.
 The state is taken and returned by value; only the presence delta runs loops, in `ApplyPresenceDelta`.
 */
module Reducer {
  import opened Basics
  import opened SessionTypes
  import Text

  // ----- Signatures and authority -----

  predicate HasRequiredSignature(signature: Option<string>, config: MeetingConfig)
  {
    !config.requireSignedModeration || (signature.Some? && !Text.IsBlank(signature.value))
  }

  predicate IsModerator(role: ParticipantRole)
  {
    role.Host? || role.CoHost?
  }

  predicate ActorIsAuthorized(issuer: string, roster: Roster)
  {
    issuer == "system" || (issuer in roster && IsModerator(roster[issuer].role))
  }

  // ----- Policy failures -----

  function PolicyReject(state: SessionState, nowMs: i64, code: ErrorCode): SessionState
  {
    var toFallback := state.room.config.preferWebFallbackOnPolicyFailure || state.link.fallback.active;
    var was := state.link.fallback;
    var fallback := if !toFallback then was else
                      was.(active := true,
                           reason := if was.reason.Some? then was.reason else Some(ByPolicy(code)),
                           activatedAtMs := if was.activatedAtMs.Some? then was.activatedAtMs else Some(nowMs));
    state.(link := Link(
             if toFallback then FallbackActive else ConnectionPhase.Error,
             fallback,
             Some(SessionError(PolicyFailure, code, Fixed, nowMs))))
  }

  /** The state with its last error cleared and its phase recomputed. */
  function ClearError(state: SessionState): SessionState
  {
    state.(link := state.link.(
             phase := if state.link.fallback.active then FallbackActive
                      else if state.room.handshakeComplete then Connected
                      else Connecting,
             lastError := None))
  }

  /** The text an error code is written as. */
  function CodeText(code: ErrorCode): string
  {
    match code
    case RoleGrantSignatureMissing => "role_grant_signature_missing"
    case RoleGrantNotAuthorized => "role_grant_not_authorized"
    case RoleRevokeSignatureMissing => "role_revoke_signature_missing"
    case RoleRevokeNotAuthorized => "role_revoke_not_authorized"
    case ModerationSignatureMissing => "moderation_signature_missing"
    case ModerationNotAuthorized => "moderation_not_authorized"
    case SessionPolicySignatureMissing => "session_policy_signature_missing"
    case SessionPolicyNotAuthorized => "session_policy_not_authorized"
    case E2eeSignatureMissing => "e2ee_signature_missing"
    case E2eeEpochRequired => "e2ee_epoch_required"
    case PaymentSettlementBlocked => "payment_settlement_blocked"
    case PaymentSettlementRequired => "payment_settlement_required"
    case TransportDisconnectedCode => "transport_disconnected"
    case TransportFailureCode => "transport_failure"
    case SendFailedCode => "send_failed"
    case FallbackActivatedCode => "fallback_activated"
    case Received(text) => text
  }

  predicate IsPaymentCode(code: ErrorCode)
  {
    match code
    case PaymentSettlementBlocked => true
    case PaymentSettlementRequired => true
    case Received(text) => Text.StartsWith(text, "payment_settlement_") || text == "payment_unsettled"
    case _ => false
  }

  predicate IsE2eeCode(code: ErrorCode)
  {
    match code
    case E2eeSignatureMissing => true
    case E2eeEpochRequired => true
    case Received(text) => Text.StartsWith(text, "e2ee_")
    case _ => false
  }

  predicate IsPaymentPolicyError(error: Option<SessionError>)
  {
    error.Some? && error.value.category.PolicyFailure? && IsPaymentCode(error.value.code)
  }

  predicate IsE2eePolicyError(error: Option<SessionError>)
  {
    error.Some? && error.value.category.PolicyFailure? && IsE2eeCode(error.value.code)
  }

  function EnforcePayment(state: SessionState, nowMs: i64): SessionState
  {
    var payment := state.room.payment;
    if !state.room.config.requirePaymentSettlement || !payment.required
       || payment.status.Settled? || payment.status.NotRequired?
    then
      if IsPaymentPolicyError(state.link.lastError) then ClearError(state) else state
    else
      PolicyReject(state, nowMs, if payment.status.Blocked? then PaymentSettlementBlocked
                                 else PaymentSettlementRequired)
  }

  function EnforceE2ee(state: SessionState, nowMs: i64): SessionState
  {
    if !state.room.policy.e2eeRequired || state.room.e2ee.currentEpoch > 0 then
      if IsE2eePolicyError(state.link.lastError) then ClearError(state) else state
    else
      PolicyReject(state, nowMs, E2eeEpochRequired)
  }

  // ----- The roster -----

  /** The roster after inserting every joined attendee in order. */
  function Admit(roster: Roster, joined: seq<Attendee>): Roster
  {
    if joined == [] then roster else
      var last := joined[|joined| - 1];
      Admit(roster, joined[..|joined| - 1])[last.id := last]
  }

  /** The roster after removing every id in order. */
  function Dismiss(roster: Roster, left: seq<string>): Roster
  {
    if left == [] then roster else
      Dismiss(roster, left[..|left| - 1]) - {left[|left| - 1]}
  }

  /** The roster with one attendee's role replaced; an absent attendee is ignored. */
  function WithRole(roster: Roster, id: string, role: ParticipantRole): Roster
  {
    if id in roster then roster[id := roster[id].(role := role)] else roster
  }

  /** The roster after every role change in order. */
  function Reassign(roster: Roster, changes: seq<RoleChange>): Roster
  {
    if changes == [] then roster else
      var last := changes[|changes| - 1];
      WithRole(Reassign(roster, changes[..|changes| - 1]), last.participantId, last.role)
  }

  function DeltaRoster(roster: Roster, frame: ProtocolFrame): Roster
    requires frame.PresenceDelta?
  {
    Reassign(Dismiss(Admit(roster, frame.joined), frame.left), frame.roleChanges)
  }

  /** The three loops of the presence-delta arm, updating the roster as they go. */
  method ApplyPresenceDelta(state: SessionState, frame: ProtocolFrame, nowMs: i64) returns (next: SessionState)
    requires frame.PresenceDelta?
    ensures next == ReduceFrame(state, frame, nowMs)
  {
    if frame.sequence <= state.room.presenceSequence {
      return state;
    }
    var participants := state.room.participants;
    for i := 0 to |frame.joined|
      invariant participants == Admit(state.room.participants, frame.joined[..i])
    {
      assert frame.joined[..i + 1][..i] == frame.joined[..i];
      participants := participants[frame.joined[i].id := frame.joined[i]];
    }
    assert frame.joined[..|frame.joined|] == frame.joined;
    ghost var admitted := participants;
    for i := 0 to |frame.left|
      invariant participants == Dismiss(admitted, frame.left[..i])
    {
      assert frame.left[..i + 1][..i] == frame.left[..i];
      participants := participants - {frame.left[i]};
    }
    assert frame.left[..|frame.left|] == frame.left;
    ghost var remaining := participants;
    for i := 0 to |frame.roleChanges|
      invariant participants == Reassign(remaining, frame.roleChanges[..i])
    {
      assert frame.roleChanges[..i + 1][..i] == frame.roleChanges[..i];
      var change := frame.roleChanges[i];
      if change.participantId in participants {
        participants := participants[change.participantId := participants[change.participantId].(role := change.role)];
      }
    }
    assert frame.roleChanges[..|frame.roleChanges|] == frame.roleChanges;
    next := state.(room := state.room.(participants := participants, presenceSequence := frame.sequence));
  }

  function Moderate(roster: Roster, target: string, action: ModerationAction): Roster
  {
    if target !in roster then roster else
      match action
      case Mute => roster[target := roster[target].(muted := true)]
      case VideoOff => roster[target := roster[target].(videoEnabled := false)]
      case StopShare => roster[target := roster[target].(shareEnabled := false)]
      case Kick => roster - {target}
      case DenyFromWaiting => roster - {target}
      case AdmitFromWaiting => roster[target := roster[target].(waitingRoom := false)]
  }

  // ----- Frames -----

  function WithRoster(state: SessionState, roster: Roster): SessionState
  {
    state.(room := state.room.(participants := roster))
  }

  /** The code a control frame is rejected with: unsigned, or signed but without authority. */
  function RejectionCode(frame: ProtocolFrame, signed: bool): ErrorCode
    requires frame.RoleGrant? || frame.RoleRevoke? || frame.ModerationSigned? || frame.SessionPolicy?
  {
    match frame
    case RoleGrant(_, _, _, _, _) => if signed then RoleGrantNotAuthorized else RoleGrantSignatureMissing
    case RoleRevoke(_, _, _, _, _) => if signed then RoleRevokeNotAuthorized else RoleRevokeSignatureMissing
    case ModerationSigned(_, _, _, _, _) => if signed then ModerationNotAuthorized else ModerationSignatureMissing
    case SessionPolicy(_, _, _, _, _, _, _, _, _, _) =>
      if signed then SessionPolicyNotAuthorized else SessionPolicySignatureMissing
  }

  /** The arms of the frames that only a signed, authorised issuer may use to edit the roster. */
  function ReduceRosterControl(state: SessionState, frame: ProtocolFrame, nowMs: i64): SessionState
    requires frame.RoleGrant? || frame.RoleRevoke? || frame.ModerationSigned?
  {
    var roster := state.room.participants;
    if !HasRequiredSignature(frame.signature, state.room.config) then
      PolicyReject(state, nowMs, RejectionCode(frame, false))
    else if !ActorIsAuthorized(frame.issuer, roster) then
      PolicyReject(state, nowMs, RejectionCode(frame, true))
    else
      match frame
      case RoleGrant(target, role, _, _, _) =>
        WithRoster(state, WithRole(roster, target, role))
      case RoleRevoke(target, role, _, _, _) =>
        if target in roster && roster[target].role == role
        then WithRoster(state, WithRole(roster, target, ParticipantRole.Participant))
        else state
      case ModerationSigned(target, action, _, _, _) =>
        WithRoster(state, Moderate(roster, target, action))
  }

  function ReduceSessionPolicy(state: SessionState, frame: ProtocolFrame, nowMs: i64): SessionState
    requires frame.SessionPolicy?
  {
    if !HasRequiredSignature(frame.signature, state.room.config) then
      PolicyReject(state, nowMs, RejectionCode(frame, false))
    else if !ActorIsAuthorized(frame.issuer, state.room.participants) then
      PolicyReject(state, nowMs, RejectionCode(frame, true))
    else if frame.policyEpoch < state.room.policy.epoch then
      state
    else
      var policy := RoomPolicy(frame.roomLock, frame.waitingRoomEnabled, frame.guestPolicy,
                               frame.e2eeRequired, frame.maxParticipants, frame.policyEpoch);
      EnforceE2ee(state.(room := state.room.(policy := policy, recordingNotice := frame.recordingPolicy)), nowMs)
  }

  function ReduceMediaProfile(state: SessionState, frame: ProtocolFrame): SessionState
    requires frame.MediaProfileNegotiation?
  {
    var profile := MediaProfileState(frame.preferredProfile, frame.negotiatedProfile, frame.colorPrimaries,
                                     frame.transferFunction, frame.codec);
    var phase := if frame.preferredProfile.Hdr? && frame.negotiatedProfile.Sdr? then Degraded
                 else if state.room.handshakeComplete && !state.link.fallback.active then Connected
                 else state.link.phase;
    SessionState(state.room.(mediaProfile := profile), state.link.(phase := phase))
  }

  function ReduceKeyEpoch(state: SessionState, frame: ProtocolFrame, nowMs: i64): SessionState
    requires frame.E2eeKeyEpoch?
  {
    if !HasRequiredSignature(frame.signature, state.room.config) then
      PolicyReject(state, nowMs, E2eeSignatureMissing)
    else
      var e2ee := state.room.e2ee.(currentEpoch := Max(state.room.e2ee.currentEpoch, frame.epoch));
      EnforceE2ee(state.(room := state.room.(e2ee := e2ee)), nowMs)
  }

  function ReduceFrame(state: SessionState, frame: ProtocolFrame, nowMs: i64): SessionState
  {
    var room, link := state.room, state.link;
    match frame
    case HandshakeAck(_, token, _) =>
      SessionState(
        room.(handshakeComplete := true, resumeToken := Some(token)),
        link.(phase := if link.fallback.active then FallbackActive else Connected, lastError := None))
    case PresenceDelta(_, _, _, sequence) =>
      if sequence <= room.presenceSequence then state else
        state.(room := room.(participants := DeltaRoster(room.participants, frame), presenceSequence := sequence))
    case RoleGrant(_, _, _, _, _) => ReduceRosterControl(state, frame, nowMs)
    case RoleRevoke(_, _, _, _, _) => ReduceRosterControl(state, frame, nowMs)
    case ModerationSigned(_, _, _, _, _) => ReduceRosterControl(state, frame, nowMs)
    case PermissionsSnapshot(id, permissions, epoch) =>
      if id in room.permissions && epoch <= room.permissions[id].epoch then state else
        state.(room := room.(permissions := room.permissions[id := PermissionSnapshot(permissions, epoch)]))
    case SessionPolicy(_, _, _, _, _, _, _, _, _, _) => ReduceSessionPolicy(state, frame, nowMs)
    case MediaProfileNegotiation(_, _, _, _, _) => ReduceMediaProfile(state, frame)
    case RecordingNotice(recording, _) => state.(room := room.(recordingNotice := recording))
    case E2eeKeyEpoch(_, _, _, _) => ReduceKeyEpoch(state, frame, nowMs)
    case KeyRotationAck(ackEpoch, _, _) =>
      state.(room := room.(e2ee := room.e2ee.(lastAckEpoch := Max(room.e2ee.lastAckEpoch, ackEpoch))))
    case PaymentPolicy(required, destination) =>
      var payment := PaymentState(required, destination, if required then Pending else NotRequired);
      EnforcePayment(state.(room := room.(payment := payment)), nowMs)
    case PaymentSettlement(status) =>
      EnforcePayment(state.(room := room.(payment := room.payment.(status := status))), nowMs)
    case ErrorNotice(category, code, message) =>
      state.(link := link.(
               phase := if link.fallback.active then FallbackActive
                        else if category.PolicyFailure? then ConnectionPhase.Error
                        else Degraded,
               lastError := Some(SessionError(category, Received(code), Supplied(message), nowMs))))
    case Handshake(_, _, _, _, _, _, _, _, _) => state
    case DeviceCapability(_, _, _, _, _, _) => state
    case Ping(_) => state
    case Pong(_) => state
  }

  // ----- Events -----

  /** A lost transport: an active fallback absorbs it, otherwise the connection degrades with an error. */
  function LoseTransport(link: Link, nowMs: i64, code: ErrorCode, message: string): Link
  {
    if link.fallback.active then
      link.(phase := FallbackActive)
    else
      link.(phase := Degraded, lastError := Some(SessionError(TransportFailure, code, Supplied(message), nowMs)))
  }

  function Reduce(state: SessionState, event: ProtocolEvent, nowMs: i64): SessionState
  {
    var room, link := state.room, state.link;
    match event
    case ConnectRequested =>
      SessionState(room.(handshakeComplete := false), link.(phase := Connecting, lastError := None))
    case TransportConnected =>
      state.(link := link.(phase := Connecting, lastError := None))
    case TransportDisconnected(reason) =>
      SessionState(room.(handshakeComplete := false), LoseTransport(link, nowMs, TransportDisconnectedCode, reason))
    case TransportFailed(message) =>
      SessionState(room.(handshakeComplete := false), LoseTransport(link, nowMs, TransportFailureCode, message))
    case FrameSendFailed(message) =>
      state.(link := LoseTransport(link, nowMs, SendFailedCode, message))
    case ManualDisconnected =>
      SessionState(room.(handshakeComplete := false), link.(phase := Disconnected, lastError := None))
    case FallbackActivated(cause) =>
      state.(link := Link(
               FallbackActive,
               link.fallback.(active := true, reason := Some(cause), activatedAtMs := Some(nowMs)),
               Some(SessionError(TransportFailure, FallbackActivatedCode, Cause(cause), nowMs))))
    case FallbackRecovered =>
      var since := link.fallback.activatedAtMs;
      var rto := if since.None? then None else Some(Max(0, WrapI64(nowMs - since.value)));
      state.(link := link.(
               phase := Disconnected,
               fallback :=
                 link.fallback.(active := false, reason := None, recoveredAtMs := Some(nowMs), lastRtoMs := rto)))
    case ConfigUpdated(config) =>
      EnforcePayment(state.(room := room.(config := config)), nowMs)
    case FrameReceived(frame) =>
      ReduceFrame(state, frame, nowMs)
  }
}
