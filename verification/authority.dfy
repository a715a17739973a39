/**
 Who may steer a session: control frames take effect exactly with a proper signature and from a host, a co-host or the
 system.
 */
module Authority {
  import opened Basics
  import opened SessionTypes
  import opened Reducer
  import opened Policies
  import Text

  /** A signature that holds more than white space. */
  predicate IsWritten(signature: Option<string>)
  {
    signature.Some? && Text.Trim(signature.value) != ""
  }

  /** The system, or a participant who stands in the roster as a host or a co-host. */
  predicate MaySteer(issuer: string, roster: Roster)
  {
    issuer == "system" || Stands(roster, issuer, Host) || Stands(roster, issuer, CoHost)
  }

  predicate Stands(roster: Roster, id: string, role: ParticipantRole)
  {
    id in roster && roster[id].role == role
  }

  lemma SignatureExactly(signature: Option<string>, config: MeetingConfig)
    ensures HasRequiredSignature(signature, config) <==> (config.requireSignedModeration ==> IsWritten(signature))
  {
    if signature.Some? {
      Text.BlankIsTrimmedAway(signature.value);
    }
  }

  lemma AuthorityExactly(issuer: string, roster: Roster)
    ensures ActorIsAuthorized(issuer, roster) <==> MaySteer(issuer, roster)
  {
  }

  /**
   A control frame is rejected exactly if its signature is demanded and says nothing, or its issuer may not steer; a key
   epoch needs a signature only.
   */
  lemma RejectedExactly(room: Room, frame: ProtocolFrame)
    requires NeedsAuthority(frame) || frame.E2eeKeyEpoch?
    ensures IsRejected(room, FrameReceived(frame)) <==>
            || (room.config.requireSignedModeration && !IsWritten(frame.signature))
            || (!frame.E2eeKeyEpoch? && !MaySteer(frame.issuer, room.participants))
  {
    SignatureExactly(frame.signature, room.config);
    AuthorityExactly(frame.issuer, room.participants);
  }

  /** The two conditions a control frame has to meet. */
  predicate IsHeard(room: Room, frame: ProtocolFrame)
    requires NeedsAuthority(frame)
  {
    && (room.config.requireSignedModeration ==> IsWritten(frame.signature))
    && MaySteer(frame.issuer, room.participants)
  }

  lemma HeardExactly(room: Room, frame: ProtocolFrame)
    requires NeedsAuthority(frame)
    ensures IsHeard(room, frame) <==> !IsRejected(room, FrameReceived(frame))
  {
    RejectedExactly(room, frame);
  }

  function RoleIn(room: Room, id: string): Option<ParticipantRole>
  {
    if id in room.participants then Some(room.participants[id].role) else None
  }

  /** A grant gives a present target another role exactly if it is heard. */
  lemma GrantExactly(s: SessionState, frame: ProtocolFrame, nowMs: i64)
    requires frame.RoleGrant? && RoleIn(s.room, frame.target).Some? && RoleIn(s.room, frame.target) != Some(frame.role)
    ensures var after := RoleIn(ReduceFrame(s, frame, nowMs).room, frame.target);
            after == if IsHeard(s.room, frame) then Some(frame.role) else RoleIn(s.room, frame.target)
  {
    HeardExactly(s.room, frame);
  }

  /** A revocation makes a target that holds the role an ordinary participant exactly if it is heard. */
  lemma RevokeExactly(s: SessionState, frame: ProtocolFrame, nowMs: i64)
    requires frame.RoleRevoke? && RoleIn(s.room, frame.target) == Some(frame.role) && !frame.role.Participant?
    ensures var after := RoleIn(ReduceFrame(s, frame, nowMs).room, frame.target);
            after == Some(if IsHeard(s.room, frame) then ParticipantRole.Participant else frame.role)
  {
    HeardExactly(s.room, frame);
  }

  /** A kick or a denied admission removes a present target exactly if it is heard. */
  lemma KickExactly(s: SessionState, frame: ProtocolFrame, nowMs: i64)
    requires frame.ModerationSigned? && (frame.action.Kick? || frame.action.DenyFromWaiting?)
    requires frame.target in s.room.participants
    ensures frame.target in ReduceFrame(s, frame, nowMs).room.participants <==> !IsHeard(s.room, frame)
  {
    HeardExactly(s.room, frame);
  }

  /** What a moderation that does not remove its target is about. */
  predicate IsDone(a: Attendee, action: ModerationAction)
    requires !action.Kick? && !action.DenyFromWaiting?
  {
    match action
    case Mute => a.muted
    case VideoOff => !a.videoEnabled
    case StopShare => !a.shareEnabled
    case AdmitFromWaiting => !a.waitingRoom
  }

  /** Any other moderation changes a present target to which it has not been done exactly if it is heard. */
  lemma ModerationExactly(s: SessionState, frame: ProtocolFrame, nowMs: i64)
    requires frame.ModerationSigned? && !frame.action.Kick? && !frame.action.DenyFromWaiting?
    requires frame.target in s.room.participants && !IsDone(s.room.participants[frame.target], frame.action)
    ensures var after := ReduceFrame(s, frame, nowMs).room.participants;
            frame.target in after && (IsDone(after[frame.target], frame.action) <==> IsHeard(s.room, frame))
  {
    HeardExactly(s.room, frame);
  }

  /** A policy of a later epoch takes force exactly if it is heard. */
  lemma PolicyExactly(s: SessionState, frame: ProtocolFrame, nowMs: i64)
    requires frame.SessionPolicy? && frame.policyEpoch > s.room.policy.epoch
    ensures ReduceFrame(s, frame, nowMs).room.policy.epoch
            == if IsHeard(s.room, frame) then frame.policyEpoch else s.room.policy.epoch
  {
    HeardExactly(s.room, frame);
  }

  /** A later key epoch takes force exactly if a demanded signature says something. */
  lemma KeyEpochExactly(s: SessionState, frame: ProtocolFrame, nowMs: i64)
    requires frame.E2eeKeyEpoch? && frame.epoch > s.room.e2ee.currentEpoch
    ensures ReduceFrame(s, frame, nowMs).room.e2ee.currentEpoch
            == if s.room.config.requireSignedModeration && !IsWritten(frame.signature) then s.room.e2ee.currentEpoch
               else frame.epoch
  {
    SignatureExactly(frame.signature, s.room.config);
  }

  /** A rejection names the signature if it is what is missing, and the authority otherwise. */
  lemma RejectionNamesTheFault(s: SessionState, frame: ProtocolFrame, nowMs: i64)
    requires NeedsAuthority(frame) && !IsHeard(s.room, frame)
    ensures var next := ReduceFrame(s, frame, nowMs);
            && next.room == s.room && next.link.lastError.Some?
            && CodeText(next.link.lastError.value.code) == KindText(frame)
                 + if s.room.config.requireSignedModeration && !IsWritten(frame.signature) then "_signature_missing"
                   else "_not_authorized"
  {
    HeardExactly(s.room, frame);
    SignatureExactly(frame.signature, s.room.config);
    RejectionText(s, FrameReceived(frame), nowMs);
    RejectedFrameLeavesRoom(s, frame, nowMs);
  }

  lemma RejectedFrameLeavesRoom(s: SessionState, frame: ProtocolFrame, nowMs: i64)
    requires IsRejected(s.room, FrameReceived(frame))
    ensures ReduceFrame(s, frame, nowMs).room == s.room
  {
  }
}
