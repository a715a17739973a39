/** The names of fields: which words each consists of, and in which spellings a reader accepts it. */
module FrameNames {
  import opened SessionTypes
  import opened JsonValues
  import opened FrameCodec
  import opened FrameFormat

  /** The words of a name, or of one of two names. */
  datatype Words =
    | One(a: string)
    | Two(a: string, b: string)
    | Three(a: string, b: string, c: string)
    | Either(first: Words, second: Words)

  /** A word with its first letter in capitals. */
  function Capital(word: string): string
  {
    if word != "" && 'a' <= word[0] <= 'z' then [(word[0] as int - 32) as char] + word[1..] else word
  }

  /**
   The names some words go by: in snake case, in camel case and, if the last word is `id`, in camel case with that word
   in capitals.
   */
  predicate Spell(words: Words, names: Names)
  {
    match words
    case One(a) => names == [a]
    case Two(a, b) =>
      && |names| == (if b == "id" then 3 else 2)
      && names[0] == a + "_" + b && names[1] == a + Capital(b)
      && (b == "id" ==> names[2] == a + "ID")
    case Three(a, b, c) =>
      && |names| == (if c == "id" then 3 else 2)
      && names[0] == a + "_" + b + "_" + c && names[1] == a + Capital(b) + Capital(c)
      && (c == "id" ==> names[2] == a + Capital(b) + "ID")
    case Either(first, second) =>
      |names| >= 2 && Spell(first, names[..2]) && Spell(second, names[2..])
  }

  lemma IdentityNames()
    ensures Spell(Two("room", "id"), ROOM_ID)
    ensures Spell(Two("participant", "id"), PARTICIPANT_ID)
    ensures Spell(Two("participant", "name"), PARTICIPANT_NAME)
    ensures Spell(Two("wallet", "identity"), WALLET_IDENTITY)
  {
  }

  lemma SessionNames()
    ensures Spell(Two("session", "id"), SESSION_ID)
    ensures Spell(Two("resume", "token"), RESUME_TOKEN)
  {
  }

  lemma TargetNames()
    ensures Spell(Three("target", "participant", "id"), TARGET_ID)
  {
  }

  lemma ProfileNames()
    ensures Spell(Two("preferred", "profile"), PREFERRED_PROFILE)
    ensures Spell(Two("negotiated", "profile"), NEGOTIATED_PROFILE)
  {
  }

  lemma ColorNames()
    ensures Spell(Two("color", "primaries"), COLOR_PRIMARIES)
    ensures Spell(Two("transfer", "function"), TRANSFER_FUNCTION)
  {
  }

  lemma CapabilityNames()
    ensures Spell(Two("hdr", "capture"), HDR_CAPTURE)
    ensures Spell(Two("hdr", "render"), HDR_RENDER)
    ensures Spell(Two("max", "streams"), MAX_STREAMS)
    ensures Spell(One("codec"), CODEC)
    ensures Spell(One("codecs"), CODECS)
  {
  }

  lemma ClockNames()
    ensures Spell(Three("sent", "at", "ms"), SENT_AT)
    ensures Spell(Three("accepted", "at", "ms"), ACCEPTED_AT)
    ensures Spell(Three("issued", "at", "ms"), ISSUED_AT)
    ensures Spell(Three("updated", "at", "ms"), UPDATED_AT)
  {
  }

  lemma ReceivedNames()
    ensures Spell(Either(Three("sent", "at", "ms"), Three("received", "at", "ms")), SENT_OR_RECEIVED_AT)
  {
  }

  lemma PresenceNames()
    ensures Spell(One("joined"), JOINED)
    ensures Spell(One("left"), LEFT)
    ensures Spell(Two("role", "changes"), ROLE_CHANGES)
    ensures Spell(One("sequence"), SEQUENCE)
    ensures Spell(One("role"), ROLE)
  {
  }

  lemma IssuerNames()
    ensures Spell(Two("granted", "by"), GRANTED_BY)
    ensures Spell(Two("revoked", "by"), REVOKED_BY)
    ensures Spell(Two("issued", "by"), ISSUED_BY)
    ensures Spell(Two("updated", "by"), UPDATED_BY)
    ensures Spell(One("signature"), SIGNATURE)
  {
  }

  lemma PermissionNames()
    ensures Spell(Two("effective", "permissions"), EFFECTIVE_PERMISSIONS)
    ensures Spell(One("epoch"), EPOCH)
    ensures Spell(Two("ack", "epoch"), ACK_EPOCH)
    ensures Spell(One("action"), ACTION)
  {
  }

  lemma DoorNames()
    ensures Spell(Two("room", "lock"), ROOM_LOCK)
    ensures Spell(Three("waiting", "room", "enabled"), WAITING_ROOM_ENABLED)
    ensures Spell(Two("guest", "policy"), GUEST_POLICY)
  {
  }

  lemma PolicyNames()
    ensures Spell(Two("recording", "policy"), RECORDING_POLICY)
    ensures Spell(Two("e2ee", "required"), E2EE_REQUIRED)
  {
  }

  lemma LimitNames()
    ensures Spell(Two("max", "participants"), MAX_PARTICIPANTS)
    ensures Spell(Two("policy", "epoch"), POLICY_EPOCH)
  {
  }

  lemma PaymentNames()
    ensures Spell(One("state"), STATE)
    ensures Spell(One("required"), REQUIRED)
    ensures Spell(Two("destination", "account"), DESTINATION_ACCOUNT)
    ensures Spell(One("status"), STATUS)
  {
  }

  lemma ErrorNames()
    ensures Spell(One("category"), CATEGORY)
    ensures Spell(One("code"), CODE)
    ensures Spell(One("message"), MESSAGE)
  {
  }

  lemma AttendeeNames()
    ensures Spell(One("id"), ID)
    ensures Spell(Two("display", "name"), DISPLAY_NAME)
    ensures Spell(One("muted"), MUTED)
    ensures Spell(Two("video", "enabled"), VIDEO_ENABLED)
  {
  }

  lemma StageNames()
    ensures Spell(Two("share", "enabled"), SHARE_ENABLED)
    ensures Spell(Two("waiting", "room"), WAITING_ROOM)
    ensures Spell(One("kind"), KIND)
  {
  }

  // ----- Fields -----

  /** The names are those of some words. */
  ghost predicate Spelled(names: Names)
  {
    exists words :: Spell(words, names)
  }

  lemma IdentityNamesAreSpelled()
    ensures Spelled(ROOM_ID) && Spelled(PARTICIPANT_ID) && Spelled(PARTICIPANT_NAME) && Spelled(WALLET_IDENTITY)
  {
    IdentityNames();
  }

  lemma SessionNamesAreSpelled()
    ensures Spelled(SESSION_ID) && Spelled(RESUME_TOKEN)
  {
    SessionNames();
  }

  lemma TargetNamesAreSpelled()
    ensures Spelled(TARGET_ID)
  {
    TargetNames();
  }

  lemma ProfileNamesAreSpelled()
    ensures Spelled(PREFERRED_PROFILE) && Spelled(NEGOTIATED_PROFILE)
  {
    ProfileNames();
  }

  lemma ColorNamesAreSpelled()
    ensures Spelled(COLOR_PRIMARIES) && Spelled(TRANSFER_FUNCTION)
  {
    ColorNames();
  }

  lemma CapabilityNamesAreSpelled()
    ensures Spelled(HDR_CAPTURE) && Spelled(HDR_RENDER) && Spelled(MAX_STREAMS) && Spelled(CODEC) && Spelled(CODECS)
  {
    CapabilityNames();
  }

  lemma ClockNamesAreSpelled()
    ensures Spelled(SENT_AT) && Spelled(ACCEPTED_AT) && Spelled(ISSUED_AT) && Spelled(UPDATED_AT)
  {
    ClockNames();
  }

  lemma ReceivedNamesAreSpelled()
    ensures Spelled(SENT_OR_RECEIVED_AT)
  {
    ReceivedNames();
  }

  lemma PresenceNamesAreSpelled()
    ensures Spelled(JOINED) && Spelled(LEFT) && Spelled(ROLE_CHANGES) && Spelled(SEQUENCE) && Spelled(ROLE)
  {
    PresenceNames();
  }

  lemma IssuerNamesAreSpelled()
    ensures Spelled(GRANTED_BY) && Spelled(REVOKED_BY) && Spelled(ISSUED_BY) && Spelled(UPDATED_BY)
            && Spelled(SIGNATURE)
  {
    IssuerNames();
  }

  lemma PermissionNamesAreSpelled()
    ensures Spelled(EFFECTIVE_PERMISSIONS) && Spelled(EPOCH) && Spelled(ACK_EPOCH) && Spelled(ACTION)
  {
    PermissionNames();
  }

  lemma DoorNamesAreSpelled()
    ensures Spelled(ROOM_LOCK) && Spelled(WAITING_ROOM_ENABLED) && Spelled(GUEST_POLICY)
  {
    DoorNames();
  }

  lemma PolicyNamesAreSpelled()
    ensures Spelled(RECORDING_POLICY) && Spelled(E2EE_REQUIRED)
  {
    PolicyNames();
  }

  lemma LimitNamesAreSpelled()
    ensures Spelled(MAX_PARTICIPANTS) && Spelled(POLICY_EPOCH)
  {
    LimitNames();
  }

  lemma PaymentNamesAreSpelled()
    ensures Spelled(STATE) && Spelled(REQUIRED) && Spelled(DESTINATION_ACCOUNT) && Spelled(STATUS)
  {
    PaymentNames();
  }

  lemma ErrorNamesAreSpelled()
    ensures Spelled(CATEGORY) && Spelled(CODE) && Spelled(MESSAGE)
  {
    ErrorNames();
  }

  lemma AttendeeNamesAreSpelled()
    ensures Spelled(ID) && Spelled(DISPLAY_NAME) && Spelled(MUTED) && Spelled(VIDEO_ENABLED)
  {
    AttendeeNames();
  }

  lemma StageNamesAreSpelled()
    ensures Spelled(SHARE_ENABLED) && Spelled(WAITING_ROOM) && Spelled(KIND)
  {
    StageNames();
  }

  lemma HandshakeIsSpelled(frame: ProtocolFrame)
    requires frame.Handshake?
    ensures forall field <- Fields(frame) :: Spelled(field.names)
  {
    HandshakeHeadIsSpelled(frame);
    HandshakeTailIsSpelled(frame);
  }

  lemma HandshakeHeadIsSpelled(frame: ProtocolFrame)
    requires frame.Handshake?
    ensures |Fields(frame)| == 9 && forall k :: 0 <= k < 4 ==> Spelled(Fields(frame)[k].names)
  {
    IdentityNamesAreSpelled();
  }

  lemma HandshakeTailIsSpelled(frame: ProtocolFrame)
    requires frame.Handshake?
    ensures |Fields(frame)| == 9 && forall k :: 4 <= k < 9 ==> Spelled(Fields(frame)[k].names)
  {
    SessionNamesAreSpelled();
    ProfileNamesAreSpelled();
    CapabilityNamesAreSpelled();
    ClockNamesAreSpelled();
  }

  lemma HandshakeAckIsSpelled(frame: ProtocolFrame)
    requires frame.HandshakeAck?
    ensures forall field <- Fields(frame) :: Spelled(field.names)
  {
    SessionNamesAreSpelled();
    ClockNamesAreSpelled();
  }

  lemma PresenceDeltaIsSpelled(frame: ProtocolFrame)
    requires frame.PresenceDelta?
    ensures forall field <- Fields(frame) :: Spelled(field.names)
  {
    PresenceNamesAreSpelled();
  }

  lemma RoleGrantIsSpelled(frame: ProtocolFrame)
    requires frame.RoleGrant?
    ensures forall field <- Fields(frame) :: Spelled(field.names)
  {
    TargetNamesAreSpelled();
    PresenceNamesAreSpelled();
    IssuerNamesAreSpelled();
    ClockNamesAreSpelled();
  }

  lemma RoleRevokeIsSpelled(frame: ProtocolFrame)
    requires frame.RoleRevoke?
    ensures forall field <- Fields(frame) :: Spelled(field.names)
  {
    TargetNamesAreSpelled();
    PresenceNamesAreSpelled();
    IssuerNamesAreSpelled();
    ClockNamesAreSpelled();
  }

  lemma PermissionsSnapshotIsSpelled(frame: ProtocolFrame)
    requires frame.PermissionsSnapshot?
    ensures forall field <- Fields(frame) :: Spelled(field.names)
  {
    IdentityNamesAreSpelled();
    PermissionNamesAreSpelled();
  }

  lemma ModerationSignedIsSpelled(frame: ProtocolFrame)
    requires frame.ModerationSigned?
    ensures forall field <- Fields(frame) :: Spelled(field.names)
  {
    TargetNamesAreSpelled();
    PermissionNamesAreSpelled();
    IssuerNamesAreSpelled();
    ClockNamesAreSpelled();
  }

  lemma SessionPolicyIsSpelled(frame: ProtocolFrame)
    requires frame.SessionPolicy?
    ensures forall field <- Fields(frame) :: Spelled(field.names)
  {
    SessionPolicyHeadIsSpelled(frame);
    SessionPolicyTailIsSpelled(frame);
  }

  lemma SessionPolicyHeadIsSpelled(frame: ProtocolFrame)
    requires frame.SessionPolicy?
    ensures |Fields(frame)| == 10 && forall k :: 0 <= k < 5 ==> Spelled(Fields(frame)[k].names)
  {
    DoorNamesAreSpelled();
    PolicyNamesAreSpelled();
  }

  lemma SessionPolicyTailIsSpelled(frame: ProtocolFrame)
    requires frame.SessionPolicy?
    ensures |Fields(frame)| == 10 && forall k :: 5 <= k < 10 ==> Spelled(Fields(frame)[k].names)
  {
    LimitNamesAreSpelled();
    IssuerNamesAreSpelled();
    ClockNamesAreSpelled();
  }

  lemma DeviceCapabilityIsSpelled(frame: ProtocolFrame)
    requires frame.DeviceCapability?
    ensures forall field <- Fields(frame) :: Spelled(field.names)
  {
    IdentityNamesAreSpelled();
    CapabilityNamesAreSpelled();
    ClockNamesAreSpelled();
  }

  lemma MediaProfileNegotiationIsSpelled(frame: ProtocolFrame)
    requires frame.MediaProfileNegotiation?
    ensures forall field <- Fields(frame) :: Spelled(field.names)
  {
    ProfileNamesAreSpelled();
    ColorNamesAreSpelled();
    CapabilityNamesAreSpelled();
  }

  lemma RecordingNoticeIsSpelled(frame: ProtocolFrame)
    requires frame.RecordingNotice?
    ensures forall field <- Fields(frame) :: Spelled(field.names)
  {
    PaymentNamesAreSpelled();
    ClockNamesAreSpelled();
  }

  lemma E2eeKeyEpochIsSpelled(frame: ProtocolFrame)
    requires frame.E2eeKeyEpoch?
    ensures forall field <- Fields(frame) :: Spelled(field.names)
  {
    PermissionNamesAreSpelled();
    IssuerNamesAreSpelled();
    ClockNamesAreSpelled();
  }

  lemma KeyRotationAckIsSpelled(frame: ProtocolFrame)
    requires frame.KeyRotationAck?
    ensures forall field <- Fields(frame) :: Spelled(field.names)
  {
    PermissionNamesAreSpelled();
    IdentityNamesAreSpelled();
    ReceivedNamesAreSpelled();
  }

  lemma PaymentPolicyIsSpelled(frame: ProtocolFrame)
    requires frame.PaymentPolicy?
    ensures forall field <- Fields(frame) :: Spelled(field.names)
  {
    PaymentNamesAreSpelled();
  }

  lemma PaymentSettlementIsSpelled(frame: ProtocolFrame)
    requires frame.PaymentSettlement?
    ensures forall field <- Fields(frame) :: Spelled(field.names)
  {
    PaymentNamesAreSpelled();
  }

  lemma ErrorNoticeIsSpelled(frame: ProtocolFrame)
    requires frame.ErrorNotice?
    ensures forall field <- Fields(frame) :: Spelled(field.names)
  {
    ErrorNamesAreSpelled();
  }

  lemma PingIsSpelled(frame: ProtocolFrame)
    requires frame.Ping?
    ensures forall field <- Fields(frame) :: Spelled(field.names)
  {
    ClockNamesAreSpelled();
  }

  lemma PongIsSpelled(frame: ProtocolFrame)
    requires frame.Pong?
    ensures forall field <- Fields(frame) :: Spelled(field.names)
  {
    ClockNamesAreSpelled();
  }

  /** And so do the fields of attendees and of role changes. */
  lemma RowsAreSpelled(a: Attendee, c: RoleChange)
    ensures forall field <- AttendeeRow(a).fields :: Spelled(field.names)
    ensures forall field <- RoleChangeRow(c).fields :: Spelled(field.names)
  {
    AttendeeNamesAreSpelled();
    PresenceNamesAreSpelled();
    StageNamesAreSpelled();
    IdentityNamesAreSpelled();
  }

  /** Every field of every frame goes by the spellings of some words and by no other name. */
  lemma FieldsAreSpelled(frame: ProtocolFrame)
    ensures forall field <- Fields(frame) :: Spelled(field.names)
  {
    match frame
    case Handshake(_, _, _, _, _, _, _, _, _) => HandshakeIsSpelled(frame);
    case HandshakeAck(_, _, _) => HandshakeAckIsSpelled(frame);
    case PresenceDelta(_, _, _, _) => PresenceDeltaIsSpelled(frame);
    case RoleGrant(_, _, _, _, _) => RoleGrantIsSpelled(frame);
    case RoleRevoke(_, _, _, _, _) => RoleRevokeIsSpelled(frame);
    case PermissionsSnapshot(_, _, _) => PermissionsSnapshotIsSpelled(frame);
    case ModerationSigned(_, _, _, _, _) => ModerationSignedIsSpelled(frame);
    case SessionPolicy(_, _, _, _, _, _, _, _, _, _) => SessionPolicyIsSpelled(frame);
    case DeviceCapability(_, _, _, _, _, _) => DeviceCapabilityIsSpelled(frame);
    case MediaProfileNegotiation(_, _, _, _, _) => MediaProfileNegotiationIsSpelled(frame);
    case RecordingNotice(_, _) => RecordingNoticeIsSpelled(frame);
    case E2eeKeyEpoch(_, _, _, _) => E2eeKeyEpochIsSpelled(frame);
    case KeyRotationAck(_, _, _) => KeyRotationAckIsSpelled(frame);
    case PaymentPolicy(_, _) => PaymentPolicyIsSpelled(frame);
    case PaymentSettlement(_) => PaymentSettlementIsSpelled(frame);
    case ErrorNotice(_, _, _) => ErrorNoticeIsSpelled(frame);
    case Ping(_) => PingIsSpelled(frame);
    case Pong(_) => PongIsSpelled(frame);
  }

  // ----- Payloads -----

  /**
   A frame may nest its fields under either name of its kind; a presence delta under a short name as well, which is
   tried first.
   */
  lemma PayloadKeysExactly(kind: Kind)
    ensures PayloadKeys(kind) == (if kind.PresenceDeltaKind? then ["presenceDelta"] else []) + KindNames(kind)
  {
  }
}
