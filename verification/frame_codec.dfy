/** Frames as JSON values: the strict encoder and the tolerant decoder. */
module FrameCodec {
  import opened Basics
  import opened SessionTypes
  import opened JsonValues

  datatype Kind =
    | HandshakeKind | HandshakeAckKind | PresenceDeltaKind | RoleGrantKind | RoleRevokeKind
    | PermissionsSnapshotKind | ModerationSignedKind | SessionPolicyKind | DeviceCapabilityKind
    | MediaProfileNegotiationKind | RecordingNoticeKind | E2eeKeyEpochKind | KeyRotationAckKind
    | PaymentPolicyKind | PaymentSettlementKind | ErrorKind | PingKind | PongKind

  datatype FrameError =
    | NotAnObject
    | KindMissing
    | UnsupportedKind(name: string)
    | MissingField(names: Names)

  // ----- Field names -----

  const ROOM_ID: Names := ["room_id", "roomId", "roomID"]
  const PARTICIPANT_ID: Names := ["participant_id", "participantId", "participantID"]
  const PARTICIPANT_NAME: Names := ["participant_name", "participantName"]
  const WALLET_IDENTITY: Names := ["wallet_identity", "walletIdentity"]
  const RESUME_TOKEN: Names := ["resume_token", "resumeToken"]
  const PREFERRED_PROFILE: Names := ["preferred_profile", "preferredProfile"]
  const NEGOTIATED_PROFILE: Names := ["negotiated_profile", "negotiatedProfile"]
  const COLOR_PRIMARIES: Names := ["color_primaries", "colorPrimaries"]
  const TRANSFER_FUNCTION: Names := ["transfer_function", "transferFunction"]
  const CODEC: Names := ["codec"]
  const HDR_CAPTURE: Names := ["hdr_capture", "hdrCapture"]
  const HDR_RENDER: Names := ["hdr_render", "hdrRender"]
  const SENT_AT: Names := ["sent_at_ms", "sentAtMs"]
  const SENT_OR_RECEIVED_AT: Names := ["sent_at_ms", "sentAtMs", "received_at_ms", "receivedAtMs"]
  const SESSION_ID: Names := ["session_id", "sessionId", "sessionID"]
  const ACCEPTED_AT: Names := ["accepted_at_ms", "acceptedAtMs"]
  const JOINED: Names := ["joined"]
  const LEFT: Names := ["left"]
  const ROLE_CHANGES: Names := ["role_changes", "roleChanges"]
  const SEQUENCE: Names := ["sequence"]
  const TARGET_ID: Names := ["target_participant_id", "targetParticipantId", "targetParticipantID"]
  const ROLE: Names := ["role"]
  const GRANTED_BY: Names := ["granted_by", "grantedBy"]
  const REVOKED_BY: Names := ["revoked_by", "revokedBy"]
  const SIGNATURE: Names := ["signature"]
  const ISSUED_AT: Names := ["issued_at_ms", "issuedAtMs"]
  const EFFECTIVE_PERMISSIONS: Names := ["effective_permissions", "effectivePermissions"]
  const EPOCH: Names := ["epoch"]
  const ACTION: Names := ["action"]
  const ISSUED_BY: Names := ["issued_by", "issuedBy"]
  const ROOM_LOCK: Names := ["room_lock", "roomLock"]
  const WAITING_ROOM_ENABLED: Names := ["waiting_room_enabled", "waitingRoomEnabled"]
  const RECORDING_POLICY: Names := ["recording_policy", "recordingPolicy"]
  const GUEST_POLICY: Names := ["guest_policy", "guestPolicy"]
  const E2EE_REQUIRED: Names := ["e2ee_required", "e2eeRequired"]
  const MAX_PARTICIPANTS: Names := ["max_participants", "maxParticipants"]
  const POLICY_EPOCH: Names := ["policy_epoch", "policyEpoch"]
  const UPDATED_BY: Names := ["updated_by", "updatedBy"]
  const UPDATED_AT: Names := ["updated_at_ms", "updatedAtMs"]
  const CODECS: Names := ["codecs"]
  const MAX_STREAMS: Names := ["max_streams", "maxStreams"]
  const STATE: Names := ["state"]
  const ACK_EPOCH: Names := ["ack_epoch", "ackEpoch"]
  const REQUIRED: Names := ["required"]
  const DESTINATION_ACCOUNT: Names := ["destination_account", "destinationAccount"]
  const STATUS: Names := ["status"]
  const CATEGORY: Names := ["category"]
  const CODE: Names := ["code"]
  const MESSAGE: Names := ["message"]
  const ID: Names := ["id"]
  const DISPLAY_NAME: Names := ["display_name", "displayName"]
  const MUTED: Names := ["muted"]
  const VIDEO_ENABLED: Names := ["video_enabled", "videoEnabled"]
  const SHARE_ENABLED: Names := ["share_enabled", "shareEnabled"]
  const WAITING_ROOM: Names := ["waiting_room", "waitingRoom"]
  const KIND: Names := ["kind"]

  // ----- Decoding the words of an enumeration; an unknown or missing word reads as the default -----

  function CategoryOf(raw: Option<string>): ErrorCategory
  {
    var word := Or(raw, "protocol_failure");
    if word == "policyFailure" || word == "policy_failure" then PolicyFailure
    else if word == "transportFailure" || word == "transport_failure" then TransportFailure
    else ProtocolFailure
  }

  function RoleOf(raw: Option<string>): ParticipantRole
  {
    var word := Or(raw, "participant");
    if word == "host" then Host
    else if word == "coHost" || word == "co_host" then CoHost
    else if word == "guest" then Guest
    else Participant
  }

  function ActionOf(raw: Option<string>): ModerationAction
  {
    var word := Or(raw, "mute");
    if word == "videoOff" || word == "video_off" then VideoOff
    else if word == "stopShare" || word == "stop_share" then StopShare
    else if word == "kick" then Kick
    else if word == "admitFromWaiting" || word == "admit_from_waiting" then AdmitFromWaiting
    else if word == "denyFromWaiting" || word == "deny_from_waiting" then DenyFromWaiting
    else Mute
  }

  function ProfileOf(raw: Option<string>): MediaProfile
  {
    if Or(raw, "sdr") == "hdr" then Hdr else Sdr
  }

  function RecordingOf(raw: Option<string>): RecordingState
  {
    if Or(raw, "stopped") == "started" then Started else Stopped
  }

  function GuestPolicyOf(raw: Option<string>): GuestPolicy
  {
    var word := Or(raw, "open");
    if word == "inviteOnly" || word == "invite_only" then InviteOnly
    else if word == "blocked" then BlockGuests
    else Open
  }

  function StatusOf(raw: Option<string>): SettlementStatus
  {
    var word := Or(raw, "not_required");
    if word == "pending" then Pending
    else if word == "settled" then Settled
    else if word == "blocked" then Blocked
    else NotRequired
  }

  // ----- Decoding -----

  /** The kind a `kind` text names, in either spelling. */
  function KindNamed(raw: string): Option<Kind>
  {
    var kind := MeetingKindNamed(raw);
    if kind.Some? then kind else SignalKindNamed(raw)
  }

  function MeetingKindNamed(raw: string): Option<Kind>
  {
    if raw == "handshake" then Some(HandshakeKind)
    else if raw == "handshakeAck" || raw == "handshake_ack" then Some(HandshakeAckKind)
    else if raw == "participantPresenceDelta" || raw == "participant_presence_delta" then Some(PresenceDeltaKind)
    else if raw == "roleGrant" || raw == "role_grant" then Some(RoleGrantKind)
    else if raw == "roleRevoke" || raw == "role_revoke" then Some(RoleRevokeKind)
    else if raw == "permissionsSnapshot" || raw == "permissions_snapshot" then Some(PermissionsSnapshotKind)
    else if raw == "moderationSigned" || raw == "moderation_signed" then Some(ModerationSignedKind)
    else if raw == "sessionPolicy" || raw == "session_policy" then Some(SessionPolicyKind)
    else if raw == "deviceCapability" || raw == "device_capability" then Some(DeviceCapabilityKind)
    else None
  }

  function SignalKindNamed(raw: string): Option<Kind>
  {
    if raw == "mediaProfileNegotiation" || raw == "media_profile_negotiation" then Some(MediaProfileNegotiationKind)
    else if raw == "recordingNotice" || raw == "recording_notice" then Some(RecordingNoticeKind)
    else if raw == "e2eeKeyEpoch" || raw == "e2ee_key_epoch" then Some(E2eeKeyEpochKind)
    else if raw == "keyRotationAck" || raw == "key_rotation_ack" then Some(KeyRotationAckKind)
    else if raw == "paymentPolicy" || raw == "payment_policy" then Some(PaymentPolicyKind)
    else if raw == "paymentSettlement" || raw == "payment_settlement" then Some(PaymentSettlementKind)
    else if raw == "ping" then Some(PingKind)
    else if raw == "pong" then Some(PongKind)
    else if raw == "error" then Some(ErrorKind)
    else None
  }

  /** The keys under which a frame of a kind may nest its fields, in the order they are tried. */
  function PayloadKeys(kind: Kind): Names
  {
    match kind
    case HandshakeKind => ["handshake"]
    case HandshakeAckKind => ["handshakeAck", "handshake_ack"]
    case PresenceDeltaKind => ["presenceDelta", "participantPresenceDelta", "participant_presence_delta"]
    case RoleGrantKind => ["roleGrant", "role_grant"]
    case RoleRevokeKind => ["roleRevoke", "role_revoke"]
    case PermissionsSnapshotKind => ["permissionsSnapshot", "permissions_snapshot"]
    case ModerationSignedKind => ["moderationSigned", "moderation_signed"]
    case SessionPolicyKind => ["sessionPolicy", "session_policy"]
    case DeviceCapabilityKind => ["deviceCapability", "device_capability"]
    case MediaProfileNegotiationKind => ["mediaProfileNegotiation", "media_profile_negotiation"]
    case RecordingNoticeKind => ["recordingNotice", "recording_notice"]
    case E2eeKeyEpochKind => ["e2eeKeyEpoch", "e2ee_key_epoch"]
    case KeyRotationAckKind => ["keyRotationAck", "key_rotation_ack"]
    case PaymentPolicyKind => ["paymentPolicy", "payment_policy"]
    case PaymentSettlementKind => ["paymentSettlement", "payment_settlement"]
    case ErrorKind => ["error"]
    case PingKind => ["ping"]
    case PongKind => ["pong"]
  }

  /** The first object nested under one of the keys, or the root itself. */
  function PayloadOrRoot(root: Object, keys: Names): Object
  {
    if keys == [] then root
    else if keys[0] in root && root[keys[0]].Obj? then root[keys[0]].members
    else PayloadOrRoot(root, keys[1..])
  }

  function Decode(value: Json): Result<ProtocolFrame, FrameError>
  {
    if !value.Obj? then Err(NotAnObject) else
      var raw := if "kind" in value.members then TextOf(value.members["kind"]) else None;
      if raw.None? then Err(KindMissing) else
        match KindNamed(raw.value)
        case None => Err(UnsupportedKind(raw.value))
        case Some(kind) => Read(kind, PayloadOrRoot(value.members, PayloadKeys(kind)))
  }

  function Read(kind: Kind, obj: Object): Result<ProtocolFrame, FrameError>
  {
    match kind
    case HandshakeKind => ReadHandshake(obj)
    case HandshakeAckKind => ReadHandshakeAck(obj)
    case PresenceDeltaKind => Ok(ReadPresenceDelta(obj))
    case RoleGrantKind => ReadRoleGrant(obj)
    case RoleRevokeKind => ReadRoleRevoke(obj)
    case PermissionsSnapshotKind => ReadPermissionsSnapshot(obj)
    case ModerationSignedKind => ReadModerationSigned(obj)
    case SessionPolicyKind => Ok(ReadSessionPolicy(obj))
    case DeviceCapabilityKind => ReadDeviceCapability(obj)
    case MediaProfileNegotiationKind => Ok(ReadMediaProfileNegotiation(obj))
    case RecordingNoticeKind => Ok(RecordingNotice(RecordingOf(GetText(obj, STATE)), Or(GetI64(obj, ISSUED_AT), 0)))
    case E2eeKeyEpochKind => Ok(ReadE2eeKeyEpoch(obj))
    case KeyRotationAckKind => ReadKeyRotationAck(obj)
    case PaymentPolicyKind => Ok(PaymentPolicy(Or(GetFlag(obj, REQUIRED), false), GetText(obj, DESTINATION_ACCOUNT)))
    case PaymentSettlementKind => Ok(PaymentSettlement(StatusOf(GetText(obj, STATUS))))
    case ErrorKind => Ok(ReadErrorNotice(obj))
    case PingKind => Ok(Ping(Or(GetI64(obj, SENT_AT), 0)))
    case PongKind => Ok(Pong(Or(GetI64(obj, SENT_AT), 0)))
  }

  function ReadHandshake(obj: Object): Result<ProtocolFrame, FrameError>
  {
    var roomId, id, name := GetText(obj, ROOM_ID), GetText(obj, PARTICIPANT_ID), GetText(obj, PARTICIPANT_NAME);
    if roomId.None? then Err(MissingField(ROOM_ID))
    else if id.None? then Err(MissingField(PARTICIPANT_ID))
    else if name.None? then Err(MissingField(PARTICIPANT_NAME))
    else Ok(Handshake(
      roomId.value, id.value, name.value, GetText(obj, WALLET_IDENTITY), GetText(obj, RESUME_TOKEN),
      ProfileOf(GetText(obj, PREFERRED_PROFILE)), Or(GetFlag(obj, HDR_CAPTURE), false),
      Or(GetFlag(obj, HDR_RENDER), false), Or(GetI64(obj, SENT_AT), 0)))
  }

  function ReadHandshakeAck(obj: Object): Result<ProtocolFrame, FrameError>
  {
    var session, token := GetText(obj, SESSION_ID), GetText(obj, RESUME_TOKEN);
    if session.None? then Err(MissingField(SESSION_ID))
    else if token.None? then Err(MissingField(RESUME_TOKEN))
    else Ok(HandshakeAck(session.value, token.value, Or(GetI64(obj, ACCEPTED_AT), 0)))
  }

  function ReadPresenceDelta(obj: Object): ProtocolFrame
  {
    PresenceDelta(
      FilterMap(ParseAttendee, GetItems(obj, JOINED)), FilterMap(TextOf, GetItems(obj, LEFT)),
      FilterMap(ParseRoleChange, GetItems(obj, ROLE_CHANGES)), Or(GetI64(obj, SEQUENCE), 0))
  }

  function ReadRoleGrant(obj: Object): Result<ProtocolFrame, FrameError>
  {
    var target := GetText(obj, TARGET_ID);
    if target.None? then Err(MissingField(TARGET_ID)) else
      Ok(RoleGrant(target.value, RoleOf(GetText(obj, ROLE)), Or(GetText(obj, GRANTED_BY), "unknown"),
                   GetText(obj, SIGNATURE), Or(GetI64(obj, ISSUED_AT), 0)))
  }

  function ReadRoleRevoke(obj: Object): Result<ProtocolFrame, FrameError>
  {
    var target := GetText(obj, TARGET_ID);
    if target.None? then Err(MissingField(TARGET_ID)) else
      Ok(RoleRevoke(target.value, RoleOf(GetText(obj, ROLE)), Or(GetText(obj, REVOKED_BY), "unknown"),
                    GetText(obj, SIGNATURE), Or(GetI64(obj, ISSUED_AT), 0)))
  }

  function ReadPermissionsSnapshot(obj: Object): Result<ProtocolFrame, FrameError>
  {
    var id := GetText(obj, PARTICIPANT_ID);
    if id.None? then Err(MissingField(PARTICIPANT_ID)) else
      Ok(PermissionsSnapshot(id.value, FilterMap(TextOf, GetItems(obj, EFFECTIVE_PERMISSIONS)),
                             Or(GetI32(obj, EPOCH), 0)))
  }

  function ReadModerationSigned(obj: Object): Result<ProtocolFrame, FrameError>
  {
    var target := GetText(obj, TARGET_ID);
    if target.None? then Err(MissingField(TARGET_ID)) else
      Ok(ModerationSigned(target.value, ActionOf(GetText(obj, ACTION)), Or(GetText(obj, ISSUED_BY), "unknown"),
                          GetText(obj, SIGNATURE), Or(GetI64(obj, SENT_AT), 0)))
  }

  function ReadSessionPolicy(obj: Object): ProtocolFrame
  {
    SessionPolicy(
      Or(GetFlag(obj, ROOM_LOCK), false), Or(GetFlag(obj, WAITING_ROOM_ENABLED), false),
      RecordingOf(GetText(obj, RECORDING_POLICY)), GuestPolicyOf(GetText(obj, GUEST_POLICY)),
      Or(GetFlag(obj, E2EE_REQUIRED), true), Or(GetI32(obj, MAX_PARTICIPANTS), 300), Or(GetI32(obj, POLICY_EPOCH), 0),
      Or(GetText(obj, UPDATED_BY), "system"), GetText(obj, SIGNATURE), Or(GetI64(obj, UPDATED_AT), 0))
  }

  function ReadDeviceCapability(obj: Object): Result<ProtocolFrame, FrameError>
  {
    var id := GetText(obj, PARTICIPANT_ID);
    if id.None? then Err(MissingField(PARTICIPANT_ID)) else
      Ok(DeviceCapability(
        id.value, FilterMap(TextOf, GetItems(obj, CODECS)), Or(GetFlag(obj, HDR_CAPTURE), false),
        Or(GetFlag(obj, HDR_RENDER), false), Or(GetI32(obj, MAX_STREAMS), 1), Or(GetI64(obj, UPDATED_AT), 0)))
  }

  function ReadMediaProfileNegotiation(obj: Object): ProtocolFrame
  {
    MediaProfileNegotiation(
      ProfileOf(GetText(obj, PREFERRED_PROFILE)), ProfileOf(GetText(obj, NEGOTIATED_PROFILE)),
      Or(GetText(obj, COLOR_PRIMARIES), "bt709"), Or(GetText(obj, TRANSFER_FUNCTION), "gamma"),
      Or(GetText(obj, CODEC), "h264"))
  }

  function ReadErrorNotice(obj: Object): ProtocolFrame
  {
    ErrorNotice(
      CategoryOf(GetText(obj, CATEGORY)), Or(GetText(obj, CODE), "error"), Or(GetText(obj, MESSAGE), "unknown"))
  }

  function ReadE2eeKeyEpoch(obj: Object): ProtocolFrame
  {
    E2eeKeyEpoch(Or(GetI32(obj, EPOCH), 0), Or(GetText(obj, ISSUED_BY), "unknown"), GetText(obj, SIGNATURE),
                 Or(GetI64(obj, SENT_AT), 0))
  }

  function ReadKeyRotationAck(obj: Object): Result<ProtocolFrame, FrameError>
  {
    var id := GetText(obj, PARTICIPANT_ID);
    if id.None? then Err(MissingField(PARTICIPANT_ID)) else
      Ok(KeyRotationAck(Or(GetI32(obj, ACK_EPOCH), 0), id.value, Or(GetI64(obj, SENT_OR_RECEIVED_AT), 0)))
  }

  function ParseAttendee(value: Json): Option<Attendee>
  {
    if !value.Obj? then None else
      var obj := value.members;
      match GetText(obj, ID)
      case None => None
      case Some(id) => Some(Attendee(
        id, Or(GetText(obj, DISPLAY_NAME), id), RoleOf(GetText(obj, ROLE)), Or(GetFlag(obj, MUTED), false),
        Or(GetFlag(obj, VIDEO_ENABLED), true), Or(GetFlag(obj, SHARE_ENABLED), true),
        Or(GetFlag(obj, WAITING_ROOM), false)))
  }

  function ParseRoleChange(value: Json): Option<RoleChange>
  {
    if !value.Obj? then None else
      match GetText(value.members, PARTICIPANT_ID)
      case None => None
      case Some(id) => Some(RoleChange(id, RoleOf(GetText(value.members, ROLE))))
  }
}
