/** The session state, its frames and its events, field by field. */
module SessionTypes {
  import opened Basics

  datatype ConnectionPhase = Disconnected | Connecting | Connected | Degraded | FallbackActive | Error

  datatype ErrorCategory = ProtocolFailure | PolicyFailure | TransportFailure

  /** The error codes the reducer writes itself, and those an inbound error frame carries as text. */
  datatype ErrorCode =
    | RoleGrantSignatureMissing
    | RoleGrantNotAuthorized
    | RoleRevokeSignatureMissing
    | RoleRevokeNotAuthorized
    | ModerationSignatureMissing
    | ModerationNotAuthorized
    | SessionPolicySignatureMissing
    | SessionPolicyNotAuthorized
    | E2eeSignatureMissing
    | E2eeEpochRequired
    | PaymentSettlementBlocked
    | PaymentSettlementRequired
    | TransportDisconnectedCode
    | TransportFailureCode
    | SendFailedCode
    | FallbackActivatedCode
    | Received(text: string)

  /** Why fallback is active: a policy failure, a request, or a spent reconnect budget. */
  datatype FallbackReason =
    | ByPolicy(code: ErrorCode)
    | ByRequest(text: string)
    | ByExhaustion(attempts: nat, trigger: string)

  /** An error's message: the text fixed for its code, one supplied with the event, or the reason of a fallback. */
  datatype ErrorMessage = Fixed | Supplied(text: string) | Cause(reason: FallbackReason)

  datatype SessionError = SessionError(category: ErrorCategory, code: ErrorCode, message: ErrorMessage, atMs: i64)

  datatype ParticipantRole = Host | CoHost | Participant | Guest

  datatype Attendee = Attendee(
    id: string,
    displayName: string,
    role: ParticipantRole,
    muted: bool,
    videoEnabled: bool,
    shareEnabled: bool,
    waitingRoom: bool)

  datatype RoleChange = RoleChange(participantId: string, role: ParticipantRole)

  datatype ModerationAction = Mute | VideoOff | StopShare | Kick | AdmitFromWaiting | DenyFromWaiting

  datatype MediaProfile = Sdr | Hdr

  datatype MediaProfileState = MediaProfileState(
    preferredProfile: MediaProfile,
    negotiatedProfile: MediaProfile,
    colorPrimaries: string,
    transferFunction: string,
    codec: string)

  datatype RecordingState = Stopped | Started

  datatype GuestPolicy = Open | InviteOnly | BlockGuests

  datatype PermissionSnapshot = PermissionSnapshot(effectivePermissions: seq<string>, epoch: i32)

  datatype SettlementStatus = NotRequired | Pending | Settled | Blocked

  datatype PaymentState = PaymentState(required: bool, destination: Option<string>, status: SettlementStatus)

  datatype E2eeState = E2eeState(currentEpoch: i32, lastAckEpoch: i32)

  datatype FallbackState = FallbackState(
    active: bool,
    reason: Option<FallbackReason>,
    activatedAtMs: Option<i64>,
    recoveredAtMs: Option<i64>,
    lastRtoMs: Option<i64>)

  datatype MeetingConfig = MeetingConfig(
    signalingUrl: string,
    fallbackUrl: string,
    roomId: string,
    participantId: string,
    participantName: string,
    walletIdentity: Option<string>,
    requireSignedModeration: bool,
    requirePaymentSettlement: bool,
    preferWebFallbackOnPolicyFailure: bool,
    supportsHdrCapture: bool,
    supportsHdrRender: bool)

  type Roster = map<string, Attendee>
  type Permissions = map<string, PermissionSnapshot>

  /** What a session policy frame sets, apart from the recording notice. */
  datatype RoomPolicy = RoomPolicy(
    roomLocked: bool,
    waitingRoomEnabled: bool,
    guestPolicy: GuestPolicy,
    e2eeRequired: bool,
    maxParticipants: i32,
    epoch: i32)

  /** The fields of the session state that describe the meeting. */
  datatype Room = Room(
    config: MeetingConfig,
    handshakeComplete: bool,
    resumeToken: Option<string>,
    participants: Roster,
    permissions: Permissions,
    presenceSequence: i64,
    policy: RoomPolicy,
    mediaProfile: MediaProfileState,
    recordingNotice: RecordingState,
    e2ee: E2eeState,
    payment: PaymentState)

  /** The fields of the session state that describe the connection. */
  datatype Link = Link(phase: ConnectionPhase, fallback: FallbackState, lastError: Option<SessionError>)

  /** The session state. The source keeps one flat record; here its fields sit in two groups. */
  datatype SessionState = SessionState(room: Room, link: Link)

  function InitialRoom(config: MeetingConfig): Room
  {
    Room(config, false, None, map[], map[], 0, RoomPolicy(false, false, Open, true, 300, 0),
         MediaProfileState(Sdr, Sdr, "bt709", "gamma", "h264"), Stopped, E2eeState(0, 0),
         PaymentState(false, None, NotRequired))
  }

  function InitialState(config: MeetingConfig): SessionState
  {
    SessionState(InitialRoom(config), Link(Disconnected, FallbackState(false, None, None, None, None), None))
  }

  datatype ProtocolFrame =
    | Handshake(roomId: string, participantId: string, participantName: string, walletIdentity: Option<string>,
                resume: Option<string>, preferredProfile: MediaProfile, hdrCapture: bool, hdrRender: bool,
                sentAtMs: i64)
    | HandshakeAck(sessionId: string, resumeToken: string, acceptedAtMs: i64)
    | PresenceDelta(joined: seq<Attendee>, left: seq<string>, roleChanges: seq<RoleChange>, sequence: i64)
    | RoleGrant(target: string, role: ParticipantRole, issuer: string, signature: Option<string>, issuedAtMs: i64)
    | RoleRevoke(target: string, role: ParticipantRole, issuer: string, signature: Option<string>, issuedAtMs: i64)
    | PermissionsSnapshot(participantId: string, effectivePermissions: seq<string>, epoch: i32)
    | ModerationSigned(target: string, action: ModerationAction, issuer: string, signature: Option<string>,
                       sentAtMs: i64)
    | SessionPolicy(roomLock: bool, waitingRoomEnabled: bool, recordingPolicy: RecordingState, guestPolicy: GuestPolicy,
                    e2eeRequired: bool, maxParticipants: i32, policyEpoch: i32, issuer: string,
                    signature: Option<string>, updatedAtMs: i64)
    | DeviceCapability(participantId: string, codecs: seq<string>, hdrCapture: bool, hdrRender: bool,
                       maxStreams: i32, updatedAtMs: i64)
    | MediaProfileNegotiation(preferredProfile: MediaProfile, negotiatedProfile: MediaProfile, colorPrimaries: string,
                              transferFunction: string, codec: string)
    | RecordingNotice(state: RecordingState, issuedAtMs: i64)
    | E2eeKeyEpoch(epoch: i32, issuer: string, signature: Option<string>, sentAtMs: i64)
    | KeyRotationAck(ackEpoch: i32, participantId: string, sentAtMs: i64)
    | PaymentPolicy(required: bool, destinationAccount: Option<string>)
    | PaymentSettlement(status: SettlementStatus)
    | ErrorNotice(category: ErrorCategory, code: string, message: string)
    | Ping(sentAtMs: i64)
    | Pong(sentAtMs: i64)

  datatype ProtocolEvent =
    | ConnectRequested
    | TransportConnected
    | TransportDisconnected(reason: string)
    | TransportFailed(message: string)
    | FrameReceived(frame: ProtocolFrame)
    | FrameSendFailed(message: string)
    | ManualDisconnected
    | FallbackActivated(cause: FallbackReason)
    | FallbackRecovered
    | ConfigUpdated(config: MeetingConfig)
}
