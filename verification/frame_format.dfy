/**
 The frame format as a table: the fields of every frame, the names each may go by, and the texts that spell
 its values. The encoder writes one document per frame; many more represent the same frame.
 */
module FrameFormat {
  import opened Basics
  import opened Digits
  import opened SessionTypes
  import opened JsonValues
  import opened FrameCodec

  datatype Content =
    | Text(text: string)
    | Optional(maybe: Option<string>)
    | Flag(on: bool)
    | Whole(n: i64)
    | Short(m: i32)
    | Word(words: Names, known: Names)
    | Texts(texts: seq<string>)
    | Records(rows: seq<Record>, key: Names)

  /** A field; `omittable` says that its content is what a reader assumes when the field is absent or says nothing. */
  datatype Field = Field(names: Names, content: Content, omittable: bool)

  datatype Record = Record(fields: seq<Field>)

  // ----- The words of the enumerations, the canonical spelling first -----

  function CategoryWords(category: ErrorCategory): Names
  {
    match category
    case ProtocolFailure => ["protocol_failure"]
    case PolicyFailure => ["policy_failure", "policyFailure"]
    case TransportFailure => ["transport_failure", "transportFailure"]
  }

  function RoleWords(role: ParticipantRole): Names
  {
    match role
    case Host => ["host"]
    case CoHost => ["co_host", "coHost"]
    case Participant => ["participant"]
    case Guest => ["guest"]
  }

  function ActionWords(action: ModerationAction): Names
  {
    match action
    case Mute => ["mute"]
    case VideoOff => ["video_off", "videoOff"]
    case StopShare => ["stop_share", "stopShare"]
    case Kick => ["kick"]
    case AdmitFromWaiting => ["admit_from_waiting", "admitFromWaiting"]
    case DenyFromWaiting => ["deny_from_waiting", "denyFromWaiting"]
  }

  function ProfileWords(profile: MediaProfile): Names
  {
    match profile
    case Sdr => ["sdr"]
    case Hdr => ["hdr"]
  }

  function RecordingWords(state: RecordingState): Names
  {
    match state
    case Stopped => ["stopped"]
    case Started => ["started"]
  }

  function GuestPolicyWords(policy: GuestPolicy): Names
  {
    match policy
    case Open => ["open"]
    case InviteOnly => ["invite_only", "inviteOnly"]
    case BlockGuests => ["blocked"]
  }

  function StatusWords(status: SettlementStatus): Names
  {
    match status
    case NotRequired => ["not_required"]
    case Pending => ["pending"]
    case Settled => ["settled"]
    case Blocked => ["blocked"]
  }

  const CATEGORY_WORDS: Names :=
    ["protocol_failure", "policy_failure", "policyFailure", "transport_failure", "transportFailure"]
  const ROLE_WORDS: Names := ["host", "co_host", "coHost", "participant", "guest"]
  const ACTION_WORDS: Names := [
    "mute", "video_off", "videoOff", "stop_share", "stopShare", "kick",
    "admit_from_waiting", "admitFromWaiting", "deny_from_waiting", "denyFromWaiting"]
  const PROFILE_WORDS: Names := ["sdr", "hdr"]
  const RECORDING_WORDS: Names := ["stopped", "started"]
  const GUEST_POLICY_WORDS: Names := ["open", "invite_only", "inviteOnly", "blocked"]
  const STATUS_WORDS: Names := ["not_required", "pending", "settled", "blocked"]

  // ----- Kinds -----

  function KindOf(frame: ProtocolFrame): Kind
  {
    match frame
    case Handshake(_, _, _, _, _, _, _, _, _) => HandshakeKind
    case HandshakeAck(_, _, _) => HandshakeAckKind
    case PresenceDelta(_, _, _, _) => PresenceDeltaKind
    case RoleGrant(_, _, _, _, _) => RoleGrantKind
    case RoleRevoke(_, _, _, _, _) => RoleRevokeKind
    case PermissionsSnapshot(_, _, _) => PermissionsSnapshotKind
    case ModerationSigned(_, _, _, _, _) => ModerationSignedKind
    case SessionPolicy(_, _, _, _, _, _, _, _, _, _) => SessionPolicyKind
    case DeviceCapability(_, _, _, _, _, _) => DeviceCapabilityKind
    case MediaProfileNegotiation(_, _, _, _, _) => MediaProfileNegotiationKind
    case RecordingNotice(_, _) => RecordingNoticeKind
    case E2eeKeyEpoch(_, _, _, _) => E2eeKeyEpochKind
    case KeyRotationAck(_, _, _) => KeyRotationAckKind
    case PaymentPolicy(_, _) => PaymentPolicyKind
    case PaymentSettlement(_) => PaymentSettlementKind
    case ErrorNotice(_, _, _) => ErrorKind
    case Ping(_) => PingKind
    case Pong(_) => PongKind
  }

  function KindNames(kind: Kind): (names: Names)
    ensures names != []
  {
    match kind
    case HandshakeKind => ["handshake"]
    case HandshakeAckKind => ["handshakeAck", "handshake_ack"]
    case PresenceDeltaKind => ["participantPresenceDelta", "participant_presence_delta"]
    case RoleGrantKind => ["roleGrant", "role_grant"]
    case RoleRevokeKind => ["roleRevoke", "role_revoke"]
    case PermissionsSnapshotKind => ["permissionsSnapshot", "permissions_snapshot"]
    case ModerationSignedKind => ["moderationSigned", "moderation_signed"]
    case SessionPolicyKind => ["sessionPolicy", "session_policy"]
    case DeviceCapabilityKind => ["deviceCapability", "device_capability"]
    case MediaProfileNegotiationKind => ["mediaProfileNegotiation", "media_profile_negotiation"]
    case RecordingNoticeKind => ["recordingNotice", "recording_notice"]
    case E2eeKeyEpochKind => ["e2eeKeyEpoch", "e2ee_key_epoch"]
    case KeyRotationAckKind => ["keyRotationAck", "key_rotation_ack"]
    case PaymentPolicyKind => ["paymentPolicy", "payment_policy"]
    case PaymentSettlementKind => ["paymentSettlement", "payment_settlement"]
    case ErrorKind => ["error"]
    case PingKind => ["ping"]
    case PongKind => ["pong"]
  }

  // ----- Fields -----

  function OptionalField(names: Names, maybe: Option<string>): Field
  {
    Field(names, Optional(maybe), maybe.None?)
  }

  function TextField(names: Names, text: string, fallback: string): Field
  {
    Field(names, Text(text), text == fallback)
  }

  function FlagField(names: Names, on: bool, fallback: bool): Field
  {
    Field(names, Flag(on), on == fallback)
  }

  function WholeField(names: Names, n: i64, fallback: i64): Field
  {
    Field(names, Whole(n), n == fallback)
  }

  function ShortField(names: Names, m: i32, fallback: i32): Field
  {
    Field(names, Short(m), m == fallback)
  }

  function RoleField(role: ParticipantRole): Field
  {
    Field(ROLE, Word(RoleWords(role), ROLE_WORDS), role == Participant)
  }

  function ProfileField(names: Names, profile: MediaProfile): Field
  {
    Field(names, Word(ProfileWords(profile), PROFILE_WORDS), profile == Sdr)
  }

  function RecordingField(names: Names, state: RecordingState): Field
  {
    Field(names, Word(RecordingWords(state), RECORDING_WORDS), state == Stopped)
  }

  function AttendeeRow(a: Attendee): Record
  {
    Record([
      Field(ID, Text(a.id), false), TextField(DISPLAY_NAME, a.displayName, a.id), RoleField(a.role),
      FlagField(MUTED, a.muted, false), FlagField(VIDEO_ENABLED, a.videoEnabled, true),
      FlagField(SHARE_ENABLED, a.shareEnabled, true), FlagField(WAITING_ROOM, a.waitingRoom, false)])
  }

  function RoleChangeRow(c: RoleChange): Record
  {
    Record([Field(PARTICIPANT_ID, Text(c.participantId), false), RoleField(c.role)])
  }

  function AttendeeRows(attendees: seq<Attendee>): (rows: seq<Record>)
  {
    if attendees == [] then [] else [AttendeeRow(attendees[0])] + AttendeeRows(attendees[1..])
  }

  function RoleChangeRows(changes: seq<RoleChange>): (rows: seq<Record>)
  {
    if changes == [] then [] else [RoleChangeRow(changes[0])] + RoleChangeRows(changes[1..])
  }

  /** The fields of a frame in their order of declaration. */
  function Fields(frame: ProtocolFrame): seq<Field>
  {
    match frame
    case Handshake(roomId, id, name, wallet, resume, profile, capture, render, sentAt) => [
      Field(ROOM_ID, Text(roomId), false), Field(PARTICIPANT_ID, Text(id), false),
      Field(PARTICIPANT_NAME, Text(name), false),
      OptionalField(WALLET_IDENTITY, wallet), OptionalField(RESUME_TOKEN, resume),
      ProfileField(PREFERRED_PROFILE, profile),
      FlagField(HDR_CAPTURE, capture, false), FlagField(HDR_RENDER, render, false), WholeField(SENT_AT, sentAt, 0)]
    case HandshakeAck(session, token, acceptedAt) => [
      Field(SESSION_ID, Text(session), false), Field(RESUME_TOKEN, Text(token), false),
      WholeField(ACCEPTED_AT, acceptedAt, 0)]
    case PresenceDelta(joined, left, changes, sequence) => [
      Field(JOINED, Records(AttendeeRows(joined), ID), joined == []), Field(LEFT, Texts(left), left == []),
      Field(ROLE_CHANGES, Records(RoleChangeRows(changes), PARTICIPANT_ID), changes == []),
      WholeField(SEQUENCE, sequence, 0)]
    case RoleGrant(target, role, issuer, signature, issuedAt) => [
      Field(TARGET_ID, Text(target), false), RoleField(role), TextField(GRANTED_BY, issuer, "unknown"),
      OptionalField(SIGNATURE, signature), WholeField(ISSUED_AT, issuedAt, 0)]
    case RoleRevoke(target, role, issuer, signature, issuedAt) => [
      Field(TARGET_ID, Text(target), false), RoleField(role), TextField(REVOKED_BY, issuer, "unknown"),
      OptionalField(SIGNATURE, signature), WholeField(ISSUED_AT, issuedAt, 0)]
    case PermissionsSnapshot(id, permissions, epoch) => [
      Field(PARTICIPANT_ID, Text(id), false), Field(EFFECTIVE_PERMISSIONS, Texts(permissions), permissions == []),
      ShortField(EPOCH, epoch, 0)]
    case ModerationSigned(target, action, issuer, signature, sentAt) => [
      Field(TARGET_ID, Text(target), false), Field(ACTION, Word(ActionWords(action), ACTION_WORDS), action == Mute),
      TextField(ISSUED_BY, issuer, "unknown"), OptionalField(SIGNATURE, signature), WholeField(SENT_AT, sentAt, 0)]
    case SessionPolicy(roomLock, waiting, recording, guests, e2ee, most, epoch, issuer, signature, updatedAt) => [
      FlagField(ROOM_LOCK, roomLock, false), FlagField(WAITING_ROOM_ENABLED, waiting, false),
      RecordingField(RECORDING_POLICY, recording),
      Field(GUEST_POLICY, Word(GuestPolicyWords(guests), GUEST_POLICY_WORDS), guests == Open),
      FlagField(E2EE_REQUIRED, e2ee, true), ShortField(MAX_PARTICIPANTS, most, 300), ShortField(POLICY_EPOCH, epoch, 0),
      TextField(UPDATED_BY, issuer, "system"), OptionalField(SIGNATURE, signature),
      WholeField(UPDATED_AT, updatedAt, 0)]
    case DeviceCapability(id, codecs, capture, render, streams, updatedAt) => [
      Field(PARTICIPANT_ID, Text(id), false), Field(CODECS, Texts(codecs), codecs == []),
      FlagField(HDR_CAPTURE, capture, false),
      FlagField(HDR_RENDER, render, false), ShortField(MAX_STREAMS, streams, 1), WholeField(UPDATED_AT, updatedAt, 0)]
    case MediaProfileNegotiation(preferred, negotiated, primaries, transfer, codec) => [
      ProfileField(PREFERRED_PROFILE, preferred), ProfileField(NEGOTIATED_PROFILE, negotiated),
      TextField(COLOR_PRIMARIES, primaries, "bt709"), TextField(TRANSFER_FUNCTION, transfer, "gamma"),
      TextField(CODEC, codec, "h264")]
    case RecordingNotice(state, issuedAt) => [RecordingField(STATE, state), WholeField(ISSUED_AT, issuedAt, 0)]
    case E2eeKeyEpoch(epoch, issuer, signature, sentAt) => [
      ShortField(EPOCH, epoch, 0), TextField(ISSUED_BY, issuer, "unknown"), OptionalField(SIGNATURE, signature),
      WholeField(SENT_AT, sentAt, 0)]
    case KeyRotationAck(epoch, id, sentAt) => [
      ShortField(ACK_EPOCH, epoch, 0), Field(PARTICIPANT_ID, Text(id), false),
      WholeField(SENT_OR_RECEIVED_AT, sentAt, 0)]
    case PaymentPolicy(required, destination) => [
      FlagField(REQUIRED, required, false), OptionalField(DESTINATION_ACCOUNT, destination)]
    case PaymentSettlement(status) => [Field(STATUS, Word(StatusWords(status), STATUS_WORDS), status == NotRequired)]
    case ErrorNotice(category, code, message) => [
      Field(CATEGORY, Word(CategoryWords(category), CATEGORY_WORDS), category == ProtocolFailure),
      TextField(CODE, code, "error"),
      TextField(MESSAGE, message, "unknown")]
    case Ping(sentAt) => [WholeField(SENT_AT, sentAt, 0)]
    case Pong(sentAt) => [WholeField(SENT_AT, sentAt, 0)]
  }

  function KindField(kind: Kind): Field
  {
    Field(KIND, Word(KindNames(kind), KindNames(kind)), false)
  }

  // ----- Writing -----

  /** A choice of one name among those a field, a word or a kind may go by. */
  type Naming = Names -> string

  ghost predicate Chooses(naming: Naming)
  {
    forall names: Names :: names != [] ==> naming(names) in names
  }

  function JsonOf(content: Content, naming: Naming): Json
    decreases content
  {
    match content
    case Text(text) => Str(text)
    case Optional(maybe) => if maybe.Some? then Str(maybe.value) else Null
    case Flag(on) => Bool(on)
    case Whole(n) => Num(n)
    case Short(m) => Num(m)
    case Word(words, _) => Str(naming(words))
    case Texts(texts) => Arr(seq(|texts|, i requires 0 <= i < |texts| => Str(texts[i])))
    case Records(rows, _) => Arr(seq(|rows|, i requires 0 <= i < |rows| => Obj(Spelled(rows[i].fields, naming))))
  }

  function Spelled(fields: seq<Field>, naming: Naming): Object
    decreases fields
  {
    if fields == [] then map[] else
      Spelled(fields[1..], naming)[naming(fields[0].names) := JsonOf(fields[0].content, naming)]
  }

  function Canonical(names: Names): string
  {
    if names == [] then "" else names[0]
  }

  /** `encode_frame`: every field under its canonical name, beside the kind. */
  function Encode(frame: ProtocolFrame): Json
  {
    Obj(Spelled([KindField(KindOf(frame))] + Fields(frame), Canonical))
  }

  // ----- Documents -----

  /** A text is digits, with at most one sign in front, that spell a number. */
  ghost predicate Spells(text: string, n: int)
  {
    exists digits :: digits != "" && AllDigits(digits) && SpellsWith(text, digits, n)
  }

  predicate SpellsWith(text: string, digits: string, n: int)
    requires AllDigits(digits)
  {
    || (n == DecimalValue(digits) && (text == digits || text == "+" + digits))
    || (n + DecimalValue(digits) == 0 && text == "-" + digits)
  }

  /** A JSON value denotes a content. */
  ghost predicate Denotes(v: Json, content: Content)
    decreases content
  {
    match content
    case Text(text) => v == Str(text)
    case Optional(maybe) => if maybe.Some? then v == Str(maybe.value) else !v.Str?
    case Flag(on) => DenotesFlag(v, on)
    case Whole(n) => DenotesNumber(v, n)
    case Short(m) => DenotesNumber(v, m)
    case Word(words, _) => v.Str? && v.text in words
    case Texts(texts) => v.Arr? && ListsTexts(v.items, texts)
    case Records(rows, key) => v.Arr? && ListsRecords(v.items, rows, key)
  }

  predicate DenotesFlag(v: Json, on: bool)
  {
    v == Bool(on) || v == Str(if on then "true" else "false") || (v.Num? && v.n <= I64_MAX && on == (v.n != 0))
  }

  ghost predicate DenotesNumber(v: Json, n: int)
  {
    (v.Num? && v.n == n) || (v.Str? && Spells(v.text, n))
  }

  /**
   A JSON value denotes no content of the kind at hand: it has the wrong type, or is an unknown word or a number out of
   range.
   */
  ghost predicate SaysNothing(v: Json, content: Content)
  {
    match content
    case Text(_) => !v.Str?
    case Optional(_) => !v.Str?
    case Flag(_) => !DenotesFlag(v, true) && !DenotesFlag(v, false)
    case Whole(_) => forall n: i64 :: !DenotesNumber(v, n)
    case Short(_) => forall m: i32 :: !DenotesNumber(v, m)
    case Word(_, known) => !v.Str? || v.text !in known
    case Texts(_) => !v.Arr?
    case Records(_, _) => !v.Arr?
  }

  /** The texts among some items, in order. */
  ghost predicate ListsTexts(items: seq<Json>, texts: seq<string>)
  {
    if items == [] then texts == []
    else if items[0].Str? then texts != [] && items[0].text == texts[0] && ListsTexts(items[1..], texts[1..])
    else ListsTexts(items[1..], texts)
  }

  /** A record: an object with a text under its key. */
  ghost predicate IsRecord(item: Json, key: Names)
  {
    item.Obj? && exists i :: IsFirst(item.members, key, i) && item.members[key[i]].Str?
  }

  /** The records among some items hold the fields of the rows, in order. */
  ghost predicate ListsRecords(items: seq<Json>, rows: seq<Record>, key: Names)
    decreases rows, |items|
  {
    if items == [] then rows == []
    else if IsRecord(items[0], key) then
      rows != [] && HoldsAll(items[0].members, rows[0].fields) && ListsRecords(items[1..], rows[1..], key)
    else ListsRecords(items[1..], rows, key)
  }

  ghost predicate HoldsAll(obj: Object, fields: seq<Field>)
    decreases fields
  {
    forall k :: 0 <= k < |fields| ==> Holds(obj, fields[k])
  }

  ghost predicate Absent(obj: Object, names: Names)
  {
    forall i :: 0 <= i < |names| ==> names[i] !in obj
  }

  /** The i-th name is the first that is present. */
  ghost predicate IsFirst(obj: Object, names: Names, i: int)
  {
    0 <= i < |names| && names[i] in obj && Absent(obj, names[..i])
  }

  /**
   An object holds a field: the first of its names that is present denotes its content; or, for a content that is the
   default, none is present or the first that is says nothing.
   */
  ghost predicate Holds(obj: Object, field: Field)
    decreases field
  {
    || (field.omittable && Absent(obj, field.names))
    || (exists i :: IsFirst(obj, field.names, i)
                    && (|| Denotes(obj[field.names[i]], field.content)
                        || (field.omittable && SaysNothing(obj[field.names[i]], field.content))))
  }

  /** An object is found at the root, when no payload key holds an object, or under the first payload key that does. */
  ghost predicate Carries(root: Object, keys: Names, payload: Object)
  {
    || (payload == root && NoObjects(root, keys))
    || (exists i :: 0 <= i < |keys| && keys[i] in root && root[keys[i]] == Obj(payload) && NoObjects(root, keys[..i]))
  }

  ghost predicate NoObjects(root: Object, keys: Names)
  {
    forall i :: 0 <= i < |keys| && keys[i] in root ==> !root[keys[i]].Obj?
  }

  /** A document represents a frame: it names its kind in either spelling and carries all its fields. */
  ghost predicate Represents(root: Object, frame: ProtocolFrame)
  {
    && "kind" in root && root["kind"].Str? && root["kind"].text in KindNames(KindOf(frame))
    && exists payload :: Carries(root, PayloadKeys(KindOf(frame)), payload) && HoldsAll(payload, Fields(frame))
  }
}
