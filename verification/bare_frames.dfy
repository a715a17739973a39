/** What a session starts with is what a reader assumes of frames that say nothing. */
module BareFrames {
  import opened Basics
  import opened SessionTypes
  import opened JsonValues
  import opened FrameCodec
  import opened FrameFormat
  import opened Reducer
  import FrameDecoding

  /** An object with nothing but the kind of a frame. */
  predicate IsBare(obj: Object)
  {
    obj.Keys == {"kind"}
  }

  lemma {:induction false} NothingElse(obj: Object, names: Names)
    requires IsBare(obj) && "kind" !in names
    ensures GetValue(obj, names).None?
  {
    if names != [] {
      NothingElse(obj, names[1..]);
    }
  }

  lemma {:induction false} NotNested(root: Object, keys: Names)
    requires IsBare(root) && !root["kind"].Obj?
    ensures PayloadOrRoot(root, keys) == root
  {
    if keys != [] {
      NotNested(root, keys[1..]);
    }
  }

  /** What a bare session policy, media profile, recording notice, settlement or key epoch is read as. */
  lemma PolicyDefaults(obj: Object)
    requires IsBare(obj)
    ensures ReadSessionPolicy(obj) == SessionPolicy(false, false, Stopped, Open, true, 300, 0, "system", None, 0)
  {
    NothingElse(obj, ROOM_LOCK);
    NothingElse(obj, WAITING_ROOM_ENABLED);
    NothingElse(obj, RECORDING_POLICY);
    NothingElse(obj, GUEST_POLICY);
    NothingElse(obj, E2EE_REQUIRED);
    NothingElse(obj, MAX_PARTICIPANTS);
    NothingElse(obj, POLICY_EPOCH);
    NothingElse(obj, UPDATED_BY);
    NothingElse(obj, SIGNATURE);
    NothingElse(obj, UPDATED_AT);
  }

  lemma ProfileDefaults(obj: Object)
    requires IsBare(obj)
    ensures ReadMediaProfileNegotiation(obj) == MediaProfileNegotiation(Sdr, Sdr, "bt709", "gamma", "h264")
  {
    NothingElse(obj, PREFERRED_PROFILE);
    NothingElse(obj, NEGOTIATED_PROFILE);
    NothingElse(obj, COLOR_PRIMARIES);
    NothingElse(obj, TRANSFER_FUNCTION);
    NothingElse(obj, CODEC);
  }

  lemma SignalDefaults(obj: Object)
    requires IsBare(obj)
    ensures Read(RecordingNoticeKind, obj) == Ok(RecordingNotice(Stopped, 0))
    ensures Read(PaymentPolicyKind, obj) == Ok(PaymentPolicy(false, None))
    ensures Read(PaymentSettlementKind, obj) == Ok(PaymentSettlement(NotRequired))
  {
    NothingElse(obj, STATE);
    NothingElse(obj, ISSUED_AT);
    NothingElse(obj, REQUIRED);
    NothingElse(obj, DESTINATION_ACCOUNT);
    NothingElse(obj, STATUS);
  }

  lemma EpochDefaults(obj: Object)
    requires IsBare(obj)
    ensures ReadE2eeKeyEpoch(obj) == E2eeKeyEpoch(0, "unknown", None, 0)
    ensures ReadPresenceDelta(obj) == PresenceDelta([], [], [], 0)
  {
    NothingElse(obj, EPOCH);
    NothingElse(obj, ISSUED_BY);
    NothingElse(obj, SIGNATURE);
    NothingElse(obj, SENT_AT);
    NothingElse(obj, JOINED);
    NothingElse(obj, LEFT);
    NothingElse(obj, ROLE_CHANGES);
    NothingElse(obj, SEQUENCE);
  }

  /** The kinds of frames with a field that cannot be left out. */
  predicate IsIncomplete(kind: Kind)
  {
    kind.HandshakeKind? || kind.HandshakeAckKind? || kind.RoleGrantKind? || kind.RoleRevokeKind?
    || kind.PermissionsSnapshotKind? || kind.ModerationSignedKind? || kind.DeviceCapabilityKind?
    || kind.KeyRotationAckKind?
  }

  lemma IncompleteIsRefused(kind: Kind, obj: Object)
    requires IsBare(obj)
    ensures Read(kind, obj).Err? <==> IsIncomplete(kind)
  {
    NothingElse(obj, ROOM_ID);
    NothingElse(obj, SESSION_ID);
    NothingElse(obj, TARGET_ID);
    NothingElse(obj, PARTICIPANT_ID);
  }

  lemma BareIsRead(kind: Kind, root: Object, name: string)
    requires root == map["kind" := Str(name)] && KindNamed(name) == Some(kind)
    ensures IsBare(root) && Decode(Obj(root)) == Read(kind, root)
  {
    NotNested(root, PayloadKeys(kind));
  }

  lemma DefaultPolicyStays(config: MeetingConfig, nowMs: i64)
    ensures ReduceFrame(InitialState(config),
                        SessionPolicy(false, false, Stopped, Open, true, 300, 0, "system", None, 0),
                        nowMs).room == InitialRoom(config)
  {
  }

  lemma DefaultSignalsStay(config: MeetingConfig, nowMs: i64)
    ensures ReduceFrame(InitialState(config), PaymentPolicy(false, None), nowMs).room == InitialRoom(config)
    ensures ReduceFrame(InitialState(config), PaymentSettlement(NotRequired), nowMs).room == InitialRoom(config)
    ensures ReduceFrame(InitialState(config), E2eeKeyEpoch(0, "unknown", None, 0), nowMs).room == InitialRoom(config)
    ensures ReduceFrame(InitialState(config), RecordingNotice(Stopped, 0), nowMs).room == InitialRoom(config)
  {
  }

  lemma DefaultProfileStays(config: MeetingConfig, nowMs: i64)
    ensures ReduceFrame(InitialState(config), MediaProfileNegotiation(Sdr, Sdr, "bt709", "gamma", "h264"), nowMs).room
            == InitialRoom(config)
    ensures ReduceFrame(InitialState(config), PresenceDelta([], [], [], 0), nowMs).room == InitialRoom(config)
  {
  }

  lemma TransientFramesStay(frame: ProtocolFrame, config: MeetingConfig, nowMs: i64)
    requires frame.ErrorNotice? || frame.Ping? || frame.Pong?
    ensures ReduceFrame(InitialState(config), frame, nowMs).room == InitialRoom(config)
  {
  }

  lemma DefaultsChangeNothing(kind: Kind, obj: Object, config: MeetingConfig, nowMs: i64)
    requires IsBare(obj) && !IsIncomplete(kind)
    ensures Read(kind, obj).Ok?
    ensures ReduceFrame(InitialState(config), Read(kind, obj).value, nowMs).room == InitialRoom(config)
  {
    DefaultPolicyStays(config, nowMs);
    DefaultSignalsStay(config, nowMs);
    DefaultProfileStays(config, nowMs);
    match kind
    case PresenceDeltaKind => EpochDefaults(obj);
    case SessionPolicyKind => PolicyDefaults(obj);
    case MediaProfileNegotiationKind => ProfileDefaults(obj);
    case RecordingNoticeKind => SignalDefaults(obj);
    case E2eeKeyEpochKind => EpochDefaults(obj);
    case PaymentPolicyKind => SignalDefaults(obj);
    case PaymentSettlementKind => SignalDefaults(obj);
    case ErrorKind => TransientFramesStay(Read(kind, obj).value, config, nowMs);
    case PingKind => TransientFramesStay(Read(kind, obj).value, config, nowMs);
    case PongKind => TransientFramesStay(Read(kind, obj).value, config, nowMs);
    case _ =>
  }

  /**
   A frame that says nothing but its kind is refused if it lacks a field it needs; otherwise, in a fresh session, it
   changes nothing in the room.
   */
  lemma BareFramesChangeNothing(kind: Kind, name: string, config: MeetingConfig, nowMs: i64)
    requires name in KindNames(kind)
    ensures var read := Decode(Obj(map["kind" := Str(name)]));
            && (read.Err? <==> IsIncomplete(kind))
            && (read.Ok? ==> ReduceFrame(InitialState(config), read.value, nowMs).room == InitialRoom(config))
  {
    var root: Object := map["kind" := Str(name)];
    FrameDecoding.KindIsNamed(kind);
    BareIsRead(kind, root, name);
    IncompleteIsRefused(kind, root);
    if !IsIncomplete(kind) {
      DefaultsChangeNothing(kind, root, config, nowMs);
    }
  }
}
