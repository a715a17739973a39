/**
 How a frame is written: every key in snake case, the kind in camel case, each field under its canonical name alone.
 */
module FrameEncoding {
  import opened Basics
  import opened SessionTypes
  import opened JsonValues
  import opened FrameCodec
  import opened FrameFormat
  import opened FrameRoundTrip

  predicate IsSmall(c: char)
  {
    'a' <= c <= 'z' || '0' <= c <= '9'
  }

  /** Small letters and digits in words joined by underscores. */
  predicate IsSnake(s: string)
  {
    s != "" && forall i :: 0 <= i < |s| ==> IsSmall(s[i]) || s[i] == '_'
  }

  /** Letters and digits that start small. */
  predicate IsCamel(s: string)
  {
    s != "" && IsSmall(s[0]) && forall i :: 0 <= i < |s| ==> IsSmall(s[i]) || 'A' <= s[i] <= 'Z'
  }

  /** The canonical names of fields, of the fields of their rows, and their words, are in snake case. */
  predicate IsSnakeField(field: Field)
    decreases field
  {
    && field.names != [] && IsSnake(field.names[0])
    && match field.content
       case Word(words, _) => words != [] && IsSnake(words[0])
       case Records(rows, _) => forall row <- rows :: AllSnake(row.fields)
       case _ => true
  }

  predicate HasSnakeName(field: Field)
  {
    field.names != [] && IsSnake(field.names[0])
  }

  predicate AllSnake(fields: seq<Field>)
    decreases fields
  {
    forall k :: 0 <= k < |fields| ==> IsSnakeField(fields[k])
  }

  lemma CanonicalChooses()
    ensures Chooses(Canonical)
  {
  }

  // ----- Kinds -----

  lemma OpeningKindsAreCamel(kind: Kind)
    requires kind.HandshakeKind? || kind.HandshakeAckKind? || kind.PresenceDeltaKind? || kind.RoleGrantKind?
             || kind.RoleRevokeKind?
    ensures IsCamel(KindNames(kind)[0])
  {
  }

  lemma ControlKindsAreCamel(kind: Kind)
    requires kind.PermissionsSnapshotKind? || kind.ModerationSignedKind? || kind.SessionPolicyKind?
             || kind.DeviceCapabilityKind?
    ensures IsCamel(KindNames(kind)[0])
  {
  }

  lemma MediaKindsAreCamel(kind: Kind)
    requires kind.MediaProfileNegotiationKind? || kind.RecordingNoticeKind? || kind.E2eeKeyEpochKind?
    ensures IsCamel(KindNames(kind)[0])
  {
  }

  lemma PaymentKindsAreCamel(kind: Kind)
    requires kind.KeyRotationAckKind? || kind.PaymentPolicyKind? || kind.PaymentSettlementKind?
    ensures IsCamel(KindNames(kind)[0])
  {
  }

  lemma SignalKindsAreCamel(kind: Kind)
    requires kind.ErrorKind? || kind.PingKind? || kind.PongKind?
    ensures IsCamel(KindNames(kind)[0])
  {
  }

  /** The canonical name of every kind is in camel case. */
  lemma KindIsCamel(kind: Kind)
    ensures IsCamel(KindNames(kind)[0])
  {
    match kind
    case HandshakeKind => OpeningKindsAreCamel(kind);
    case HandshakeAckKind => OpeningKindsAreCamel(kind);
    case PresenceDeltaKind => OpeningKindsAreCamel(kind);
    case RoleGrantKind => OpeningKindsAreCamel(kind);
    case RoleRevokeKind => OpeningKindsAreCamel(kind);
    case PermissionsSnapshotKind => ControlKindsAreCamel(kind);
    case ModerationSignedKind => ControlKindsAreCamel(kind);
    case SessionPolicyKind => ControlKindsAreCamel(kind);
    case DeviceCapabilityKind => ControlKindsAreCamel(kind);
    case MediaProfileNegotiationKind => MediaKindsAreCamel(kind);
    case RecordingNoticeKind => MediaKindsAreCamel(kind);
    case E2eeKeyEpochKind => MediaKindsAreCamel(kind);
    case KeyRotationAckKind => PaymentKindsAreCamel(kind);
    case PaymentPolicyKind => PaymentKindsAreCamel(kind);
    case PaymentSettlementKind => PaymentKindsAreCamel(kind);
    case ErrorKind => SignalKindsAreCamel(kind);
    case PingKind => SignalKindsAreCamel(kind);
    case PongKind => SignalKindsAreCamel(kind);
  }

  // ----- Words -----

  lemma CategoryIsSnake(category: ErrorCategory)
    ensures IsSnake(CategoryWords(category)[0])
  {
  }

  lemma RoleIsSnake(role: ParticipantRole)
    ensures IsSnake(RoleWords(role)[0])
  {
  }

  lemma ActionIsSnake(action: ModerationAction)
    ensures IsSnake(ActionWords(action)[0])
  {
  }

  lemma ProfileIsSnake(profile: MediaProfile)
    ensures IsSnake(ProfileWords(profile)[0])
  {
  }

  lemma RecordingIsSnake(state: RecordingState)
    ensures IsSnake(RecordingWords(state)[0])
  {
  }

  lemma GuestPolicyIsSnake(policy: GuestPolicy)
    ensures IsSnake(GuestPolicyWords(policy)[0])
  {
  }

  lemma StatusIsSnake(status: SettlementStatus)
    ensures IsSnake(StatusWords(status)[0])
  {
  }

  // ----- Fields -----

  lemma AttendeeIsSnake(a: Attendee)
    ensures AllSnake(AttendeeRow(a).fields)
  {
    RoleIsSnake(a.role);
  }

  lemma RoleChangeIsSnake(c: RoleChange)
    ensures AllSnake(RoleChangeRow(c).fields)
  {
    RoleIsSnake(c.role);
  }

  lemma {:induction false} AttendeesAreSnake(attendees: seq<Attendee>)
    ensures forall row <- AttendeeRows(attendees) :: AllSnake(row.fields)
  {
    if attendees != [] {
      AttendeeIsSnake(attendees[0]);
      AttendeesAreSnake(attendees[1..]);
    }
  }

  lemma {:induction false} RoleChangesAreSnake(changes: seq<RoleChange>)
    ensures forall row <- RoleChangeRows(changes) :: AllSnake(row.fields)
  {
    if changes != [] {
      RoleChangeIsSnake(changes[0]);
      RoleChangesAreSnake(changes[1..]);
    }
  }

  lemma HandshakeIsSnake(frame: ProtocolFrame)
    requires frame.Handshake?
    ensures AllSnake(Fields(frame))
  {
    HandshakeHeadIsSnake(frame);
    HandshakeTailIsSnake(frame);
  }

  lemma HandshakeHeadIsSnake(frame: ProtocolFrame)
    requires frame.Handshake?
    ensures |Fields(frame)| == 9 && forall k :: 0 <= k < 6 ==> IsSnakeField(Fields(frame)[k])
  {
    ProfileIsSnake(frame.preferredProfile);
  }

  lemma HandshakeTailIsSnake(frame: ProtocolFrame)
    requires frame.Handshake?
    ensures |Fields(frame)| == 9 && forall k :: 6 <= k < 9 ==> IsSnakeField(Fields(frame)[k])
  {
  }

  lemma HandshakeAckIsSnake(frame: ProtocolFrame)
    requires frame.HandshakeAck?
    ensures AllSnake(Fields(frame))
  {
  }

  lemma PresenceDeltaIsSnake(frame: ProtocolFrame)
    requires frame.PresenceDelta?
    ensures AllSnake(Fields(frame))
  {
    AttendeesAreSnake(frame.joined);
    RoleChangesAreSnake(frame.roleChanges);
  }

  lemma RoleGrantIsSnake(frame: ProtocolFrame)
    requires frame.RoleGrant?
    ensures AllSnake(Fields(frame))
  {
    RoleGrantHeadIsSnake(frame);
    RoleGrantTailIsSnake(frame);
  }

  lemma RoleGrantHeadIsSnake(frame: ProtocolFrame)
    requires frame.RoleGrant?
    ensures |Fields(frame)| == 5 && forall k :: 0 <= k < 2 ==> IsSnakeField(Fields(frame)[k])
  {
    RoleIsSnake(frame.role);
  }

  lemma RoleGrantTailIsSnake(frame: ProtocolFrame)
    requires frame.RoleGrant?
    ensures |Fields(frame)| == 5 && forall k :: 2 <= k < 5 ==> IsSnakeField(Fields(frame)[k])
  {
  }

  lemma RoleRevokeIsSnake(frame: ProtocolFrame)
    requires frame.RoleRevoke?
    ensures AllSnake(Fields(frame))
  {
    RoleRevokeHeadIsSnake(frame);
    RoleRevokeTailIsSnake(frame);
  }

  lemma RoleRevokeHeadIsSnake(frame: ProtocolFrame)
    requires frame.RoleRevoke?
    ensures |Fields(frame)| == 5 && forall k :: 0 <= k < 2 ==> IsSnakeField(Fields(frame)[k])
  {
    RoleIsSnake(frame.role);
  }

  lemma RoleRevokeTailIsSnake(frame: ProtocolFrame)
    requires frame.RoleRevoke?
    ensures |Fields(frame)| == 5 && forall k :: 2 <= k < 5 ==> IsSnakeField(Fields(frame)[k])
  {
  }

  lemma PermissionsSnapshotIsSnake(frame: ProtocolFrame)
    requires frame.PermissionsSnapshot?
    ensures AllSnake(Fields(frame))
  {
  }

  lemma ModerationSignedIsSnake(frame: ProtocolFrame)
    requires frame.ModerationSigned?
    ensures AllSnake(Fields(frame))
  {
    ModerationSignedHeadIsSnake(frame);
    ModerationSignedTailIsSnake(frame);
  }

  lemma ModerationSignedHeadIsSnake(frame: ProtocolFrame)
    requires frame.ModerationSigned?
    ensures |Fields(frame)| == 5 && forall k :: 0 <= k < 2 ==> IsSnakeField(Fields(frame)[k])
  {
    ActionIsSnake(frame.action);
  }

  lemma ModerationSignedTailIsSnake(frame: ProtocolFrame)
    requires frame.ModerationSigned?
    ensures |Fields(frame)| == 5 && forall k :: 2 <= k < 5 ==> IsSnakeField(Fields(frame)[k])
  {
  }

  lemma SessionPolicyIsSnake(frame: ProtocolFrame)
    requires frame.SessionPolicy?
    ensures AllSnake(Fields(frame))
  {
    SessionDoorIsSnake(frame);
    SessionRulesAreSnake(frame);
  }

  lemma SessionDoorIsSnake(frame: ProtocolFrame)
    requires frame.SessionPolicy?
    ensures |Fields(frame)| == 10 && forall k :: 0 <= k < 5 ==> IsSnakeField(Fields(frame)[k])
  {
    RecordingIsSnake(frame.recordingPolicy);
    GuestPolicyIsSnake(frame.guestPolicy);
  }

  lemma SessionRulesAreSnake(frame: ProtocolFrame)
    requires frame.SessionPolicy?
    ensures |Fields(frame)| == 10 && forall k :: 5 <= k < 10 ==> IsSnakeField(Fields(frame)[k])
  {
  }

  lemma DeviceCapabilityIsSnake(frame: ProtocolFrame)
    requires frame.DeviceCapability?
    ensures AllSnake(Fields(frame))
  {
  }

  lemma MediaProfileNegotiationIsSnake(frame: ProtocolFrame)
    requires frame.MediaProfileNegotiation?
    ensures AllSnake(Fields(frame))
  {
    MediaProfileNegotiationHeadIsSnake(frame);
    MediaProfileNegotiationTailIsSnake(frame);
  }

  lemma MediaProfileNegotiationHeadIsSnake(frame: ProtocolFrame)
    requires frame.MediaProfileNegotiation?
    ensures |Fields(frame)| == 5 && forall k :: 0 <= k < 2 ==> IsSnakeField(Fields(frame)[k])
  {
    ProfileIsSnake(frame.preferredProfile);
    ProfileIsSnake(frame.negotiatedProfile);
  }

  lemma MediaProfileNegotiationTailIsSnake(frame: ProtocolFrame)
    requires frame.MediaProfileNegotiation?
    ensures |Fields(frame)| == 5 && forall k :: 2 <= k < 5 ==> IsSnakeField(Fields(frame)[k])
  {
  }

  lemma RecordingNoticeIsSnake(frame: ProtocolFrame)
    requires frame.RecordingNotice?
    ensures AllSnake(Fields(frame))
  {
    RecordingIsSnake(frame.state);
  }

  lemma E2eeKeyEpochIsSnake(frame: ProtocolFrame)
    requires frame.E2eeKeyEpoch?
    ensures AllSnake(Fields(frame))
  {
  }

  lemma KeyRotationAckIsSnake(frame: ProtocolFrame)
    requires frame.KeyRotationAck?
    ensures AllSnake(Fields(frame))
  {
  }

  lemma PaymentPolicyIsSnake(frame: ProtocolFrame)
    requires frame.PaymentPolicy?
    ensures AllSnake(Fields(frame))
  {
  }

  lemma PaymentSettlementIsSnake(frame: ProtocolFrame)
    requires frame.PaymentSettlement?
    ensures AllSnake(Fields(frame))
  {
    StatusIsSnake(frame.status);
  }

  lemma ErrorNoticeIsSnake(frame: ProtocolFrame)
    requires frame.ErrorNotice?
    ensures AllSnake(Fields(frame))
  {
    CategoryIsSnake(frame.category);
  }

  lemma PingIsSnake(frame: ProtocolFrame)
    requires frame.Ping?
    ensures AllSnake(Fields(frame))
  {
  }

  lemma PongIsSnake(frame: ProtocolFrame)
    requires frame.Pong?
    ensures AllSnake(Fields(frame))
  {
  }

  /** Every canonical name and word of a frame is in snake case. */
  lemma FieldsAreSnake(frame: ProtocolFrame)
    ensures AllSnake(Fields(frame))
  {
    match frame
    case Handshake(_, _, _, _, _, _, _, _, _) => HandshakeIsSnake(frame);
    case HandshakeAck(_, _, _) => HandshakeAckIsSnake(frame);
    case PresenceDelta(_, _, _, _) => PresenceDeltaIsSnake(frame);
    case RoleGrant(_, _, _, _, _) => RoleGrantIsSnake(frame);
    case RoleRevoke(_, _, _, _, _) => RoleRevokeIsSnake(frame);
    case PermissionsSnapshot(_, _, _) => PermissionsSnapshotIsSnake(frame);
    case ModerationSigned(_, _, _, _, _) => ModerationSignedIsSnake(frame);
    case SessionPolicy(_, _, _, _, _, _, _, _, _, _) => SessionPolicyIsSnake(frame);
    case DeviceCapability(_, _, _, _, _, _) => DeviceCapabilityIsSnake(frame);
    case MediaProfileNegotiation(_, _, _, _, _) => MediaProfileNegotiationIsSnake(frame);
    case RecordingNotice(_, _) => RecordingNoticeIsSnake(frame);
    case E2eeKeyEpoch(_, _, _, _) => E2eeKeyEpochIsSnake(frame);
    case KeyRotationAck(_, _, _) => KeyRotationAckIsSnake(frame);
    case PaymentPolicy(_, _) => PaymentPolicyIsSnake(frame);
    case PaymentSettlement(_) => PaymentSettlementIsSnake(frame);
    case ErrorNotice(_, _, _) => ErrorNoticeIsSnake(frame);
    case Ping(_) => PingIsSnake(frame);
    case Pong(_) => PongIsSnake(frame);
  }

  // ----- What is written -----

  lemma {:induction false} KeysWritten(fields: seq<Field>, naming: Naming, key: string) returns (k: nat)
    requires key in Spelled(fields, naming)
    ensures k < |fields| && naming(fields[k].names) == key
  {
    if key == naming(fields[0].names) {
      k := 0;
    } else {
      k := KeysWritten(fields[1..], naming, key);
      k := k + 1;
    }
  }

  /** Fields with canonical names in snake case are written under these names, and nothing else is written. */
  lemma WrittenCanonically(fields: seq<Field>)
    requires Distinct(fields) && forall k :: 0 <= k < |fields| ==> HasSnakeName(fields[k])
    ensures var obj := Spelled(fields, Canonical);
            && (forall k :: 0 <= k < |fields| ==>
                  && fields[k].names[0] in obj
                  && obj[fields[k].names[0]] == JsonOf(fields[k].content, Canonical))
            && (forall key :: key in obj ==> IsSnake(key))
            && |obj.Keys| == |fields|
  {
    var obj := Spelled(fields, Canonical);
    CanonicalChooses();
    forall k | 0 <= k < |fields|
      ensures fields[k].names[0] in obj && obj[fields[k].names[0]] == JsonOf(fields[k].content, Canonical)
    {
      FieldIsWritten(fields, Canonical, k);
    }
    forall key | key in obj ensures IsSnake(key) {
      var k := KeysWritten(fields, Canonical, key);
    }
    AsManyKeys(fields, Canonical);
  }

  /** The plain form of a content: a text, a word in its canonical spelling, a flag, a number, a list, or nothing. */
  predicate IsPlain(v: Json, content: Content)
  {
    match content
    case Text(text) => v == Str(text)
    case Optional(maybe) => if maybe.Some? then v == Str(maybe.value) else v.Null?
    case Flag(on) => v == Bool(on)
    case Whole(n) => v.Num? && v.n == n
    case Short(m) => v.Num? && v.n == m
    case Word(words, _) => words != [] && v == Str(words[0])
    case Texts(texts) => v.Arr? && |v.items| == |texts| && forall i :: 0 <= i < |texts| ==> v.items[i] == Str(texts[i])
    case Records(rows, _) => v.Arr? && |v.items| == |rows| && forall i :: 0 <= i < |rows| ==> v.items[i].Obj?
  }

  lemma WrittenPlainly(field: Field)
    requires IsSnakeField(field)
    ensures IsPlain(JsonOf(field.content, Canonical), field.content)
  {
  }

  /** The fields of an encoded frame with its kind in front. */
  function Written(frame: ProtocolFrame): (fields: seq<Field>)
    ensures |fields| == |Fields(frame)| + 1 && fields[0] == KindField(KindOf(frame))
    ensures forall k :: 0 <= k < |Fields(frame)| ==> fields[k + 1] == Fields(frame)[k]
  {
    var fields := Fields(frame);
    [KindField(KindOf(frame))] + fields
  }

  /**
   An encoded frame holds its kind under `kind` in camel case, every field under its first name in its plain form, and
   nothing else; all keys are in snake case, and so are the words of enumerations and the keys of rows.
   */
  lemma EncodesCanonically(frame: ProtocolFrame)
    ensures Encode(frame).Obj?
    ensures var members, fields := Encode(frame).members, Fields(frame);
            && "kind" in members && members["kind"] == Str(KindNames(KindOf(frame))[0]) && IsCamel(members["kind"].text)
            && (forall k :: 0 <= k < |fields| ==>
                  && fields[k].names != [] && fields[k].names[0] in members
                  && IsPlain(members[fields[k].names[0]], fields[k].content))
            && (forall key :: key in members ==> IsSnake(key))
            && |members.Keys| == |fields| + 1
            && AllSnake(fields)
  {
    FlatIsDistinct(frame);
    WrittenIsSnake(frame);
    KindIsCamel(KindOf(frame));
    WrittenCanonically(Written(frame));
    CanonicalKind(KindOf(frame));
    forall k | 0 <= k < |Fields(frame)|
      ensures Written(frame)[k + 1] == Fields(frame)[k]
      ensures IsPlain(JsonOf(Fields(frame)[k].content, Canonical), Fields(frame)[k].content)
    {
      WrittenPlainly(Fields(frame)[k]);
    }
  }

  lemma WrittenIsSnake(frame: ProtocolFrame)
    ensures AllSnake(Fields(frame))
    ensures forall k :: 0 <= k < |Written(frame)| ==> HasSnakeName(Written(frame)[k])
  {
    FieldsAreSnake(frame);
    KindHasSnakeName(KindOf(frame));
    SnakeBehind(KindField(KindOf(frame)), Fields(frame), Written(frame));
  }

  lemma KindHasSnakeName(kind: Kind)
    ensures HasSnakeName(KindField(kind))
  {
  }

  lemma SnakeBehind(first: Field, fields: seq<Field>, all: seq<Field>)
    requires HasSnakeName(first) && AllSnake(fields)
    requires |all| == |fields| + 1 && all[0] == first && forall k :: 0 <= k < |fields| ==> all[k + 1] == fields[k]
    ensures forall k :: 0 <= k < |all| ==> HasSnakeName(all[k])
  {
    forall k | 0 < k < |all| ensures HasSnakeName(all[k]) {
      assert all[k - 1 + 1] == fields[k - 1] && IsSnakeField(fields[k - 1]);
    }
  }

  lemma CanonicalKind(kind: Kind)
    ensures KIND[0] == "kind" && JsonOf(KindField(kind).content, Canonical) == Str(KindNames(kind)[0])
  {
  }

  lemma {:induction false} AsManyKeys(fields: seq<Field>, naming: Naming)
    requires Chooses(naming) && Distinct(fields)
    ensures |Spelled(fields, naming).Keys| == |fields|
  {
    if fields != [] {
      var rest, name := fields[1..], naming(fields[0].names);
      assert Distinct(rest);
      AsManyKeys(rest, naming);
      assert name in fields[0].names;
      forall i | 0 <= i < |rest| ensures name !in rest[i].names {
        assert Disjoint(fields[0].names, fields[i + 1].names);
      }
      OnlyNamesAreWritten(rest, naming, name);
      assert Spelled(fields, naming).Keys == Spelled(rest, naming).Keys + {name};
    }
  }
}
