/**
 The decoder reads a document as a frame exactly if the document represents that frame, and refuses exactly those that
 represent none.
 */
module FrameDecoding {
  import opened Basics
  import opened Digits
  import opened SessionTypes
  import opened JsonValues
  import opened FrameCodec
  import opened FrameFormat
  import Text

  // ----- Looking a field up -----

  lemma {:induction false} FirstPresentNameWins(obj: Object, names: Names, i: nat)
    requires IsFirst(obj, names, i)
    ensures GetValue(obj, names) == Some(obj[names[i]])
  {
    if i > 0 {
      assert names[..i][0] == names[0];
      var before, rest := names[..i], names[1..][..i - 1];
      assert forall j :: 0 <= j < |rest| ==> rest[j] == before[j + 1];
      FirstPresentNameWins(obj, names[1..], i - 1);
    }
  }

  lemma {:induction false} AbsentIsNotFound(obj: Object, names: Names)
    ensures GetValue(obj, names) == None <==> Absent(obj, names)
    ensures GetValue(obj, names).Some? ==> exists i :: IsFirst(obj, names, i)
  {
    if names != [] {
      var rest := names[1..];
      assert forall j :: 0 <= j < |rest| ==> rest[j] == names[j + 1];
      AbsentIsNotFound(obj, rest);
      if names[0] in obj {
        assert IsFirst(obj, names, 0);
      } else if i :| IsFirst(obj, rest, i) {
        var before, between := names[..i + 1], rest[..i];
        assert forall j :: 0 < j < |before| ==> before[j] == between[j - 1];
        assert IsFirst(obj, names, i + 1);
      } else if Absent(obj, rest) {
        assert forall j :: 0 < j < |names| ==> names[j] == rest[j - 1];
      }
    }
  }

  /**
   An object holds a field exactly if what is looked up for it denotes the content, or says nothing about a default.
   */
  lemma HeldByLookup(obj: Object, field: Field)
    ensures Holds(obj, field) <==>
            match GetValue(obj, field.names)
            case None => field.omittable
            case Some(v) => Denotes(v, field.content) || (field.omittable && SaysNothing(v, field.content))
  {
    AbsentIsNotFound(obj, field.names);
    forall i | IsFirst(obj, field.names, i) ensures GetValue(obj, field.names) == Some(obj[field.names[i]]) {
      FirstPresentNameWins(obj, field.names, i);
    }
  }

  // ----- Reading one field -----

  lemma {:induction false} ListedTextsAreRead(items: seq<Json>, texts: seq<string>)
    ensures ListsTexts(items, texts) <==> FilterMap(TextOf, items) == texts
  {
    if items != [] {
      if !items[0].Str? {
        ListedTextsAreRead(items[1..], texts);
      } else if texts != [] {
        ListedTextsAreRead(items[1..], texts[1..]);
        assert FilterMap(TextOf, items)[1..] == FilterMap(TextOf, items[1..]);
        assert texts == [texts[0]] + texts[1..];
      }
    }
  }

  lemma SpelledParses(text: string, n: i64)
    ensures Spells(text, n) <==> ParseSigned(text) == Some(n)
  {
    if digits :| digits != "" && AllDigits(digits) && SpellsWith(text, digits, n) {
      assert Text.IsAsciiDigit(digits[0]);
      if text == "+" + digits || text == "-" + digits {
        assert text[1..] == digits;
      }
    }
    if ParseSigned(text) == Some(n) {
      var digits := if text[0] == '-' || text[0] == '+' then text[1..] else text;
      assert text == (if text[0] == '-' then "-" else if text[0] == '+' then "+" else "") + digits;
      assert SpellsWith(text, digits, n);
    }
  }

  lemma NumberIsRead(v: Json, obj: Object, names: Names, n: i64)
    requires GetValue(obj, names) == Some(v)
    ensures DenotesNumber(v, n) <==> GetI64(obj, names) == Some(n)
  {
    if v.Str? {
      SpelledParses(v.text, n);
    }
  }

  /** What the readers make of a field. */
  ghost predicate ReadsBack(obj: Object, field: Field)
  {
    match field.content
    case Text(text) => GetText(obj, field.names) == Some(text) || (field.omittable && GetText(obj, field.names).None?)
    case Optional(maybe) => GetText(obj, field.names) == maybe
    case Flag(on) => GetFlag(obj, field.names) == Some(on) || (field.omittable && GetFlag(obj, field.names).None?)
    case Whole(n) => GetI64(obj, field.names) == Some(n) || (field.omittable && GetI64(obj, field.names).None?)
    case Short(m) => GetI32(obj, field.names) == Some(m) || (field.omittable && GetI32(obj, field.names).None?)
    case Word(words, known) => ReadsWord(GetText(obj, field.names), words, known, field.omittable)
    case Texts(texts) => FilterMap(TextOf, GetItems(obj, field.names)) == texts
    case Records(rows, key) => ListsRecords(GetItems(obj, field.names), rows, key)
  }

  predicate ReadsWord(raw: Option<string>, words: Names, known: Names, omittable: bool)
  {
    (raw.Some? && raw.value in words) || (omittable && (raw.None? || raw.value !in known))
  }

  /** For optional texts and lists, nothing is the default and the default is nothing. */
  predicate IsCoherent(field: Field)
  {
    match field.content
    case Optional(maybe) => field.omittable == maybe.None?
    case Texts(texts) => field.omittable == (texts == [])
    case Records(rows, _) => field.omittable == (rows == [])
    case _ => true
  }

  /** The readers read a field as its content exactly if the object holds it. */
  lemma FieldIsRead(obj: Object, field: Field)
    requires IsCoherent(field)
    ensures Holds(obj, field) <==> ReadsBack(obj, field)
  {
    HeldByLookup(obj, field);
    match GetValue(obj, field.names)
    case None =>
    case Some(v) =>
      match field.content {
        case Texts(texts) =>
          if v.Arr? { ListedTextsAreRead(v.items, texts); }
        case Whole(_) => WholeIsRead(obj, field, v);
        case Short(_) => ShortIsRead(obj, field, v);
        case _ =>
      }
  }

  lemma WholeIsRead(obj: Object, field: Field, v: Json)
    requires GetValue(obj, field.names) == Some(v) && field.content.Whole?
    ensures Denotes(v, field.content) <==> GetI64(obj, field.names) == Some(field.content.n)
    ensures SaysNothing(v, field.content) <==> GetI64(obj, field.names).None?
  {
    forall n: i64 ensures DenotesNumber(v, n) <==> GetI64(obj, field.names) == Some(n) {
      NumberIsRead(v, obj, field.names, n);
    }
  }

  lemma ShortIsRead(obj: Object, field: Field, v: Json)
    requires GetValue(obj, field.names) == Some(v) && field.content.Short?
    ensures Denotes(v, field.content) <==> GetI32(obj, field.names) == Some(field.content.m)
    ensures SaysNothing(v, field.content) <==> GetI32(obj, field.names).None?
  {
    forall m: i32 ensures DenotesNumber(v, m) <==> GetI32(obj, field.names) == Some(m) {
      NumberIsRead(v, obj, field.names, m);
    }
  }

  ghost predicate AllReadBack(obj: Object, fields: seq<Field>)
  {
    forall k :: 0 <= k < |fields| ==> ReadsBack(obj, fields[k])
  }

  lemma FieldsAreRead(obj: Object, fields: seq<Field>)
    requires forall k :: 0 <= k < |fields| ==> IsCoherent(fields[k])
    ensures HoldsAll(obj, fields) <==> AllReadBack(obj, fields)
  {
    forall k | 0 <= k < |fields| ensures Holds(obj, fields[k]) <==> ReadsBack(obj, fields[k]) {
      FieldIsRead(obj, fields[k]);
    }
  }

  /** A short list of fields reads back if each field does. */
  lemma Unrolled(obj: Object, fields: seq<Field>)
    requires |fields| <= 10
    ensures AllReadBack(obj, fields) <==>
            && (|fields| <= 0 || ReadsBack(obj, fields[0])) && (|fields| <= 1 || ReadsBack(obj, fields[1]))
            && (|fields| <= 2 || ReadsBack(obj, fields[2])) && (|fields| <= 3 || ReadsBack(obj, fields[3]))
            && (|fields| <= 4 || ReadsBack(obj, fields[4])) && (|fields| <= 5 || ReadsBack(obj, fields[5]))
            && (|fields| <= 6 || ReadsBack(obj, fields[6])) && (|fields| <= 7 || ReadsBack(obj, fields[7]))
            && (|fields| <= 8 || ReadsBack(obj, fields[8])) && (|fields| <= 9 || ReadsBack(obj, fields[9]))
  {
  }

  // ----- Words -----

  lemma CategoryIsRead(raw: Option<string>, category: ErrorCategory)
    ensures CategoryOf(raw) == category
            <==> ReadsWord(raw, CategoryWords(category), CATEGORY_WORDS, category == ProtocolFailure)
  {
  }

  lemma RoleIsRead(raw: Option<string>, role: ParticipantRole)
    ensures RoleOf(raw) == role <==> ReadsWord(raw, RoleWords(role), ROLE_WORDS, role == Participant)
  {
  }

  lemma ActionIsRead(raw: Option<string>, action: ModerationAction)
    ensures ActionOf(raw) == action <==> ReadsWord(raw, ActionWords(action), ACTION_WORDS, action == Mute)
  {
  }

  lemma ProfileIsRead(raw: Option<string>, profile: MediaProfile)
    ensures ProfileOf(raw) == profile <==> ReadsWord(raw, ProfileWords(profile), PROFILE_WORDS, profile == Sdr)
  {
  }

  lemma RecordingIsRead(raw: Option<string>, state: RecordingState)
    ensures RecordingOf(raw) == state <==> ReadsWord(raw, RecordingWords(state), RECORDING_WORDS, state == Stopped)
  {
  }

  lemma GuestPolicyIsRead(raw: Option<string>, policy: GuestPolicy)
    ensures GuestPolicyOf(raw) == policy
            <==> ReadsWord(raw, GuestPolicyWords(policy), GUEST_POLICY_WORDS, policy == Open)
  {
  }

  lemma StatusIsRead(raw: Option<string>, status: SettlementStatus)
    ensures StatusOf(raw) == status <==> ReadsWord(raw, StatusWords(status), STATUS_WORDS, status == NotRequired)
  {
  }

  // ----- Records -----

  lemma TextUnderKey(obj: Object, key: Names)
    ensures GetText(obj, key).Some? <==> IsRecord(Obj(obj), key)
  {
    AbsentIsNotFound(obj, key);
    forall i | IsFirst(obj, key, i) ensures GetValue(obj, key) == Some(obj[key[i]]) {
      FirstPresentNameWins(obj, key, i);
    }
  }

  lemma AttendeeIsRead(obj: Object, a: Attendee)
    ensures ParseAttendee(Obj(obj)) == Some(a) <==> HoldsAll(obj, AttendeeRow(a).fields)
  {
    var fields := AttendeeRow(a).fields;
    FieldsAreRead(obj, fields);
    Unrolled(obj, fields);
    AttendeeNameIsRead(obj, a);
    AttendeeFlagsAreRead(obj, a);
  }

  lemma AttendeeNameIsRead(obj: Object, a: Attendee)
    ensures var fields := AttendeeRow(a).fields;
            && |fields| == 7
            && (ReadsBack(obj, fields[0]) && ReadsBack(obj, fields[1]) && ReadsBack(obj, fields[2]) <==>
                GetText(obj, ID) == Some(a.id) && Or(GetText(obj, DISPLAY_NAME), a.id) == a.displayName
                && RoleOf(GetText(obj, ROLE)) == a.role)
  {
    RoleIsRead(GetText(obj, ROLE), a.role);
  }

  lemma AttendeeFlagsAreRead(obj: Object, a: Attendee)
    ensures var fields := AttendeeRow(a).fields;
            && |fields| == 7
            && (ReadsBack(obj, fields[3]) <==> Or(GetFlag(obj, MUTED), false) == a.muted)
            && (ReadsBack(obj, fields[4]) <==> Or(GetFlag(obj, VIDEO_ENABLED), true) == a.videoEnabled)
            && (ReadsBack(obj, fields[5]) <==> Or(GetFlag(obj, SHARE_ENABLED), true) == a.shareEnabled)
            && (ReadsBack(obj, fields[6]) <==> Or(GetFlag(obj, WAITING_ROOM), false) == a.waitingRoom)
  {
  }

  lemma RoleChangeIsRead(obj: Object, c: RoleChange)
    ensures ParseRoleChange(Obj(obj)) == Some(c) <==> HoldsAll(obj, RoleChangeRow(c).fields)
  {
    var fields := RoleChangeRow(c).fields;
    FieldsAreRead(obj, fields);
    RoleIsRead(GetText(obj, ROLE), c.role);
    Unrolled(obj, fields);
  }

  lemma {:induction false} AttendeesAreRead(items: seq<Json>, attendees: seq<Attendee>)
    ensures ListsRecords(items, AttendeeRows(attendees), ID) <==> FilterMap(ParseAttendee, items) == attendees
  {
    if items != [] {
      if items[0].Obj? {
        TextUnderKey(items[0].members, ID);
      }
      if !IsRecord(items[0], ID) {
        AttendeesAreRead(items[1..], attendees);
      } else if attendees != [] {
        AttendeeIsRead(items[0].members, attendees[0]);
        AttendeesAreRead(items[1..], attendees[1..]);
        assert FilterMap(ParseAttendee, items)[1..] == FilterMap(ParseAttendee, items[1..]);
        assert attendees == [attendees[0]] + attendees[1..];
      }
    }
  }

  lemma {:induction false} RoleChangesAreRead(items: seq<Json>, changes: seq<RoleChange>)
    ensures ListsRecords(items, RoleChangeRows(changes), PARTICIPANT_ID)
            <==> FilterMap(ParseRoleChange, items) == changes
  {
    if items != [] {
      if items[0].Obj? {
        TextUnderKey(items[0].members, PARTICIPANT_ID);
      }
      if !IsRecord(items[0], PARTICIPANT_ID) {
        RoleChangesAreRead(items[1..], changes);
      } else if changes != [] {
        RoleChangeIsRead(items[0].members, changes[0]);
        RoleChangesAreRead(items[1..], changes[1..]);
        assert FilterMap(ParseRoleChange, items)[1..] == FilterMap(ParseRoleChange, items[1..]);
        assert changes == [changes[0]] + changes[1..];
      }
    }
  }

  // ----- Frames -----

  /** Every spelling of a kind names it. */
  ghost predicate Named(kind: Kind)
  {
    forall name :: name in KindNames(kind) ==> KindNamed(name) == Some(kind)
  }

  lemma OpeningKindsAreNamed()
    ensures Named(HandshakeKind) && Named(HandshakeAckKind) && Named(PresenceDeltaKind) && Named(RoleGrantKind)
            && Named(RoleRevokeKind)
  {
  }

  lemma PermissionsKindIsNamed()
    ensures Named(PermissionsSnapshotKind)
  {
  }

  lemma ModerationKindIsNamed()
    ensures Named(ModerationSignedKind)
  {
  }

  lemma SessionPolicyKindIsNamed()
    ensures Named(SessionPolicyKind)
  {
    SessionPolicyNames();
    assert forall name :: name in KindNames(SessionPolicyKind) ==> name in ["sessionPolicy", "session_policy"];
  }

  lemma SessionPolicyNames()
    ensures KindNamed("sessionPolicy") == Some(SessionPolicyKind)
    ensures KindNamed("session_policy") == Some(SessionPolicyKind)
  {
  }

  lemma DeviceCapabilityKindIsNamed()
    ensures Named(DeviceCapabilityKind)
  {
    DeviceCapabilityNames();
    assert forall name :: name in KindNames(DeviceCapabilityKind) ==> name in ["deviceCapability", "device_capability"];
  }

  lemma DeviceCapabilityNames()
    ensures KindNamed("deviceCapability") == Some(DeviceCapabilityKind)
    ensures KindNamed("device_capability") == Some(DeviceCapabilityKind)
  {
  }

  lemma MediaProfileKindIsNamed()
    ensures Named(MediaProfileNegotiationKind)
  {
  }

  lemma RecordingKindIsNamed()
    ensures Named(RecordingNoticeKind)
  {
  }

  lemma KeyEpochKindIsNamed()
    ensures Named(E2eeKeyEpochKind)
  {
  }

  lemma KeyRotationAckKindIsNamed()
    ensures Named(KeyRotationAckKind)
  {
  }

  lemma PaymentPolicyKindIsNamed()
    ensures Named(PaymentPolicyKind)
  {
  }

  lemma SettlementKindIsNamed()
    ensures Named(PaymentSettlementKind)
  {
  }

  lemma PingKindIsNamed()
    ensures Named(PingKind)
  {
  }

  lemma PongKindIsNamed()
    ensures Named(PongKind)
  {
  }

  lemma ErrorKindIsNamed()
    ensures Named(ErrorKind)
  {
  }

  lemma KindIsNamed(kind: Kind)
    ensures Named(kind)
  {
    OpeningKindsAreNamed();
    PermissionsKindIsNamed();
    ModerationKindIsNamed();
    SessionPolicyKindIsNamed();
    DeviceCapabilityKindIsNamed();
    MediaProfileKindIsNamed();
    RecordingKindIsNamed();
    KeyEpochKindIsNamed();
    KeyRotationAckKindIsNamed();
    PaymentPolicyKindIsNamed();
    SettlementKindIsNamed();
    PingKindIsNamed();
    PongKindIsNamed();
    ErrorKindIsNamed();
  }

  lemma {:induction false} CarriedIsFound(root: Object, keys: Names, payload: Object)
    requires Carries(root, keys, payload)
    ensures PayloadOrRoot(root, keys) == payload
  {
    if keys != [] {
      var rest := keys[1..];
      assert forall j :: 0 <= j < |rest| ==> rest[j] == keys[j + 1];
      if payload == root && NoObjects(root, keys) {
        assert keys[0] in root ==> !root[keys[0]].Obj?;
        CarriedIsFound(root, rest, payload);
      } else {
        var i :| 0 <= i < |keys| && keys[i] in root && root[keys[i]] == Obj(payload) && NoObjects(root, keys[..i]);
        if i > 0 {
          assert keys[..i][0] == keys[0];
          var before, between := keys[..i], rest[..i - 1];
          assert forall j :: 0 <= j < |between| ==> between[j] == before[j + 1];
          assert rest[i - 1] == keys[i];
          CarriedIsFound(root, rest, payload);
        }
      }
    }
  }

  lemma {:induction false} FoundIsCarried(root: Object, keys: Names)
    ensures Carries(root, keys, PayloadOrRoot(root, keys))
  {
    if keys == [] {
      assert NoObjects(root, keys);
    } else if keys[0] in root && root[keys[0]].Obj? {
      assert NoObjects(root, keys[..0]);
    } else {
      var rest := keys[1..];
      var payload := PayloadOrRoot(root, rest);
      FoundIsCarried(root, rest);
      if payload == root && NoObjects(root, rest) {
        assert forall i :: 0 < i < |keys| ==> keys[i] == rest[i - 1];
        assert NoObjects(root, keys);
      } else {
        var i :| 0 <= i < |rest| && rest[i] in root && root[rest[i]] == Obj(payload) && NoObjects(root, rest[..i]);
        var before, between := keys[..i + 1], rest[..i];
        assert forall j :: 0 < j < |before| ==> before[j] == between[j - 1];
        assert NoObjects(root, before) && keys[i + 1] == rest[i];
      }
    }
  }

  /** An object is read as a frame exactly if it holds the fields of that frame. */
  lemma FrameIsRead(obj: Object, frame: ProtocolFrame)
    ensures Read(KindOf(frame), obj) == Ok(frame) <==> HoldsAll(obj, Fields(frame))
  {
    match frame
    case Handshake(_, _, _, _, _, _, _, _, _) => HandshakeIsRead(obj, frame);
    case HandshakeAck(_, _, _) => HandshakeAckIsRead(obj, frame);
    case PresenceDelta(_, _, _, _) => PresenceDeltaIsRead(obj, frame);
    case RoleGrant(_, _, _, _, _) => RoleGrantIsRead(obj, frame);
    case RoleRevoke(_, _, _, _, _) => RoleRevokeIsRead(obj, frame);
    case PermissionsSnapshot(_, _, _) => PermissionsSnapshotIsRead(obj, frame);
    case ModerationSigned(_, _, _, _, _) => ModerationSignedIsRead(obj, frame);
    case SessionPolicy(_, _, _, _, _, _, _, _, _, _) => SessionPolicyIsRead(obj, frame);
    case DeviceCapability(_, _, _, _, _, _) => DeviceCapabilityIsRead(obj, frame);
    case _ => SignalIsRead(obj, frame);
  }

  lemma SignalIsRead(obj: Object, frame: ProtocolFrame)
    requires frame.MediaProfileNegotiation? || frame.RecordingNotice? || frame.E2eeKeyEpoch? || frame.KeyRotationAck?
             || frame.PaymentPolicy?
             || frame.PaymentSettlement? || frame.ErrorNotice? || frame.Ping? || frame.Pong?
    ensures Read(KindOf(frame), obj) == Ok(frame) <==> HoldsAll(obj, Fields(frame))
  {
    match frame
    case MediaProfileNegotiation(_, _, _, _, _) => MediaProfileNegotiationIsRead(obj, frame);
    case RecordingNotice(_, _) => RecordingNoticeIsRead(obj, frame);
    case E2eeKeyEpoch(_, _, _, _) => E2eeKeyEpochIsRead(obj, frame);
    case KeyRotationAck(_, _, _) => KeyRotationAckIsRead(obj, frame);
    case PaymentPolicy(_, _) => PaymentPolicyIsRead(obj, frame);
    case PaymentSettlement(_) => PaymentSettlementIsRead(obj, frame);
    case ErrorNotice(_, _, _) => ErrorNoticeIsRead(obj, frame);
    case Ping(_) => PingIsRead(obj, frame);
    case Pong(_) => PongIsRead(obj, frame);
  }

  lemma HandshakeIsRead(obj: Object, frame: ProtocolFrame)
    requires frame.Handshake?
    ensures Read(HandshakeKind, obj) == Ok(frame) <==> HoldsAll(obj, Fields(frame))
  {
    var fields := Fields(frame);
    FieldsAreRead(obj, fields);
    Unrolled(obj, fields);
    HandshakeTextsAreRead(obj, frame);
    HandshakeProfileIsRead(obj, frame);
  }

  lemma HandshakeTextsAreRead(obj: Object, frame: ProtocolFrame)
    requires frame.Handshake?
    ensures var fields := Fields(frame);
            && |fields| == 9
            && (ReadsBack(obj, fields[0]) <==> GetText(obj, ROOM_ID) == Some(frame.roomId))
            && (ReadsBack(obj, fields[1]) <==> GetText(obj, PARTICIPANT_ID) == Some(frame.participantId))
            && (ReadsBack(obj, fields[2]) <==> GetText(obj, PARTICIPANT_NAME) == Some(frame.participantName))
            && (ReadsBack(obj, fields[3]) <==> GetText(obj, WALLET_IDENTITY) == frame.walletIdentity)
            && (ReadsBack(obj, fields[4]) <==> GetText(obj, RESUME_TOKEN) == frame.resume)
  {
  }

  lemma HandshakeProfileIsRead(obj: Object, frame: ProtocolFrame)
    requires frame.Handshake?
    ensures var fields := Fields(frame);
            && |fields| == 9
            && (ReadsBack(obj, fields[5]) <==> ProfileOf(GetText(obj, PREFERRED_PROFILE)) == frame.preferredProfile)
            && (ReadsBack(obj, fields[6]) <==> Or(GetFlag(obj, HDR_CAPTURE), false) == frame.hdrCapture)
            && (ReadsBack(obj, fields[7]) <==> Or(GetFlag(obj, HDR_RENDER), false) == frame.hdrRender)
            && (ReadsBack(obj, fields[8]) <==> Or(GetI64(obj, SENT_AT), 0) == frame.sentAtMs)
  {
    ProfileIsRead(GetText(obj, PREFERRED_PROFILE), frame.preferredProfile);
  }

  lemma HandshakeAckIsRead(obj: Object, frame: ProtocolFrame)
    requires frame.HandshakeAck?
    ensures Read(HandshakeAckKind, obj) == Ok(frame) <==> HoldsAll(obj, Fields(frame))
  {
    var fields := Fields(frame);
    FieldsAreRead(obj, fields);
    Unrolled(obj, fields);
  }

  lemma PresenceDeltaIsRead(obj: Object, frame: ProtocolFrame)
    requires frame.PresenceDelta?
    ensures Read(PresenceDeltaKind, obj) == Ok(frame) <==> HoldsAll(obj, Fields(frame))
  {
    PresenceIsCoherent(frame);
    FieldsAreRead(obj, Fields(frame));
    Unrolled(obj, Fields(frame));
    PresenceListsAreRead(obj, frame);
  }

  lemma PresenceIsCoherent(frame: ProtocolFrame)
    requires frame.PresenceDelta?
    ensures forall k :: 0 <= k < |Fields(frame)| ==> IsCoherent(Fields(frame)[k])
  {
    assert AttendeeRows(frame.joined) == [] <==> frame.joined == [];
    assert RoleChangeRows(frame.roleChanges) == [] <==> frame.roleChanges == [];
  }

  lemma PresenceListsAreRead(obj: Object, frame: ProtocolFrame)
    requires frame.PresenceDelta?
    ensures var fields := Fields(frame);
            && |fields| == 4
            && (ReadsBack(obj, fields[0]) <==> FilterMap(ParseAttendee, GetItems(obj, JOINED)) == frame.joined)
            && (ReadsBack(obj, fields[1]) <==> FilterMap(TextOf, GetItems(obj, LEFT)) == frame.left)
            && (ReadsBack(obj, fields[2])
                <==> FilterMap(ParseRoleChange, GetItems(obj, ROLE_CHANGES)) == frame.roleChanges)
            && (ReadsBack(obj, fields[3]) <==> Or(GetI64(obj, SEQUENCE), 0) == frame.sequence)
  {
    AttendeesAreRead(GetItems(obj, JOINED), frame.joined);
    RoleChangesAreRead(GetItems(obj, ROLE_CHANGES), frame.roleChanges);
  }

  lemma RoleGrantIsRead(obj: Object, frame: ProtocolFrame)
    requires frame.RoleGrant?
    ensures Read(RoleGrantKind, obj) == Ok(frame) <==> HoldsAll(obj, Fields(frame))
  {
    var fields := Fields(frame);
    FieldsAreRead(obj, fields);
    RoleIsRead(GetText(obj, ROLE), frame.role);
    Unrolled(obj, fields);
  }

  lemma RoleRevokeIsRead(obj: Object, frame: ProtocolFrame)
    requires frame.RoleRevoke?
    ensures Read(RoleRevokeKind, obj) == Ok(frame) <==> HoldsAll(obj, Fields(frame))
  {
    var fields := Fields(frame);
    FieldsAreRead(obj, fields);
    RoleIsRead(GetText(obj, ROLE), frame.role);
    Unrolled(obj, fields);
  }

  lemma PermissionsSnapshotIsRead(obj: Object, frame: ProtocolFrame)
    requires frame.PermissionsSnapshot?
    ensures Read(PermissionsSnapshotKind, obj) == Ok(frame) <==> HoldsAll(obj, Fields(frame))
  {
    var fields := Fields(frame);
    FieldsAreRead(obj, fields);
    Unrolled(obj, fields);
  }

  lemma ModerationSignedIsRead(obj: Object, frame: ProtocolFrame)
    requires frame.ModerationSigned?
    ensures Read(ModerationSignedKind, obj) == Ok(frame) <==> HoldsAll(obj, Fields(frame))
  {
    var fields := Fields(frame);
    FieldsAreRead(obj, fields);
    ActionIsRead(GetText(obj, ACTION), frame.action);
    Unrolled(obj, fields);
  }

  lemma SessionPolicyIsRead(obj: Object, frame: ProtocolFrame)
    requires frame.SessionPolicy?
    ensures Read(SessionPolicyKind, obj) == Ok(frame) <==> HoldsAll(obj, Fields(frame))
  {
    SessionPolicyIsHeld(obj, frame);
    SessionPolicyParts(obj, frame);
    SessionDoorIsRead(obj, frame);
    SessionRulesAreRead(obj, frame);
    SessionSignatureIsRead(obj, frame);
  }

  lemma SessionPolicyParts(obj: Object, frame: ProtocolFrame)
    requires frame.SessionPolicy?
    ensures Read(SessionPolicyKind, obj) == Ok(frame) <==>
            && Or(GetFlag(obj, ROOM_LOCK), false) == frame.roomLock
            && Or(GetFlag(obj, WAITING_ROOM_ENABLED), false) == frame.waitingRoomEnabled
            && RecordingOf(GetText(obj, RECORDING_POLICY)) == frame.recordingPolicy
            && GuestPolicyOf(GetText(obj, GUEST_POLICY)) == frame.guestPolicy
            && Or(GetFlag(obj, E2EE_REQUIRED), true) == frame.e2eeRequired
            && Or(GetI32(obj, MAX_PARTICIPANTS), 300) == frame.maxParticipants
            && Or(GetI32(obj, POLICY_EPOCH), 0) == frame.policyEpoch
            && Or(GetText(obj, UPDATED_BY), "system") == frame.issuer
            && GetText(obj, SIGNATURE) == frame.signature
            && Or(GetI64(obj, UPDATED_AT), 0) == frame.updatedAtMs
  {
  }

  lemma SessionPolicyIsHeld(obj: Object, frame: ProtocolFrame)
    requires frame.SessionPolicy?
    ensures var fields := Fields(frame);
            && |fields| == 10
            && (HoldsAll(obj, fields) <==>
                && ReadsBack(obj, fields[0]) && ReadsBack(obj, fields[1]) && ReadsBack(obj, fields[2])
                && ReadsBack(obj, fields[3])
                && ReadsBack(obj, fields[4]) && ReadsBack(obj, fields[5]) && ReadsBack(obj, fields[6])
                && ReadsBack(obj, fields[7]) && ReadsBack(obj, fields[8]) && ReadsBack(obj, fields[9]))
  {
    FieldsAreRead(obj, Fields(frame));
    Unrolled(obj, Fields(frame));
  }

  lemma SessionDoorIsRead(obj: Object, frame: ProtocolFrame)
    requires frame.SessionPolicy?
    ensures var fields := Fields(frame);
            && |fields| == 10
            && (ReadsBack(obj, fields[0]) <==> Or(GetFlag(obj, ROOM_LOCK), false) == frame.roomLock)
            && (ReadsBack(obj, fields[1])
                <==> Or(GetFlag(obj, WAITING_ROOM_ENABLED), false) == frame.waitingRoomEnabled)
            && (ReadsBack(obj, fields[2]) <==> RecordingOf(GetText(obj, RECORDING_POLICY)) == frame.recordingPolicy)
            && (ReadsBack(obj, fields[3]) <==> GuestPolicyOf(GetText(obj, GUEST_POLICY)) == frame.guestPolicy)
  {
    RecordingIsRead(GetText(obj, RECORDING_POLICY), frame.recordingPolicy);
    GuestPolicyIsRead(GetText(obj, GUEST_POLICY), frame.guestPolicy);
  }

  lemma SessionRulesAreRead(obj: Object, frame: ProtocolFrame)
    requires frame.SessionPolicy?
    ensures var fields := Fields(frame);
            && |fields| == 10
            && (ReadsBack(obj, fields[4]) <==> Or(GetFlag(obj, E2EE_REQUIRED), true) == frame.e2eeRequired)
            && (ReadsBack(obj, fields[5]) <==> Or(GetI32(obj, MAX_PARTICIPANTS), 300) == frame.maxParticipants)
            && (ReadsBack(obj, fields[6]) <==> Or(GetI32(obj, POLICY_EPOCH), 0) == frame.policyEpoch)
  {
  }

  lemma SessionSignatureIsRead(obj: Object, frame: ProtocolFrame)
    requires frame.SessionPolicy?
    ensures var fields := Fields(frame);
            && |fields| == 10
            && (ReadsBack(obj, fields[7]) <==> Or(GetText(obj, UPDATED_BY), "system") == frame.issuer)
            && (ReadsBack(obj, fields[8]) <==> GetText(obj, SIGNATURE) == frame.signature)
            && (ReadsBack(obj, fields[9]) <==> Or(GetI64(obj, UPDATED_AT), 0) == frame.updatedAtMs)
  {
  }

  lemma DeviceCapabilityIsRead(obj: Object, frame: ProtocolFrame)
    requires frame.DeviceCapability?
    ensures Read(DeviceCapabilityKind, obj) == Ok(frame) <==> HoldsAll(obj, Fields(frame))
  {
    FieldsAreRead(obj, Fields(frame));
    Unrolled(obj, Fields(frame));
    CapabilityFieldsAreRead(obj, frame);
  }

  lemma CapabilityFieldsAreRead(obj: Object, frame: ProtocolFrame)
    requires frame.DeviceCapability?
    ensures var fields := Fields(frame);
            && |fields| == 6
            && (ReadsBack(obj, fields[0]) <==> GetText(obj, PARTICIPANT_ID) == Some(frame.participantId))
            && (ReadsBack(obj, fields[1]) <==> FilterMap(TextOf, GetItems(obj, CODECS)) == frame.codecs)
            && (ReadsBack(obj, fields[2]) <==> Or(GetFlag(obj, HDR_CAPTURE), false) == frame.hdrCapture)
            && (ReadsBack(obj, fields[3]) <==> Or(GetFlag(obj, HDR_RENDER), false) == frame.hdrRender)
            && (ReadsBack(obj, fields[4]) <==> Or(GetI32(obj, MAX_STREAMS), 1) == frame.maxStreams)
            && (ReadsBack(obj, fields[5]) <==> Or(GetI64(obj, UPDATED_AT), 0) == frame.updatedAtMs)
  {
  }

  lemma MediaProfileNegotiationIsRead(obj: Object, frame: ProtocolFrame)
    requires frame.MediaProfileNegotiation?
    ensures Read(MediaProfileNegotiationKind, obj) == Ok(frame) <==> HoldsAll(obj, Fields(frame))
  {
    FieldsAreRead(obj, Fields(frame));
    Unrolled(obj, Fields(frame));
    NegotiationFieldsAreRead(obj, frame);
  }

  lemma NegotiationFieldsAreRead(obj: Object, frame: ProtocolFrame)
    requires frame.MediaProfileNegotiation?
    ensures var fields := Fields(frame);
            && |fields| == 5
            && (ReadsBack(obj, fields[0]) <==> ProfileOf(GetText(obj, PREFERRED_PROFILE)) == frame.preferredProfile)
            && (ReadsBack(obj, fields[1]) <==> ProfileOf(GetText(obj, NEGOTIATED_PROFILE)) == frame.negotiatedProfile)
            && (ReadsBack(obj, fields[2]) <==> Or(GetText(obj, COLOR_PRIMARIES), "bt709") == frame.colorPrimaries)
            && (ReadsBack(obj, fields[3]) <==> Or(GetText(obj, TRANSFER_FUNCTION), "gamma") == frame.transferFunction)
            && (ReadsBack(obj, fields[4]) <==> Or(GetText(obj, CODEC), "h264") == frame.codec)
  {
    ProfileIsRead(GetText(obj, PREFERRED_PROFILE), frame.preferredProfile);
    ProfileIsRead(GetText(obj, NEGOTIATED_PROFILE), frame.negotiatedProfile);
  }

  lemma RecordingNoticeIsRead(obj: Object, frame: ProtocolFrame)
    requires frame.RecordingNotice?
    ensures Read(RecordingNoticeKind, obj) == Ok(frame) <==> HoldsAll(obj, Fields(frame))
  {
    var fields := Fields(frame);
    FieldsAreRead(obj, fields);
    RecordingIsRead(GetText(obj, STATE), frame.state);
    Unrolled(obj, fields);
  }

  lemma E2eeKeyEpochIsRead(obj: Object, frame: ProtocolFrame)
    requires frame.E2eeKeyEpoch?
    ensures Read(E2eeKeyEpochKind, obj) == Ok(frame) <==> HoldsAll(obj, Fields(frame))
  {
    var fields := Fields(frame);
    FieldsAreRead(obj, fields);
    Unrolled(obj, fields);
  }

  lemma KeyRotationAckIsRead(obj: Object, frame: ProtocolFrame)
    requires frame.KeyRotationAck?
    ensures Read(KeyRotationAckKind, obj) == Ok(frame) <==> HoldsAll(obj, Fields(frame))
  {
    var fields := Fields(frame);
    FieldsAreRead(obj, fields);
    Unrolled(obj, fields);
  }

  lemma PaymentPolicyIsRead(obj: Object, frame: ProtocolFrame)
    requires frame.PaymentPolicy?
    ensures Read(PaymentPolicyKind, obj) == Ok(frame) <==> HoldsAll(obj, Fields(frame))
  {
    var fields := Fields(frame);
    FieldsAreRead(obj, fields);
    Unrolled(obj, fields);
  }

  lemma PaymentSettlementIsRead(obj: Object, frame: ProtocolFrame)
    requires frame.PaymentSettlement?
    ensures Read(PaymentSettlementKind, obj) == Ok(frame) <==> HoldsAll(obj, Fields(frame))
  {
    var fields := Fields(frame);
    FieldsAreRead(obj, fields);
    StatusIsRead(GetText(obj, STATUS), frame.status);
    Unrolled(obj, fields);
  }

  lemma ErrorNoticeIsRead(obj: Object, frame: ProtocolFrame)
    requires frame.ErrorNotice?
    ensures Read(ErrorKind, obj) == Ok(frame) <==> HoldsAll(obj, Fields(frame))
  {
    var fields := Fields(frame);
    FieldsAreRead(obj, fields);
    CategoryIsRead(GetText(obj, CATEGORY), frame.category);
    Unrolled(obj, fields);
  }

  lemma PingIsRead(obj: Object, frame: ProtocolFrame)
    requires frame.Ping?
    ensures Read(PingKind, obj) == Ok(frame) <==> HoldsAll(obj, Fields(frame))
  {
    var fields := Fields(frame);
    FieldsAreRead(obj, fields);
    Unrolled(obj, fields);
  }

  lemma PongIsRead(obj: Object, frame: ProtocolFrame)
    requires frame.Pong?
    ensures Read(PongKind, obj) == Ok(frame) <==> HoldsAll(obj, Fields(frame))
  {
    var fields := Fields(frame);
    FieldsAreRead(obj, fields);
    Unrolled(obj, fields);
  }

  /**
   A document decodes to a frame exactly if it represents it, whatever names, words, nesting and omissions it uses.
   */
  lemma DecodesExactly(root: Object, frame: ProtocolFrame)
    ensures Decode(Obj(root)) == Ok(frame) <==> Represents(root, frame)
  {
    var kind := KindOf(frame);
    KindIsNamed(kind);
    FoundIsCarried(root, PayloadKeys(kind));
    forall payload | Carries(root, PayloadKeys(kind), payload)
      ensures PayloadOrRoot(root, PayloadKeys(kind)) == payload {
      CarriedIsFound(root, PayloadKeys(kind), payload);
    }
    FrameIsRead(PayloadOrRoot(root, PayloadKeys(kind)), frame);
    if Decode(Obj(root)) == Ok(frame) {
      DecodedKind(root, frame);
    }
  }

  lemma DecodedKind(root: Object, frame: ProtocolFrame)
    requires Decode(Obj(root)) == Ok(frame)
    ensures "kind" in root && root["kind"].Str? && root["kind"].text in KindNames(KindOf(frame))
  {
    var raw := root["kind"].text;
    var kind := KindNamed(raw).value;
    NamedKindHasTheName(kind, raw);
    ReadRefuses(kind, PayloadOrRoot(root, PayloadKeys(kind)));
  }

  // ----- Refusals -----

  /** The fields a frame cannot do without. */
  function Required(kind: Kind): seq<Names>
  {
    match kind
    case HandshakeKind => [ROOM_ID, PARTICIPANT_ID, PARTICIPANT_NAME]
    case HandshakeAckKind => [SESSION_ID, RESUME_TOKEN]
    case RoleGrantKind => [TARGET_ID]
    case RoleRevokeKind => [TARGET_ID]
    case ModerationSignedKind => [TARGET_ID]
    case PermissionsSnapshotKind => [PARTICIPANT_ID]
    case DeviceCapabilityKind => [PARTICIPANT_ID]
    case KeyRotationAckKind => [PARTICIPANT_ID]
    case _ => []
  }

  /** The first required field without a text, if any. */
  function FirstMissing(obj: Object, required: seq<Names>): Option<Names>
  {
    if required == [] then None
    else if GetText(obj, required[0]).None? then Some(required[0])
    else FirstMissing(obj, required[1..])
  }

  lemma FirstOfThree(obj: Object, a: Names, b: Names, c: Names)
    ensures FirstMissing(obj, [a]) == if GetText(obj, a).None? then Some(a) else None
    ensures FirstMissing(obj, [a, b]) == if GetText(obj, a).None? then Some(a)
                                         else if GetText(obj, b).None? then Some(b) else None
    ensures FirstMissing(obj, [a, b, c]) ==
            if GetText(obj, a).None? then Some(a) else if GetText(obj, b).None? then Some(b)
            else if GetText(obj, c).None? then Some(c) else None
  {
    assert [a, b][1..] == [b] && [a, b, c][1..] == [b, c] && [b, c][1..] == [c];
    assert FirstMissing(obj, [a, b, c]) == if GetText(obj, a).None? then Some(a) else FirstMissing(obj, [b, c]);
    assert FirstMissing(obj, [b, c]) == if GetText(obj, b).None? then Some(b) else FirstMissing(obj, [c]);
  }

  /**
   A payload is refused exactly when a required text is missing, and the error names the first one; otherwise its frame
   has the kind asked for.
   */
  ghost predicate RefusesMissing(kind: Kind, obj: Object)
  {
    var r, missing := Read(kind, obj), FirstMissing(obj, Required(kind));
    if missing.Some? then r == Err(MissingField(missing.value)) else r.Ok? && KindOf(r.value) == kind
  }

  lemma HandshakeRefuses(obj: Object)
    ensures RefusesMissing(HandshakeKind, obj) && RefusesMissing(HandshakeAckKind, obj)
  {
    FirstOfThree(obj, ROOM_ID, PARTICIPANT_ID, PARTICIPANT_NAME);
    FirstOfThree(obj, SESSION_ID, RESUME_TOKEN, RESUME_TOKEN);
  }

  lemma SignedRefuses(kind: Kind, obj: Object)
    requires kind.RoleGrantKind? || kind.RoleRevokeKind? || kind.ModerationSignedKind?
    ensures RefusesMissing(kind, obj)
  {
    FirstOfThree(obj, TARGET_ID, TARGET_ID, TARGET_ID);
  }

  lemma ParticipantRefuses(kind: Kind, obj: Object)
    requires kind.PermissionsSnapshotKind? || kind.DeviceCapabilityKind? || kind.KeyRotationAckKind?
    ensures RefusesMissing(kind, obj)
  {
    FirstOfThree(obj, PARTICIPANT_ID, PARTICIPANT_ID, PARTICIPANT_ID);
  }

  lemma RoomFramesAreRead(kind: Kind, obj: Object)
    requires kind.PresenceDeltaKind? || kind.SessionPolicyKind?
    ensures RefusesMissing(kind, obj)
  {
  }

  lemma MediaFramesAreRead(kind: Kind, obj: Object)
    requires kind.MediaProfileNegotiationKind? || kind.E2eeKeyEpochKind? || kind.RecordingNoticeKind?
    ensures RefusesMissing(kind, obj)
  {
  }

  lemma NoticesAreRead(kind: Kind, obj: Object)
    requires kind.PaymentPolicyKind? || kind.PaymentSettlementKind? || kind.ErrorKind?
    ensures RefusesMissing(kind, obj)
  {
  }

  lemma HeartbeatsAreRead(kind: Kind, obj: Object)
    requires kind.PingKind? || kind.PongKind?
    ensures RefusesMissing(kind, obj)
  {
  }

  lemma ReadRefuses(kind: Kind, obj: Object)
    ensures RefusesMissing(kind, obj)
  {
    HandshakeRefuses(obj);
    match kind
    case HandshakeKind =>
    case HandshakeAckKind =>
    case RoleGrantKind => SignedRefuses(kind, obj);
    case RoleRevokeKind => SignedRefuses(kind, obj);
    case ModerationSignedKind => SignedRefuses(kind, obj);
    case PermissionsSnapshotKind => ParticipantRefuses(kind, obj);
    case DeviceCapabilityKind => ParticipantRefuses(kind, obj);
    case KeyRotationAckKind => ParticipantRefuses(kind, obj);
    case PresenceDeltaKind => RoomFramesAreRead(kind, obj);
    case SessionPolicyKind => RoomFramesAreRead(kind, obj);
    case MediaProfileNegotiationKind => MediaFramesAreRead(kind, obj);
    case E2eeKeyEpochKind => MediaFramesAreRead(kind, obj);
    case RecordingNoticeKind => MediaFramesAreRead(kind, obj);
    case PingKind => HeartbeatsAreRead(kind, obj);
    case PongKind => HeartbeatsAreRead(kind, obj);
    case _ => NoticesAreRead(kind, obj);
  }

  /**
   The decoder accepts exactly the objects whose kind is known and whose payload has every required text, and
   then the frame has that kind; each refusal says what was wrong, in this order.
   */
  lemma DecodeRefuses(value: Json)
    ensures var r := Decode(value);
            if !value.Obj? then r == Err(NotAnObject)
            else if "kind" !in value.members || !value.members["kind"].Str? then r == Err(KindMissing)
            else
              var raw := value.members["kind"].text;
              if (forall kind :: raw !in KindNames(kind)) then r == Err(UnsupportedKind(raw))
              else exists kind :: raw in KindNames(kind) && Answers(kind, value.members, r)
  {
    if value.Obj? && "kind" in value.members && value.members["kind"].Str? {
      var raw := value.members["kind"].text;
      if KindNamed(raw).Some? {
        NamedKindHasTheName(KindNamed(raw).value, raw);
      }
      if kind :| raw in KindNames(kind) {
        KindIsNamed(kind);
        ReadRefuses(kind, PayloadOrRoot(value.members, PayloadKeys(kind)));
        assert raw in KindNames(kind) && Answers(kind, value.members, Decode(value));
      }
    }
  }

  /** The answer for a root of a known kind. */
  ghost predicate Answers(kind: Kind, root: Object, r: Result<ProtocolFrame, FrameError>)
  {
    var missing := FirstMissing(PayloadOrRoot(root, PayloadKeys(kind)), Required(kind));
    if missing.Some? then r == Err(MissingField(missing.value)) else r.Ok? && KindOf(r.value) == kind
  }

  lemma NamedKindHasTheName(kind: Kind, raw: string)
    requires KindNamed(raw) == Some(kind)
    ensures raw in KindNames(kind)
  {
    if MeetingKindNamed(raw).Some? {
      MeetingKindHasTheName(kind, raw);
    } else {
      SignalKindHasTheName(kind, raw);
    }
  }

  lemma MeetingKindHasTheName(kind: Kind, raw: string)
    requires MeetingKindNamed(raw) == Some(kind)
    ensures raw in KindNames(kind)
  {
  }

  lemma SignalKindHasTheName(kind: Kind, raw: string)
    requires SignalKindNamed(raw) == Some(kind)
    ensures raw in KindNames(kind)
  {
  }
}
