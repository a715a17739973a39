/** Every frame survives encoding and decoding, in the canonical form and in every other spelling of it. */
module FrameRoundTrip {
  import opened Basics
  import opened SessionTypes
  import opened JsonValues
  import opened FrameCodec
  import opened FrameFormat
  import opened FrameDecoding

  // ----- Names that are told apart -----

  predicate Disjoint(a: Names, b: Names)
  {
    forall name :: name in a ==> name !in b
  }

  /** No name of a field is a name of a later one, here and in every row. */
  ghost predicate Distinct(fields: seq<Field>)
    decreases fields
  {
    && (forall i :: 0 <= i < |fields| ==> fields[i].names != [] && Sound(fields[i].content))
    && (forall i, j :: 0 <= i < j < |fields| ==> Disjoint(fields[i].names, fields[j].names))
  }

  ghost predicate Sound(content: Content)
    decreases content
  {
    match content
    case Word(words, _) => words != []
    case Records(rows, key) => forall i :: 0 <= i < |rows| ==> Distinct(rows[i].fields) && IsKeyed(rows[i], key)
    case _ => true
  }

  /** The first field of a record is the text under its key. */
  predicate IsKeyed(row: Record, key: Names)
  {
    row.fields != [] && row.fields[0].names == key && row.fields[0].content.Text? && !row.fields[0].omittable
  }

  /** A name that no field goes by is not written. */
  lemma {:induction false} OnlyNamesAreWritten(fields: seq<Field>, naming: Naming, name: string)
    requires Chooses(naming) && forall i :: 0 <= i < |fields| ==> fields[i].names != [] && name !in fields[i].names
    ensures name !in Spelled(fields, naming)
  {
    if fields != [] {
      assert naming(fields[0].names) in fields[0].names;
      OnlyNamesAreWritten(fields[1..], naming, name);
    }
  }

  /** A field is written under the name chosen for it. */
  lemma {:induction false} FieldIsWritten(fields: seq<Field>, naming: Naming, k: nat)
    requires Chooses(naming) && Distinct(fields) && k < |fields|
    ensures var obj, name := Spelled(fields, naming), naming(fields[k].names);
            && name in obj && obj[name] == JsonOf(fields[k].content, naming)
            && forall other :: other in fields[k].names && other != name ==> other !in obj
    decreases k
  {
    var names, rest := fields[k].names, fields[1..];
    var name := naming(names);
    assert name in names && naming(fields[0].names) in fields[0].names;
    if k == 0 {
      forall other | other in names && other != name ensures other !in Spelled(fields, naming) {
        assert forall i :: 0 <= i < |rest| ==> Disjoint(names, rest[i].names);
        OnlyNamesAreWritten(rest, naming, other);
      }
    } else {
      assert Disjoint(fields[0].names, names);
      FieldIsWritten(rest, naming, k - 1);
    }
  }

  /** An object spelled in any consistent way holds the fields it was written from. */
  lemma SpelledHoldsAll(fields: seq<Field>, naming: Naming)
    requires Chooses(naming) && Distinct(fields)
    ensures HoldsAll(Spelled(fields, naming), fields)
    decreases fields
  {
    forall k | 0 <= k < |fields| ensures Holds(Spelled(fields, naming), fields[k]) {
      var obj, names, name := Spelled(fields, naming), fields[k].names, naming(fields[k].names);
      FieldIsWritten(fields, naming, k);
      assert name in names;
      FirstPosition(names, name);
      var i :| 0 <= i < |names| && names[i] == name && name !in names[..i];
      assert IsFirst(obj, names, i);
      JsonDenotes(fields[k].content, naming);
    }
  }

  lemma {:induction false} FirstPosition(names: Names, name: string)
    requires name in names
    ensures exists i :: 0 <= i < |names| && names[i] == name && name !in names[..i]
  {
    if names[0] == name {
      assert name !in names[..0];
    } else {
      FirstPosition(names[1..], name);
      var i :| 0 <= i < |names| - 1 && names[1..][i] == name && name !in names[1..][..i];
      assert names[..i + 1] == [names[0]] + names[1..][..i];
    }
  }

  lemma JsonDenotes(content: Content, naming: Naming)
    requires Chooses(naming) && Sound(content)
    ensures Denotes(JsonOf(content, naming), content)
    decreases content
  {
    match content
    case Texts(texts) => TextsAreListed(texts);
    case Records(rows, key) => RowsAreListed(rows, key, JsonOf(content, naming).items, naming);
    case _ =>
  }

  lemma {:induction false} TextsAreListed(texts: seq<string>)
    ensures ListsTexts(seq(|texts|, i requires 0 <= i < |texts| => Str(texts[i])), texts)
  {
    if texts != [] {
      var items, rest := seq(|texts|, i requires 0 <= i < |texts| => Str(texts[i])), texts[1..];
      TextsAreListed(rest);
      assert items[1..] == seq(|rest|, i requires 0 <= i < |rest| => Str(rest[i]));
    }
  }

  lemma HeldTextMakesRecord(obj: Object, field: Field)
    requires Holds(obj, field) && field.content.Text? && !field.omittable
    ensures IsRecord(Obj(obj), field.names)
  {
    var i :| IsFirst(obj, field.names, i) && Denotes(obj[field.names[i]], field.content);
  }

  lemma {:induction false} RowsAreListed(rows: seq<Record>, key: Names, items: seq<Json>, naming: Naming)
    requires Chooses(naming) && |items| == |rows|
    requires forall i :: 0 <= i < |rows| ==>
               items[i] == Obj(Spelled(rows[i].fields, naming)) && Distinct(rows[i].fields) && IsKeyed(rows[i], key)
    ensures ListsRecords(items, rows, key)
    decreases rows
  {
    if rows != [] {
      SpelledHoldsAll(rows[0].fields, naming);
      HeldTextMakesRecord(items[0].members, rows[0].fields[0]);
      RowsAreListed(rows[1..], key, items[1..], naming);
    }
  }

  // ----- The names of every frame are told apart -----

  predicate Initial(names: Names, c: char)
  {
    names != [] && forall name :: name in names ==> name != "" && name[0] == c
  }

  lemma InitialsTellApart(a: Names, b: Names, c: char, d: char)
    requires Initial(a, c) && Initial(b, d) && c != d
    ensures Disjoint(a, b)
  {
  }

  lemma InitialsSeparate(fields: seq<Field>, initials: string)
    requires |fields| == |initials| && forall k :: 0 <= k < |fields| ==>
               Initial(fields[k].names, initials[k]) && Sound(fields[k].content)
    requires forall i, j :: 0 <= i < j < |fields| && initials[i] == initials[j] ==>
               Disjoint(fields[i].names, fields[j].names)
    requires 'k' !in initials
    ensures ToldApart(fields)
  {
    forall i, j | 0 <= i < j < |fields| && initials[i] != initials[j]
      ensures Disjoint(fields[i].names, fields[j].names) {
      InitialsTellApart(fields[i].names, fields[j].names, initials[i], initials[j]);
    }
    forall i | 0 <= i < |fields| ensures Disjoint(KIND, fields[i].names) {
      assert initials[i] in initials;
      InitialsTellApart(KIND, fields[i].names, 'k', initials[i]);
    }
  }

  /** The names of the fields are distinct, and none is the name of the kind. */
  ghost predicate ToldApart(fields: seq<Field>)
  {
    Distinct(fields) && forall i :: 0 <= i < |fields| ==> Disjoint(KIND, fields[i].names)
  }

  predicate Initials(fields: seq<Field>, initials: string)
  {
    |fields| == |initials| && forall k :: 0 <= k < |fields| ==> Initial(fields[k].names, initials[k])
  }

  lemma HandshakeInitials(frame: ProtocolFrame)
    requires frame.Handshake?
    ensures Initials(Fields(frame), "rppwrphhs")
  {
  }

  lemma HandshakeClashes()
    ensures Disjoint(ROOM_ID, RESUME_TOKEN) && Disjoint(PARTICIPANT_ID, PARTICIPANT_NAME)
            && Disjoint(PARTICIPANT_ID, PREFERRED_PROFILE) && Disjoint(PARTICIPANT_NAME, PREFERRED_PROFILE)
            && Disjoint(HDR_CAPTURE, HDR_RENDER)
  {
  }

  lemma HandshakeIsToldApart(frame: ProtocolFrame)
    requires frame.Handshake?
    ensures ToldApart(Fields(frame))
  {
    HandshakeInitials(frame);
    HandshakeClashes();
    InitialsSeparate(Fields(frame), "rppwrphhs");
  }

  lemma PresenceDeltaInitials(frame: ProtocolFrame)
    requires frame.PresenceDelta?
    ensures Initials(Fields(frame), "jlrs")
  {
  }

  lemma AttendeeRowIsDistinct(a: Attendee)
    ensures Distinct(AttendeeRow(a).fields)
  {
    InitialsSeparate(AttendeeRow(a).fields, "idrmvsw");
  }

  lemma {:induction false} AttendeeRowsAreDistinct(attendees: seq<Attendee>)
    ensures Sound(Records(AttendeeRows(attendees), ID))
  {
    if attendees != [] {
      AttendeeRowIsDistinct(attendees[0]);
      AttendeeRowsAreDistinct(attendees[1..]);
    }
  }

  lemma {:induction false} RoleChangeRowsAreDistinct(changes: seq<RoleChange>)
    ensures Sound(Records(RoleChangeRows(changes), PARTICIPANT_ID))
  {
    if changes != [] {
      InitialsSeparate(RoleChangeRow(changes[0]).fields, "pr");
      RoleChangeRowsAreDistinct(changes[1..]);
    }
  }

  lemma PresenceDeltaIsToldApart(frame: ProtocolFrame)
    requires frame.PresenceDelta?
    ensures ToldApart(Fields(frame))
  {
    PresenceDeltaInitials(frame);
    AttendeeRowsAreDistinct(frame.joined);
    RoleChangeRowsAreDistinct(frame.roleChanges);
    InitialsSeparate(Fields(frame), "jlrs");
  }

  lemma ModerationSignedInitials(frame: ProtocolFrame)
    requires frame.ModerationSigned?
    ensures Initials(Fields(frame), "taiss")
  {
  }

  lemma ModerationSignedClashes()
    ensures Disjoint(SIGNATURE, SENT_AT)
  {
  }

  lemma ModerationSignedIsToldApart(frame: ProtocolFrame)
    requires frame.ModerationSigned?
    ensures ToldApart(Fields(frame))
  {
    ModerationSignedInitials(frame);
    ModerationSignedClashes();
    InitialsSeparate(Fields(frame), "taiss");
  }

  const POLICY_INITIALS: string := "rwrgempusu"

  lemma PolicyInitialsCoincide()
    ensures forall i, j :: 0 <= i < j < 10 && POLICY_INITIALS[i] == POLICY_INITIALS[j] ==>
              (i == 0 && j == 2) || (i == 7 && j == 9)
  {
  }

  lemma SessionPolicyInitials(frame: ProtocolFrame)
    requires frame.SessionPolicy?
    ensures Initials(Fields(frame), POLICY_INITIALS)
  {
    FirstPolicyInitials(frame);
    LastPolicyInitials(frame);
  }

  lemma FirstPolicyInitials(frame: ProtocolFrame)
    requires frame.SessionPolicy?
    ensures |Fields(frame)| == 10 && forall k :: 0 <= k < 5 ==> Initial(Fields(frame)[k].names, POLICY_INITIALS[k])
  {
  }

  lemma LastPolicyInitials(frame: ProtocolFrame)
    requires frame.SessionPolicy?
    ensures |Fields(frame)| == 10 && forall k :: 5 <= k < 10 ==> Initial(Fields(frame)[k].names, POLICY_INITIALS[k])
  {
  }

  lemma SessionPolicyClashes(frame: ProtocolFrame)
    requires frame.SessionPolicy?
    ensures var fields := Fields(frame);
            |fields| == 10 && Disjoint(fields[0].names, fields[2].names) && Disjoint(fields[7].names, fields[9].names)
  {
    assert Disjoint(ROOM_LOCK, RECORDING_POLICY) && Disjoint(UPDATED_BY, UPDATED_AT);
  }

  lemma SessionPolicyIsSound(frame: ProtocolFrame)
    requires frame.SessionPolicy?
    ensures forall k :: 0 <= k < |Fields(frame)| ==> Sound(Fields(frame)[k].content)
  {
  }

  lemma PolicyFieldsSeparate(fields: seq<Field>)
    requires Initials(fields, POLICY_INITIALS) && forall k :: 0 <= k < |fields| ==> Sound(fields[k].content)
    requires |fields| == 10 && Disjoint(fields[0].names, fields[2].names) && Disjoint(fields[7].names, fields[9].names)
    ensures ToldApart(fields)
  {
    PolicyInitialsCoincide();
    InitialsSeparate(fields, POLICY_INITIALS);
  }

  lemma SessionPolicyIsToldApart(frame: ProtocolFrame)
    requires frame.SessionPolicy?
    ensures ToldApart(Fields(frame))
  {
    SessionPolicyInitials(frame);
    SessionPolicyClashes(frame);
    SessionPolicyIsSound(frame);
    PolicyFieldsSeparate(Fields(frame));
  }

  lemma MediaProfileNegotiationInitials(frame: ProtocolFrame)
    requires frame.MediaProfileNegotiation?
    ensures Initials(Fields(frame), "pnctc")
  {
  }

  lemma MediaProfileNegotiationClashes()
    ensures Disjoint(COLOR_PRIMARIES, CODEC)
  {
  }

  lemma MediaProfileNegotiationIsToldApart(frame: ProtocolFrame)
    requires frame.MediaProfileNegotiation?
    ensures ToldApart(Fields(frame))
  {
    MediaProfileNegotiationInitials(frame);
    MediaProfileNegotiationClashes();
    InitialsSeparate(Fields(frame), "pnctc");
  }

  lemma RoleRevokeInitials(frame: ProtocolFrame)
    requires frame.RoleRevoke?
    ensures Initials(Fields(frame), "trrsi")
  {
  }

  lemma RoleRevokeClashes()
    ensures Disjoint(ROLE, REVOKED_BY)
  {
  }

  lemma RoleRevokeIsToldApart(frame: ProtocolFrame)
    requires frame.RoleRevoke?
    ensures ToldApart(Fields(frame))
  {
    RoleRevokeInitials(frame);
    RoleRevokeClashes();
    InitialsSeparate(Fields(frame), "trrsi");
  }

  lemma DeviceCapabilityInitials(frame: ProtocolFrame)
    requires frame.DeviceCapability?
    ensures Initials(Fields(frame), "pchhmu")
  {
  }

  lemma DeviceCapabilityClashes()
    ensures Disjoint(HDR_CAPTURE, HDR_RENDER)
  {
  }

  lemma DeviceCapabilityIsToldApart(frame: ProtocolFrame)
    requires frame.DeviceCapability?
    ensures ToldApart(Fields(frame))
  {
    DeviceCapabilityInitials(frame);
    DeviceCapabilityClashes();
    InitialsSeparate(Fields(frame), "pchhmu");
  }

  lemma HandshakeAckIsToldApart(frame: ProtocolFrame)
    requires frame.HandshakeAck?
    ensures ToldApart(Fields(frame))
  {
    InitialsSeparate(Fields(frame), "sra");
  }

  lemma RoleGrantIsToldApart(frame: ProtocolFrame)
    requires frame.RoleGrant?
    ensures ToldApart(Fields(frame))
  {
    InitialsSeparate(Fields(frame), "trgsi");
  }

  lemma PermissionsSnapshotIsToldApart(frame: ProtocolFrame)
    requires frame.PermissionsSnapshot?
    ensures ToldApart(Fields(frame))
  {
    InitialsSeparate(Fields(frame), "pee");
  }

  lemma RecordingNoticeIsToldApart(frame: ProtocolFrame)
    requires frame.RecordingNotice?
    ensures ToldApart(Fields(frame))
  {
    InitialsSeparate(Fields(frame), "si");
  }

  lemma E2eeKeyEpochIsToldApart(frame: ProtocolFrame)
    requires frame.E2eeKeyEpoch?
    ensures ToldApart(Fields(frame))
  {
    InitialsSeparate(Fields(frame), "eiss");
  }

  lemma PaymentPolicyIsToldApart(frame: ProtocolFrame)
    requires frame.PaymentPolicy?
    ensures ToldApart(Fields(frame))
  {
    InitialsSeparate(Fields(frame), "rd");
  }

  lemma PaymentSettlementIsToldApart(frame: ProtocolFrame)
    requires frame.PaymentSettlement?
    ensures ToldApart(Fields(frame))
  {
    InitialsSeparate(Fields(frame), "s");
  }

  lemma ErrorNoticeIsToldApart(frame: ProtocolFrame)
    requires frame.ErrorNotice?
    ensures ToldApart(Fields(frame))
  {
    InitialsSeparate(Fields(frame), "ccm");
  }

  lemma PingIsToldApart(frame: ProtocolFrame)
    requires frame.Ping?
    ensures ToldApart(Fields(frame))
  {
    InitialsSeparate(Fields(frame), "s");
  }

  lemma PongIsToldApart(frame: ProtocolFrame)
    requires frame.Pong?
    ensures ToldApart(Fields(frame))
  {
    InitialsSeparate(Fields(frame), "s");
  }

  /** The fields of a frame never share a name with each other or with the kind. */
  lemma FramesAreToldApart(frame: ProtocolFrame)
    ensures ToldApart(Fields(frame))
  {
    match frame
    case Handshake(_, _, _, _, _, _, _, _, _) => HandshakeIsToldApart(frame);
    case HandshakeAck(_, _, _) => HandshakeAckIsToldApart(frame);
    case PresenceDelta(_, _, _, _) => PresenceDeltaIsToldApart(frame);
    case RoleGrant(_, _, _, _, _) => RoleGrantIsToldApart(frame);
    case RoleRevoke(_, _, _, _, _) => RoleRevokeIsToldApart(frame);
    case PermissionsSnapshot(_, _, _) => PermissionsSnapshotIsToldApart(frame);
    case ModerationSigned(_, _, _, _, _) => ModerationSignedIsToldApart(frame);
    case SessionPolicy(_, _, _, _, _, _, _, _, _, _) => SessionPolicyIsToldApart(frame);
    case DeviceCapability(_, _, _, _, _, _) => DeviceCapabilityIsToldApart(frame);
    case MediaProfileNegotiation(_, _, _, _, _) => MediaProfileNegotiationIsToldApart(frame);
    case RecordingNotice(_, _) => RecordingNoticeIsToldApart(frame);
    case E2eeKeyEpoch(_, _, _, _) => E2eeKeyEpochIsToldApart(frame);
    case KeyRotationAck(_, _, _) => KeyRotationAckIsToldApart(frame);
    case PaymentPolicy(_, _) => PaymentPolicyIsToldApart(frame);
    case PaymentSettlement(_) => PaymentSettlementIsToldApart(frame);
    case ErrorNotice(_, _, _) => ErrorNoticeIsToldApart(frame);
    case Ping(_) => PingIsToldApart(frame);
    case Pong(_) => PongIsToldApart(frame);
  }

  lemma KeyRotationAckIsToldApart(frame: ProtocolFrame)
    requires frame.KeyRotationAck?
    ensures ToldApart(Fields(frame))
  {
    assert Disjoint(ACK_EPOCH, PARTICIPANT_ID) && Disjoint(ACK_EPOCH, SENT_OR_RECEIVED_AT)
           && Disjoint(PARTICIPANT_ID, SENT_OR_RECEIVED_AT);
    assert Disjoint(KIND, ACK_EPOCH) && Disjoint(KIND, PARTICIPANT_ID) && Disjoint(KIND, SENT_OR_RECEIVED_AT);
  }

  // ----- Round trips -----

  lemma FlatIsDistinct(frame: ProtocolFrame)
    ensures Distinct([KindField(KindOf(frame))] + Fields(frame))
  {
    FramesAreToldApart(frame);
    KindComesFirst(KindField(KindOf(frame)), Fields(frame));
  }

  lemma KindComesFirst(kind: Field, fields: seq<Field>)
    requires ToldApart(fields) && kind.names == KIND && Sound(kind.content)
    ensures Distinct([kind] + fields)
  {
    var all := [kind] + fields;
    assert forall i :: 1 <= i < |all| ==> all[i] == fields[i - 1];
  }

  /** Nothing a frame writes is an object. */
  lemma {:induction false} NothingWrittenIsAnObject(fields: seq<Field>, naming: Naming, name: string)
    requires name in Spelled(fields, naming)
    ensures !Spelled(fields, naming)[name].Obj?
  {
    if name != naming(fields[0].names) {
      NothingWrittenIsAnObject(fields[1..], naming, name);
    }
  }

  /** The flat form of a frame, in any spelling of its kind, its fields and its words. */
  function FlatForm(frame: ProtocolFrame, naming: Naming): Object
  {
    Spelled([KindField(KindOf(frame))] + Fields(frame), naming)
  }

  lemma FlatFormRepresents(frame: ProtocolFrame, naming: Naming)
    requires Chooses(naming)
    ensures Represents(FlatForm(frame, naming), frame)
  {
    var kind, fields := KindOf(frame), [KindField(KindOf(frame))] + Fields(frame);
    var root := FlatForm(frame, naming);
    FlatIsDistinct(frame);
    SpelledHoldsAll(fields, naming);
    assert Holds(root, fields[0]);
    assert KIND[0] == "kind";
    forall k | 0 <= k < |Fields(frame)| ensures Holds(root, Fields(frame)[k]) {
      assert fields[k + 1] == Fields(frame)[k];
    }
    var keys := PayloadKeys(kind);
    forall i | 0 <= i < |keys| && keys[i] in root ensures !root[keys[i]].Obj? {
      NothingWrittenIsAnObject(fields, naming, keys[i]);
    }
    assert Carries(root, keys, root);
  }

  /** Encoding and decoding give back every frame. */
  lemma EncodeDecodes(frame: ProtocolFrame)
    ensures Decode(Encode(frame)) == Ok(frame)
  {
    FlatFormRepresents(frame, Canonical);
    DecodesExactly(FlatForm(frame, Canonical), frame);
  }

  /** So does every other flat spelling. */
  lemma FlatFormsDecode(frame: ProtocolFrame, naming: Naming)
    requires Chooses(naming)
    ensures Decode(Obj(FlatForm(frame, naming))) == Ok(frame)
  {
    FlatFormRepresents(frame, naming);
    DecodesExactly(FlatForm(frame, naming), frame);
  }

  /**
   And every nested form: under the first payload key that holds an object, whatever else the root holds, as
   long as its kind is right.
   */
  lemma NestedFormsDecode(frame: ProtocolFrame, naming: Naming, root: Object, i: nat)
    requires Chooses(naming) && i < |PayloadKeys(KindOf(frame))|
    requires "kind" in root && root["kind"].Str? && root["kind"].text in KindNames(KindOf(frame))
    requires var keys := PayloadKeys(KindOf(frame));
             keys[i] in root && root[keys[i]] == Obj(Spelled(Fields(frame), naming)) && NoObjects(root, keys[..i])
    ensures Decode(Obj(root)) == Ok(frame)
  {
    FramesAreToldApart(frame);
    SpelledHoldsAll(Fields(frame), naming);
    assert Carries(root, PayloadKeys(KindOf(frame)), Spelled(Fields(frame), naming));
    DecodesExactly(root, frame);
  }

  /** Distinct frames have distinct encodings. */
  lemma EncodeIsInjective(a: ProtocolFrame, b: ProtocolFrame)
    requires Encode(a) == Encode(b)
    ensures a == b
  {
    EncodeDecodes(a);
    EncodeDecodes(b);
  }
}
