/** What the roster updates mean, stated per attendee instead of per loop iteration. */
module RosterLaws {
  import opened Basics
  import opened SessionTypes
  import opened Reducer

  /** The attendee most recently joined under an id, if any. */
  function LastJoined(joined: seq<Attendee>, id: string): Option<Attendee>
  {
    if joined == [] then None
    else if joined[|joined| - 1].id == id then Some(joined[|joined| - 1])
    else LastJoined(joined[..|joined| - 1], id)
  }

  /** The role most recently assigned to an id, if any. */
  function LastRole(changes: seq<RoleChange>, id: string): Option<ParticipantRole>
  {
    if changes == [] then None
    else if changes[|changes| - 1].participantId == id then Some(changes[|changes| - 1].role)
    else LastRole(changes[..|changes| - 1], id)
  }

  /** The entry an id has after a presence delta: joins win over the old entry, leaving wins over joining. */
  function EntryAfterDelta(roster: Roster, frame: ProtocolFrame, id: string): Option<Attendee>
    requires frame.PresenceDelta?
  {
    var joined := LastJoined(frame.joined, id);
    var base := if joined.Some? then joined else if id in roster then Some(roster[id]) else None;
    if id in frame.left || base.None? then None else
      var role := LastRole(frame.roleChanges, id);
      Some(if role.Some? then base.value.(role := role.value) else base.value)
  }

  function Entry(roster: Roster, id: string): Option<Attendee>
  {
    if id in roster then Some(roster[id]) else None
  }

  lemma {:induction false} AdmitEntry(roster: Roster, joined: seq<Attendee>, id: string)
    ensures Entry(Admit(roster, joined), id)
         == (if LastJoined(joined, id).Some? then LastJoined(joined, id) else Entry(roster, id))
  {
    if joined != [] {
      AdmitEntry(roster, joined[..|joined| - 1], id);
    }
  }

  lemma {:induction false} DismissEntry(roster: Roster, left: seq<string>, id: string)
    ensures Entry(Dismiss(roster, left), id) == if id in left then None else Entry(roster, id)
  {
    if left != [] {
      var n := |left| - 1;
      assert left == left[..n] + [left[n]];
      DismissEntry(roster, left[..n], id);
    }
  }

  lemma {:induction false} ReassignEntry(roster: Roster, changes: seq<RoleChange>, id: string)
    ensures Entry(Reassign(roster, changes), id)
         == if id in roster && LastRole(changes, id).Some?
            then Some(roster[id].(role := LastRole(changes, id).value))
            else Entry(roster, id)
  {
    if changes != [] {
      ReassignEntry(roster, changes[..|changes| - 1], id);
    }
  }

  /** Every id's entry after a presence delta is exactly the one the delta's lists prescribe. */
  lemma DeltaEntry(roster: Roster, frame: ProtocolFrame, id: string)
    requires frame.PresenceDelta?
    ensures Entry(DeltaRoster(roster, frame), id) == EntryAfterDelta(roster, frame, id)
  {
    AdmitEntry(roster, frame.joined, id);
    DismissEntry(Admit(roster, frame.joined), frame.left, id);
    ReassignEntry(Dismiss(Admit(roster, frame.joined), frame.left), frame.roleChanges, id);
  }

  /** A roster whose every key is the id of its entry. */
  ghost predicate KeyedById(roster: Roster)
  {
    forall id <- roster :: roster[id].id == id
  }

  lemma {:induction false} LastJoinedId(joined: seq<Attendee>, id: string)
    ensures LastJoined(joined, id).Some? ==> LastJoined(joined, id).value.id == id
  {
    if joined != [] {
      LastJoinedId(joined[..|joined| - 1], id);
    }
  }

  lemma DeltaKeepsKeys(roster: Roster, frame: ProtocolFrame)
    requires frame.PresenceDelta? && KeyedById(roster)
    ensures KeyedById(DeltaRoster(roster, frame))
  {
    var next := DeltaRoster(roster, frame);
    forall id <- next ensures next[id].id == id {
      DeltaEntry(roster, frame, id);
      LastJoinedId(frame.joined, id);
      assert Entry(next, id) == Some(next[id]);
    }
  }
}
