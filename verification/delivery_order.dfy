/** What survives reordering, duplication and late delivery of frames, and which write each register ends up holding. */
module DeliveryOrder {
  import opened Basics
  import opened SessionTypes
  import opened Reducer
  import opened SessionRuns
  import opened Policies

  // ----- Permission snapshots -----

  predicate IsSnapshot(event: ProtocolEvent)
  {
    event.FrameReceived? && event.frame.PermissionsSnapshot?
  }

  /** The snapshot frames of a run, without order or multiplicity. */
  function Snapshots(events: seq<Timed>): set<ProtocolFrame>
  {
    set i | 0 <= i < |events| && IsSnapshot(events[i].event) :: events[i].event.frame
  }

  function Granted(permissions: Permissions, id: string): Option<PermissionSnapshot>
  {
    if id in permissions then Some(permissions[id]) else None
  }

  /** `after` is what an id is granted when `before` was granted and the snapshots of `frames` arrived in some order. */
  ghost predicate IsNewest(frames: set<ProtocolFrame>, id: string,
                           before: Option<PermissionSnapshot>, after: Option<PermissionSnapshot>)
    requires forall f <- frames :: f.PermissionsSnapshot?
  {
    && (after == before
        || (&& after.Some?
            && PermissionsSnapshot(id, after.value.effectivePermissions, after.value.epoch) in frames
            && (before.Some? ==> after.value.epoch > before.value.epoch)))
    && (forall f <- frames :: f.participantId == id ==> after.Some? && f.epoch <= after.value.epoch)
  }

  lemma {:induction false} SnapshotsSnoc(events: seq<Timed>)
    requires events != []
    ensures var n := |events| - 1;
            Snapshots(events) == Snapshots(events[..n])
                               + (if IsSnapshot(events[n].event) then {events[n].event.frame} else {})
  {
    var n := |events| - 1;
    assert forall i :: 0 <= i < n ==> events[..n][i] == events[i];
  }

  lemma OtherEventsKeepPermissions(s: SessionState, event: ProtocolEvent, nowMs: i64)
    requires !IsSnapshot(event)
    ensures Reduce(s, event, nowMs).room.permissions == s.room.permissions
  {
  }

  /** After any run, every id holds its newest snapshot. */
  lemma {:induction false} NewestSnapshotWins(start: SessionState, events: seq<Timed>, id: string)
    ensures IsNewest(Snapshots(events), id, Granted(start.room.permissions, id),
                     Granted(Run(start, events).room.permissions, id))
  {
    if events == [] {
      assert Snapshots(events) == {};
    } else {
      var n := |events| - 1;
      NewestSnapshotWins(start, events[..n], id);
      SnapshotsSnoc(events);
      if !IsSnapshot(events[n].event) {
        OtherEventsKeepPermissions(Run(start, events[..n]), events[n].event, events[n].nowMs);
      }
    }
  }

  /** Participant and epoch determine the permissions of a snapshot. */
  ghost predicate Deterministic(frames: set<ProtocolFrame>)
  {
    forall f <- frames, g <- frames ::
      f.PermissionsSnapshot? && g.PermissionsSnapshot? && f.participantId == g.participantId && f.epoch == g.epoch
      ==> f == g
  }

  /**
   Two runs that deliver the same snapshots, in any order, any number of times, among any other events, agree on all
   permissions.
   */
  lemma PermissionsConverge(a: SessionState, b: SessionState, first: seq<Timed>, second: seq<Timed>)
    requires a.room.permissions == b.room.permissions
    requires Snapshots(first) == Snapshots(second)
    requires Deterministic(Snapshots(first))
    ensures Run(a, first).room.permissions == Run(b, second).room.permissions
  {
    var p, q := Run(a, first).room.permissions, Run(b, second).room.permissions;
    forall id ensures Granted(p, id) == Granted(q, id) {
      NewestSnapshotWins(a, first, id);
      NewestSnapshotWins(b, second, id);
    }
    assert forall id :: id in p <==> Granted(p, id).Some?;
    assert forall id :: id in q <==> Granted(q, id).Some?;
    assert forall id <- p :: Granted(p, id) == Some(p[id]) && Granted(q, id) == Some(q[id]);
  }

  // ----- Key epochs -----

  /** The i-th event is a key epoch frame that is accepted when it arrives. */
  ghost predicate AcceptsEpoch(start: SessionState, events: seq<Timed>, i: nat)
    requires i < |events|
  {
    && events[i].event.FrameReceived?
    && events[i].event.frame.E2eeKeyEpoch?
    && !IsRejected(Run(start, events[..i]).room, events[i].event)
  }

  /** The current epoch after a run is the largest of the first one and all accepted ones. */
  lemma {:induction false} EpochIsMaximum(start: SessionState, events: seq<Timed>)
    ensures var epoch := Run(start, events).room.e2ee.currentEpoch;
            && epoch >= start.room.e2ee.currentEpoch
            && (forall i :: 0 <= i < |events| && AcceptsEpoch(start, events, i) ==>
                  epoch >= events[i].event.frame.epoch)
            && (|| epoch == start.room.e2ee.currentEpoch
                || exists i ::
                     0 <= i < |events| && AcceptsEpoch(start, events, i) && epoch == events[i].event.frame.epoch)
  {
    if events != [] {
      var n := |events| - 1;
      EpochIsMaximum(start, events[..n]);
      assert forall i :: 0 <= i < n ==> events[..n][..i] == events[..i];
      assert forall i :: 0 <= i < n && AcceptsEpoch(start, events[..n], i) ==> AcceptsEpoch(start, events, i);
      assert forall i :: 0 <= i < n && AcceptsEpoch(start, events, i) ==> AcceptsEpoch(start, events[..n], i);
      EpochStep(Run(start, events[..n]), events[n].event, events[n].nowMs);
      assert AcceptsEpoch(start, events, n) <==>
             events[n].event.FrameReceived? && events[n].event.frame.E2eeKeyEpoch?
             && !IsRejected(Run(start, events[..n]).room, events[n].event);
    }
  }

  lemma EpochStep(s: SessionState, event: ProtocolEvent, nowMs: i64)
    ensures Reduce(s, event, nowMs).room.e2ee.currentEpoch
         == if event.FrameReceived? && event.frame.E2eeKeyEpoch? && !IsRejected(s.room, event)
            then Max(s.room.e2ee.currentEpoch, event.frame.epoch) else s.room.e2ee.currentEpoch
    ensures Reduce(s, event, nowMs).room.e2ee.lastAckEpoch
         == if event.FrameReceived? && event.frame.KeyRotationAck?
            then Max(s.room.e2ee.lastAckEpoch, event.frame.ackEpoch) else s.room.e2ee.lastAckEpoch
  {
  }

  // ----- Presence deltas -----

  predicate IsDelta(event: ProtocolEvent)
  {
    event.FrameReceived? && event.frame.PresenceDelta?
  }

  /** The highest sequence number among `floor` and the presence deltas of a run. */
  function Highest(floor: i64, events: seq<Timed>): i64
  {
    if events == [] then floor else
      var n := |events| - 1;
      var rest := Highest(floor, events[..n]);
      if IsDelta(events[n].event) then Max(rest, events[n].event.frame.sequence) else rest
  }

  /** A run without the presence deltas that do not exceed every sequence number before them. */
  function Fresh(floor: i64, events: seq<Timed>): seq<Timed>
  {
    if events == [] then [] else
      var n := |events| - 1;
      if IsDelta(events[n].event) && events[n].event.frame.sequence <= Highest(floor, events[..n])
      then Fresh(floor, events[..n])
      else Fresh(floor, events[..n]) + [events[n]]
  }

  lemma PresenceStep(s: SessionState, event: ProtocolEvent, nowMs: i64)
    ensures var next := Reduce(s, event, nowMs);
            && next.room.presenceSequence
            == (if IsDelta(event) then Max(s.room.presenceSequence, event.frame.sequence) else s.room.presenceSequence)
            && (IsDelta(event) && event.frame.sequence <= s.room.presenceSequence ==> next == s)
  {
  }

  /** Of the presence deltas of a run only those of the strict running maximum have any effect on the session. */
  lemma {:induction false} OnlyFreshDeltasCount(start: SessionState, events: seq<Timed>)
    ensures Run(start, Fresh(start.room.presenceSequence, events)) == Run(start, events)
    ensures Run(start, events).room.presenceSequence == Highest(start.room.presenceSequence, events)
  {
    if events != [] {
      var n := |events| - 1;
      var floor := start.room.presenceSequence;
      OnlyFreshDeltasCount(start, events[..n]);
      PresenceStep(Run(start, events[..n]), events[n].event, events[n].nowMs);
      var kept := Fresh(floor, events[..n]);
      assert (kept + [events[n]])[..|kept|] == kept;
    }
  }

  // ----- Room policy and recording -----

  /** The i-th event is a session policy that is accepted when it arrives. */
  ghost predicate AcceptsPolicy(start: SessionState, events: seq<Timed>, i: nat)
    requires i < |events|
  {
    && events[i].event.FrameReceived?
    && events[i].event.frame.SessionPolicy?
    && !IsRejected(Run(start, events[..i]).room, events[i].event)
  }

  function Spelled(frame: ProtocolFrame): RoomPolicy
    requires frame.SessionPolicy?
  {
    RoomPolicy(frame.roomLock, frame.waitingRoomEnabled, frame.guestPolicy, frame.e2eeRequired,
               frame.maxParticipants, frame.policyEpoch)
  }

  /**
   The i-th event is the accepted policy of the highest epoch, and the last one of that epoch; its epoch is no lower
   than the first.
   */
  ghost predicate IsInForce(start: SessionState, events: seq<Timed>, i: nat)
    requires i < |events|
  {
    && AcceptsPolicy(start, events, i)
    && events[i].event.frame.policyEpoch >= start.room.policy.epoch
    && forall j :: 0 <= j < |events| && AcceptsPolicy(start, events, j) ==>
         && events[j].event.frame.policyEpoch <= events[i].event.frame.policyEpoch
         && (j > i ==> events[j].event.frame.policyEpoch < events[i].event.frame.policyEpoch)
  }

  lemma PrefixAccepts(start: SessionState, events: seq<Timed>, i: nat)
    requires i + 1 < |events|
    ensures AcceptsPolicy(start, events[..|events| - 1], i) <==> AcceptsPolicy(start, events, i)
  {
    assert events[..|events| - 1][..i] == events[..i];
  }

  /** A room policy is spelled out by the policy in force, or is the first one if every accepted policy is older. */
  ghost predicate IsTheRule(start: SessionState, events: seq<Timed>, policy: RoomPolicy)
  {
    || (policy == start.room.policy && forall i :: 0 <= i < |events| && AcceptsPolicy(start, events, i) ==>
          events[i].event.frame.policyEpoch < policy.epoch)
    || exists i :: 0 <= i < |events| && IsInForce(start, events, i) && policy == Spelled(events[i].event.frame)
  }

  /** The room policy after a run is the one the accepted policies of the run make the rule. */
  lemma {:induction false} PolicyHolds(start: SessionState, events: seq<Timed>)
    ensures IsTheRule(start, events, Run(start, events).room.policy)
  {
    if events != [] {
      var n := |events| - 1;
      PolicyHolds(start, events[..n]);
      PolicyStep(Run(start, events[..n]), events[n].event, events[n].nowMs);
      NextRule(start, events, Run(start, events[..n]).room.policy);
    }
  }

  lemma NextRule(start: SessionState, events: seq<Timed>, policy: RoomPolicy)
    requires events != [] && IsTheRule(start, events[..|events| - 1], policy)
    ensures var last := |events| - 1;
            var changes := AcceptsPolicy(start, events, last) && events[last].event.frame.policyEpoch >= policy.epoch;
            IsTheRule(start, events, if changes then Spelled(events[last].event.frame) else policy)
  {
    var n := |events| - 1;
    if AcceptsPolicy(start, events, n) && events[n].event.frame.policyEpoch >= policy.epoch {
      RuleChanges(start, events, policy);
    } else {
      RuleStands(start, events, policy);
    }
  }

  lemma PrefixAcceptsAll(start: SessionState, events: seq<Timed>)
    requires events != []
    ensures var n := |events| - 1;
            forall i :: 0 <= i < n ==> (AcceptsPolicy(start, events[..n], i) <==> AcceptsPolicy(start, events, i))
  {
    var n := |events| - 1;
    forall i | 0 <= i < n ensures AcceptsPolicy(start, events[..n], i) <==> AcceptsPolicy(start, events, i) {
      PrefixAccepts(start, events, i);
    }
  }

  lemma RuleChanges(start: SessionState, events: seq<Timed>, policy: RoomPolicy)
    requires events != [] && IsTheRule(start, events[..|events| - 1], policy)
    requires AcceptsPolicy(start, events, |events| - 1) && events[|events| - 1].event.frame.policyEpoch >= policy.epoch
    ensures IsInForce(start, events, |events| - 1)
  {
    PrefixAcceptsAll(start, events);
  }

  lemma RuleStands(start: SessionState, events: seq<Timed>, policy: RoomPolicy)
    requires events != [] && IsTheRule(start, events[..|events| - 1], policy)
    requires AcceptsPolicy(start, events, |events| - 1) ==> events[|events| - 1].event.frame.policyEpoch < policy.epoch
    ensures IsTheRule(start, events, policy)
  {
    var earlier := events[..|events| - 1];
    PrefixAcceptsAll(start, events);
    if i :| 0 <= i < |earlier| && IsInForce(start, earlier, i) && policy == Spelled(earlier[i].event.frame) {
      assert IsInForce(start, events, i);
    }
  }

  predicate Accepts(room: Room, event: ProtocolEvent)
  {
    event.FrameReceived? && event.frame.SessionPolicy? && !IsRejected(room, event)
  }

  lemma PolicyStep(s: SessionState, event: ProtocolEvent, nowMs: i64)
    ensures Reduce(s, event, nowMs).room.policy
         == if Accepts(s.room, event) && event.frame.policyEpoch >= s.room.policy.epoch then Spelled(event.frame)
            else s.room.policy
  {
  }

  // ----- Registers -----

  /** The value an event writes to a register, if it does. */
  type Writes<V> = ProtocolEvent -> Option<V>

  /** A register holds what the last of the events that write it wrote, or its first value if none does. */
  ghost predicate HoldsLast<V(!new)>(events: seq<Timed>, writes: Writes<V>, before: V, after: V)
  {
    || (after == before && NoneWritesAfter(events, writes, -1))
    || exists i :: 0 <= i < |events| && writes(events[i].event) == Some(after) && NoneWritesAfter(events, writes, i)
  }

  ghost predicate NoneWritesAfter<V(!new)>(events: seq<Timed>, writes: Writes<V>, i: int)
  {
    forall j :: 0 <= j < |events| && i < j ==> writes(events[j].event).None?
  }

  lemma OneMoreEvent<V(!new)>(events: seq<Timed>, writes: Writes<V>, before: V, middle: V)
    requires events != [] && HoldsLast(events[..|events| - 1], writes, before, middle)
    ensures HoldsLast(events, writes, before, Or(writes(events[|events| - 1].event), middle))
  {
    var n := |events| - 1;
    var earlier := events[..n];
    if writes(events[n].event).Some? {
      assert NoneWritesAfter(events, writes, n);
    } else if i :| 0 <= i < n && writes(earlier[i].event) == Some(middle) && NoneWritesAfter(earlier, writes, i) {
      assert NoneWritesAfter(events, writes, i) && writes(events[i].event) == Some(middle);
    } else {
      assert NoneWritesAfter(events, writes, -1);
    }
  }

  function Or<V>(written: Option<V>, held: V): V
  {
    if written.Some? then written.value else held
  }

  function WritesToken(event: ProtocolEvent): Option<Option<string>>
  {
    if event.FrameReceived? && event.frame.HandshakeAck? then Some(Some(event.frame.resumeToken)) else None
  }

  function WritesHandshake(event: ProtocolEvent): Option<bool>
  {
    if event.FrameReceived? && event.frame.HandshakeAck? then Some(true)
    else if event.ConnectRequested? || event.TransportDisconnected? || event.TransportFailed?
         || event.ManualDisconnected?
    then Some(false)
    else None
  }

  function WritesConfig(event: ProtocolEvent): Option<MeetingConfig>
  {
    if event.ConfigUpdated? then Some(event.config) else None
  }

  function WritesProfile(event: ProtocolEvent): Option<MediaProfileState>
  {
    if event.FrameReceived? && event.frame.MediaProfileNegotiation? then
      Some(MediaProfileState(event.frame.preferredProfile, event.frame.negotiatedProfile, event.frame.colorPrimaries,
                             event.frame.transferFunction, event.frame.codec))
    else None
  }

  function WritesTerms(event: ProtocolEvent): Option<(bool, Option<string>)>
  {
    if event.FrameReceived? && event.frame.PaymentPolicy?
    then Some((event.frame.required, event.frame.destinationAccount))
    else None
  }

  function WritesStatus(event: ProtocolEvent): Option<SettlementStatus>
  {
    if event.FrameReceived? && event.frame.PaymentPolicy?
    then Some(if event.frame.required then Pending else NotRequired)
    else if event.FrameReceived? && event.frame.PaymentSettlement? then Some(event.frame.status)
    else None
  }

  lemma TokenStep(s: SessionState, event: ProtocolEvent, nowMs: i64)
    ensures Reduce(s, event, nowMs).room.resumeToken == Or(WritesToken(event), s.room.resumeToken)
  {
  }

  lemma HandshakeStep(s: SessionState, event: ProtocolEvent, nowMs: i64)
    ensures Reduce(s, event, nowMs).room.handshakeComplete == Or(WritesHandshake(event), s.room.handshakeComplete)
  {
  }

  /**
   The resume token is the last one acknowledged, and the handshake stands if the last event that concerns it completed
   it.
   */
  lemma {:induction false} HandshakeHoldsLastWrite(start: SessionState, events: seq<Timed>)
    ensures var room := Run(start, events).room;
            && HoldsLast(events, WritesToken, start.room.resumeToken, room.resumeToken)
            && HoldsLast(events, WritesHandshake, start.room.handshakeComplete, room.handshakeComplete)
  {
    if events != [] {
      var n := |events| - 1;
      var before := Run(start, events[..n]);
      HandshakeHoldsLastWrite(start, events[..n]);
      TokenStep(before, events[n].event, events[n].nowMs);
      HandshakeStep(before, events[n].event, events[n].nowMs);
      OneMoreEvent(events, WritesToken, start.room.resumeToken, before.room.resumeToken);
      OneMoreEvent(events, WritesHandshake, start.room.handshakeComplete, before.room.handshakeComplete);
    }
  }

  lemma ConfigStep(s: SessionState, event: ProtocolEvent, nowMs: i64)
    ensures Reduce(s, event, nowMs).room.config == Or(WritesConfig(event), s.room.config)
  {
  }

  lemma ProfileStep(s: SessionState, event: ProtocolEvent, nowMs: i64)
    ensures Reduce(s, event, nowMs).room.mediaProfile == Or(WritesProfile(event), s.room.mediaProfile)
  {
  }

  /** The configuration and the media profile are the last ones received. */
  lemma {:induction false} SettingsHoldLastWrite(start: SessionState, events: seq<Timed>)
    ensures var room := Run(start, events).room;
            && HoldsLast(events, WritesConfig, start.room.config, room.config)
            && HoldsLast(events, WritesProfile, start.room.mediaProfile, room.mediaProfile)
  {
    if events != [] {
      var n := |events| - 1;
      var before := Run(start, events[..n]);
      SettingsHoldLastWrite(start, events[..n]);
      ConfigStep(before, events[n].event, events[n].nowMs);
      ProfileStep(before, events[n].event, events[n].nowMs);
      OneMoreEvent(events, WritesConfig, start.room.config, before.room.config);
      OneMoreEvent(events, WritesProfile, start.room.mediaProfile, before.room.mediaProfile);
    }
  }

  function Terms(payment: PaymentState): (bool, Option<string>)
  {
    (payment.required, payment.destination)
  }

  lemma PaymentStep(s: SessionState, event: ProtocolEvent, nowMs: i64)
    ensures var payment := Reduce(s, event, nowMs).room.payment;
            && Terms(payment) == Or(WritesTerms(event), Terms(s.room.payment))
            && payment.status == Or(WritesStatus(event), s.room.payment.status)
  {
  }

  /**
   The payment terms are the last ones announced; the status is the last settlement reported, unless terms came later
   and reset it.
   */
  lemma {:induction false} PaymentHoldsLastWrite(start: SessionState, events: seq<Timed>)
    ensures var payment := Run(start, events).room.payment;
            && HoldsLast(events, WritesTerms, Terms(start.room.payment), Terms(payment))
            && HoldsLast(events, WritesStatus, start.room.payment.status, payment.status)
  {
    if events != [] {
      var n := |events| - 1;
      var before := Run(start, events[..n]);
      PaymentHoldsLastWrite(start, events[..n]);
      PaymentStep(before, events[n].event, events[n].nowMs);
      OneMoreEvent(events, WritesTerms, Terms(start.room.payment), Terms(before.room.payment));
      OneMoreEvent(events, WritesStatus, start.room.payment.status, before.room.payment.status);
    }
  }

  /** The recording state the i-th event announces, by a notice or by a policy that takes force. */
  function Announces(start: SessionState, events: seq<Timed>, i: nat): Option<RecordingState>
    requires i < |events|
  {
    var event, room := events[i].event, Run(start, events[..i]).room;
    if event.FrameReceived? && event.frame.RecordingNotice? then Some(event.frame.state)
    else if Accepts(room, event) && event.frame.policyEpoch >= room.policy.epoch then Some(event.frame.recordingPolicy)
    else None
  }

  ghost predicate LastAnnounced(start: SessionState, events: seq<Timed>, i: int, recording: RecordingState)
    requires i < |events|
  {
    && (if i < 0 then recording == start.room.recordingNotice else Announces(start, events, i) == Some(recording))
    && forall j :: 0 <= j < |events| && i < j ==> Announces(start, events, j).None?
  }

  lemma RecordingStep(s: SessionState, event: ProtocolEvent, nowMs: i64)
    ensures Reduce(s, event, nowMs).room.recordingNotice
         == if event.FrameReceived? && event.frame.RecordingNotice? then event.frame.state
            else if Accepts(s.room, event) && event.frame.policyEpoch >= s.room.policy.epoch
                 then event.frame.recordingPolicy
            else s.room.recordingNotice
  {
  }

  /** The recording notice is the last one announced. */
  lemma {:induction false} RecordingHoldsLastWrite(start: SessionState, events: seq<Timed>)
    ensures exists i :: -1 <= i < |events| && LastAnnounced(start, events, i, Run(start, events).room.recordingNotice)
  {
    if events == [] {
      assert Run(start, events) == start && LastAnnounced(start, events, -1, start.room.recordingNotice);
    } else {
      var n := |events| - 1;
      var earlier := events[..n];
      RecordingHoldsLastWrite(start, earlier);
      RecordingStep(Run(start, earlier), events[n].event, events[n].nowMs);
      var i :| -1 <= i < n && LastAnnounced(start, earlier, i, Run(start, earlier).room.recordingNotice);
      assert forall j :: 0 <= j < n ==> earlier[..j] == events[..j];
      assert forall j :: 0 <= j < n ==> Announces(start, earlier, j) == Announces(start, events, j);
      var last := if Announces(start, events, n).Some? then n else i;
      assert LastAnnounced(start, events, last, Run(start, events).room.recordingNotice);
    }
  }
}
