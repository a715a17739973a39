/**
 The room is independent of the connection: it evolves as a function of itself and the events, control frames
 that are rejected leave no trace in it, and authority cannot be obtained from nothing.
 */
module DataPlane {
  import opened Basics
  import opened SessionTypes
  import opened Reducer
  import opened SessionRuns
  import opened Policies
  import RosterLaws

  // ----- Independence of phase, fallback, last error and clock -----

  lemma StepIndependence(a: SessionState, b: SessionState, event: ProtocolEvent, nowA: i64, nowB: i64)
    requires a.room == b.room
    ensures Reduce(a, event, nowA).room == Reduce(b, event, nowB).room
  {
    if event.FrameReceived? {
      FrameIndependence(a, b, event.frame, nowA, nowB);
    }
  }

  lemma FrameIndependence(a: SessionState, b: SessionState, frame: ProtocolFrame, nowA: i64, nowB: i64)
    requires a.room == b.room
    ensures ReduceFrame(a, frame, nowA).room == ReduceFrame(b, frame, nowB).room
  {
  }

  // ----- Rejected control frames -----

  /** A rejected frame changes nothing in the room. */
  lemma RejectionLeavesRoom(s: SessionState, event: ProtocolEvent, nowMs: i64)
    requires IsRejected(s.room, event)
    ensures Reduce(s, event, nowMs).room == s.room
  {
  }

  /** `kept` is `full` without some of the frames that are rejected when they arrive; clock readings may differ. */
  ghost predicate Erasure(start: SessionState, full: seq<Timed>, kept: seq<Timed>)
  {
    if full == [] then kept == [] else
      var n, k := |full| - 1, |kept| - 1;
      || (k >= 0 && kept[k].event == full[n].event && Erasure(start, full[..n], kept[..k]))
      || (IsRejected(Run(start, full[..n]).room, full[n].event) && Erasure(start, full[..n], kept))
  }

  /**
   Deleting any of the rejected control frames from any run, and starting from any connection state, ends in the same
   room.
   With nothing deleted, this is the independence of the room from phase, fallback, last error and clock over whole
   runs.
   */
  lemma {:induction false} ErasureKeepsRoom(a: SessionState, b: SessionState, full: seq<Timed>, kept: seq<Timed>)
    requires a.room == b.room && Erasure(a, full, kept)
    ensures Run(a, full).room == Run(b, kept).room
  {
    if full != [] {
      var n, k := |full| - 1, |kept| - 1;
      var before := Run(a, full[..n]);
      if k >= 0 && kept[k].event == full[n].event && Erasure(a, full[..n], kept[..k]) {
        ErasureKeepsRoom(a, b, full[..n], kept[..k]);
        StepIndependence(before, Run(b, kept[..k]), full[n].event, full[n].nowMs, kept[k].nowMs);
      } else {
        ErasureKeepsRoom(a, b, full[..n], kept);
        RejectionLeavesRoom(before, full[n].event, full[n].nowMs);
      }
    }
  }

  // ----- Roster control -----

  /** An accepted roster control frame reaches its target only, and only in the one property it is about. */
  lemma ControlReachesTargetOnly(s: SessionState, frame: ProtocolFrame, nowMs: i64, id: string)
    requires frame.RoleGrant? || frame.RoleRevoke? || frame.ModerationSigned?
    requires !IsRejected(s.room, FrameReceived(frame))
    ensures var next := ReduceFrame(s, frame, nowMs);
            var was, now := RosterLaws.Entry(s.room.participants, id), RosterLaws.Entry(next.room.participants, id);
            && next.link == s.link
            && next.room == s.room.(participants := next.room.participants)
            && (id != frame.target || was.None? ==> now == was)
            && (id == frame.target && was.Some? ==>
                  match frame
                  case RoleGrant(_, role, _, _, _) => now == Some(was.value.(role := role))
                  case RoleRevoke(_, role, _, _, _) =>
                    now.Some? && now.value.(role := was.value.role) == was.value
                    && now.value.role
                       == (if was.value.role == role then ParticipantRole.Participant else was.value.role)
                  case ModerationSigned(_, action, _, _, _) =>
                    if action.Kick? || action.DenyFromWaiting? then now.None? else
                      && now.Some?
                      && now.value.role == was.value.role
                      && now.value.displayName == was.value.displayName
                      && now.value.id == was.value.id
                      && now.value.muted == (was.value.muted || action.Mute?)
                      && now.value.videoEnabled == (was.value.videoEnabled && !action.VideoOff?)
                      && now.value.shareEnabled == (was.value.shareEnabled && !action.StopShare?)
                      && now.value.waitingRoom == (was.value.waitingRoom && !action.AdmitFromWaiting?))
  {
  }

  /** No presence delta, and no control frame in the name of the system. */
  predicate IsUnprivileged(event: ProtocolEvent)
  {
    event.FrameReceived? ==>
      && !event.frame.PresenceDelta?
      && (NeedsAuthority(event.frame) ==> event.frame.issuer != "system")
  }

  ghost predicate NobodyModerates(roster: Roster)
  {
    forall id <- roster :: !IsModerator(roster[id].role)
  }

  /**
   With no moderator present, no list of frames from ordinary participants can change the roster or the room policy.
   */
  lemma {:induction false} NoSelfElevation(start: SessionState, events: seq<Timed>)
    requires NobodyModerates(start.room.participants)
    requires forall i :: 0 <= i < |events| ==> IsUnprivileged(events[i].event)
    ensures Run(start, events).room.participants == start.room.participants
    ensures Run(start, events).room.policy == start.room.policy
  {
    if events != [] {
      var n := |events| - 1;
      NoSelfElevation(start, events[..n]);
      UnprivilegedStep(Run(start, events[..n]), events[n].event, events[n].nowMs);
    }
  }

  lemma UnprivilegedStep(s: SessionState, event: ProtocolEvent, nowMs: i64)
    requires NobodyModerates(s.room.participants) && IsUnprivileged(event)
    ensures Reduce(s, event, nowMs).room.participants == s.room.participants
    ensures Reduce(s, event, nowMs).room.policy == s.room.policy
  {
  }
}
