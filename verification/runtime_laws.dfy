/** Safety of the reconnect timer, the retry budget and key rotation over whole runs of the runtime. */
module RuntimeLaws {
  import opened Basics
  import opened SessionTypes
  import opened Reducer
  import opened RuntimeModel
  import SessionInvariants

  datatype Call = Call(op: Operation, nowMs: i64)

  function RunCalls(start: Runtime, calls: seq<Call>): Runtime
  {
    if calls == [] then start else
      var n := |calls| - 1;
      Next(RunCalls(start, calls[..n]), calls[n].op, calls[n].nowMs).0
  }

  /** The reply to the last call of a run. */
  function LastReply(start: Runtime, calls: seq<Call>): Reply
    requires calls != []
  {
    var n := |calls| - 1;
    Next(RunCalls(start, calls[..n]), calls[n].op, calls[n].nowMs).1
  }

  // ----- The invariant -----

  /** A pending reconnect belongs to a foreground session the user did not end, and has been paid for. */
  ghost predicate TimerInv(r: Runtime)
  {
    && r.attempt <= |r.backoff|
    && (r.due.Some? ==> !r.inBackground && !r.userDisconnected && r.attempt >= 1)
  }

  lemma CallKeepsTimerInv(r: Runtime, op: Operation, nowMs: i64)
    requires TimerInv(r)
    ensures TimerInv(Next(r, op, nowMs).0)
    ensures Next(r, op, nowMs).0.backoff == r.backoff
  {
  }

  lemma {:induction false} ReachableTimerInv(config: MeetingConfig, backoff: seq<i64>, calls: seq<Call>)
    ensures var r := RunCalls(NewRuntime(config, backoff), calls); TimerInv(r) && r.backoff == backoff
  {
    if calls != [] {
      var n := |calls| - 1;
      ReachableTimerInv(config, backoff, calls[..n]);
      CallKeepsTimerInv(RunCalls(NewRuntime(config, backoff), calls[..n]), calls[n].op, calls[n].nowMs);
    }
  }

  /** Every session state the runtime reaches satisfies the session invariant. */
  lemma {:induction false} ReachableSessionInv(config: MeetingConfig, backoff: seq<i64>, calls: seq<Call>)
    ensures SessionInvariants.Inv(RunCalls(NewRuntime(config, backoff), calls).state)
  {
    if calls != [] {
      var n := |calls| - 1;
      ReachableSessionInv(config, backoff, calls[..n]);
      CallKeepsSessionInv(RunCalls(NewRuntime(config, backoff), calls[..n]), calls[n].op, calls[n].nowMs);
    }
  }

  /** A call changes the session state through the reducer only, by at most two events. */
  lemma CallReduces(r: Runtime, op: Operation, nowMs: i64) returns (events: seq<ProtocolEvent>)
    ensures |events| <= 2
    ensures var state := Next(r, op, nowMs).0.state;
            state == if events == [] then r.state
                     else if |events| == 1 then Reduce(r.state, events[0], nowMs)
                     else Reduce(Reduce(r.state, events[0], nowMs), events[1], nowMs)
    ensures forall i :: 0 <= i < |events| ==> !events[i].ConfigUpdated? && (events[i].FrameReceived? ==> op.Inbound?)
  {
    var next := Next(r, op, nowMs).0;
    events := [];
    match op {
      case Connect => if !r.inBackground { events := [ConnectRequested]; }
      case AppForegrounded => if next.state != r.state { events := [ConnectRequested]; }
      case AppBackgrounded => if next.state != r.state { events := [TransportDisconnected("app_backgrounded")]; }
      case ConnectivityChanged(available) =>
        if available {
          if next.state != r.state { events := [ConnectRequested]; }
        } else if !r.userDisconnected {
          events := FailureEvents(r, TransportFailed("network_unavailable"), "network_unavailable", nowMs);
        }
      case AudioInterruptionBegan =>
        if !r.userDisconnected {
          events := FailureEvents(r, TransportFailed("audio_interruption"), "audio_interruption", nowMs);
        }
      case AudioInterruptionEnded(_) => if next.state != r.state { events := [ConnectRequested]; }
      case AudioRouteChanged =>
      case TransportUp =>
        events := if r.inBackground then [TransportDisconnected("backgrounded_before_handshake")]
                  else [TransportConnected];
      case TransportDown(reason) => events := FailureEvents(r, TransportDisconnected(reason), reason, nowMs);
      case TransportFault(message) => events := FailureEvents(r, TransportFailed(message), message, nowMs);
      case SendFault(message) => events := [FrameSendFailed(message)];
      case ManualDisconnect => events := [ManualDisconnected];
      case Inbound(frame) =>
        var acks := Receive(r, frame, nowMs).1;
        events := if frame.E2eeKeyEpoch? && acks != [] then [FrameReceived(frame), FrameReceived(acks[0])]
                  else [FrameReceived(frame)];
      case RecoverFromFallback =>
        events := if r.inBackground then [FallbackRecovered] else [FallbackRecovered, ConnectRequested];
      case TakeReconnectIfDue => if next.state != r.state { events := [ConnectRequested]; }
    }
  }

  lemma FailureEvents(r: Runtime, event: ProtocolEvent, trigger: string, nowMs: i64)
    returns (events: seq<ProtocolEvent>)
    ensures events == [event] || events == [event, ProtocolEvent.FallbackActivated(ByExhaustion(r.attempt, trigger))]
    ensures Fail(r, event, trigger, nowMs).0.state
         == if |events| == 1 then Reduce(r.state, event, nowMs)
            else Reduce(Reduce(r.state, event, nowMs), events[1], nowMs)
  {
    var failed := Apply(r, event, nowMs);
    events := [event];
    if !r.inBackground && ScheduleOrFallback(failed, trigger, nowMs).1.FallbackEntered? {
      events := [event, ProtocolEvent.FallbackActivated(ByExhaustion(r.attempt, trigger))];
    }
  }

  lemma CallKeepsSessionInv(r: Runtime, op: Operation, nowMs: i64)
    requires SessionInvariants.Inv(r.state)
    ensures SessionInvariants.Inv(Next(r, op, nowMs).0.state)
  {
    var events := CallReduces(r, op, nowMs);
    if |events| >= 1 {
      SessionInvariants.StepKeepsInv(r.state, events[0], nowMs);
      if |events| == 2 {
        SessionInvariants.StepKeepsInv(Reduce(r.state, events[0], nowMs), events[1], nowMs);
      }
    }
  }
}
