/** The session runtime: an object that drives the reducer and owns the reconnect timer. */
module SessionRuntime {
  import opened Basics
  import opened SessionTypes
  import opened Reducer
  import opened Identity
  import opened RuntimeModel

  class SessionRuntime {
    var state: SessionState
    const reconnectBackoffMs: seq<i64>
    var reconnectAttempt: nat
    var reconnectDueAtMs: Option<i64>
    var userInitiatedDisconnect: bool
    var appInBackground: bool

    /** The value of the object. */
    ghost function Model(): Runtime
      reads this
    {
      Runtime(state, reconnectBackoffMs, reconnectAttempt, reconnectDueAtMs, userInitiatedDisconnect, appInBackground)
    }

    constructor (config: MeetingConfig, backoff: seq<i64>)
      ensures Model() == NewRuntime(config, backoff)
    {
      state := InitialState(config);
      reconnectBackoffMs := backoff;
      reconnectAttempt := 0;
      reconnectDueAtMs := None;
      userInitiatedDisconnect := false;
      appInBackground := false;
    }

    method ApplyEvent(event: ProtocolEvent, nowMs: i64)
      modifies this`state
      ensures Model() == Apply(old(Model()), event, nowMs)
    {
      state := Reduce(state, event, nowMs);
    }

    method RequestConnect(resetBackoff: bool, nowMs: i64)
      modifies this
      ensures Model() == RuntimeModel.RequestConnect(old(Model()), resetBackoff, nowMs)
    {
      if appInBackground {
        return;
      }
      userInitiatedDisconnect := false;
      reconnectDueAtMs := None;
      if resetBackoff {
        reconnectAttempt := 0;
      }
      ApplyEvent(ConnectRequested, nowMs);
    }

    method ScheduleReconnectOrFallback(trigger: string, nowMs: i64) returns (directive: Directive)
      modifies this
      ensures (Model(), directive) == ScheduleOrFallback(old(Model()), trigger, nowMs)
    {
      if userInitiatedDisconnect || state.link.fallback.active || appInBackground {
        return NoDirective;
      }
      if reconnectDueAtMs.Some? {
        return NoDirective;
      }
      if reconnectAttempt >= |reconnectBackoffMs| {
        var reason := ByExhaustion(reconnectAttempt, trigger);
        state := Reduce(state, ProtocolEvent.FallbackActivated(reason), nowMs);
        return FallbackEntered(reason);
      }
      var delayMs := Max(0, reconnectBackoffMs[reconnectAttempt]);
      reconnectAttempt := reconnectAttempt + 1;
      var dueAtMs := SatAddI64(nowMs, delayMs);
      reconnectDueAtMs := Some(dueAtMs);
      return ReconnectScheduled(reconnectAttempt, dueAtMs);
    }

    method ConnectRequestedByUser(nowMs: i64)
      modifies this
      ensures Model() == Next(old(Model()), Connect, nowMs).0
    {
      RequestConnect(true, nowMs);
    }

    method OnAppForegrounded(nowMs: i64)
      modifies this
      ensures Model() == Next(old(Model()), AppForegrounded, nowMs).0
    {
      if userInitiatedDisconnect {
        return;
      }
      appInBackground := false;
      var phase := state.link.phase;
      if phase.Disconnected? || phase.Degraded? || phase.Error? {
        RequestConnect(false, nowMs);
      }
    }

    method OnAppBackgrounded(nowMs: i64)
      modifies this
      ensures Model() == Next(old(Model()), AppBackgrounded, nowMs).0
    {
      appInBackground := true;
      reconnectDueAtMs := None;
      if userInitiatedDisconnect {
        return;
      }
      var phase := state.link.phase;
      if phase.Connected? || phase.Connecting? || phase.Degraded? {
        ApplyEvent(TransportDisconnected("app_backgrounded"), nowMs);
      }
    }

    method OnConnectivityChanged(available: bool, nowMs: i64)
      modifies this
      ensures Model() == Next(old(Model()), ConnectivityChanged(available), nowMs).0
    {
      if userInitiatedDisconnect {
        return;
      }
      if available {
        if appInBackground {
          return;
        }
        if !state.link.phase.Connected? && !state.link.phase.Connecting? && !state.link.fallback.active {
          RequestConnect(false, nowMs);
        }
        return;
      }
      ApplyEvent(TransportFailed("network_unavailable"), nowMs);
      if appInBackground {
        return;
      }
      var _ := ScheduleReconnectOrFallback("network_unavailable", nowMs);
    }

    method OnAudioInterruptionBegan(nowMs: i64)
      modifies this
      ensures Model() == Next(old(Model()), AudioInterruptionBegan, nowMs).0
    {
      if userInitiatedDisconnect {
        return;
      }
      ApplyEvent(TransportFailed("audio_interruption"), nowMs);
      if appInBackground {
        return;
      }
      var _ := ScheduleReconnectOrFallback("audio_interruption", nowMs);
    }

    method OnAudioInterruptionEnded(shouldReconnect: bool, nowMs: i64)
      modifies this
      ensures Model() == Next(old(Model()), AudioInterruptionEnded(shouldReconnect), nowMs).0
    {
      if userInitiatedDisconnect {
        return;
      }
      if !shouldReconnect || appInBackground || state.link.fallback.active {
        return;
      }
      if !state.link.phase.Connected? && !state.link.phase.Connecting? {
        RequestConnect(false, nowMs);
      }
    }

    method OnTransportConnected(nowMs: i64) returns (frames: seq<ProtocolFrame>)
      modifies this
      ensures (Model(), Outbound(frames)) == Next(old(Model()), TransportUp, nowMs)
    {
      if appInBackground {
        reconnectDueAtMs := None;
        ApplyEvent(TransportDisconnected("backgrounded_before_handshake"), nowMs);
        return [];
      }
      userInitiatedDisconnect := false;
      reconnectAttempt := 0;
      reconnectDueAtMs := None;
      ApplyEvent(TransportConnected, nowMs);
      frames := HandshakeFrames(state, nowMs);
    }

    method OnTransportDisconnected(reason: string, nowMs: i64) returns (directive: Directive)
      modifies this
      ensures (Model(), Directed(directive)) == Next(old(Model()), TransportDown(reason), nowMs)
    {
      ApplyEvent(TransportDisconnected(reason), nowMs);
      if appInBackground {
        return NoDirective;
      }
      directive := ScheduleReconnectOrFallback(reason, nowMs);
    }

    method OnTransportFailure(message: string, nowMs: i64) returns (directive: Directive)
      modifies this
      ensures (Model(), Directed(directive)) == Next(old(Model()), TransportFault(message), nowMs)
    {
      ApplyEvent(TransportFailed(message), nowMs);
      if appInBackground {
        return NoDirective;
      }
      directive := ScheduleReconnectOrFallback(message, nowMs);
    }

    method OnSendFailure(message: string, nowMs: i64)
      modifies this
      ensures Model() == Next(old(Model()), SendFault(message), nowMs).0
    {
      ApplyEvent(FrameSendFailed(message), nowMs);
    }

    method OnManualDisconnect(nowMs: i64)
      modifies this
      ensures Model() == Next(old(Model()), ManualDisconnect, nowMs).0
    {
      userInitiatedDisconnect := true;
      reconnectDueAtMs := None;
      ApplyEvent(ManualDisconnected, nowMs);
    }

    method OnFrame(frame: ProtocolFrame, nowMs: i64) returns (outbound: seq<ProtocolFrame>)
      modifies this
      ensures (Model(), Outbound(outbound)) == Next(old(Model()), Inbound(frame), nowMs)
    {
      var participantId := ResolvedParticipantId(state.room.config);
      ApplyEvent(FrameReceived(frame), nowMs);
      outbound := [];
      if frame.Ping? {
        outbound := outbound + [Pong(nowMs)];
        assert outbound == [Pong(nowMs)];
      }
      if frame.E2eeKeyEpoch? {
        if HasRequiredSignature(frame.signature, state.room.config) && state.room.e2ee.currentEpoch >= frame.epoch {
          var ack := KeyRotationAck(frame.epoch, participantId, nowMs);
          outbound := outbound + [ack];
          assert outbound == [ack];
          ApplyEvent(FrameReceived(ack), nowMs);
        }
      }
    }

    method RecoverFromFallback(nowMs: i64)
      modifies this
      ensures Model() == Next(old(Model()), Operation.RecoverFromFallback, nowMs).0
    {
      userInitiatedDisconnect := false;
      reconnectAttempt := 0;
      reconnectDueAtMs := None;
      ApplyEvent(FallbackRecovered, nowMs);
      RequestConnect(false, nowMs);
    }

    method TakeReconnectIfDue(nowMs: i64) returns (fired: bool)
      modifies this
      ensures (Model(), Taken(fired)) == Next(old(Model()), Operation.TakeReconnectIfDue, nowMs)
    {
      if reconnectDueAtMs.None? {
        return false;
      }
      if nowMs < reconnectDueAtMs.value || userInitiatedDisconnect || state.link.fallback.active || appInBackground {
        return false;
      }
      reconnectDueAtMs := None;
      RequestConnect(false, nowMs);
      return true;
    }
  }
}
