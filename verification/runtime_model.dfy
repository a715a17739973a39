/** The session runtime as a value: its fields, its calls and the state and reply each call leads to. */
module RuntimeModel {
  import opened Basics
  import opened SessionTypes
  import opened Reducer
  import opened Identity

  datatype Runtime = Runtime(
    state: SessionState,
    backoff: seq<i64>,
    attempt: nat,
    due: Option<i64>,
    userDisconnected: bool,
    inBackground: bool)

  datatype Directive =
    | NoDirective
    | ReconnectScheduled(attempt: nat, dueAtMs: i64)
    | FallbackEntered(reason: FallbackReason)

  datatype Operation =
    | Connect
    | AppForegrounded
    | AppBackgrounded
    | ConnectivityChanged(available: bool)
    | AudioInterruptionBegan
    | AudioInterruptionEnded(shouldReconnect: bool)
    | AudioRouteChanged
    | TransportUp
    | TransportDown(reason: string)
    | TransportFault(message: string)
    | SendFault(message: string)
    | ManualDisconnect
    | Inbound(frame: ProtocolFrame)
    | RecoverFromFallback
    | TakeReconnectIfDue

  datatype Reply =
    | NoReply
    | Outbound(frames: seq<ProtocolFrame>)
    | Directed(directive: Directive)
    | Taken(fired: bool)

  function NewRuntime(config: MeetingConfig, backoff: seq<i64>): Runtime
  {
    Runtime(InitialState(config), backoff, 0, None, false, false)
  }

  function Apply(r: Runtime, event: ProtocolEvent, nowMs: i64): Runtime
  {
    r.(state := Reduce(r.state, event, nowMs))
  }

  function RequestConnect(r: Runtime, resetBackoff: bool, nowMs: i64): Runtime
  {
    if r.inBackground then r else
      Apply(r.(userDisconnected := false, due := None, attempt := if resetBackoff then 0 else r.attempt),
            ConnectRequested, nowMs)
  }

  function ScheduleOrFallback(r: Runtime, trigger: string, nowMs: i64): (Runtime, Directive)
  {
    if r.userDisconnected || r.state.link.fallback.active || r.inBackground || r.due.Some? then
      (r, NoDirective)
    else if r.attempt >= |r.backoff| then
      var reason := ByExhaustion(r.attempt, trigger);
      (Apply(r, ProtocolEvent.FallbackActivated(reason), nowMs), FallbackEntered(reason))
    else
      var dueAt := SatAddI64(nowMs, Max(0, r.backoff[r.attempt]));
      (r.(attempt := r.attempt + 1, due := Some(dueAt)), ReconnectScheduled(r.attempt + 1, dueAt))
  }

  function Fail(r: Runtime, event: ProtocolEvent, trigger: string, nowMs: i64): (Runtime, Directive)
  {
    var failed := Apply(r, event, nowMs);
    if r.inBackground then (failed, NoDirective) else ScheduleOrFallback(failed, trigger, nowMs)
  }

  function HandshakeFrames(state: SessionState, nowMs: i64): seq<ProtocolFrame>
  {
    var config := state.room.config;
    var id := ResolvedParticipantId(config);
    var capture, render := config.supportsHdrCapture, config.supportsHdrRender;
    [ Handshake(config.roomId, id, config.participantName, config.walletIdentity, state.room.resumeToken,
                if capture && render then Hdr else Sdr, capture, render, nowMs),
      DeviceCapability(id, ["h264", "vp9"], capture, render, 4, nowMs) ]
    + if config.requirePaymentSettlement then [PaymentPolicy(true, Some("nexus://payment-policy"))] else []
  }

  function Receive(r: Runtime, frame: ProtocolFrame, nowMs: i64): (Runtime, seq<ProtocolFrame>)
  {
    var received := Apply(r, FrameReceived(frame), nowMs);
    if frame.Ping? then
      (received, [Pong(nowMs)])
    else if frame.E2eeKeyEpoch? && HasRequiredSignature(frame.signature, received.state.room.config)
            && received.state.room.e2ee.currentEpoch >= frame.epoch then
      var ack := KeyRotationAck(frame.epoch, ResolvedParticipantId(r.state.room.config), nowMs);
      (Apply(received, FrameReceived(ack), nowMs), [ack])
    else
      (received, [])
  }

  predicate IsIdle(phase: ConnectionPhase)
  {
    !phase.Connected? && !phase.Connecting?
  }

  function Next(r: Runtime, op: Operation, nowMs: i64): (Runtime, Reply)
  {
    match op
    case Connect =>
      (RequestConnect(r, true, nowMs), NoReply)
    case AppForegrounded =>
      if r.userDisconnected then (r, NoReply) else
        var front := r.(inBackground := false);
        var phase := r.state.link.phase;
        (if phase.Disconnected? || phase.Degraded? || phase.Error? then RequestConnect(front, false, nowMs)
         else front, NoReply)
    case AppBackgrounded =>
      var back := r.(inBackground := true, due := None);
      var phase := r.state.link.phase;
      (if !r.userDisconnected && (phase.Connected? || phase.Connecting? || phase.Degraded?)
       then Apply(back, TransportDisconnected("app_backgrounded"), nowMs) else back, NoReply)
    case ConnectivityChanged(available) =>
      if r.userDisconnected then (r, NoReply)
      else if !available then
        (Fail(r, TransportFailed("network_unavailable"), "network_unavailable", nowMs).0, NoReply)
      else if !r.inBackground && IsIdle(r.state.link.phase) && !r.state.link.fallback.active then
        (RequestConnect(r, false, nowMs), NoReply)
      else (r, NoReply)
    case AudioInterruptionBegan =>
      if r.userDisconnected then (r, NoReply) else
        (Fail(r, TransportFailed("audio_interruption"), "audio_interruption", nowMs).0, NoReply)
    case AudioInterruptionEnded(shouldReconnect) =>
      if !r.userDisconnected && shouldReconnect && !r.inBackground && !r.state.link.fallback.active
         && IsIdle(r.state.link.phase)
      then (RequestConnect(r, false, nowMs), NoReply)
      else (r, NoReply)
    case AudioRouteChanged =>
      (r, NoReply)
    case TransportUp =>
      if r.inBackground then
        (Apply(r.(due := None), TransportDisconnected("backgrounded_before_handshake"), nowMs), Outbound([]))
      else
        var up := Apply(r.(userDisconnected := false, attempt := 0, due := None), TransportConnected, nowMs);
        (up, Outbound(HandshakeFrames(up.state, nowMs)))
    case TransportDown(reason) =>
      var (next, directive) := Fail(r, TransportDisconnected(reason), reason, nowMs);
      (next, Directed(directive))
    case TransportFault(message) =>
      var (next, directive) := Fail(r, TransportFailed(message), message, nowMs);
      (next, Directed(directive))
    case SendFault(message) =>
      (Apply(r, FrameSendFailed(message), nowMs), NoReply)
    case ManualDisconnect =>
      (Apply(r.(userDisconnected := true, due := None), ManualDisconnected, nowMs), NoReply)
    case Inbound(frame) =>
      var (next, frames) := Receive(r, frame, nowMs);
      (next, Outbound(frames))
    case RecoverFromFallback =>
      var cleared := r.(userDisconnected := false, attempt := 0, due := None);
      (RequestConnect(Apply(cleared, FallbackRecovered, nowMs), false, nowMs), NoReply)
    case TakeReconnectIfDue =>
      if r.due.None? || nowMs < r.due.value || r.userDisconnected || r.state.link.fallback.active || r.inBackground then
        (r, Taken(false))
      else
        (RequestConnect(r.(due := None), false, nowMs), Taken(true))
  }
}
