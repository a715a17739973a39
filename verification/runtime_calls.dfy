/** What each call of the runtime does to its flags, its timer and its session. */
module RuntimeCalls {
  import opened Basics
  import opened SessionTypes
  import opened Reducer
  import opened RuntimeModel

  predicate IsLive(phase: ConnectionPhase)
  {
    phase.Connected? || phase.Connecting?
  }

  // ----- Flags -----

  /** The background flag is set by going there, and cleared by coming back unless the user disconnected. */
  lemma BackgroundExactly(r: Runtime, op: Operation, nowMs: i64)
    ensures Next(r, op, nowMs).0.inBackground <==>
            op.AppBackgrounded? || (r.inBackground && !(op.AppForegrounded? && !r.userDisconnected))
  {
  }

  /** The user's disconnect is cleared by a recovery, and in the foreground by a connect or a new transport. */
  lemma UserDisconnectExactly(r: Runtime, op: Operation, nowMs: i64)
    ensures Next(r, op, nowMs).0.userDisconnected <==>
            || op.ManualDisconnect?
            || (r.userDisconnected && !op.RecoverFromFallback?
                && !((op.Connect? || op.TransportUp?) && !r.inBackground))
  {
  }

  // ----- Requests for a connection -----

  /** A session that asks for a connection: connecting, without handshake, error or timer, everything else as it was. */
  ghost predicate AsksAgain(before: Runtime, after: Runtime)
  {
    && after.state.link == Link(Connecting, before.state.link.fallback, None)
    && after.state.room == before.state.room.(handshakeComplete := false)
    && after.due.None? && after.attempt == before.attempt && after.backoff == before.backoff
    && !after.userDisconnected && after.inBackground == before.inBackground
  }

  /** A connect in the foreground asks again with a fresh budget; in the background it does nothing. */
  lemma ConnectExactly(r: Runtime, nowMs: i64)
    ensures var next := Next(r, Connect, nowMs).0;
            if r.inBackground then next == r else AsksAgain(r.(attempt := 0), next)
  {
  }

  /**
   A network that comes back, or an interruption that ends and asks for it, revives exactly the sessions that are down,
   in the foreground, outside fallback and not ended by the user.
   */
  predicate IsRevived(r: Runtime)
  {
    !r.userDisconnected && !r.inBackground && !r.state.link.fallback.active && !IsLive(r.state.link.phase)
  }

  /** A fresh runtime is down but not parked: the first network to come revives it, with its whole budget. */
  lemma FreshExactly(config: MeetingConfig, backoff: seq<i64>, nowMs: i64)
    ensures var begun := NewRuntime(config, backoff);
            && IsRevived(begun) && AsksAgain(begun, Next(begun, ConnectivityChanged(true), nowMs).0)
            && begun.state == InitialState(config) && (begun.backoff, begun.attempt, begun.due) == (backoff, 0, None)
  {
  }

  lemma ConnectivityExactly(r: Runtime, nowMs: i64)
    ensures var next := Next(r, ConnectivityChanged(true), nowMs).0;
            if IsRevived(r) then AsksAgain(r, next) else next == r
  {
  }

  lemma InterruptionEndExactly(r: Runtime, shouldReconnect: bool, nowMs: i64)
    ensures var next := Next(r, AudioInterruptionEnded(shouldReconnect), nowMs).0;
            if shouldReconnect && IsRevived(r) then AsksAgain(r, next) else next == r
  {
  }

  /**
   Coming to the foreground asks again for a session that is disconnected, degraded or in error, unless the user
   disconnected.
   */
  lemma ForegroundExactly(r: Runtime, nowMs: i64)
    ensures var next, phase := Next(r, AppForegrounded, nowMs).0, r.state.link.phase;
            if r.userDisconnected then next == r
            else if IsLive(phase) || phase.FallbackActive? then next == r.(inBackground := false)
            else AsksAgain(r.(inBackground := false), next)
  {
  }

  /** A reconnect that fires asks again; one that does not changes nothing. */
  lemma ReconnectExactly(r: Runtime, nowMs: i64)
    ensures var (next, reply) := Next(r, TakeReconnectIfDue, nowMs);
            if r.due.Some? && r.due.value <= nowMs && !r.userDisconnected && !r.inBackground
            && !r.state.link.fallback.active
            then reply == Taken(true) && AsksAgain(r, next)
            else reply == Taken(false) && next == r
  {
  }

  /**
   A recovery ends the fallback and, in the foreground, asks again with a fresh budget; in the background it leaves the
   session disconnected.
   */
  lemma RecoveryExactly(r: Runtime, nowMs: i64)
    ensures var next := Next(r, RecoverFromFallback, nowMs).0;
            && !next.state.link.fallback.active && next.state.link.fallback.recoveredAtMs == Some(nowMs)
            && next.state.link.phase == (if r.inBackground then Disconnected else Connecting)
            && next.state.room == r.state.room.(handshakeComplete := r.inBackground && r.state.room.handshakeComplete)
            && (next.attempt, next.due, next.userDisconnected) == (0, None, false)
  {
  }

  // ----- Losses -----

  /** A transport failure is on display, with the text of its code, its reason and its time. */
  predicate Shows(link: Link, code: string, reason: string, nowMs: i64)
  {
    && link.phase.Degraded? && link.lastError.Some?
    && var error := link.lastError.value;
       error == SessionError(TransportFailure, error.code, Supplied(reason), nowMs) && CodeText(error.code) == code
  }

  /** A session loses its transport: its handshake, and outside fallback its phase, with the reason as its error. */
  ghost predicate LosesTransport(before: SessionState, after: SessionState, code: string, reason: string, nowMs: i64)
  {
    && after.room == before.room.(handshakeComplete := false)
    && after.link.fallback == before.link.fallback
    && if before.link.fallback.active then
         after.link.phase.FallbackActive? && after.link.lastError == before.link.lastError
       else
         Shows(after.link, code, reason, nowMs)
  }

  /**
   Going to the background drops the timer, and a session that is up, coming up or degraded loses its transport unless
   the user disconnected.
   */
  lemma BackgroundSuspends(r: Runtime, nowMs: i64)
    ensures var next, phase := Next(r, AppBackgrounded, nowMs).0, r.state.link.phase;
            && (next.due, next.attempt, next.userDisconnected, next.backoff)
               == (None, r.attempt, r.userDisconnected, r.backoff)
            && if !r.userDisconnected && (IsLive(phase) || phase.Degraded?)
               then LosesTransport(r.state, next.state, "transport_disconnected", "app_backgrounded", nowMs)
               else next.state == r.state
  {
  }

  /** The reason a failure gives, and the code it is recorded under. */
  function FailureCode(op: Operation): Option<(string, string)>
  {
    match op
    case TransportDown(reason) => Some(("transport_disconnected", reason))
    case TransportFault(message) => Some(("transport_failure", message))
    case AudioInterruptionBegan => Some(("transport_failure", "audio_interruption"))
    case ConnectivityChanged(available) => if available then None
                                           else Some(("transport_failure", "network_unavailable"))
    case _ => None
  }

  /** A session enters fallback for want of attempts. */
  predicate Exhausted(before: Runtime, after: SessionState, reason: string)
  {
    && after.room == before.state.room.(handshakeComplete := false)
    && after.link.phase.FallbackActive?
    && after.link.fallback.reason == Some(ByExhaustion(before.attempt, reason))
    && after.link.lastError.Some? && CodeText(after.link.lastError.value.code) == "fallback_activated"
  }

  /** A runtime fails: it loses the transport or, when that spends the budget, enters fallback. */
  ghost predicate Fails(r: Runtime, next: Runtime, code: string, reason: string, nowMs: i64)
  {
    && (next.userDisconnected, next.inBackground, next.backoff) == (r.userDisconnected, r.inBackground, r.backoff)
    && if next.state.link.fallback.active == r.state.link.fallback.active
       then LosesTransport(r.state, next.state, code, reason, nowMs)
       else Exhausted(r, next.state, reason)
  }

  lemma DisconnectFails(r: Runtime, reason: string, nowMs: i64)
    ensures Fails(r, Fail(r, TransportDisconnected(reason), reason, nowMs).0, "transport_disconnected", reason, nowMs)
  {
  }

  lemma FaultFails(r: Runtime, message: string, nowMs: i64)
    ensures Fails(r, Fail(r, TransportFailed(message), message, nowMs).0, "transport_failure", message, nowMs)
  {
  }

  /**
   A failure loses the transport and, if that spends the budget, enters fallback; interruptions and networks are ignored
   after a user disconnect.
   */
  lemma FailureExactly(r: Runtime, op: Operation, nowMs: i64)
    requires FailureCode(op).Some?
    ensures var (next, (code, reason)) := (Next(r, op, nowMs).0, FailureCode(op).value);
            if r.userDisconnected && (op.AudioInterruptionBegan? || op.ConnectivityChanged?) then next == r
            else Fails(r, next, code, reason, nowMs)
  {
    match op
    case TransportDown(reason) => DisconnectFails(r, reason, nowMs);
    case TransportFault(message) => FaultFails(r, message, nowMs);
    case AudioInterruptionBegan => FaultFails(r, "audio_interruption", nowMs);
    case ConnectivityChanged(_) => FaultFails(r, "network_unavailable", nowMs);
  }

  /** A failed send degrades a session outside fallback without touching its handshake, its timer or its budget. */
  lemma SendFailureExactly(r: Runtime, message: string, nowMs: i64)
    ensures var next := Next(r, SendFault(message), nowMs).0;
            && next == r.(state := next.state) && next.state.room == r.state.room
            && next.state.link.fallback == r.state.link.fallback
            && if r.state.link.fallback.active then next.state.link.phase.FallbackActive?
               else Shows(next.state.link, "send_failed", message, nowMs)
  {
  }

  /** A manual disconnect leaves a disconnected session without handshake, error or timer. */
  lemma ManualDisconnectExactly(r: Runtime, nowMs: i64)
    ensures var next := Next(r, ManualDisconnect, nowMs).0;
            && next.state.link == Link(Disconnected, r.state.link.fallback, None)
            && next.state.room == r.state.room.(handshakeComplete := false)
            && (next.attempt, next.due) == (r.attempt, None)
  {
  }

  /** A new transport is kept in the foreground, where it renews the budget, and lost at once in the background. */
  lemma TransportUpExactly(r: Runtime, nowMs: i64)
    ensures var next := Next(r, TransportUp, nowMs).0;
            && next.due.None?
            && if r.inBackground then
                 && next.attempt == r.attempt
                 && LosesTransport(r.state, next.state, "transport_disconnected", "backgrounded_before_handshake",
                                   nowMs)
               else
                 && next.attempt == 0 && next.state.room == r.state.room
                 && next.state.link == Link(Connecting, r.state.link.fallback, None)
  {
  }

  /** A frame changes the session only, never timer, budget or flags. */
  lemma FramesLeaveTheTimer(r: Runtime, frame: ProtocolFrame, nowMs: i64)
    ensures var next := Next(r, Inbound(frame), nowMs).0; next == r.(state := next.state)
    ensures Next(r, AudioRouteChanged, nowMs).0 == r
  {
  }
}
