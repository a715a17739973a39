/** Key rotation: the runtime acknowledges every epoch it accepts, at once, and nothing else. */
module KeyRotation {
  import opened Basics
  import opened SessionTypes
  import opened Reducer
  import opened RuntimeModel
  import opened RuntimeLaws
  import opened Identity
  import DeliveryOrder
  import Text

  predicate AnnouncesEpoch(config: MeetingConfig, op: Operation)
  {
    op.Inbound? && op.frame.E2eeKeyEpoch? && HasRequiredSignature(op.frame.signature, config)
  }

  /** The largest epoch properly announced in a run, or zero. */
  function LargestEpoch(config: MeetingConfig, calls: seq<Call>): int
  {
    if calls == [] then 0 else
      var rest := LargestEpoch(config, calls[..|calls| - 1]);
      var op := calls[|calls| - 1].op;
      if AnnouncesEpoch(config, op) then Max(rest, op.frame.epoch) else rest
  }

  lemma EpochEvent(s: SessionState, event: ProtocolEvent, nowMs: i64)
    requires !event.ConfigUpdated?
    ensures var next := Reduce(s, event, nowMs).room;
            && next.config == s.room.config
            && (!(event.FrameReceived? && (event.frame.E2eeKeyEpoch? || event.frame.KeyRotationAck?)) ==>
                  next.e2ee == s.room.e2ee)
  {
  }

  lemma LockstepStep(r: Runtime, op: Operation, nowMs: i64)
    requires r.state.room.e2ee.lastAckEpoch == r.state.room.e2ee.currentEpoch
    requires !(op.Inbound? && op.frame.KeyRotationAck?)
    ensures var (was, now) := (r.state.room, Next(r, op, nowMs).0.state.room);
            && now.config == was.config
            && now.e2ee.lastAckEpoch == now.e2ee.currentEpoch
            && now.e2ee.currentEpoch
            == if AnnouncesEpoch(was.config, op) then Max(was.e2ee.currentEpoch, op.frame.epoch)
               else was.e2ee.currentEpoch
  {
    if op.Inbound? {
      DeliveryOrder.EpochStep(r.state, FrameReceived(op.frame), nowMs);
      if !op.frame.E2eeKeyEpoch? {
        EpochEvent(r.state, FrameReceived(op.frame), nowMs);
      }
    } else {
      OtherCallsKeepEpochs(r, op, nowMs);
    }
  }

  lemma OtherCallsKeepEpochs(r: Runtime, op: Operation, nowMs: i64)
    requires !op.Inbound?
    ensures var room := Next(r, op, nowMs).0.state.room;
            room.config == r.state.room.config && room.e2ee == r.state.room.e2ee
  {
    var events := CallReduces(r, op, nowMs);
    if |events| >= 1 {
      EpochEvent(r.state, events[0], nowMs);
      if |events| == 2 {
        EpochEvent(Reduce(r.state, events[0], nowMs), events[1], nowMs);
      }
    }
  }

  /**
   In every run without inbound acknowledgements, the acknowledged epoch is the current one and both are the largest
   epoch announced.
   */
  lemma {:induction false} Lockstep(config: MeetingConfig, backoff: seq<i64>, calls: seq<Call>)
    requires forall i :: 0 <= i < |calls| ==> !(calls[i].op.Inbound? && calls[i].op.frame.KeyRotationAck?)
    ensures var room := RunCalls(NewRuntime(config, backoff), calls).state.room;
            && room.config == config
            && room.e2ee.lastAckEpoch == room.e2ee.currentEpoch == LargestEpoch(config, calls)
  {
    if calls != [] {
      var n := |calls| - 1;
      Lockstep(config, backoff, calls[..n]);
      LockstepStep(RunCalls(NewRuntime(config, backoff), calls[..n]), calls[n].op, calls[n].nowMs);
    }
  }

  /**
   An acknowledgement goes out exactly in answer to a properly announced epoch, and names that epoch and this
   participant.
   */
  lemma AckAnswersEpoch(r: Runtime, op: Operation, nowMs: i64, frame: ProtocolFrame)
    requires frame.KeyRotationAck?
    ensures var reply := Next(r, op, nowMs).1;
            reply.Outbound? && frame in reply.frames <==>
              && AnnouncesEpoch(r.state.room.config, op)
              && frame == KeyRotationAck(op.frame.epoch, ResolvedParticipantId(r.state.room.config), nowMs)
  {
    if op.Inbound? && op.frame.E2eeKeyEpoch? {
      DeliveryOrder.EpochStep(r.state, FrameReceived(op.frame), nowMs);
      EpochEvent(r.state, FrameReceived(op.frame), nowMs);
    }
  }

  /** Every ping is answered by one pong carrying the clock, and by nothing else. */
  lemma PongAnswersPing(r: Runtime, op: Operation, nowMs: i64)
    ensures var reply := Next(r, op, nowMs).1;
            (exists t :: reply.Outbound? && Pong(t) in reply.frames) <==> op.Inbound? && op.frame.Ping?
    ensures op.Inbound? && op.frame.Ping? ==> Next(r, op, nowMs).1 == Outbound([Pong(nowMs)])
  {
    if op.Inbound? && op.frame.Ping? {
      assert Pong(nowMs) in Next(r, op, nowMs).1.frames;
    }
  }

  /**
   A new transport in the foreground opens with a handshake that repeats the configuration and the resume token, then a
   capability frame under the same id, then the payment terms when settlement is required.
   */
  lemma OpeningFrames(r: Runtime, nowMs: i64)
    ensures var frames := Next(r, TransportUp, nowMs).1.frames;
            var config := r.state.room.config;
            if r.inBackground then frames == [] else
              && |frames| == (if config.requirePaymentSettlement then 3 else 2)
              && frames[0].Handshake? && frames[0].resume == r.state.room.resumeToken
              && IsId(frames[0].participantId) && frames[0].sentAtMs == nowMs
              && frames[1] == DeviceCapability(frames[0].participantId, ["h264", "vp9"], config.supportsHdrCapture,
                                               config.supportsHdrRender, 4, nowMs)
              && (frames[0].preferredProfile.Hdr? <==> frames[0].hdrCapture && frames[0].hdrRender)
              && (frames[0].hdrCapture, frames[0].hdrRender) == (config.supportsHdrCapture, config.supportsHdrRender)
              && (frames[0].roomId, frames[0].participantName, frames[0].walletIdentity)
                 == (config.roomId, config.participantName, config.walletIdentity)
              && (|frames| == 3 ==> frames[2] == PaymentPolicy(true, Some("nexus://payment-policy")))
  {
    var config := r.state.room.config;
    NormalizedIsId(if !Text.IsBlank(config.participantId) then config.participantId else config.participantName);
  }
}
