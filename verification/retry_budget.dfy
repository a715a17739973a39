/** The retry budget, the life of a scheduled reconnect, and the flags that suppress both. */
module RetryBudget {
  import opened Basics
  import opened SessionTypes
  import opened RuntimeModel
  import opened RuntimeLaws
  import SessionInvariants

  // ----- Budget -----

  /** The calls that start the budget over: a connect or a new transport in the foreground, and every recovery. */
  predicate Resets(r: Runtime, op: Operation)
  {
    ((op.Connect? || op.TransportUp?) && !r.inBackground) || op.RecoverFromFallback?
  }

  predicate Schedules(before: Runtime, after: Runtime)
  {
    before.due.None? && after.due.Some?
  }

  /** How many reconnects a run scheduled since it last started the budget over. */
  function ScheduledSinceReset(start: Runtime, calls: seq<Call>): nat
  {
    if calls == [] then 0 else
      var n := |calls| - 1;
      if Resets(RunCalls(start, calls[..n]), calls[n].op) then 0 else
        ScheduledSinceReset(start, calls[..n])
        + if Schedules(RunCalls(start, calls[..n]), RunCalls(start, calls)) then 1 else 0
  }

  /**
   A call schedules the next reconnect of the budget at its backoff from now, starts the budget over, or leaves it
   alone.
   */
  lemma AttemptStep(r: Runtime, op: Operation, nowMs: i64)
    ensures var next := Next(r, op, nowMs).0;
            && next.attempt == (if Resets(r, op) then 0 else if Schedules(r, next) then r.attempt + 1 else r.attempt)
            && (Schedules(r, next) ==>
                  && r.attempt < |r.backoff|
                  && next.due == Some(SatAddI64(nowMs, Max(0, r.backoff[r.attempt]))))
            && (r.due.Some? && next.due.Some? ==> next.due == r.due)
  {
  }

  /**
   The attempt counter is the number of reconnects scheduled since the budget last started over, and stays within the
   budget.
   */
  lemma {:induction false} AttemptCountsSchedules(config: MeetingConfig, backoff: seq<i64>, calls: seq<Call>)
    ensures var start := NewRuntime(config, backoff);
            RunCalls(start, calls).attempt == ScheduledSinceReset(start, calls) <= |backoff|
  {
    ReachableTimerInv(config, backoff, calls);
    if calls != [] {
      var n := |calls| - 1;
      AttemptCountsSchedules(config, backoff, calls[..n]);
      AttemptStep(RunCalls(NewRuntime(config, backoff), calls[..n]), calls[n].op, calls[n].nowMs);
    }
  }

  predicate IsFailure(op: Operation)
  {
    op.TransportDown? || op.TransportFault? || op.AudioInterruptionBegan? || (op.ConnectivityChanged? && !op.available)
  }

  /** Nothing keeps a failure from scheduling a reconnect. */
  predicate Unsuppressed(r: Runtime)
  {
    !r.userDisconnected && !r.inBackground && !r.state.link.fallback.active && r.due.None?
  }

  function Trigger(op: Operation): string
    requires IsFailure(op)
  {
    match op
    case TransportDown(reason) => reason
    case TransportFault(message) => message
    case AudioInterruptionBegan => "audio_interruption"
    case ConnectivityChanged(_) => "network_unavailable"
  }

  /**
   A failure schedules a reconnect exactly when it is unsuppressed and the budget is not spent, and enters fallback
   exactly when it is unsuppressed and the budget is spent.
   */
  lemma FailureSpendsBudget(r: Runtime, op: Operation, nowMs: i64)
    requires TimerInv(r) && IsFailure(op)
    ensures var next := Next(r, op, nowMs).0;
            && (Schedules(r, next) <==> Unsuppressed(r) && r.attempt < |r.backoff|)
            && (!r.state.link.fallback.active ==>
                  (next.state.link.fallback.active <==> Unsuppressed(r) && r.attempt == |r.backoff|))
            && (!r.state.link.fallback.active && next.state.link.fallback.active ==>
                  && next.state.link.fallback.reason == Some(ByExhaustion(|r.backoff|, Trigger(op)))
                  && next.state.link.fallback.activatedAtMs == Some(nowMs))
            && (!Unsuppressed(r) ==> next.attempt == r.attempt && next.due == r.due)
  {
  }

  /** What the caller is told about a lost transport is what happened to the timer and to the fallback. */
  lemma DirectiveTellsTruth(r: Runtime, op: Operation, nowMs: i64)
    requires op.TransportDown? || op.TransportFault?
    ensures var (next, reply) := Next(r, op, nowMs);
            && reply.Directed?
            && (Schedules(r, next) <==> reply.directive.ReconnectScheduled?)
            && (reply.directive.ReconnectScheduled? ==>
                  reply.directive.attempt == next.attempt && next.due == Some(reply.directive.dueAtMs))
            && (reply.directive.FallbackEntered? <==> !r.state.link.fallback.active && next.state.link.fallback.active)
            && (reply.directive.FallbackEntered? ==> next.state.link.fallback.reason == Some(reply.directive.reason))
  {
  }

  /** One failure and the reconnect that answers it. */
  datatype Cycle = Cycle(failure: Operation, failedAtMs: i64, retryAtMs: i64)

  function CycleCalls(cycles: seq<Cycle>): seq<Call>
  {
    if cycles == [] then [] else
      var last := cycles[|cycles| - 1];
      CycleCalls(cycles[..|cycles| - 1])
      + [Call(last.failure, last.failedAtMs)] + [Call(TakeReconnectIfDue, last.retryAtMs)]
  }

  ghost predicate Timely(backoff: seq<i64>, cycles: seq<Cycle>)
    requires |cycles| <= |backoff|
  {
    forall k :: 0 <= k < |cycles| ==>
      && IsFailure(cycles[k].failure)
      && cycles[k].retryAtMs >= SatAddI64(cycles[k].failedAtMs, Max(0, backoff[k]))
  }

  /**
   From a fresh budget, as many failures as the budget has entries are each answered by a reconnect, without fallback.
   */
  lemma {:induction false} BudgetLasts(start: Runtime, cycles: seq<Cycle>)
    requires Unsuppressed(start) && start.attempt == 0
    requires |cycles| <= |start.backoff| && Timely(start.backoff, cycles)
    ensures var r := RunCalls(start, CycleCalls(cycles));
            && Unsuppressed(r) && r.attempt == |cycles| && r.backoff == start.backoff
            && (cycles != [] ==> r.state.link.phase.Connecting? && LastReply(start, CycleCalls(cycles)) == Taken(true))
  {
    if cycles != [] {
      var n := |cycles| - 1;
      var earlier := CycleCalls(cycles[..n]);
      BudgetLasts(start, cycles[..n]);
      var failed := earlier + [Call(cycles[n].failure, cycles[n].failedAtMs)];
      var all := CycleCalls(cycles);
      assert failed[..|failed| - 1] == earlier;
      assert all[..|all| - 1] == failed;
      CycleStep(RunCalls(start, earlier), cycles[n]);
    }
  }

  lemma CycleStep(r: Runtime, cycle: Cycle)
    requires Unsuppressed(r) && r.attempt < |r.backoff| && IsFailure(cycle.failure)
    requires cycle.retryAtMs >= SatAddI64(cycle.failedAtMs, Max(0, r.backoff[r.attempt]))
    ensures var failed := Next(r, cycle.failure, cycle.failedAtMs).0;
            var (next, reply) := Next(failed, TakeReconnectIfDue, cycle.retryAtMs);
            && reply == Taken(true)
            && Unsuppressed(next) && next.attempt == r.attempt + 1 && next.backoff == r.backoff
            && next.state.link.phase.Connecting?
  {
  }

  /** The failure after the last entry of the budget is the one that enters fallback. */
  lemma BudgetRunsOut(start: Runtime, cycles: seq<Cycle>, failure: Operation, nowMs: i64)
    requires Unsuppressed(start) && start.attempt == 0 && TimerInv(start)
    requires |cycles| <= |start.backoff| && Timely(start.backoff, cycles)
    requires IsFailure(failure)
    ensures var r := Next(RunCalls(start, CycleCalls(cycles)), failure, nowMs).0;
            r.state.link.fallback.active <==> |cycles| == |start.backoff|
  {
    BudgetLasts(start, cycles);
    FailureSpendsBudget(RunCalls(start, CycleCalls(cycles)), failure, nowMs);
  }

  // ----- The life of a scheduled reconnect -----

  /** A reconnect fires exactly when one is pending and due and nothing suppresses it; firing consumes it. */
  lemma FiresOnTime(r: Runtime, nowMs: i64)
    requires TimerInv(r)
    ensures var (next, reply) := Next(r, TakeReconnectIfDue, nowMs);
            && reply == Taken(r.due.Some? && nowMs >= r.due.value && !r.state.link.fallback.active)
            && (reply == Taken(true) ==>
                  next.due.None? && next.attempt == r.attempt && next.state.link.phase.Connecting?)
            && (reply == Taken(false) ==> next == r)
  {
  }

  function CountScheduled(start: Runtime, calls: seq<Call>): nat
  {
    if calls == [] then 0 else
      var n := |calls| - 1;
      CountScheduled(start, calls[..n])
      + if Schedules(RunCalls(start, calls[..n]), RunCalls(start, calls)) then 1 else 0
  }

  function CountFired(start: Runtime, calls: seq<Call>): nat
  {
    if calls == [] then 0 else
      CountFired(start, calls[..|calls| - 1]) + if LastReply(start, calls) == Taken(true) then 1 else 0
  }

  /** Over any run no more reconnects fire than were scheduled, counting one that is still pending. */
  lemma {:induction false} FiredAtMostOnce(config: MeetingConfig, backoff: seq<i64>, calls: seq<Call>)
    ensures var start := NewRuntime(config, backoff);
            CountFired(start, calls) + (if RunCalls(start, calls).due.Some? then 1 else 0)
            <= CountScheduled(start, calls)
  {
    if calls != [] {
      var n := |calls| - 1;
      FiredAtMostOnce(config, backoff, calls[..n]);
      FiringConsumes(RunCalls(NewRuntime(config, backoff), calls[..n]), calls[n].op, calls[n].nowMs);
    }
  }

  lemma FiringConsumes(r: Runtime, op: Operation, nowMs: i64)
    ensures var (next, reply) := Next(r, op, nowMs);
            reply == Taken(true) ==> r.due.Some? && next.due.None? && op.TakeReconnectIfDue?
  {
  }

  // ----- Background and manual disconnects -----

  /** A runtime that the user disconnected and that then went to the background, or the other way round. */
  predicate Parked(r: Runtime)
  {
    r.userDisconnected && r.inBackground
  }

  /** A user disconnect and then the background park every runtime. */
  lemma ParkingIsReachable(r: Runtime, firstMs: i64, secondMs: i64)
    ensures Parked(Next(Next(r, ManualDisconnect, firstMs).0, AppBackgrounded, secondMs).0)
  {
  }

  /** In particular a fresh one. */
  lemma FreshRuntimeParks(config: MeetingConfig, backoff: seq<i64>, firstMs: i64, secondMs: i64)
    ensures var calls := [Call(ManualDisconnect, firstMs), Call(AppBackgrounded, secondMs)];
            Parked(RunCalls(NewRuntime(config, backoff), calls))
  {
    var first, second := Call(ManualDisconnect, firstMs), Call(AppBackgrounded, secondMs);
    assert [first, second][..1] == [first] && [first][..0] == [];
    ParkingIsReachable(NewRuntime(config, backoff), firstMs, secondMs);
    assert RunCalls(NewRuntime(config, backoff), [first])
           == Next(NewRuntime(config, backoff), ManualDisconnect, firstMs).0;
  }

  lemma ParkedStep(r: Runtime, op: Operation, nowMs: i64)
    requires TimerInv(r) && Parked(r)
    ensures var (next, reply) := Next(r, op, nowMs);
            && (Parked(next) <==> !op.RecoverFromFallback?)
            && next.due.None? && reply != Taken(true)
            && next.inBackground
  {
  }

  /**
   A parked runtime stays parked whatever is called, foregrounding and connecting included, until a fallback recovery;
   it schedules nothing and reconnects to nothing.
   */
  lemma {:induction false} ParkedForever(start: Runtime, calls: seq<Call>)
    requires TimerInv(start) && Parked(start)
    requires forall i :: 0 <= i < |calls| ==> !calls[i].op.RecoverFromFallback?
    ensures Parked(RunCalls(start, calls)) && TimerInv(RunCalls(start, calls))
    ensures calls != [] ==> RunCalls(start, calls).due.None? && LastReply(start, calls) != Taken(true)
  {
    if calls != [] {
      var n := |calls| - 1;
      ParkedForever(start, calls[..n]);
      CallKeepsTimerInv(RunCalls(start, calls[..n]), calls[n].op, calls[n].nowMs);
      ParkedStep(RunCalls(start, calls[..n]), calls[n].op, calls[n].nowMs);
    }
  }

  /**
   Coming to the foreground lifts the background flag exactly when the user did not disconnect, and then reconnects an
   idle session that is not in fallback.
   */
  lemma ForegroundReconnects(r: Runtime, nowMs: i64)
    requires SessionInvariants.Inv(r.state)
    ensures var next := Next(r, AppForegrounded, nowMs).0;
            && (next.inBackground <==> r.inBackground && r.userDisconnected)
            && (r.userDisconnected ==> next == r)
            && (!r.userDisconnected && !r.state.link.phase.FallbackActive? ==>
                  next.state.link.phase.Connecting? || next.state.link.phase.Connected?)
            && (!r.userDisconnected && r.state.link.phase.FallbackActive? ==> next.state == r.state)
  {
  }
}
