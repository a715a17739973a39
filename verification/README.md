# Kaigi: verified models of the session protocol, the stream framing and the call tooling

Kaigi is a conferencing system. This project models three of its components in Dafny and proves what they
promise over every input, every run and every reachable state.

**The client session** (`reducer`, `session_*`, `roster_laws`, `policies`, `authority`, `data_plane`,
`delivery_order`, `connection_laws`, `connection_history`, `runtime*`, `retry_budget`, `key_rotation`, `identity`,
`histories`). `Reducer.Reduce` is the deterministic reducer over eighteen kinds of frames and ten events.
`SessionRuntime.SessionRuntime` is the class that drives it with a reconnect timer, a backoff budget and the
background and user-disconnect flags; each of its methods is proved equal to `RuntimeModel.Next`, and runs of that
function carry the laws. The laws include a joint invariant, the independence of the meeting state from the connection
state, convergence under reordering, the life of policy errors, and the exact accounting of the retry budget.

**The frame codec** (`json`, `frame_codec`, `frame_format`, `frame_names`, `frame_decoding`, `frame_encoding`,
`frame_round_trip`, `bare_frames`). `FrameCodec.Decode` is the tolerant decoder with its alias groups, defaults and
nested payloads. `FrameFormat` states the format independently, as a table of the fields of every frame, and says when
a JSON document represents a frame. The encoder writes one such document, in canonical names; the decoder reads a
document as a frame exactly if it represents it.

**The stream framing** (`wire`, `wire_laws`). `Wire.FrameDecoder` is the incremental decoder over a growing buffer.
It refines a reading of the whole buffer at once, under every interleaving of pushes and polls.

**Join links, billing, telemetry and ranking** (`text`, `utf8`, `digits`, `percent*`, `query`, `join_link*`,
`nonce_cache`, `replay_laws`, `billing`, `telemetry`, `ranking`). The percent codec; the link printer with its printed
form; the link parser, with exactly the texts it reads as each payload and the reason it refuses every other one for;
expiry, signatures and the replay cache; the pay loop, loss and jitter accounting, and the order of feeds.

Integers have the width of the source: saturating operations saturate, and operations that are unchecked in a
release build wrap. Clocks, random nonces, digests, addresses and the frame serialisation are parameters.

## Where the code does not do what one might expect

- An active fallback does not imply the phase `FallbackActive`: `ConnectionHistory.FallbackShows` gives the exact
  condition and `ConnectionHistory.FallbackHides` a run.
- A policy failure after a recovered fallback reports its recovery time from the first activation, since recovery
  keeps the activation time: `ConnectionLaws.PolicyFallbackRto` gives the exact condition and
  `ConnectionLaws.RtoSpansEarlierFallback` a run.
- An inbound error frame may carry a code the reducer raises and withdraws by itself. Such a text is true exactly
  if it was on arrival and nothing it speaks of was checked since: `ConnectionHistory.ErrorTextExactly`.
- A runtime that is both in the background and disconnected by the user does not come back with the foreground:
  `RetryBudget.ParkedForever`, reached by `RetryBudget.FreshRuntimeParks`.
- Validation and registration of a link read the clock separately, and registration reads it before it takes the lock.
  A link can therefore be consumed again once some registration has read the clock from its expiry on:
  `ReplayLaws.ConsumedExactly`, `ReplayLaws.LateRegistration` and `ReplayLaws.LateLock`.
- Hexadecimal arguments lose one prefix when a link is read but also when it is checked, so a nonce with a doubled
  prefix is accepted and does not survive printing: `JoinLinkAcceptance.AcceptedRendersBack`.
- A clock that steps back makes the pay loop bill a stretch twice: `Billing.OwedExactlyIfMonotone` and
  `Billing.BilledExactly`; swinging often enough it saturates the counter: `Billing.SwingsSaturate`.
- The moving averages multiply a 64-bit average by seven and can wrap: `Telemetry.EwmaHeadroom`.
- The loss in percent saturates for very large losses, after which more loss can raise a score:
  `Ranking.LossPenaltyHeadroom`.

## Model

| member | source | states |
|---|---|---|
| `Reducer.ApplyPresenceDelta` | crates/kaigi-linux-client/src/lib.rs:1035-1059 | The three loops over joined, left and role changes leave the state the reducer's arm prescribes; a delta whose sequence number is not newer changes nothing |
| `RosterLaws.DeltaEntry` | crates/kaigi-linux-client/src/lib.rs:1041-1056 | After a presence delta, every id's entry is the one the three lists prescribe: the last join wins over the old entry, leaving wins over joining, the last role change applies only to whoever is present |
| `RosterLaws.DeltaKeepsKeys` | crates/kaigi-linux-client/src/lib.rs:1041-1056 | A roster keyed by its entries' ids stays keyed by them |
| `SessionRuns.RunConcat` | crates/kaigi-linux-client/src/lib.rs:1319-1420 | Running two lists of events one after the other is running their concatenation |
| `SessionInvariants.ReachableInv` | crates/kaigi-linux-client/src/lib.rs:903-1420 | In every reachable state: phase FallbackActive implies an active fallback; Connected implies a completed handshake and no fallback; Error implies no fallback and a policy-failure last error; a completed handshake implies a resume token; fallback is active exactly when a reason is stored, and then with an activation time; every roster key is its entry's id |
| `SessionInvariants.OnlyRecoveryEndsFallback` | crates/kaigi-linux-client/src/lib.rs:1401-1411 | An active fallback ends at a step exactly when the step is `FallbackRecovered` |
| `Policies.RejectionOutcome` | crates/kaigi-linux-client/src/lib.rs:885-931 | An unsigned or unauthorised control frame fails with the code for its kind and its fault, stamped with the clock; fallback or the error phase follows as configured, and earlier fallback reason and activation time stand |
| `Policies.PaymentOutcome` | crates/kaigi-linux-client/src/lib.rs:952-990 | A payment frame or a new configuration that leaves a required settlement outstanding fails with the code of its status |
| `Policies.KeyEpochOutcome` | crates/kaigi-linux-client/src/lib.rs:991-1016 | An accepted policy or epoch frame that leaves a required key epoch missing fails with that error |
| `Policies.PaymentWithdrawal` | crates/kaigi-linux-client/src/lib.rs:933-990 | A payment frame or configuration that leaves no settlement outstanding withdraws a payment error, restoring the phase; any other error and the whole connection stay |
| `Policies.KeyEpochWithdrawal` | crates/kaigi-linux-client/src/lib.rs:933-1016 | The same for key-epoch errors, on an accepted policy or epoch frame after which no epoch is missing |
| `Policies.RejectionText` | crates/kaigi-linux-client/src/lib.rs:1060-1228 | The text of a rejection is the kind of the frame followed by `_not_authorized` or `_signature_missing`, whichever check failed |
| `Policies.WhatStartsFallback` | crates/kaigi-linux-client/src/lib.rs:903-931 | Outside fallback, a step starts one if and only if it is a request, or it violates a policy while the configuration then in force prefers fallback |
| `Policies.CodeFamilies` | crates/kaigi-linux-client/src/lib.rs:933-1016 | The two families of codes withdrawn automatically are exactly those with the prefixes (and the one extra code) the source tests |
| `Policies.ErrorLifecycle` | crates/kaigi-linux-client/src/lib.rs:933-1016 | In every run without inbound error frames that carry one of those codes, a settlement error on display means settlement is configured, required and Pending or Blocked (matching the code), and a key-epoch error means encryption is required with no positive epoch |
| `Policies.ErrorTextLifecycle` | crates/kaigi-linux-client/src/lib.rs:933-1016 | In every run without such frames, the code text a user sees is true of the room |
| `Policies.OwnErrorLifecycle` | crates/kaigi-linux-client/src/lib.rs:933-1016 | In every run, whatever error frames come in, a settlement or key-epoch error that the reducer raised itself is on display only while its cause persists |
| `Policies.SpoofedText` | crates/kaigi-linux-client/src/lib.rs:1292-1311 | An inbound error frame shows a true code text if and only if what the code claims holds of the room |
| `Policies.SpoofedSettlement` | crates/kaigi-linux-client/src/lib.rs:1292-1311 | From the initial state of every configuration, every error frame with a settlement code shows a false text |
| `Policies.SpoofedKeyEpoch` | crates/kaigi-linux-client/src/lib.rs:1292-1311 | A run with a key epoch and then an error frame shows `e2ee_epoch_required` although there is a key epoch |
| `DataPlane.StepIndependence` | crates/kaigi-linux-client/src/lib.rs:1018-1420 | The meeting part of the next state depends on the meeting part of the state and on the event only: never on phase, fallback, last error or clock |
| `DataPlane.ErasureKeepsRoom` | crates/kaigi-linux-client/src/lib.rs:885-931 | Deleting any of the control frames that are rejected on arrival from a run of any length, with any clock readings, leaves the whole meeting part of the final state unchanged |
| `DataPlane.RejectionLeavesRoom` | crates/kaigi-linux-client/src/lib.rs:903-931 | A rejected control frame changes nothing in the meeting part |
| `DataPlane.ControlReachesTargetOnly` | crates/kaigi-linux-client/src/lib.rs:1060-1187 | An accepted role or moderation frame reaches its target only, in the one property it is about; a revoked role must be the one held; a kick removes |
| `DataPlane.NoSelfElevation` | crates/kaigi-linux-client/src/lib.rs:885-901 | With no moderator present, no list of events without presence deltas and without control frames in the name of the system changes roster or room policy |
| `Authority.SignatureExactly` | crates/kaigi-linux-client/src/lib.rs:885-892 | A demanded signature passes if and only if trimming leaves something of it |
| `Authority.AuthorityExactly` | crates/kaigi-linux-client/src/lib.rs:894-901 | Authority belongs to the system and to whoever stands in the roster as host or co-host, and to nobody else |
| `Authority.RejectedExactly` | crates/kaigi-linux-client/src/lib.rs:885-901 | A control frame is rejected if and only if its signature is demanded and says nothing, or its issuer is neither the system nor a host or co-host; a key epoch needs a signature only |
| `Authority.GrantExactly` | crates/kaigi-linux-client/src/lib.rs:1060-1087 | A grant that would change a present target gives it the role if and only if frame and issuer meet both conditions |
| `Authority.RevokeExactly` | crates/kaigi-linux-client/src/lib.rs:1088-1117 | A revocation of the role held makes the target a participant under the same conditions only |
| `Authority.KickExactly` | crates/kaigi-linux-client/src/lib.rs:1138-1187 | A kick or a denied admission removes a present target under the same conditions only |
| `Authority.ModerationExactly` | crates/kaigi-linux-client/src/lib.rs:1138-1187 | Any other moderation is done to a present target under the same conditions only |
| `Authority.PolicyExactly` | crates/kaigi-linux-client/src/lib.rs:1188-1228 | A policy of a later epoch takes force under the same conditions only |
| `Authority.KeyEpochExactly` | crates/kaigi-linux-client/src/lib.rs:1257-1274 | A later key epoch takes force if and only if a demanded signature says something |
| `Authority.RejectionNamesTheFault` | crates/kaigi-linux-client/src/lib.rs:903-931 | A rejection leaves the room alone and names a missing signature, if that is the fault, and missing authority otherwise |
| `DeliveryOrder.NewestSnapshotWins` | crates/kaigi-linux-client/src/lib.rs:1118-1137 | After any run, an id holds the snapshot with the largest epoch among those delivered and the one it started with |
| `DeliveryOrder.PermissionsConverge` | crates/kaigi-linux-client/src/lib.rs:1118-1137 | Two runs delivering the same set of snapshots in any order, with any repetition, among any other events, end with the same permissions, if participant and epoch determine the permissions |
| `DeliveryOrder.EpochIsMaximum` | crates/kaigi-linux-client/src/lib.rs:1257-1274 | The current key epoch after any run is the maximum of the first one and all accepted ones |
| `DeliveryOrder.OnlyFreshDeltasCount` | crates/kaigi-linux-client/src/lib.rs:1035-1059 | Deleting every presence delta that does not exceed all sequence numbers before it changes nothing in the final meeting state |
| `DeliveryOrder.PolicyHolds` | crates/kaigi-linux-client/src/lib.rs:1188-1228 | The room policy after any run is spelled out by the accepted policy frame of the highest epoch, the last one of that epoch, or is the first one if every accepted frame is older |
| `DeliveryOrder.RecordingHoldsLastWrite` | crates/kaigi-linux-client/src/lib.rs:1188-1256 | The recording notice is what some event announced, by a notice or by a policy that took force, and no later event announced |
| `DeliveryOrder.HandshakeHoldsLastWrite` | crates/kaigi-linux-client/src/lib.rs:1024-1034 | The resume token is that of some acknowledgement after which none came; the handshake stands if and only if the last event to concern it completed it, where connection requests, lost and failed transports and manual disconnects undo it |
| `DeliveryOrder.SettingsHoldLastWrite` | crates/kaigi-linux-client/src/lib.rs:1229-1249 | Configuration and media profile are those of some event after which none wrote them, or the first ones |
| `DeliveryOrder.PaymentHoldsLastWrite` | crates/kaigi-linux-client/src/lib.rs:1275-1291 | The payment terms are the last ones announced, and the status is the last one reported or reset by terms, whichever came later |
| `ConnectionLaws.FallbackAbsorbsLosses` | crates/kaigi-linux-client/src/lib.rs:1337-1381 | During fallback any number of transport losses leaves fallback and last error untouched |
| `ConnectionLaws.ViolationOutcome` | crates/kaigi-linux-client/src/lib.rs:903-931 | Every step that violates a policy fails with the code of that policy |
| `ConnectionLaws.FallbackHasItsCause` | crates/kaigi-linux-client/src/lib.rs:903-1420 | After any run, fallback is active exactly while its history gives a cause, and the reason on record is that cause: the last request since the last recovery, or else the first policy violation since then under a configuration that prefers fallback |
| `ConnectionHistory.FallbackShows` | crates/kaigi-linux-client/src/lib.rs:903-1420 | After any run the phase is FallbackActive if and only if fallback is active and some event restored it that no later event hid; a connection request, a new transport, a manual disconnect and an HDR offer answered with SDR hide it, and a request for fallback, a loss, a completed handshake, an inbound error, a policy violation and a check that withdraws an error restore it |
| `ConnectionHistory.FallbackHides` | crates/kaigi-linux-client/src/lib.rs:1325-1329 | The concrete run in which a requested fallback is active while the phase is Connecting |
| `ConnectionHistory.ErrorHasItsOrigin` | crates/kaigi-linux-client/src/lib.rs:903-1420 | After any run an error is on display if and only if some event raised exactly it, with its code, text and time, and no later event replaced or withdrew it |
| `ConnectionHistory.ErrorTextExactly` | crates/kaigi-linux-client/src/lib.rs:933-1311 | In every run that shows an error, the text of its code is true of the room if and only if the error does not come from an inbound error frame with one of the codes raised and withdrawn automatically, or what that code claims held when the frame arrived and no later event checked it |
| `ConnectionHistory.ConnectedHasItsOrigin` | crates/kaigi-linux-client/src/lib.rs:1018-1420 | After any run the phase is Connected if and only if fallback is not active and some event connected the session that no later event disconnected |
| `ConnectionLaws.ActivationTimeStands` | crates/kaigi-linux-client/src/lib.rs:903-931 | A recorded activation time stands through every run without an explicit activation |
| `ConnectionLaws.RequestedFallbackRto` | crates/kaigi-linux-client/src/lib.rs:1388-1411 | A requested fallback reports, on recovery, exactly the time since it was last requested, or zero on a clock that ran back, if the difference fits 64 bits |
| `ConnectionLaws.PolicyFallbackRto` | crates/kaigi-linux-client/src/lib.rs:903-931 | A fallback started by a policy failure reports the time since that failure if and only if no earlier activation is on record, or one at the same time, or neither lies in the past |
| `ConnectionLaws.RtoSpansEarlierFallback` | crates/kaigi-linux-client/src/lib.rs:1401-1411 | The concrete run in which the second recovery reports 110 ms for a fallback of 10 ms |
| `Identity.NormalizedIsId` | crates/kaigi-linux-client/src/lib.rs:2039-2065 | A normalised participant id is never empty, uses only `a-z`, `0-9`, `-` and `_`, and is its own normalisation |
| `Identity.KeptOneByOne` | crates/kaigi-linux-client/src/lib.rs:2039-2065 | Characters are kept independently: letters in small, digits, dashes and underscores as they are, white space as a dash, the Kelvin sign and the dotted capital I as the letters they lower-case into, and nothing else |
| `Identity.NormalizesExactly` | crates/kaigi-linux-client/src/lib.rs:2039-2065 | An id is what is kept of the trimmed text, or `participant` if nothing is; a text that is an id already is its own |
| `Text.WhiteSpaceExactly` | crates/kaigi-linux-client/src/lib.rs:2039-2065 | White space, as trimming and the id normaliser see it, is one of 25 characters |
| `SessionRuntime.SessionRuntime.constructor` | crates/kaigi-linux-client/src/lib.rs:1466-1492 | A fresh runtime has the initial state, no attempt used, no timer and no flag set |
| `SessionRuntime.SessionRuntime.RequestConnect` | crates/kaigi-linux-client/src/lib.rs:1837-1858 | In the foreground clears the user flag and the timer, starts the budget over when asked, and applies `ConnectRequested`; nothing in the background |
| `SessionRuntime.SessionRuntime.ScheduleReconnectOrFallback` | crates/kaigi-linux-client/src/lib.rs:1795-1835 | Suppressed in the background, after a user disconnect and in fallback; otherwise schedules the next entry of the budget, keeps a pending one, or enters fallback |
| `SessionRuntime.SessionRuntime.ConnectRequestedByUser` | crates/kaigi-linux-client/src/lib.rs:1502-1504 | Requests a connection with a fresh budget |
| `SessionRuntime.SessionRuntime.OnAppForegrounded` | crates/kaigi-linux-client/src/lib.rs:1506-1520 | Returns before clearing the background flag when the user disconnected; otherwise clears it and reconnects an idle session |
| `SessionRuntime.SessionRuntime.OnAppBackgrounded` | crates/kaigi-linux-client/src/lib.rs:1522-1542 | Sets the flag and drops the timer; unless the user disconnected, a session that is connected, connecting or degraded loses its transport |
| `SessionRuntime.SessionRuntime.OnConnectivityChanged` | crates/kaigi-linux-client/src/lib.rs:1544-1585 | Ignored after a user disconnect; otherwise reconnects an idle foreground session outside fallback when connectivity returns, and fails the transport and consults the budget when it goes |
| `SessionRuntime.SessionRuntime.OnAudioInterruptionBegan` | crates/kaigi-linux-client/src/lib.rs:1587-1608 | Ignored after a user disconnect; otherwise fails the transport and, in the foreground, consults the budget |
| `SessionRuntime.SessionRuntime.OnAudioInterruptionEnded` | crates/kaigi-linux-client/src/lib.rs:1610-1636 | Reconnects an idle session only when asked, in the foreground, outside fallback and without a user disconnect |
| `SessionRuntime.SessionRuntime.OnTransportConnected` | crates/kaigi-linux-client/src/lib.rs:1643-1662 | In the foreground clears the user flag, the budget and the timer and returns the opening frames; in the background the transport counts as lost and nothing is sent |
| `SessionRuntime.SessionRuntime.OnTransportDisconnected` | crates/kaigi-linux-client/src/lib.rs:1664-1690 | Applies the loss and returns the directive of the budget |
| `SessionRuntime.SessionRuntime.OnTransportFailure` | crates/kaigi-linux-client/src/lib.rs:1692-1714 | Applies the failure and returns the directive of the budget |
| `SessionRuntime.SessionRuntime.OnSendFailure` | crates/kaigi-linux-client/src/lib.rs:1716-1720 | Applies the failure and leaves the timer alone |
| `SessionRuntime.SessionRuntime.OnManualDisconnect` | crates/kaigi-linux-client/src/lib.rs:1722-1727 | Sets the user flag and drops the timer before the event is applied |
| `SessionRuntime.SessionRuntime.OnFrame` | crates/kaigi-linux-client/src/lib.rs:1729-1765 | Applies the frame; a ping is answered by a pong, and an epoch frame that passes the signature check by an acknowledgement that is applied as well |
| `SessionRuntime.SessionRuntime.RecoverFromFallback` | crates/kaigi-linux-client/src/lib.rs:1767-1774 | Clears the user flag, the budget and the timer, applies the recovery and requests a connection |
| `SessionRuntime.SessionRuntime.TakeReconnectIfDue` | crates/kaigi-linux-client/src/lib.rs:1776-1793 | Fires exactly when due and unsuppressed, consuming the timer and requesting a connection |
| `RuntimeLaws.ReachableTimerInv` | crates/kaigi-linux-client/src/lib.rs:1722-1835 | In every reachable runtime a pending reconnect implies foreground, no user disconnect and at least one attempt used; the attempt counter never exceeds the budget |
| `RuntimeLaws.ReachableSessionInv` | crates/kaigi-linux-client/src/lib.rs:1465-1912 | Every session state a runtime reaches satisfies the joint session invariant |
| `RuntimeLaws.CallReduces` | crates/kaigi-linux-client/src/lib.rs:1908-1912 | Every runtime call is at most two reducer steps on the session state |
| `RetryBudget.AttemptCountsSchedules` | crates/kaigi-linux-client/src/lib.rs:1795-1858 | The attempt counter equals the number of reconnects scheduled since the budget last started over, and never exceeds its length |
| `RetryBudget.AttemptStep` | crates/kaigi-linux-client/src/lib.rs:1795-1835 | The k-th reconnect is due at now plus the k-th backoff, negative backoffs read as zero, saturating; a pending timer is neither moved nor paid for again |
| `RetryBudget.FailureSpendsBudget` | crates/kaigi-linux-client/src/lib.rs:1795-1835 | A failure schedules if and only if it is unsuppressed with budget left, and enters fallback if and only if it is unsuppressed with the budget spent, recording the reason and the time; unsuppressed means foreground, no user disconnect, no fallback and no reconnect pending |
| `RetryBudget.DirectiveTellsTruth` | crates/kaigi-linux-client/src/lib.rs:1795-1835 | The directive returned says exactly what happened to timer and fallback |
| `RetryBudget.BudgetLasts` | crates/kaigi-linux-client/src/lib.rs:1795-1858 | From a fresh budget, as many failures as it has entries are each answered by a timely reconnect, without fallback |
| `RetryBudget.BudgetRunsOut` | crates/kaigi-linux-client/src/lib.rs:1800-1816 | The failure after the last entry is the one that enters fallback, and no earlier one |
| `RetryBudget.FiresOnTime` | crates/kaigi-linux-client/src/lib.rs:1776-1793 | A reconnect fires if and only if one is pending, due, and neither background, user disconnect nor fallback suppresses it; firing consumes it |
| `RetryBudget.FiredAtMostOnce` | crates/kaigi-linux-client/src/lib.rs:1776-1835 | Over any run, reconnects fired plus one pending never exceed reconnects scheduled |
| `RetryBudget.ParkedForever` | crates/kaigi-linux-client/src/lib.rs:1506-1520 | A runtime with both the user's disconnect and the background flag set stays that way, without a timer and without a reconnect, through every run without a recovery |
| `RetryBudget.FreshRuntimeParks` | crates/kaigi-linux-client/src/lib.rs:1522-1542 | A manual disconnect and then the background lead a fresh runtime there |
| `RetryBudget.ForegroundReconnects` | crates/kaigi-linux-client/src/lib.rs:1506-1520 | Coming to the foreground lifts the background flag if and only if the user did not disconnect, and then a session whose phase is not FallbackActive is connecting or connected |
| `KeyRotation.Lockstep` | crates/kaigi-linux-client/src/lib.rs:1257-1274 | In every run without inbound acknowledgements the acknowledged epoch is the current one, and both are the maximum of 0 and all properly announced epochs |
| `KeyRotation.AckAnswersEpoch` | crates/kaigi-linux-client/src/lib.rs:1729-1765 | An acknowledgement goes out if and only if the epoch frame was accepted, naming its epoch and this participant |
| `KeyRotation.PongAnswersPing` | crates/kaigi-linux-client/src/lib.rs:1729-1765 | A pong goes out if and only if a ping came in, and then alone |
| `KeyRotation.OpeningFrames` | crates/kaigi-linux-client/src/lib.rs:1860-1899 | A new transport opens with a handshake that carries configuration and resume token, then a capability frame under the same id with the fixed codecs and four streams, then, when settlement is required, the payment terms with their fixed destination |
| `RuntimeCalls.BackgroundExactly` | crates/kaigi-linux-client/src/lib.rs:1506-1542 | The background flag is set by going there, and cleared exactly by a return to the foreground without user disconnect |
| `RuntimeCalls.UserDisconnectExactly` | crates/kaigi-linux-client/src/lib.rs:1502-1793 | The user's disconnect is cleared exactly by a recovery, and in the foreground by a connect or a new transport |
| `RuntimeCalls.ConnectExactly` | crates/kaigi-linux-client/src/lib.rs:1502-1504 | A connect in the foreground leads to a connecting session with a fresh budget; in the background it changes nothing |
| `RuntimeCalls.FreshExactly` | crates/kaigi-linux-client/src/lib.rs:1466-1492 | A fresh runtime is disconnected but not parked: the first network to come makes it connect, with its whole budget |
| `RuntimeCalls.ConnectivityExactly` | crates/kaigi-linux-client/src/lib.rs:1544-1567 | A network that comes back leads to a connecting session, without timer and with the same attempt count, exactly if the session is neither connected nor connecting, in the foreground, outside fallback and not ended by the user; otherwise the runtime is unchanged |
| `RuntimeCalls.InterruptionEndExactly` | crates/kaigi-linux-client/src/lib.rs:1610-1636 | The same for an interruption that ends and asks for a reconnect; one that does not ask changes nothing |
| `RuntimeCalls.ForegroundExactly` | crates/kaigi-linux-client/src/lib.rs:1506-1520 | Coming to the foreground asks again for a session that is disconnected, degraded or in error, and only clears the flag of any other, unless the user disconnected |
| `RuntimeCalls.ReconnectExactly` | crates/kaigi-linux-client/src/lib.rs:1776-1793 | A due reconnect fires exactly in the foreground, outside fallback and without user disconnect, and then asks again; otherwise nothing changes |
| `RuntimeCalls.RecoveryExactly` | crates/kaigi-linux-client/src/lib.rs:1767-1774 | A recovery ends the fallback, restores the budget and asks again in the foreground; in the background the session stays disconnected |
| `RuntimeCalls.BackgroundSuspends` | crates/kaigi-linux-client/src/lib.rs:1522-1542 | Going to the background drops the timer, and a session that is connected, connecting or degraded loses its transport unless the user disconnected |
| `RuntimeCalls.FailureExactly` | crates/kaigi-linux-client/src/lib.rs:1544-1714 | Every kind of failure loses handshake and transport with its own code and text, or spends the budget and enters fallback with the number of attempts; interruptions and networks are ignored after a user disconnect |
| `RuntimeCalls.SendFailureExactly` | crates/kaigi-linux-client/src/lib.rs:1716-1720 | A failed send degrades a session outside fallback and touches neither handshake, timer nor budget |
| `RuntimeCalls.ManualDisconnectExactly` | crates/kaigi-linux-client/src/lib.rs:1722-1727 | A manual disconnect leaves a disconnected session without handshake, error or timer, and the budget as it was |
| `RuntimeCalls.TransportUpExactly` | crates/kaigi-linux-client/src/lib.rs:1643-1662 | A new transport renews the budget in the foreground and is lost at once in the background |
| `RuntimeCalls.FramesLeaveTheTimer` | crates/kaigi-linux-client/src/lib.rs:1729-1765 | No inbound frame touches timer, budget or flags |
| `FrameRoundTrip.EncodeDecodes` | crates/kaigi-linux-client/src/lib.rs:398-706 | For every frame of every kind, decoding the encoded JSON value gives back the frame |
| `FrameEncoding.EncodesCanonically` | crates/kaigi-linux-client/src/lib.rs:277-400 | An encoded frame holds its kind in camel case, every field under its first name, in its plain form, and nothing else; all keys are in snake case, and so are the words of enumerations and the keys of rows |
| `FrameNames.FieldsAreSpelled` | crates/kaigi-linux-client/src/lib.rs:402-706 | Every field of every frame goes by the spellings of some words (snake case, camel case and, for a last word `id`, that in capitals; two such names for the time of an acknowledgement) and by no other name |
| `FrameNames.RowsAreSpelled` | crates/kaigi-linux-client/src/lib.rs:402-706 | The same for the fields of attendees and of role changes |
| `FrameNames.PayloadKeysExactly` | crates/kaigi-linux-client/src/lib.rs:402-736 | A payload may be nested under either name of its kind; a presence delta under a short name as well, which is tried first |
| `BareFrames.BareFramesChangeNothing` | crates/kaigi-linux-client/src/lib.rs:86-215 | A document that says nothing but its kind, under either name, is refused exactly if it lacks a required field; otherwise receiving it in a fresh session changes nothing in the room, since both start from the same defaults |
| `FrameRoundTrip.EncodeIsInjective` | crates/kaigi-linux-client/src/lib.rs:398-400 | Distinct frames have distinct encodings |
| `FrameRoundTrip.FlatFormsDecode` | crates/kaigi-linux-client/src/lib.rs:402-826 | Every flat spelling decodes to the same frame: any alias of any field, either spelling of the kind, any spelling of an enumeration's word, in every record of every array |
| `FrameRoundTrip.NestedFormsDecode` | crates/kaigi-linux-client/src/lib.rs:728-735 | So does every nested spelling, under the first payload key that holds an object, whatever else the root holds |
| `FrameDecoding.DecodesExactly` | crates/kaigi-linux-client/src/lib.rs:402-883 | A document decodes to a frame if and only if it represents that frame: its kind is named in either spelling, its payload is the first nested object or the root, and for every field the first name present denotes the content, or the content is the default and no name is present or the value says nothing (wrong type, unknown word, number out of range); array items that are no texts or no records do not count |
| `FrameDecoding.DecodeRefuses` | crates/kaigi-linux-client/src/lib.rs:402-413 | Decoding fails exactly on a value that is no object, a missing or non-text kind, an unknown kind, or a missing required text; the error names the first of these, and otherwise the frame has the kind that was named |
| `FrameRoundTrip.FramesAreToldApart` | crates/kaigi-linux-client/src/lib.rs:277-388 | No two fields of a frame share a name or alias, and none is called `kind` |
| `FrameRoundTrip.FieldIsWritten` | crates/kaigi-linux-client/src/lib.rs:398-400 | An object spelled with any choice of names holds each field under the chosen name and under no other alias |
| `FrameDecoding.SpelledParses` | crates/kaigi-linux-client/src/lib.rs:773-780 | A text parses as a signed 64-bit number if and only if it is digits with at most one sign in front that spell it |
| `Wire.EncodeFramed` | crates/kaigi-wire/src/lib.rs:581-595 | Fails exactly when serialisation fails or the payload exceeds the limit; otherwise the bytes are the length in four big-endian bytes and the payload |
| `Wire.BigEndianRoundTrip` | crates/kaigi-wire/src/lib.rs:590-594 | A length survives its four bytes |
| `Wire.ParseIsSound` | crates/kaigi-wire/src/lib.rs:612-636 | Cutting a buffer into frames loses no byte, every payload is within the limit, and the rest holds no complete frame |
| `Wire.ParseIsUnique` | crates/kaigi-wire/src/lib.rs:612-636 | There is only one way to cut a buffer into frames within the limit and a rest without one |
| `Wire.ParseResumes` | crates/kaigi-wire/src/lib.rs:608-636 | Bytes arriving later only add payloads: parsing may stop and resume anywhere |
| `Wire.TakeReads` | crates/kaigi-wire/src/lib.rs:612-636 | A poll of a buffer with a complete frame delivers what its first payload means (a frame, or an error for an empty or malformed one) and leaves exactly the rest |
| `Wire.TakeFromStuck` | crates/kaigi-wire/src/lib.rs:612-625 | A poll of any other buffer delivers nothing, leaves it alone, and says whether more bytes or an oversized header is the reason |
| `Wire.FrameDecoder.Push` | crates/kaigi-wire/src/lib.rs:608-610 | Appends the bytes; what was delivered plus the reading of the buffer stays the reading of everything pushed |
| `Wire.FrameDecoder.TryNext` | crates/kaigi-wire/src/lib.rs:612-636 | Returns and leaves exactly what the specification of one poll says, keeping that relation |
| `WireLaws.StreamingRefinement` | crates/kaigi-wire/src/lib.rs:597-640 | Under every interleaving of pushes and polls, results delivered so far followed by the reference reading of the buffer equal the reference reading of everything pushed |
| `WireLaws.DeliversEveryPayload` | crates/kaigi-wire/src/lib.rs:597-640 | Payloads written one after the other, empty and malformed ones included, and cut anywhere, are each delivered once and in order once the decoder has nothing more to deliver: a bad payload costs exactly one frame |
| `WireLaws.FramesRoundTrip` | crates/kaigi-wire/src/lib.rs:581-640 | Encodable frames, concatenated and cut anywhere, are read back as exactly that list with an empty buffer |
| `WireLaws.PollsDrain` | crates/kaigi-wire/src/lib.rs:612-636 | After some polls, no more than there are complete payloads, that many were delivered in order and the buffer reads as the others and the rest |
| `WireLaws.HeaderExactly` | crates/kaigi-wire/src/lib.rs:612-636 | The four bytes in front of a frame are its length, the most significant first |
| `WireLaws.PollExactly` | crates/kaigi-wire/src/lib.rs:612-636 | Byte by byte: no length makes an error frame, a length beyond two mebibytes is refused without consuming anything, and a payload is decoded and removed once all of it has arrived |
| `WireLaws.PollsDrainAll` | crates/kaigi-wire/src/lib.rs:612-636 | Polled once per complete payload, the decoder keeps exactly the rest, which is shorter than the header and one frame unless its header is oversized; the next poll says which |
| `WireLaws.OversizedForever` | crates/kaigi-wire/src/lib.rs:623-627 | Behind an oversized header every later poll fails the same way and nothing is delivered, whatever is pushed |
| `Percent.PctEncode` | crates/kaigi-cli/src/main.rs:1619-1631 | The loop writes unreserved bytes as they are and every other byte as an escape with capital digits |
| `Percent.PctDecode` | crates/kaigi-cli/src/main.rs:1633-1661 | The index loop computes the decoding of the whole input, with its two errors and the check for well-formed UTF-8 |
| `Percent.PercentRoundTrip` | crates/kaigi-cli/src/main.rs:1619-1661 | Decoding an encoded string gives back every string, and encoded text uses only unreserved characters and `%` |
| `Percent.UnescapeSucceeds` | crates/kaigi-cli/src/main.rs:1637-1657 | Text is unescaped if and only if two hexadecimal digits follow every percent sign |
| `Percent.ByteIsEscaped` | crates/kaigi-cli/src/main.rs:1619-1631 | Exactly letters, digits, dash, underscore, dot and tilde stand for themselves; every other byte becomes a percent sign and two digits in capitals that spell it |
| `Percent.UnreservedIsKept` | crates/kaigi-cli/src/main.rs:1619-1631 | Text of unreserved characters is its own encoding |
| `PercentSpellings.SpellingsAreRead` | crates/kaigi-cli/src/main.rs:1633-1661 | However a text is spelled, byte for byte, with plus signs for spaces and escapes in either case, it is read as what the pieces mean |
| `PercentSpellings.ReadIsSpelled` | crates/kaigi-cli/src/main.rs:1633-1661 | Whatever is unescaped can be spelled in such pieces, and is what they mean |
| `Utf8.DecodeEncode` | crates/kaigi-cli/src/main.rs:1660-1661 | Every string is read back from its bytes |
| `Utf8.EncodeDecode` | crates/kaigi-cli/src/main.rs:1660-1661 | Bytes read as a string are that string's bytes: overlong and surrogate forms are refused |
| `NonceCache.RenderJoinLink` | crates/kaigi-cli/src/main.rs:1276-1324 | The parameters pushed one by one give the printed link of the specification |
| `NonceCache.SeenNonces.ParseWithMode` | crates/kaigi-cli/src/main.rs:1479-1609 | One pass over the pairs and the final checks compute the parser of the specification; only consuming changes the cache |
| `NonceCache.SeenNonces.RegisterOnce` | crates/kaigi-cli/src/main.rs:1459-1477 | Drops expired nonces, refuses a live one, refuses when full, and records otherwise |
| `JoinLinkLaws.ParamsAreRead` | crates/kaigi-cli/src/main.rs:1479-1567 | Reading the printed parameters of any link gives back all of it but its empty texts |
| `JoinLinkLaws.RenderedParses` | crates/kaigi-cli/src/main.rs:1276-1609 | A printed link parses to itself if and only if its texts are non-empty, domain and call name come together, the privacy mode is in normal form, and the link is valid at the time; an invalid one fails with its own error |
| `JoinLinkForm.PrintedForm` | crates/kaigi-cli/src/main.rs:1276-1324 | A link is printed as `kaigi://join?v=` and so on, key by key in a fixed order, absent fields left out, every value encoded |
| `JoinLinkQueries.PairExactly` | crates/kaigi-cli/src/main.rs:1502-1504 | A piece of a query is cut at its first equals sign, or is a key alone with an empty value, and both halves are decoded |
| `JoinLinkQueries.ChannelExactly` | crates/kaigi-cli/src/main.rs:1513-1513 | A channel is read from 64 hexadecimal digits of either case with white space around them, and from nothing else |
| `JoinLinkQueries.PiecesAmend` | crates/kaigi-cli/src/main.rs:1497-1574 | Reading a query comes to the error of its first faulty piece or, without one, to the last value given for each key; empty pieces, unknown keys and empty texts count for nothing |
| `Histories.LastOfExactly` | crates/kaigi-cli/src/main.rs:1497-1574 | The last value is the one after which none is given |
| `Histories.FirstOfExactly` | crates/kaigi-cli/src/main.rs:1497-1574 | The first fault is the one before which there is none |
| `JoinLinkReadings.ModeExactly` | crates/kaigi-cli/src/main.rs:6797-6808 | A privacy mode may be spelled in either case, with white space around it, and `zk` under its older name with dashes or underscores; nothing else is one |
| `JoinLinkReadings.ReadExactly` | crates/kaigi-cli/src/main.rs:1479-1609 | A text is accepted as a payload if and only if it is a link whose query is free of faults, gives as last values what the payload holds (mode, nonce and signature in normal form), lacks nothing, and passes the checks of its version |
| `JoinLinkReadings.RefusedExactly` | crates/kaigi-cli/src/main.rs:1479-1574 | A text without query, with another scheme, or with a fault in its query is refused for just that, in this order |
| `JoinLinkReadings.IncompleteIsRefused` | crates/kaigi-cli/src/main.rs:1576-1609 | A query without faults is refused for what its payload lacks, in a fixed order, and after that for the check of its version that fails |
| `JoinLinkLaws.IssuedIsSigned` | crates/kaigi-cli/src/main.rs:1326-1355 | An issued link carries the expiry asked for, a 32-digit nonce and a 64-digit signature in small hexadecimal text, and the signature is the one of its own fields |
| `JoinLinkLaws.IssuedIsValidUntilExpiry` | crates/kaigi-cli/src/main.rs:1388-1453 | An issued link is valid at any later time exactly until it expires |
| `JoinLinkLaws.IssuedLinkRoundTrip` | crates/kaigi-cli/src/main.rs:1276-1453 | An issued and printed link parses to itself at a time after its issue if and only if its texts are printable and the expiry lies ahead; from the expiry on it is refused as expired |
| `JoinLinkLaws.LegacyLinkRoundTrip` | crates/kaigi-cli/src/main.rs:1388-1402 | A link of the first version without security fields parses to itself at every time if and only if its texts are printable |
| `JoinLinkLaws.IssuingFails` | crates/kaigi-cli/src/main.rs:1326-1355 | Issuing fails with its own error on a duration of zero, of more than a week, or whose expiry exceeds 64 bits, and on nothing else; a link of another version is left as it is |
| `JoinLinkAcceptance.AcceptedIsAcceptable` | crates/kaigi-cli/src/main.rs:1388-1609 | Whatever text a link is accepted from, its channel has 32 bytes, its texts are non-empty, domain and call name come together, its privacy mode is in normal form, and it passes every check of its version, the signature over its own fields included |
| `JoinLinkAcceptance.SecuredExactly` | crates/kaigi-cli/src/main.rs:1388-1457 | Validation finds no error if and only if a first-version link has none of the security fields, or a second-version link expires within the next week, has 32 and 64 hexadecimal digits behind at most one prefix, and carries the signature of its own fields |
| `JoinLinkAcceptance.FlagWords` | crates/kaigi-cli/src/main.rs:1672-1680 | A flag is read as true from four words and as false from four others, whatever the case and the white space around them |
| `JoinLinkSignatures.AcceptedExactly` | crates/kaigi-cli/src/main.rs:1388-1609 | A payload is accepted from some text if and only if it is acceptable |
| `JoinLinkSignatures.SignedRefusal` | crates/kaigi-cli/src/main.rs:1388-1457 | A signed link is refused for the first check that fails: expiry, distance of the expiry, nonce, signature text, signature |
| `JoinLinkSignatures.VersionRefusal` | crates/kaigi-cli/src/main.rs:1388-1420 | First-version links with security fields, links that lack one, and unknown versions are refused as such |
| `JoinLinkSignatures.OtherSignatureIsRefused` | crates/kaigi-cli/src/main.rs:1388-1457 | A valid link whose signature is replaced by any other 64 small hexadecimal digits is refused for its signature |
| `JoinLinkSignatures.TextsAreSigned` | crates/kaigi-cli/src/main.rs:1355-1386 | Links that differ in one text have different signed texts |
| `JoinLinkSignatures.FieldsAreSigned` | crates/kaigi-cli/src/main.rs:1355-1386 | Links that differ in version, relay, channel or one flag alone have different signed texts |
| `JoinLinkSignatures.ExpiryAndNonceAreSigned` | crates/kaigi-cli/src/main.rs:1355-1386 | So have different expiries, and nonces that differ in normal form |
| `JoinLinkSignatures.SignatureIsTheDigest` | crates/kaigi-cli/src/main.rs:1355-1386 | Signatures are equal if and only if the digests of the signed texts are |
| `JoinLinkAcceptance.AcceptedRendersBack` | crates/kaigi-cli/src/main.rs:1276-1609 | Printing an accepted link and reading it again gives back the same payload if and only if no hexadecimal prefix is left on its nonce and signature |
| `JoinLinkAcceptance.DoubledPrefixIsHalved` | crates/kaigi-cli/src/main.rs:6866-6875 | Such links exist: a valid link whose nonce is printed with a doubled prefix is accepted with one prefix left |
| `JoinLinkLaws.AcceptedLinksExpireWithinAWeek` | crates/kaigi-cli/src/main.rs:1404-1432 | Whatever text is accepted as a signed link has a nonce and an expiry ahead by at most a week |
| `ReplayLaws.CacheIsBounded` | crates/kaigi-cli/src/main.rs:1459-1477 | The nonce cache never exceeds 4096 entries |
| `ReplayLaws.OnlyExpiredEntriesLeave` | crates/kaigi-cli/src/main.rs:1459-1477 | Inspection never changes the cache; consuming removes or overwrites expired entries only, and adds at most the accepted link's nonce with its expiry |
| `ReplayLaws.UseTakes` | crates/kaigi-cli/src/main.rs:1459-1477 | A use whose link is signed and passes every check consumes its nonce if and only if the cache does not hold the nonce unexpired and has room beside its unexpired entries, at most 4096; it is refused for a replay or else for want of room; any other use leaves the cache alone |
| `ReplayLaws.CacheHistory` | crates/kaigi-cli/src/main.rs:1459-1477 | The cache holds an entry if and only if some use consumed it and no registration since read the clock at or after its expiry |
| `ReplayLaws.ConsumedExactly` | crates/kaigi-cli/src/main.rs:1388-1477 | In any list of uses in the order they take the lock, with clock readings in any order, such a use consumes its nonce if and only if the cache has room and, for every earlier use that consumed the same nonce, some registration since, its own included, read the clock at or after the expiry of that use's link |
| `ReplayLaws.NonceAtMostOnce` | crates/kaigi-cli/src/main.rs:1388-1477 | A consumed nonce is consumed again, by the same link or any other, only if some registration since read the clock at or after the expiry of the link that consumed it first |
| `ReplayLaws.AtMostOnce` | crates/kaigi-cli/src/main.rs:1388-1477 | A signed link is consumed again only by a use that validates before the expiry, and only after such a registration |
| `ReplayLaws.AtMostOnceInSequence` | crates/kaigi-cli/src/main.rs:1388-1477 | When uses follow one another on a clock that never runs back, the second use itself registers at or after the expiry |
| `ReplayLaws.SecondReadingMatters` | crates/kaigi-cli/src/main.rs:1416-1460 | Of two accepted uses of a signed link the second consumes it again if and only if it registers at or after the expiry |
| `ReplayLaws.LateRegistration` | crates/kaigi-cli/src/main.rs:1416-1460 | For every signed link such a second use exists on a clock that never runs back, at every registration time from the expiry on |
| `ReplayLaws.LateLock` | crates/kaigi-cli/src/main.rs:1459-1463 | A use of another link that registers at or after the expiry evicts the entry, and a use that read the clock before the expiry but takes the lock later consumes the first link again |
| `ReplayLaws.StaysAccepted` | crates/kaigi-cli/src/main.rs:1388-1453 | A signed link that is accepted stays accepted, with the same payload, until it expires |
| `Digits.HexRoundTrip` | crates/kaigi-cli/src/main.rs:1338-1386 | Hexadecimal text of any bytes is read back and is in small digits |
| `Digits.HexArgExactly` | crates/kaigi-cli/src/main.rs:6873-6882 | A hexadecimal argument may have white space around it and one prefix in front; what remains are its digits in small letters |
| `Digits.PrintedNumberParses` | crates/kaigi-cli/src/main.rs:1276-1324 | A printed number is parsed if and only if it fits the width |
| `Query.SplitJoin` | crates/kaigi-cli/src/main.rs:1316-1500 | Joined parts without the separator are recovered by splitting |
| `Query.SplitExactly` | crates/kaigi-cli/src/main.rs:1497-1500 | The parts of a split are free of the separator and join to the text |
| `Query.SplitOnceExactly` | crates/kaigi-cli/src/main.rs:1479-1503 | Splitting once cuts at the first separator, or fails without one |
| `Billing.PayLoop` | crates/kaigi-cli/src/main.rs:5193-5258 | After every tick the amount billed is everything owed (rate times elapsed time, summed) divided by 60000 and the remainder is exactly what the division dropped; each payment sent belongs to a tick whose transfer and send succeeded, in order, and is the smaller of the largest amount a payment can carry and what was billed by then less what was paid before; no other tick pays; the loop ends early only at a transfer whose payment cannot be sent |
| `Billing.PayTick` | crates/kaigi-cli/src/main.rs:5225-5256 | One tick pays what is outstanding, pays nothing, or ends the loop, as its transfer and its send go |
| `Billing.PaymentsCatchUp` | crates/kaigi-cli/src/main.rs:5225-5256 | A tick that pays settles everything outstanding, earlier failures included, or sends the most a payment can carry |
| `Billing.BillTick` | crates/kaigi-cli/src/main.rs:5198-5212 | One tick carries over the relation between the counters and everything owed |
| `Billing.Bill` | crates/kaigi-cli/src/main.rs:5203-5212 | The saturating 128-bit arithmetic of one tick carries that relation over |
| `Billing.OwedBetweenRates` | crates/kaigi-cli/src/main.rs:5199-5208 | With a monotone clock, what is owed lies between the lowest and the highest rate over the whole time, however ticks are spaced |
| `Billing.NothingSaturates` | crates/kaigi-cli/src/main.rs:5203-5212 | With a monotone clock no 128-bit operation saturates |
| `Billing.ConstantRate` | crates/kaigi-cli/src/main.rs:5193-5212 | With a monotone clock and one rate, the amount billed is `floor(rate * (now - start) / 60000)` however ticks are spaced |
| `Billing.OwedOnAnyClock` | crates/kaigi-cli/src/main.rs:5193-5208 | At one rate and on any clock, what is owed is the rate times the time since the start plus every step back |
| `Billing.OwedExactlyIfMonotone` | crates/kaigi-cli/src/main.rs:5193-5208 | At one positive rate no less is owed than the rate times the time since the start, and no more if and only if the clock never ran back |
| `Billing.BilledExactly` | crates/kaigi-cli/src/main.rs:5193-5212 | The amount billed is `floor(rate * (now - start) / 60000)` if and only if the steps back cost less than what is missing to the next whole unit |
| `Billing.SwingsBillAgain` | crates/kaigi-cli/src/main.rs:5199-5201 | On a clock that swings between two readings, from any start, every swing bills the same stretch once more |
| `Billing.SwingsSaturate` | crates/kaigi-cli/src/main.rs:5203-5212 | On a clock that swings often enough, more is owed than the 128-bit counter holds, so it saturates |
| `Telemetry.FlowTelemetry.RecordFlow` | crates/kaigi-cli/src/main.rs:3796-3810 | Counts every event and, when a window of a second is over, sets the rate to its count per second |
| `Telemetry.FlowTelemetry.RecordRxSequence` | crates/kaigi-cli/src/main.rs:3812-3840 | Counts the arrival; last sequence number and missing packets stay those of all arrivals so far, and the jitter the moving average of all jitters so far |
| `Telemetry.RttTelemetry.RecordRttSample` | crates/kaigi-cli/src/main.rs:4011-4020 | For any sample, the average becomes the moving average of all samples so far and the sample is remembered |
| `Telemetry.RttTelemetry.OnPong` | crates/kaigi-cli/src/main.rs:3071-3080 | A pong yields a sample if and only if its nonce is not in the future and at most a minute old; while all samples come from pongs, they and their average stay within a minute and no update overflows |
| `Telemetry.LossAccounting` | crates/kaigi-cli/src/main.rs:3812-3840 | For any order of arrival the last sequence number is the maximum seen, and missing packets plus arrivals that raised it are exactly the range from the first to the maximum |
| `Telemetry.IncreasingArrivals` | crates/kaigi-cli/src/main.rs:3812-3840 | With strictly increasing arrivals, missing plus received is exactly that range |
| `Telemetry.FlowAccounting` | crates/kaigi-cli/src/main.rs:3812-3840 | In every flow with an arrival, the counters the methods keep satisfy that law for all arrivals so far |
| `Telemetry.FlowJitter` | crates/kaigi-cli/src/main.rs:3827-3836 | In every flow whose jitters leave three bits of headroom, the jitter shown lies between them |
| `Telemetry.LossIsAPercentage` | crates/kaigi-cli/src/main.rs:3842-3853 | The loss shown never exceeds 100.0 percent and is absent only without packets |
| `Telemetry.EwmaStaysInRange` | crates/kaigi-cli/src/main.rs:3827-3836 | The moving average of any samples stays between bounds on the samples, flooring and re-seeding at zero notwithstanding, if they leave three bits of headroom |
| `Telemetry.EwmaWeights` | crates/kaigi-cli/src/main.rs:3827-3836 | With headroom a sample weighs one eighth against a positive average, rounded down, and replaces a zero one |
| `Telemetry.JitterIsADistance` | crates/kaigi-cli/src/main.rs:3812-3840 | The jitter is the distance of an arrival from its expected time |
| `Telemetry.EwmaHeadroom` | crates/kaigi-cli/src/main.rs:3827-3836 | No samples up to a bound ever overflow the average if and only if eight times the bound fits 64 bits |
| `Telemetry.EwmaOfEqualSamples` | crates/kaigi-cli/src/main.rs:3827-3836 | Two equal samples average to themselves if and only if they leave that headroom; otherwise the average drops below both |
| `Ranking.ScoreIsMonotone` | crates/kaigi-cli/src/main.rs:4146-4189 | Of two feeds with equally many packets, one no older, with no more loss and jitter, no lower rate and no staler flow never scores lower, if the loss in percent fits 64 bits |
| `Ranking.ScoreExactly` | crates/kaigi-cli/src/main.rs:4146-4189 | The score is five points less the points for age, staleness, loss, jitter and a low rate, and never negative |
| `Ranking.LossBands` | crates/kaigi-cli/src/main.rs:4146-4189 | The loss costs one, two or three points exactly from 5, 11 and 21 percent on, with at least eight packets |
| `Ranking.LabelsExactly` | crates/kaigi-cli/src/main.rs:4204-4212 | The label names four points and more, three, two, and fewer |
| `Ranking.LossPenaltyHeadroom` | crates/kaigi-cli/src/main.rs:4160-4175 | More loss never means a lower penalty, up to some loss and for every number of packets, if and only if a hundred times that loss fits 64 bits |
| `Ranking.SortRanks` | crates/kaigi-cli/src/main.rs:4214-4243 | Sorting distinct rows ranks them strictly and keeps each of them |
| `Ranking.RankingIsUnique` | crates/kaigi-cli/src/main.rs:4214-4243 | There is only one ranking of a collection of rows, whatever algorithm produced it |
| `Ranking.SortedFeedIdsRanked` | crates/kaigi-cli/src/main.rs:4214-4243 | The feed ids are a permutation of the frame keys, strictly ordered by score, then age descending, then id (or by id alone) |
| `Ranking.WorstComeFirst` | crates/kaigi-cli/src/main.rs:4214-4243 | Worst-first, every feed has a lower score than each that follows, or as low a score and a greater age, or equal both and an id that is its beginning or smaller at the first difference; a feed without statistics counts as stale and otherwise faultless |
| `Ranking.IdBeforeExactly` | crates/kaigi-cli/src/main.rs:4214-4243 | The order of ids is that of their first difference, a beginning before the whole |
| `Ranking.RankingIgnoresKeyOrder` | crates/kaigi-cli/src/main.rs:4214-4243 | The order in which the hash map yields its keys does not show |
| `Ranking.TopWorstPeers` | crates/kaigi-cli/src/main.rs:4245-4278 | The loop names the first `limit` rows of the ranking with their labels, or gives `--` when there is nothing to name |
| `Ranking.WorstPeersLeadTheList` | crates/kaigi-cli/src/main.rs:4214-4278 | The worst peers named are exactly the first `limit` ids of the worst-first list, in the same order |

## Left out

- Networking, transport security, the ledger command, media capture, terminal rendering, themes and key maps.
- Telemetry events of the session runtime, which are written to a sink and do not influence the state; a change of the audio route only produces one and is the call `AudioRouteChanged` without effect.
- The hub and the scripts of the repository.
- JSON text: the codec is modelled on JSON values; a number outside the 64-bit range is the constructor `Fraction`, and duplicate keys of a text are outside the model.
- FrameRoundTrip.FlatFormsDecode: one choice of names serves a whole document; documents that mix names from record to record are covered by `FrameDecoding.DecodesExactly`.
- The English messages of errors that are fixed per code, and of fallback reasons, are the constructors of `ErrorMessage` and `FallbackReason`; the codes keep their texts in `Reducer.CodeText`.
- The session state is one flat record in the source; here its fields sit in two groups, `Room` and `Link`.
- Join links keep their optional texts in one map, and the three errors for a missing security field are one.
- Percent.PctEncode: strings are sequences of Unicode scalar values; their bytes are those of `Utf8.Encode`.
- The text of relay addresses: `JoinLinks.Lawful` assumes that a printed address reads back.
- The digest behind link signatures is an arbitrary function to 32 bytes; nothing is claimed about forgeries or collisions, and the signed text, which joins its fields with bars, is not injective.
- Wire.EncodeFramed: the payload serialisation is a parameter, assumed lossless with non-empty output only where `Wire.Lossless` is required.
- Billing.PayLoop: the ledger transfer and the send of the payment frame are given as success or failure per tick; a transfer whose frame cannot be sent ends the loop and is not counted as paid, as in the source.
- Ranking.SortRanks: the standard library's sort is represented by insertion sort; `Ranking.RankingIsUnique` shows that no other algorithm gives another result.
- Identity.NormalizedIsId: lower-casing is that of ASCII letters, with the few other characters that lower-case into them; all others are dropped by the filter anyway.
- Arithmetic that overflows in a debug build panics there; the model follows the release build.
- The adaptive video profile, the classification and history of the conference quality, flag dependencies of the command line and the report generators: they follow from reading one branch.
