/** Flow telemetry: packet loss from sequence numbers, and moving averages of jitter and round-trip time. */
module Telemetry {
  import opened Basics
  import opened Arith

  const U32_MAX: int := 0xFFFF_FFFF

  /** `u64` addition as the release build computes it. */
  function WrapU64(x: nat): (r: u64)
  {
    x % 0x1_0000_0000_0000_0000
  }

  /** The moving average after one more sample; a zero average is taken to mean that there is none yet. */
  function Ewma(average: u64, sample: u64): u64
  {
    if average == 0 then sample else WrapU64(SatU64(average * 7) + sample) / 8
  }

  class FlowTelemetry {
    var windowStartMs: u64
    var windowCount: u32
    var ratePerSec: u32
    var total: u64
    var lastAtMs: u64
    var lastSeq: Option<u64>
    var missingPackets: u64
    var sequencePackets: u64
    var jitterEwmaMs: u64
    var lastArrivalMs: u64
    ghost var seqNos: seq<u64>
    ghost var jitters: seq<u64>

    /** The counters are those of all arrivals so far, and the jitter is the moving average of all jitters so far. */
    ghost predicate Valid()
      reads this
    {
      && (lastSeq, missingPackets) == ObserveAll(seqNos)
      && sequencePackets == SatU64(|seqNos|)
      && jitterEwmaMs == EwmaAll(jitters)
    }

    constructor ()
      ensures Valid() && seqNos == [] && jitters == []
      ensures lastSeq == None && missingPackets == sequencePackets == jitterEwmaMs == lastArrivalMs == 0
      ensures windowStartMs == windowCount == ratePerSec == total == lastAtMs == 0
    {
      seqNos, jitters := [], [];
      windowStartMs, windowCount, ratePerSec, total, lastAtMs := 0, 0, 0, 0, 0;
      lastSeq, missingPackets, sequencePackets, jitterEwmaMs, lastArrivalMs := None, 0, 0, 0, 0;
    }

    /** Counts one event; when a window of at least a second is over, the rate is its count per second. */
    method RecordFlow(atMs: u64)
      modifies this`windowStartMs, this`windowCount, this`ratePerSec, this`total, this`lastAtMs
      ensures total == SatU64(old(total) + 1) && lastAtMs == atMs
      ensures var start := if old(windowStartMs) == 0 then atMs else old(windowStartMs);
              var count, elapsed := Min(U32_MAX, old(windowCount) + 1), Max(0, atMs - start);
              if elapsed < 1_000 then
                (windowStartMs, windowCount, ratePerSec) == (start, count, old(ratePerSec))
              else
                && (windowStartMs, windowCount) == (atMs, 0)
                && ratePerSec * elapsed <= count * 1_000 < (ratePerSec + 1) * elapsed
    {
      total := SatU64(total + 1);
      lastAtMs := atMs;
      if windowStartMs == 0 {
        windowStartMs := atMs;
      }
      windowCount := Min(U32_MAX, windowCount + 1);
      var elapsedMs := SatU64(atMs - windowStartMs);
      if elapsedMs >= 1_000 {
        var scaled: u64 := windowCount * 1_000;
        Quotient(scaled, elapsedMs);
        ratePerSec := Min(U32_MAX, scaled / Max(1, elapsedMs));
        windowCount := 0;
        windowStartMs := atMs;
      }
    }

    /**
     Counts one received packet, the packets its sequence number shows to be missing, and the jitter of its arrival.
     */
    method RecordRxSequence(seqNo: u64, atMs: u64, expectedIntervalMs: u64)
      requires Valid()
      modifies this
      ensures Valid() && seqNos == old(seqNos) + [seqNo]
      ensures jitters == if old(lastArrivalMs) != 0 && expectedIntervalMs > 0
                         then old(jitters) + [Jitter(atMs, old(lastArrivalMs), expectedIntervalMs)] else old(jitters)
      ensures total == SatU64(old(total) + 1) && lastAtMs == atMs
      ensures sequencePackets == SatU64(old(sequencePackets) + 1)
      ensures (lastSeq, missingPackets) == Observe(old(lastSeq), old(missingPackets), seqNo)
      ensures lastArrivalMs == atMs
      ensures jitterEwmaMs == if old(lastArrivalMs) != 0 && expectedIntervalMs > 0
                              then Ewma(old(jitterEwmaMs), Jitter(atMs, old(lastArrivalMs), expectedIntervalMs))
                              else old(jitterEwmaMs)
    {
      RecordFlow(atMs);
      sequencePackets := SatU64(sequencePackets + 1);
      CountMissing(seqNo);
      if lastArrivalMs != 0 && expectedIntervalMs > 0 {
        SmoothJitter(atMs, expectedIntervalMs);
      }
      if lastSeq.None? || seqNo > lastSeq.value {
        lastSeq := Some(seqNo);
      }
      lastArrivalMs := atMs;
      ObserveNext(seqNos, seqNo);
      seqNos := seqNos + [seqNo];
    }

    /** The packets skipped between the last sequence number and a higher one count as missing. */
    method CountMissing(seqNo: u64)
      modifies this`missingPackets
      ensures missingPackets == Observe(lastSeq, old(missingPackets), seqNo).1
    {
      if lastSeq.Some? && seqNo > SatU64(lastSeq.value + 1) {
        missingPackets := SatU64(missingPackets + SatU64(SatU64(seqNo - lastSeq.value) - 1));
      }
    }

    /** The jitter of an arrival enters the moving average. */
    method SmoothJitter(atMs: u64, expectedIntervalMs: u64)
      modifies this`jitterEwmaMs, this`jitters
      ensures jitterEwmaMs == Ewma(old(jitterEwmaMs), Jitter(atMs, lastArrivalMs, expectedIntervalMs))
      ensures jitters == old(jitters) + [Jitter(atMs, lastArrivalMs, expectedIntervalMs)]
      ensures old(jitterEwmaMs) == EwmaAll(old(jitters)) ==> jitterEwmaMs == EwmaAll(jitters)
    {
      var gap := SatU64(atMs - lastArrivalMs);
      var jitter: u64 := if gap < expectedIntervalMs then expectedIntervalMs - gap else gap - expectedIntervalMs;
      jitterEwmaMs := if jitterEwmaMs == 0 then jitter else WrapU64(SatU64(jitterEwmaMs * 7) + jitter) / 8;
      EwmaNext(jitters, jitter);
      jitters := jitters + [jitter];
    }
  }

  /** In every valid flow with an arrival, missing packets and arrivals that raised the number fill the range. */
  lemma FlowAccounting(flow: FlowTelemetry)
    requires flow.Valid() && flow.seqNos != []
    ensures flow.lastSeq.Some? && flow.lastSeq.value in flow.seqNos
    ensures flow.missingPackets + CountRaises(flow.seqNos) == flow.lastSeq.value - flow.seqNos[0] + 1
  {
    LossAccounting(flow.seqNos);
  }

  /** In every valid flow whose jitters leave three bits of headroom, the jitter shown lies between them. */
  lemma FlowJitter(flow: FlowTelemetry, low: u64, high: u64)
    requires flow.Valid() && flow.jitters != [] && 8 * high <= U64_MAX
    requires forall i :: 0 <= i < |flow.jitters| ==> low <= flow.jitters[i] <= high
    ensures low <= flow.jitterEwmaMs <= high
  {
    EwmaStaysInRange(flow.jitters, low, high);
  }

  /** How far an arrival is from its expected time. */
  function Jitter(atMs: u64, lastArrivalMs: u64, expectedMs: u64): u64
  {
    var gap := Max(0, atMs - lastArrivalMs);
    if gap < expectedMs then expectedMs - gap else gap - expectedMs
  }

  /** The jitter is the distance from the expected time of arrival; an arrival before the last one counts as at it. */
  lemma JitterIsADistance(atMs: u64, lastArrivalMs: u64, expectedMs: u64)
    ensures var due: int := lastArrivalMs + expectedMs;
            && (atMs >= due ==> Jitter(atMs, lastArrivalMs, expectedMs) == atMs - due)
            && (lastArrivalMs <= atMs < due ==> Jitter(atMs, lastArrivalMs, expectedMs) == due - atMs)
            && (atMs < lastArrivalMs ==> Jitter(atMs, lastArrivalMs, expectedMs) == expectedMs)
  {
  }

  lemma ObserveNext(seqNos: seq<u64>, seqNo: u64)
    ensures ObserveAll(seqNos + [seqNo]) == Observe(ObserveAll(seqNos).0, ObserveAll(seqNos).1, seqNo)
  {
    assert (seqNos + [seqNo])[..|seqNos|] == seqNos;
  }

  lemma EwmaNext(samples: seq<u64>, sample: u64)
    ensures EwmaAll(samples + [sample]) == Ewma(EwmaAll(samples), sample)
  {
    assert (samples + [sample])[..|samples|] == samples;
  }

  // ----- Loss accounting -----

  /** The sequence bookkeeping of one arrival. */
  function Observe(lastSeq: Option<u64>, missing: u64, seqNo: u64): (Option<u64>, u64)
  {
    ( if lastSeq.None? || seqNo > lastSeq.value then Some(seqNo) else lastSeq,
      if lastSeq.Some? && seqNo > lastSeq.value then SatU64(missing + (seqNo - lastSeq.value - 1)) else missing )
  }

  function ObserveAll(seqNos: seq<u64>): (Option<u64>, u64)
  {
    if seqNos == [] then (None, 0) else
      var (lastSeq, missing) := ObserveAll(seqNos[..|seqNos| - 1]);
      Observe(lastSeq, missing, seqNos[|seqNos| - 1])
  }

  /** The i-th arrival has a higher sequence number than all before it. */
  ghost predicate Raises(seqNos: seq<u64>, i: nat)
    requires i < |seqNos|
  {
    forall j :: 0 <= j < i ==> seqNos[j] < seqNos[i]
  }

  ghost function CountRaises(seqNos: seq<u64>): nat
  {
    if seqNos == [] then 0 else
      var n := |seqNos| - 1;
      CountRaises(seqNos[..n]) + if Raises(seqNos, n) then 1 else 0
  }

  /**
   For any order of arrival the last sequence number is the largest seen, and what is missing makes up exactly for the
   part of the range from the first to the largest that no raising arrival filled.
   */
  lemma {:induction false} LossAccounting(seqNos: seq<u64>)
    requires seqNos != []
    ensures var (lastSeq, missing) := ObserveAll(seqNos);
            && lastSeq.Some? && lastSeq.value in seqNos
            && (forall i :: 0 <= i < |seqNos| ==> seqNos[i] <= lastSeq.value)
            && missing + CountRaises(seqNos) == lastSeq.value - seqNos[0] + 1
    ensures CountRaises(seqNos) >= 1
  {
    var n := |seqNos| - 1;
    if n == 0 {
      assert seqNos[..0] == [];
    } else {
      LossAccounting(seqNos[..n]);
      var last := ObserveAll(seqNos[..n]).0.value;
      var i :| 0 <= i < n && seqNos[..n][i] == last;
      assert seqNos[i] == last;
      assert forall j :: 0 <= j < n ==> seqNos[..n][j] == seqNos[j] && seqNos[j] <= last;
      assert Raises(seqNos, n) <==> seqNos[n] > last;
    }
  }

  /** When every arrival raises the sequence number, missing and received packets together are exactly the range. */
  lemma {:induction false} IncreasingArrivals(seqNos: seq<u64>)
    requires seqNos != [] && forall i :: 0 <= i < |seqNos| ==> Raises(seqNos, i)
    ensures var first: int, last: int := seqNos[0], seqNos[|seqNos| - 1];
            ObserveAll(seqNos).1 + |seqNos| == last - first + 1
  {
    AllRaisesCount(seqNos);
    LossAccounting(seqNos);
    assert Raises(seqNos, |seqNos| - 1);
  }

  lemma {:induction false} AllRaisesCount(seqNos: seq<u64>)
    requires forall i :: 0 <= i < |seqNos| ==> Raises(seqNos, i)
    ensures CountRaises(seqNos) == |seqNos|
  {
    if seqNos != [] {
      var n := |seqNos| - 1;
      forall i | 0 <= i < n ensures Raises(seqNos[..n], i) {
        assert Raises(seqNos, i);
      }
      AllRaisesCount(seqNos[..n]);
      assert Raises(seqNos, n);
    }
  }

  /** The loss shown to the user, in tenths of a percent. */
  function LossTenths(missing: u64, received: u64): Option<u64>
  {
    var total := SatU64(received + missing);
    if total == 0 then None else Some(SatU64(missing * 1_000) / total)
  }

  /**
   The loss shown never exceeds 100.0 percent, is nothing exactly when too little is missing to show, and is absent only
   without packets.
   */
  lemma LossIsAPercentage(missing: u64, received: u64)
    ensures LossTenths(missing, received).None? <==> missing == 0 && received == 0
    ensures LossTenths(missing, received).Some? ==>
              var tenths := LossTenths(missing, received).value;
              && tenths <= 1_000
              && (received + missing <= U64_MAX && missing * 1_000 <= U64_MAX ==>
                    tenths * (received + missing) <= missing * 1_000 < (tenths + 1) * (received + missing))
  {
    var total := SatU64(received + missing);
    if total > 0 {
      var scaled := SatU64(missing * 1_000);
      Quotient(scaled, total);
      if scaled / total > 1_000 {
        MulMono(1_001, scaled / total, total);
        assert false;
      }
    }
  }

  // ----- Moving averages -----

  /** With headroom, a sample weighs one eighth against a positive average, rounded down, and replaces a zero one. */
  lemma EwmaWeights(average: u64, sample: u64)
    requires 8 * average <= U64_MAX && 8 * sample <= U64_MAX
    ensures average == 0 ==> Ewma(average, sample) == sample
    ensures average > 0 ==>
              8 * Ewma(average, sample) <= 7 * average + sample < 8 * Ewma(average, sample) + 8
  {
  }

  function EwmaAll(samples: seq<u64>): u64
  {
    if samples == [] then 0 else Ewma(EwmaAll(samples[..|samples| - 1]), samples[|samples| - 1])
  }

  /**
   The average of any samples lies between bounds on the samples, rounding down and starting over at zero
   notwithstanding, and no update overflows, if the samples leave three bits of headroom.
   */
  lemma {:induction false} EwmaStaysInRange(samples: seq<u64>, low: u64, high: u64)
    requires samples != [] && 8 * high <= U64_MAX
    requires forall i :: 0 <= i < |samples| ==> low <= samples[i] <= high
    ensures low <= EwmaAll(samples) <= high
    ensures var n := |samples| - 1; SatU64(EwmaAll(samples[..n]) * 7) + samples[n] <= U64_MAX
  {
    var n := |samples| - 1;
    if n > 0 {
      EwmaStaysInRange(samples[..n], low, high);
      EwmaStep(EwmaAll(samples[..n]), samples[n], low, high);
    }
  }

  lemma EwmaStep(average: u64, sample: u64, low: u64, high: u64)
    requires 8 * high <= U64_MAX
    requires low <= average <= high && low <= sample <= high
    ensures low <= Ewma(average, sample) <= high
    ensures SatU64(average * 7) + sample <= U64_MAX
  {
  }

  ghost predicate BoundedBy(samples: seq<u64>, high: u64)
  {
    forall i :: 0 <= i < |samples| ==> samples[i] <= high
  }

  /** No update of the average overflows 64 bits. */
  ghost predicate NeverWraps(samples: seq<u64>)
  {
    forall i :: 0 <= i < |samples| ==> SatU64(EwmaAll(samples[..i]) * 7) + samples[i] <= U64_MAX
  }

  /** No samples up to a bound ever overflow the average, exactly if the bound leaves three bits of headroom. */
  lemma EwmaHeadroom(high: u64)
    ensures (forall samples :: BoundedBy(samples, high) ==> NeverWraps(samples)) <==> 8 * high <= U64_MAX
  {
    if 8 * high <= U64_MAX {
      forall samples | BoundedBy(samples, high) ensures NeverWraps(samples) {
        forall i | 0 <= i < |samples| ensures SatU64(EwmaAll(samples[..i]) * 7) + samples[i] <= U64_MAX {
          var prefix := samples[..i + 1];
          assert prefix[..i] == samples[..i];
          EwmaStaysInRange(prefix, 0, high);
        }
      }
    } else {
      var samples := [high, high];
      EwmaOfTwo(high);
      assert BoundedBy(samples, high);
      assert samples[..1] == [high] && SatU64(EwmaAll([high]) * 7) + samples[1] > U64_MAX;
    }
  }

  lemma EwmaOfTwo(sample: u64)
    ensures EwmaAll([sample]) == sample
    ensures EwmaAll([sample, sample]) == Ewma(sample, sample)
  {
    assert [sample][..0] == [] && [sample, sample][..1] == [sample];
  }

  /**
   Two equal samples average to themselves exactly if they leave the headroom; otherwise the average drops below both.
   */
  lemma EwmaOfEqualSamples(sample: u64)
    ensures EwmaAll([sample, sample]) == sample <==> 8 * sample <= U64_MAX
    ensures EwmaAll([sample, sample]) <= sample
  {
    EwmaOfTwo(sample);
  }

  const MAX_RTT_SAMPLE_MS: u64 := 60_000

  /** The round-trip part of the conference telemetry. */
  class RttTelemetry {
    var rttLastMs: u64
    var rttEwmaMs: u64
    var rttSamples: u64
    ghost var samples: seq<u64>

    ghost predicate Valid()
      reads this
    {
      && rttSamples == SatU64(|samples|)
      && rttEwmaMs == EwmaAll(samples)
      && (samples != [] ==> rttLastMs == samples[|samples| - 1])
    }

    constructor ()
      ensures Valid() && samples == []
    {
      rttLastMs, rttEwmaMs, rttSamples, samples := 0, 0, 0, [];
    }

    method RecordRttSample(sampleMs: u64)
      requires Valid()
      modifies this
      ensures Valid() && samples == old(samples) + [sampleMs]
    {
      assert (samples + [sampleMs])[..|samples|] == samples;
      rttLastMs := sampleMs;
      rttSamples := SatU64(rttSamples + 1);
      if rttEwmaMs == 0 {
        rttEwmaMs := sampleMs;
      } else {
        rttEwmaMs := WrapU64(SatU64(rttEwmaMs * 7) + sampleMs) / 8;
      }
      samples := samples + [sampleMs];
    }

    /**
     A pong yields a sample exactly when its nonce is not in the future and at most a minute old; while all samples come
     from pongs, they and their average stay within a minute, and no update overflows.
     */
    method OnPong(nonce: u64, nowMs: u64)
      requires Valid()
      modifies this
      ensures Valid()
      ensures old(BoundedBy(samples, MAX_RTT_SAMPLE_MS)) ==>
                BoundedBy(samples, MAX_RTT_SAMPLE_MS) && NeverWraps(samples) && rttEwmaMs <= MAX_RTT_SAMPLE_MS
      ensures samples == if 0 <= nowMs - nonce <= 60_000 then old(samples) + [nowMs - nonce]
                         else old(samples)
    {
      if nonce <= nowMs {
        var sample := SatU64(nowMs - nonce);
        if sample <= MAX_RTT_SAMPLE_MS {
          RecordRttSample(sample);
        }
      }
      EwmaHeadroom(MAX_RTT_SAMPLE_MS);
      if samples != [] && BoundedBy(samples, MAX_RTT_SAMPLE_MS) {
        EwmaStaysInRange(samples, 0, MAX_RTT_SAMPLE_MS);
      }
    }
  }
}
