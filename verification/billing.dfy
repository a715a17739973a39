/** The pay loop: per-minute billing with an exact remainder, and payments that catch up after failures. */
module Billing {
  import opened Basics
  import opened Arith

  const MS_PER_MINUTE: nat := 60_000

  /** One turn of the loop: the clock and the rate it reads, and how its transfer and its send would go. */
  datatype Tick = Tick(nowMs: u64, rate: u64, transferOk: bool, sendOk: bool)

  /** The clock reading the next tick measures from. */
  function LastMs(startMs: u64, ticks: seq<Tick>): u64
  {
    if ticks == [] then startMs else ticks[|ticks| - 1].nowMs
  }

  /** What is owed for a list of ticks, in nano-units times milliseconds per minute: rate times elapsed time, summed. */
  function Owed(startMs: u64, ticks: seq<Tick>): nat
  {
    if ticks == [] then 0 else
      var n := |ticks| - 1;
      Owed(startMs, ticks[..n]) + ticks[n].rate * Max(0, ticks[n].nowMs - LastMs(startMs, ticks[..n]))
  }

  function Sum(amounts: seq<u64>): nat
  {
    if amounts == [] then 0 else Sum(amounts[..|amounts| - 1]) + amounts[|amounts| - 1]
  }

  /** The counters for what is owed: whole units, capped by the width of the counter, and what rounding drops. */
  predicate Balanced(owed: nat, remainder: u128, totalBilled: u128)
  {
    totalBilled == Min(U128_MAX, owed / MS_PER_MINUTE) && remainder == owed % MS_PER_MINUTE
  }

  /** The clock and the arithmetic of one tick: the counters follow what is owed. */
  method BillTick(startMs: u64, ticks: seq<Tick>, done: nat, lastMs: u64, remainder: u128, totalBilled: u128)
    returns (newRemainder: u128, newTotal: u128)
    requires done < |ticks| && lastMs == LastMs(startMs, ticks[..done])
    requires Balanced(Owed(startMs, ticks[..done]), remainder, totalBilled)
    ensures Balanced(Owed(startMs, ticks[..done + 1]), newRemainder, newTotal)
    ensures newTotal >= totalBilled
  {
    OwedStep(startMs, ticks, done);
    var elapsedMs := SatU64(ticks[done].nowMs - lastMs);
    newRemainder, newTotal := Bill(ticks[done].rate, elapsedMs, remainder, totalBilled,
                                   Owed(startMs, ticks[..done]), Owed(startMs, ticks[..done + 1]));
  }

  /** The arithmetic of one tick: what is owed grows by rate times elapsed time, and the counters follow. */
  method Bill(rate: u64, elapsedMs: u64, remainder: u128, totalBilled: u128, ghost owed: nat, ghost newOwed: nat)
    returns (newRemainder: u128, newTotal: u128)
    requires newOwed == owed + rate * elapsedMs
    requires Balanced(owed, remainder, totalBilled)
    ensures Balanced(newOwed, newRemainder, newTotal)
    ensures newTotal >= totalBilled
  {
    NumeratorFits(rate, elapsedMs, remainder);
    BillStep(owed, rate * elapsedMs);
    var numerator := SatU128(SatU128(rate * elapsedMs) + remainder);
    var deltaBilled := numerator / MS_PER_MINUTE;
    newRemainder := numerator % MS_PER_MINUTE;
    newTotal := SatU128(totalBilled + deltaBilled);
  }

  // ----- Payments -----

  /** What was billed by the end of the first `n` ticks. */
  function BilledBy(startMs: u64, ticks: seq<Tick>, n: nat): nat
    requires n <= |ticks|
  {
    Min(U128_MAX, Owed(startMs, ticks[..n]) / 60_000)
  }

  /**
   What was paid by the end of the first `n` ticks: each tick whose transfer and send succeed pays what is outstanding.
   */
  function PaidBy(startMs: u64, ticks: seq<Tick>, n: nat): nat
    requires n <= |ticks|
    decreases n, 0
  {
    if n == 0 then 0 else PaidBy(startMs, ticks, n - 1) + Payment(startMs, ticks, n - 1)
  }

  /** The payment of a tick: everything outstanding, as far as one payment can carry it. */
  function Payment(startMs: u64, ticks: seq<Tick>, n: nat): nat
    requires n < |ticks|
    decreases n, 1
  {
    var outstanding := BilledBy(startMs, ticks, n + 1) - PaidBy(startMs, ticks, n);
    if ticks[n].transferOk && ticks[n].sendOk then Max(0, Min(U64_MAX, outstanding)) else 0
  }

  /** A tick ends the loop: something is outstanding, its transfer succeeds, and the payment cannot be sent. */
  predicate Ends(startMs: u64, ticks: seq<Tick>, n: nat)
    requires n < |ticks|
  {
    ticks[n].transferOk && !ticks[n].sendOk && BilledBy(startMs, ticks, n + 1) > PaidBy(startMs, ticks, n)
  }

  /** The i-th payment sent was that of a tick. */
  ghost predicate IsPayment(startMs: u64, ticks: seq<Tick>, n: nat, sent: seq<u64>, i: nat)
    requires i < |sent|
  {
    && n < |ticks| && ticks[n].transferOk && ticks[n].sendOk
    && sent[i] == Payment(startMs, ticks, n) > 0
    && Sum(sent[..i]) == PaidBy(startMs, ticks, n)
  }

  /**
   The payments sent in the first `done` ticks, and the ticks they belong to: each tick that owes a payment, in order.
   */
  ghost predicate Settled(startMs: u64, ticks: seq<Tick>, done: nat, sent: seq<u64>, paidAt: seq<nat>)
    requires done <= |ticks|
  {
    && Sum(sent) == PaidBy(startMs, ticks, done)
    && |paidAt| == |sent| && (forall i, j :: 0 <= i < j < |paidAt| ==> paidAt[i] < paidAt[j])
    && (forall i :: 0 <= i < |sent| ==> paidAt[i] < done && IsPayment(startMs, ticks, paidAt[i], sent, i))
    && (forall n :: 0 <= n < done && n !in paidAt ==> Payment(startMs, ticks, n) == 0)
  }

  lemma TickWithoutPayment(startMs: u64, ticks: seq<Tick>, done: nat, sent: seq<u64>, paidAt: seq<nat>)
    requires done < |ticks| && Settled(startMs, ticks, done, sent, paidAt) && Payment(startMs, ticks, done) == 0
    ensures Settled(startMs, ticks, done + 1, sent, paidAt)
  {
  }

  lemma TickWithPayment(startMs: u64, ticks: seq<Tick>, done: nat, sent: seq<u64>, paidAt: seq<nat>, delta: u64)
    requires done < |ticks| && Settled(startMs, ticks, done, sent, paidAt)
    requires delta == Payment(startMs, ticks, done) > 0
    ensures Settled(startMs, ticks, done + 1, sent + [delta], paidAt + [done])
  {
    var more, moreAt := sent + [delta], paidAt + [done];
    PaymentIsSent(startMs, ticks, done, sent, delta);
    forall i | 0 <= i < |more| ensures moreAt[i] < done + 1 && IsPayment(startMs, ticks, moreAt[i], more, i) {
      if i < |sent| {
        assert IsPayment(startMs, ticks, paidAt[i], sent, i);
      }
    }
    forall n | 0 <= n < done + 1 && n !in moreAt ensures Payment(startMs, ticks, n) == 0 {
      assert moreAt[|paidAt|] == done && n != done && n !in paidAt;
    }
  }

  /** The payment of one tick: nothing, the end of the loop, or what is outstanding. */
  method PayTick(startMs: u64, ticks: seq<Tick>, n: nat, totalBilled: u128, totalPaid: u128, sent: seq<u64>,
                 ghost paidAt: seq<nat>)
    returns (ended: bool, newPaid: u128, newSent: seq<u64>, ghost newPaidAt: seq<nat>)
    requires n < |ticks| && Settled(startMs, ticks, n, sent, paidAt)
    requires totalBilled == BilledBy(startMs, ticks, n + 1) && totalPaid == Sum(sent) <= totalBilled
    ensures ended <==> Ends(startMs, ticks, n)
    ensures newPaid == Sum(newSent) <= totalBilled
    ensures Settled(startMs, ticks, n + 1, newSent, newPaidAt)
  {
    ended, newPaid, newSent, newPaidAt := false, totalPaid, sent, paidAt;
    if totalBilled > totalPaid {
      var delta: u64 := Min(totalBilled - totalPaid, U64_MAX);
      if !ticks[n].transferOk {
        TickWithoutPayment(startMs, ticks, n, sent, paidAt);
        return;
      }
      if !ticks[n].sendOk {
        TickWithoutPayment(startMs, ticks, n, sent, paidAt);
        ended := true;
        return;
      }
      SumStep(sent, delta);
      TickWithPayment(startMs, ticks, n, sent, paidAt, delta);
      newSent := sent + [delta];
      newPaidAt := paidAt + [n];
      newPaid := SatU128(totalPaid + delta);
    } else {
      TickWithoutPayment(startMs, ticks, n, sent, paidAt);
    }
  }

  /**
   The loop over `ticks`; `done` of them are processed, all unless one ends the loop. The amount billed is what is owed,
   rounded down to whole units and capped by the width of the counter, and the remainder is exactly what rounding
   dropped. Each payment sent is that of a tick whose transfer and send succeeded, `paidAt` in their order, and no other
   tick pays anything. The payments add up to the amount paid, which never exceeds the amount billed.
   */
  method PayLoop(startMs: u64, ticks: seq<Tick>)
    returns (done: nat, remainder: u128, totalBilled: u128, totalPaid: u128, sent: seq<u64>, ghost paidAt: seq<nat>)
    ensures done <= |ticks|
    ensures done < |ticks| ==> done > 0 && Ends(startMs, ticks, done - 1)
    ensures forall n :: 0 <= n < done - 1 ==> !Ends(startMs, ticks, n)
    ensures totalBilled == Min(U128_MAX, Owed(startMs, ticks[..done]) / 60_000)
    ensures remainder == Owed(startMs, ticks[..done]) % 60_000
    ensures totalPaid == Sum(sent) <= totalBilled
    ensures Settled(startMs, ticks, done, sent, paidAt)
  {
    var lastMs := startMs;
    remainder, totalBilled, totalPaid, sent, paidAt := 0, 0, 0, [], [];
    done := 0;
    while done < |ticks|
      invariant done <= |ticks|
      invariant lastMs == LastMs(startMs, ticks[..done])
      invariant Balanced(Owed(startMs, ticks[..done]), remainder, totalBilled)
      invariant totalPaid == Sum(sent) <= totalBilled
      invariant forall n :: 0 <= n < done ==> !Ends(startMs, ticks, n)
      invariant Settled(startMs, ticks, done, sent, paidAt)
    {
      var tick := ticks[done];
      remainder, totalBilled := BillTick(startMs, ticks, done, lastMs, remainder, totalBilled);
      lastMs := tick.nowMs;
      var ended;
      ended, totalPaid, sent, paidAt := PayTick(startMs, ticks, done, totalBilled, totalPaid, sent, paidAt);
      done := done + 1;
      if ended {
        break;
      }
    }
  }

  lemma PaymentIsSent(startMs: u64, ticks: seq<Tick>, n: nat, sent: seq<u64>, delta: u64)
    requires n < |ticks| && Sum(sent) == PaidBy(startMs, ticks, n)
    requires delta == Payment(startMs, ticks, n) > 0
    ensures var more := sent + [delta];
            && Sum(more) == Sum(sent) + delta
            && IsPayment(startMs, ticks, n, more, |sent|)
            && forall i, k :: 0 <= i < |sent| && IsPayment(startMs, ticks, k, sent, i) ==>
                 IsPayment(startMs, ticks, k, more, i)
  {
    var more := sent + [delta];
    SumStep(sent, delta);
    assert more[..|sent|] == sent;
    assert forall i :: 0 <= i < |sent| ==> more[..i] == sent[..i];
  }

  /**
   A tick that pays settles everything outstanding, earlier failures included, or sends the most a payment can carry.
   */
  lemma PaymentsCatchUp(startMs: u64, ticks: seq<Tick>, n: nat)
    requires n < |ticks| && ticks[n].transferOk && ticks[n].sendOk
    requires PaidBy(startMs, ticks, n) <= BilledBy(startMs, ticks, n + 1)
    ensures PaidBy(startMs, ticks, n + 1) == BilledBy(startMs, ticks, n + 1) || Payment(startMs, ticks, n) == U64_MAX
  {
  }

  lemma OwedStep(startMs: u64, ticks: seq<Tick>, done: nat)
    requires done < |ticks|
    ensures var before, after := ticks[..done], ticks[..done + 1];
            && LastMs(startMs, after) == ticks[done].nowMs
            && Owed(startMs, after)
               == Owed(startMs, before) + ticks[done].rate * SatU64(ticks[done].nowMs - LastMs(startMs, before))
  {
    assert ticks[..done + 1][..done] == ticks[..done];
  }

  lemma SumStep(sent: seq<u64>, delta: u64)
    ensures Sum(sent + [delta]) == Sum(sent) + delta
  {
    assert (sent + [delta])[..|sent|] == sent;
  }

  /** Neither saturating operation on the numerator saturates. */
  lemma NumeratorFits(rate: u64, elapsedMs: u64, remainder: nat)
    requires remainder < MS_PER_MINUTE
    ensures 0 <= rate * elapsedMs && rate * elapsedMs + remainder <= U128_MAX
  {
    MulMono(rate, U64_MAX, elapsedMs);
    MulMono(elapsedMs, U64_MAX, U64_MAX);
  }

  /**
   Carrying the remainder makes rounding each step the same as rounding the sum, and capping each step the same as
   capping the sum.
   */
  lemma BillStep(owed: nat, more: nat)
    ensures var numerator := more + owed % MS_PER_MINUTE;
            && (owed + more) % MS_PER_MINUTE == numerator % MS_PER_MINUTE
            && Min(U128_MAX, (owed + more) / MS_PER_MINUTE)
            == SatU128(Min(U128_MAX, owed / MS_PER_MINUTE) + numerator / MS_PER_MINUTE)
  {
  }

  // ----- Monotone clocks -----

  ghost predicate Monotone(startMs: u64, ticks: seq<Tick>)
  {
    forall i :: 0 <= i < |ticks| ==> LastMs(startMs, ticks[..i]) <= ticks[i].nowMs
  }

  /**
   With a clock that never runs back, what is owed lies between the lowest and the highest rate over the whole time,
   however the ticks are spaced.
   */
  lemma {:induction false} OwedBetweenRates(startMs: u64, ticks: seq<Tick>, low: u64, high: u64)
    requires Monotone(startMs, ticks)
    requires forall i :: 0 <= i < |ticks| ==> low <= ticks[i].rate <= high
    ensures startMs <= LastMs(startMs, ticks)
    ensures low * (LastMs(startMs, ticks) - startMs) <= Owed(startMs, ticks)
            <= high * (LastMs(startMs, ticks) - startMs)
  {
    if ticks != [] {
      var n := |ticks| - 1;
      assert forall i :: 0 <= i < n ==> ticks[..n][..i] == ticks[..i];
      OwedBetweenRates(startMs, ticks[..n], low, high);
      var last, elapsed := LastMs(startMs, ticks[..n]), ticks[n].nowMs - LastMs(startMs, ticks[..n]);
      MulMono(low, ticks[n].rate, elapsed);
      MulMono(ticks[n].rate, high, elapsed);
      Distribute(low, last - startMs, elapsed);
      Distribute(high, last - startMs, elapsed);
    }
  }

  /** With a monotone clock no counter saturates: the amount billed is what is owed, rounded down. */
  lemma NothingSaturates(startMs: u64, ticks: seq<Tick>)
    requires Monotone(startMs, ticks)
    ensures Owed(startMs, ticks) / MS_PER_MINUTE <= U128_MAX
  {
    OwedBetweenRates(startMs, ticks, 0, U64_MAX);
    MulMono(LastMs(startMs, ticks) - startMs, U64_MAX, U64_MAX);
  }

  /** With a monotone clock and one rate, the amount the loop bills depends on the time since the start only. */
  lemma ConstantRate(startMs: u64, ticks: seq<Tick>, rate: u64)
    requires Monotone(startMs, ticks)
    requires forall i :: 0 <= i < |ticks| ==> ticks[i].rate == rate
    ensures LastMs(startMs, ticks) >= startMs
    ensures Min(U128_MAX, Owed(startMs, ticks) / MS_PER_MINUTE)
            == rate * (LastMs(startMs, ticks) - startMs) / 60_000
  {
    OwedBetweenRates(startMs, ticks, rate, rate);
    NothingSaturates(startMs, ticks);
  }

  // ----- Any clock -----

  /** By how much the clock runs back over a list of ticks, in all. */
  function SteppedBack(startMs: u64, ticks: seq<Tick>): nat
  {
    if ticks == [] then 0 else
      var n := |ticks| - 1;
      SteppedBack(startMs, ticks[..n]) + Max(0, LastMs(startMs, ticks[..n]) - ticks[n].nowMs)
  }

  /**
   At one rate and on any clock, what is owed is the rate times the time since the start and every step back, which is
   billed again.
   */
  lemma {:induction false} OwedOnAnyClock(startMs: u64, ticks: seq<Tick>, rate: u64)
    requires forall i :: 0 <= i < |ticks| ==> ticks[i].rate == rate
    ensures LastMs(startMs, ticks) - startMs + SteppedBack(startMs, ticks) >= 0
    ensures Owed(startMs, ticks) == rate * (LastMs(startMs, ticks) - startMs + SteppedBack(startMs, ticks))
  {
    if ticks != [] {
      var n := |ticks| - 1;
      OwedOnAnyClock(startMs, ticks[..n], rate);
      var last := LastMs(startMs, ticks[..n]);
      Distribute(rate, last - startMs + SteppedBack(startMs, ticks[..n]), Max(0, ticks[n].nowMs - last));
    }
  }

  lemma {:induction false} MonotoneIsNotSteppingBack(startMs: u64, ticks: seq<Tick>)
    ensures Monotone(startMs, ticks) <==> SteppedBack(startMs, ticks) == 0
  {
    if ticks != [] {
      var n := |ticks| - 1;
      assert forall i :: 0 <= i < n ==> ticks[..n][..i] == ticks[..i];
      MonotoneIsNotSteppingBack(startMs, ticks[..n]);
    }
  }

  /**
   At one positive rate, no less is owed than the rate times the time since the start, and no more exactly if the clock
   never ran back.
   */
  lemma OwedExactlyIfMonotone(startMs: u64, ticks: seq<Tick>, rate: u64)
    requires rate > 0 && forall i :: 0 <= i < |ticks| ==> ticks[i].rate == rate
    ensures var due := rate * (LastMs(startMs, ticks) - startMs);
            Owed(startMs, ticks) >= due && (Owed(startMs, ticks) == due <==> Monotone(startMs, ticks))
  {
    MonotoneIsNotSteppingBack(startMs, ticks);
    OwedSplits(startMs, ticks, rate);
    StepsBackCost(rate, SteppedBack(startMs, ticks));
  }

  lemma OwedSplits(startMs: u64, ticks: seq<Tick>, rate: u64)
    requires forall i :: 0 <= i < |ticks| ==> ticks[i].rate == rate
    ensures Owed(startMs, ticks) == rate * (LastMs(startMs, ticks) - startMs) + rate * SteppedBack(startMs, ticks)
  {
    OwedOnAnyClock(startMs, ticks, rate);
    DistributeInt(rate, LastMs(startMs, ticks) - startMs, SteppedBack(startMs, ticks));
  }

  lemma DistributeInt(a: int, b: int, c: int)
    ensures a * (b + c) == a * b + a * c
  {
  }

  lemma StepsBackCost(rate: nat, back: nat)
    requires rate > 0
    ensures rate * back >= 0 && (rate * back == 0 <==> back == 0)
  {
    if back > 0 {
      MulMono(1, back, rate);
    }
  }

  /**
   So the amount billed is the rate times the time since the start, rounded down, exactly if the steps back cost less
   than what is missing to the next whole unit.
   */
  lemma BilledExactly(startMs: u64, ticks: seq<Tick>, rate: u64)
    requires rate > 0 && forall i :: 0 <= i < |ticks| ==> ticks[i].rate == rate
    requires startMs <= LastMs(startMs, ticks)
    ensures var due, extra := rate * (LastMs(startMs, ticks) - startMs), rate * SteppedBack(startMs, ticks);
            Min(U128_MAX, Owed(startMs, ticks) / MS_PER_MINUTE) == due / MS_PER_MINUTE
            <==> due % MS_PER_MINUTE + extra < MS_PER_MINUTE
  {
    var span := LastMs(startMs, ticks) - startMs;
    OwedSplits(startMs, ticks, rate);
    StepsBackCost(rate, SteppedBack(startMs, ticks));
    MulMono(span, U64_MAX, rate);
    MulMono(rate, U64_MAX, U64_MAX);
    RoundsTheSame(rate * span, rate * SteppedBack(startMs, ticks));
  }

  lemma RoundsTheSame(due: nat, extra: nat)
    requires due <= U64_MAX * U64_MAX
    ensures Min(U128_MAX, (due + extra) / MS_PER_MINUTE) == due / MS_PER_MINUTE
            <==> due % MS_PER_MINUTE + extra < MS_PER_MINUTE
  {
  }

  /** A clock that swings between two readings, `n` times up from the lower one. */
  function Swings(lowMs: u64, highMs: u64, rate: u64, n: nat): (ticks: seq<Tick>)
    ensures |ticks| == 2 * n && forall i :: 0 <= i < |ticks| ==> ticks[i].rate == rate
  {
    if n == 0 then []
    else Swings(lowMs, highMs, rate, n - 1) + [Tick(highMs, rate, true, true), Tick(lowMs, rate, true, true)]
  }

  /** Every swing bills the same stretch once more. */
  lemma {:induction false} SwingsBillAgain(lowMs: u64, highMs: u64, rate: u64, n: nat)
    requires lowMs <= highMs
    ensures LastMs(lowMs, Swings(lowMs, highMs, rate, n)) == lowMs
    ensures Owed(lowMs, Swings(lowMs, highMs, rate, n)) == n * (rate * (highMs - lowMs))
  {
    if n > 0 {
      SwingsBillAgain(lowMs, highMs, rate, n - 1);
      SwingBills(lowMs, highMs, rate, Swings(lowMs, highMs, rate, n - 1));
      Distribute(rate * (highMs - lowMs), n - 1, 1);
    }
  }

  lemma SwingBills(lowMs: u64, highMs: u64, rate: u64, ticks: seq<Tick>)
    requires lowMs <= highMs && LastMs(lowMs, ticks) == lowMs
    ensures var more := ticks + [Tick(highMs, rate, true, true), Tick(lowMs, rate, true, true)];
            LastMs(lowMs, more) == lowMs && Owed(lowMs, more) == Owed(lowMs, ticks) + rate * (highMs - lowMs)
  {
    var up, down := Tick(highMs, rate, true, true), Tick(lowMs, rate, true, true);
    OwedNext(lowMs, ticks, up);
    OwedNext(lowMs, ticks + [up], down);
    assert ticks + [up, down] == ticks + [up] + [down];
  }

  lemma OwedNext(startMs: u64, ticks: seq<Tick>, tick: Tick)
    ensures LastMs(startMs, ticks + [tick]) == tick.nowMs
    ensures Owed(startMs, ticks + [tick])
            == Owed(startMs, ticks) + tick.rate * Max(0, tick.nowMs - LastMs(startMs, ticks))
  {
    assert (ticks + [tick])[..|ticks|] == ticks;
  }

  /** On a clock that swings often enough the counter saturates: more is owed than it can hold. */
  lemma SwingsSaturate()
    ensures Owed(0, Swings(0, U64_MAX, U64_MAX, 60_001)) / MS_PER_MINUTE > U128_MAX
  {
    SwingsBillAgain(0, U64_MAX, U64_MAX, 60_001);
  }
}
