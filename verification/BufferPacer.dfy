/** The PI send-rate controller: clamped rate, bounded integrator, bounded catch-up. */
module BufferPacers {
  import opened RealArithmetic
  import opened SendSchedule

  function Clamp(x: real, lo: real, hi: real): (y: real)
    requires lo <= hi
    ensures lo <= y <= hi
    ensures lo <= x <= hi ==> y == x
  {
    if x < lo then lo else if x > hi then hi else x
  }

  /** The integration step in seconds, cut off at a tenth of a second. */
  function DtSeconds(before: int, now: int): (dt: real)
    ensures now - before < 100000000 ==> dt * 1000000000.0 == (now - before) as real
    ensures now - before >= 100000000 ==> 10.0 * dt == 1.0
  {
    var dt := (now - before) as real / 1000000000.0;
    if dt < 0.1 then dt else 0.1
  }

  function Contribution(err: real, before: int, now: int): real {
    err * DtSeconds(before, now)
  }

  /** An error held for a while contributes itself, per second, for at most a tenth of a second. */
  lemma ContributionIsHeldError(err: real, before: int, now: int)
    ensures now - before < 100000000 ==> Contribution(err, before, now) * 1000000000.0 == err * (now - before) as real
    ensures now - before >= 100000000 ==> 10.0 * Contribution(err, before, now) == err
  {
    ScaledProduct(err, DtSeconds(before, now), 1000000000.0);
    ScaledProduct(err, DtSeconds(before, now), 10.0);
  }

  lemma ScaledProduct(a: real, b: real, c: real)
    ensures a * b * c == a * (b * c)
  {
  }

  lemma OrderByProduct(x: real, y: real, c: real)
    requires c > 0.0
    ensures x <= y <==> x * c <= y * c
    ensures x < y <==> x * c < y * c
  {
    if x < y {
      ProductStrict(x, y, c);
    } else if y < x {
      ProductStrict(y, x, c);
    }
  }

  lemma CommandDifference(n: real, p: real, i: real, e0: real, e1: real, h0: real, h1: real)
    ensures n * (1.0 + p * e1 + i * h1) - n * (1.0 + p * e0 + i * h0) == n * (p * (e1 - e0)) + n * (i * (h1 - h0))
  {
  }

  class BufferPacer {
    const targetFill: real
    const kp: real
    const ki: real
    const bufferCapacity: nat
    const nominalRate: real
    const minRate: real
    const maxRate: real
    const maxIntegral: real
    var integral: real
    var desiredRate: real
    var prevUpdateTime: int
    var hasPrevUpdate: bool
    var nextSendTime: int
    var scheduleInitialized: bool

    /** The sends since the schedule was last initialised, and the latest call time. */
    ghost var sends: seq<Send>
    ghost var lastNow: int

    function MinPeriod(): int
      requires maxRate > 0.0
    {
      Period(maxRate)
    }

    function MaxPeriod(): int
      requires minRate > 0.0
    {
      Period(minRate)
    }

    ghost predicate Valid()
      reads this
    {
      && bufferCapacity > 0 && nominalRate > 0.0
      && minRate == nominalRate * 0.7 && maxRate == nominalRate * 1.3 && maxIntegral == 0.2
      && 0.0 < minRate <= desiredRate <= maxRate
      && -maxIntegral <= integral <= maxIntegral
      && (scheduleInitialized ==>
            && Chain(sends, MinPeriod(), MaxPeriod())
            && (sends != [] ==> sends[|sends| - 1].next == nextSendTime && sends[|sends| - 1].time <= lastNow)
            && (sends == [] ==> nextSendTime <= lastNow))
    }

    constructor (dacRate: nat, bufferCapacity: nat, samplesPerPacket: nat, targetFill: real, kp: real, ki: real)
      requires dacRate > 0 && bufferCapacity > 0 && samplesPerPacket > 0
      ensures Valid() && !scheduleInitialized
      ensures nominalRate == dacRate as real / samplesPerPacket as real && desiredRate == nominalRate
    {
      var rate := dacRate as real / samplesPerPacket as real;
      assert rate > 0.0;
      this.targetFill, this.kp, this.ki, this.bufferCapacity := targetFill, kp, ki, bufferCapacity;
      nominalRate, minRate, maxRate, maxIntegral := rate, rate * 0.7, rate * 1.3, 0.2;
      integral, desiredRate := 0.0, rate;
      hasPrevUpdate, scheduleInitialized, sends := false, false, [];
      prevUpdateTime, nextSendTime, lastNow := 0, 0, 0;
    }

    function FillError(fillSamples: nat): real
      requires bufferCapacity > 0
    {
      targetFill - fillSamples as real / bufferCapacity as real
    }

    /** The unclamped command of the controller. */
    function Command(err: real, integral: real): real {
      nominalRate * (1.0 + kp * err + ki * integral)
    }

    /** Below target the error is positive: an emptier buffer has a greater one, and a buffer at target none. */
    lemma ErrorFallsWithFill(a: nat, b: nat)
      requires bufferCapacity > 0 && a <= b
      ensures FillError(b) <= FillError(a)
      ensures a as real == targetFill * bufferCapacity as real ==> FillError(a) == 0.0
      ensures (a as real < targetFill * bufferCapacity as real) == (FillError(a) > 0.0)
    {
      var c := bufferCapacity as real;
      var x, y := a as real / c, b as real / c;
      assert x * c == a as real && y * c == b as real;
      OrderByProduct(x, y, c);
      OrderByProduct(x, targetFill, c);
    }

    /** The command answers a fill below target by sending faster and one above by sending slower, and without any
        error by the nominal rate; a held error moves it the same way. */
    lemma CommandAnswersError(err: real, more: real, integral: real, held: real)
      requires nominalRate > 0.0 && kp >= 0.0 && ki >= 0.0 && err <= more && integral <= held
      ensures Command(0.0, 0.0) == nominalRate && Command(err, integral) <= Command(more, held)
      ensures Command(more, held) - Command(err, integral)
        == nominalRate * (kp * (more - err)) + nominalRate * (ki * (held - integral))
    {
      CommandDifference(nominalRate, kp, ki, err, more, integral, held);
      ProductNonNegative(kp, more - err);
      ProductNonNegative(ki, held - integral);
      ProductNonNegative(nominalRate, kp * (more - err));
      ProductNonNegative(nominalRate, ki * (held - integral));
    }

    /** A fresh fill report moves the rate, never outside 30% of nominal, whatever was reported. */
    method UpdateController(fillSamples: nat, now: int)
      requires Valid()
      modifies this`integral, this`desiredRate, this`prevUpdateTime, this`hasPrevUpdate
      ensures Valid()
      ensures desiredRate == Clamp(Command(FillError(fillSamples), integral), minRate, maxRate)
      ensures integral ==
        (if old(hasPrevUpdate) then
           Clamp(old(integral) + Contribution(FillError(fillSamples), old(prevUpdateTime), now), -maxIntegral, maxIntegral)
         else old(integral))
      ensures hasPrevUpdate && prevUpdateTime == now
    {
      var err := FillError(fillSamples);
      if hasPrevUpdate {
        integral := integral + Contribution(err, prevUpdateTime, now);
        integral := Clamp(integral, -maxIntegral, maxIntegral);
      }
      hasPrevUpdate := true;
      prevUpdateTime := now;
      desiredRate := Command(err, integral);
      desiredRate := Clamp(desiredRate, minRate, maxRate);
    }

    /** The least period is that of 30% over nominal, the greatest that of 30% under. */
    lemma PeriodsOfRates()
      requires Valid()
      ensures Fills(MinPeriod(), nominalRate * 1.3, 1000000000.0) && Fills(MaxPeriod(), nominalRate * 0.7, 1000000000.0)
    {
      PeriodFillsSecond(maxRate);
      PeriodFillsSecond(minRate);
    }

    lemma PeriodInRange()
      requires Valid()
      ensures MinPeriod() <= Period(desiredRate) <= MaxPeriod()
    {
      PeriodAntitone(desiredRate, maxRate);
      PeriodAntitone(minRate, desiredRate);
    }

    method Reset()
      requires Valid()
      modifies this`integral, this`desiredRate, this`hasPrevUpdate, this`scheduleInitialized
      ensures Valid() && !scheduleInitialized && !hasPrevUpdate && desiredRate == nominalRate && integral == 0.0
    {
      integral := 0.0;
      desiredRate := nominalRate;
      hasPrevUpdate := false;
      scheduleInitialized := false;
    }

    /** Decide whether to send now. Every send extends the run of scheduled sends, whose rate over any
        window SendsInWindow bounds; no send happens before the schedule allows it. */
    method ShouldSend(now: int) returns (send: bool)
      requires Valid() && (scheduleInitialized ==> lastNow <= now)
      modifies this`nextSendTime, this`scheduleInitialized, this`sends, this`lastNow
      ensures Valid() && scheduleInitialized && lastNow == now
      ensures old(scheduleInitialized) ==> (send <==> old(nextSendTime) <= now)
      ensures !old(scheduleInitialized) ==> send
      ensures old(scheduleInitialized) ==> sends == old(sends) + (if send then [Send(now, Period(desiredRate), nextSendTime)] else [])
      ensures !old(scheduleInitialized) ==> sends == [Send(now, Period(desiredRate), nextSendTime)]
      ensures send ==> now - 3 * Period(desiredRate) <= nextSendTime <= now + Period(desiredRate)
      ensures nextSendTime ==
        var slot := if old(scheduleInitialized) then old(nextSendTime) else now;
        if send then AdvanceSchedule(slot, now, Period(desiredRate)) else slot
    {
      lastNow := now;
      PeriodInRange();
      if !scheduleInitialized {
        nextSendTime := now;
        scheduleInitialized := true;
        sends := [];
      }
      if now < nextSendTime {
        return false;
      }
      send := true;
      var period := Period(desiredRate);
      ChainAppend(sends, MinPeriod(), MaxPeriod(), nextSendTime, now, period);
      AdvanceBounds(nextSendTime, now, period, period);
      nextSendTime := Advance(nextSendTime, now, period);
      sends := sends + [Send(now, period, nextSendTime)];
    }
  }
}
