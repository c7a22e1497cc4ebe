/** The clock-extrapolation fill tracker: a ring of send timestamps, an anchor, a smoothed drain rate, and
    the send decision with hysteresis and keepalive. Times are integer nanoseconds. */
module ClockFillTrackers {
  import opened RealArithmetic
  import opened SendSchedule
  import opened ArrivalAlignment

  const RING_CAPACITY: nat := 64
  const ID_SPACE: int := 65536
  const KEEPALIVE_INTERVAL: int := 50000000

  datatype Config = Config(dacRate: nat, bufferCapacity: nat, samplesPerPacket: nat,
                           targetFillFrac: real, hystLowFrac: real, hystHighFrac: real,
                           burstMultiplier: real, rateAlpha: real) {
    predicate Sane() {
      && dacRate > 0 && samplesPerPacket > 0 && burstMultiplier > 0.0 && 0.0 <= rateAlpha <= 1.0
      && targetFillFrac >= 0.0 && hystLowFrac >= 0.0 && hystHighFrac >= 0.0
    }

    /** A fraction of the modem buffer, in whole samples. */
    function Scaled(frac: real): int { Truncate(frac * bufferCapacity as real) }

    /** The last whole sample count not above the fraction of the buffer. */
    lemma ScaledIsFraction(frac: real)
      requires frac >= 0.0
      ensures Scaled(frac) as real <= frac * bufferCapacity as real < Scaled(frac) as real + 1.0
    {
      ProductNonNegative(frac, bufferCapacity as real);
    }

    function TargetFill(): int { Scaled(targetFillFrac) }
    function HystLow(): int { Scaled(hystLowFrac) }
    function HystHigh(): int { Scaled(hystHighFrac) }

    function NominalRate(): (r: real)
      requires Sane()
      ensures r > 0.0 && r * samplesPerPacket as real == dacRate as real
    {
      dacRate as real / samplesPerPacket as real
    }

    function BurstRate(): (r: real)
      requires Sane()
      ensures r > 0.0
    {
      ProductPositive(NominalRate(), burstMultiplier);
      NominalRate() * burstMultiplier
    }
  }

  datatype Entry = Entry(packetId: nat, ts: int, cumulativeAfter: nat, valid: bool)

  datatype Lookup = Found(entry: Entry) | Missing

  /** A packet as the host sent it. */
  datatype Packet = Packet(id: nat, samples: nat, ts: int)

  /** Samples sent through the first k packets. */
  function Cumulative(sent: seq<Packet>, k: nat): nat
    requires k <= |sent|
  {
    if k == 0 then 0 else Cumulative(sent, k - 1) + sent[k - 1].samples
  }

  /** The ring entry packet k should have. */
  function EntryOf(sent: seq<Packet>, k: nat): Entry
    requires k < |sent|
  {
    Entry(sent[k].id, sent[k].ts, Cumulative(sent, k + 1), true)
  }

  /** The first packet still remembered. */
  function WindowStart(n: nat): nat { if n > RING_CAPACITY then n - RING_CAPACITY else 0 }

  lemma {:induction false} CumulativeStable(sent: seq<Packet>, p: Packet, k: nat)
    requires k <= |sent|
    ensures Cumulative(sent + [p], k) == Cumulative(sent, k)
  {
    if k > 0 {
      CumulativeStable(sent, p, k - 1);
    }
  }

  /** The ring is the window of the last 64 packets, each in its slot; slots not yet used are invalid. */
  ghost predicate WindowMap(ring: seq<Entry>, sent: seq<Packet>) {
    && |ring| == RING_CAPACITY
    && (forall k: nat :: WindowStart(|sent|) <= k < |sent| ==> ring[k % 64] == EntryOf(sent, k))
    && (forall j :: |sent| <= j < RING_CAPACITY ==> !ring[j].valid)
  }

  lemma WindowMapNext(ring: seq<Entry>, sent: seq<Packet>, p: Packet)
    requires WindowMap(ring, sent)
    ensures WindowMap(ring[|sent| % 64 := EntryOf(sent + [p], |sent|)], sent + [p])
  {
    var n := |sent|;
    var sent' := sent + [p];
    var ring' := ring[n % 64 := EntryOf(sent', n)];
    forall k: nat | WindowStart(n + 1) <= k < n + 1
      ensures ring'[k % 64] == EntryOf(sent', k)
    {
      if k < n {
        CumulativeStable(sent, p, k + 1);
        assert ring[k % 64] == EntryOf(sent, k);
      }
    }
  }

  /** Every valid slot belongs to a remembered packet. */
  lemma SlotPacket(ring: seq<Entry>, sent: seq<Packet>, j: nat) returns (k: nat)
    requires WindowMap(ring, sent) && j < RING_CAPACITY && ring[j].valid
    ensures WindowStart(|sent|) <= k < |sent| && k % 64 == j && ring[j] == EntryOf(sent, k)
  {
    var last := |sent| - 1;
    assert j < |sent|;
    k := last - (last - j) % 64;
    assert k % 64 == j;
  }

  /** Ids were handed out consecutively, modulo the 16-bit wrap. */
  ghost predicate ConsecutiveIds(sent: seq<Packet>) {
    forall k: nat :: k < |sent| ==> sent[k].id == (sent[0].id + k) % ID_SPACE
  }

  lemma WindowIdsDistinct(sent: seq<Packet>, j: nat, k: nat)
    requires ConsecutiveIds(sent) && WindowStart(|sent|) <= j < k < |sent|
    ensures sent[j].id != sent[k].id
  {
    assert 0 < k - j < 64;
  }

  /** The packet k is the only one of the window with its id. */
  lemma OnlyInWindow(sent: seq<Packet>, k: nat)
    requires WindowStart(|sent|) <= k < |sent|
    ensures ConsecutiveIds(sent) ==>
      forall j: nat :: WindowStart(|sent|) <= j < |sent| && sent[j].id == sent[k].id ==> j == k
  {
    if ConsecutiveIds(sent) {
      forall j: nat | WindowStart(|sent|) <= j < |sent| && sent[j].id == sent[k].id
        ensures j == k
      {
        if j < k {
          WindowIdsDistinct(sent, j, k);
        } else if k < j {
          WindowIdsDistinct(sent, k, j);
        }
      }
    }
  }

  /** Difference of two 16-bit counters read as a signed 16-bit number. */
  function SignedDelta(a: nat, b: nat): (d: int)
    ensures -32768 <= d < 32768
    ensures (a - b - d) % ID_SPACE == 0
  {
    var m := (a - b) % ID_SPACE;
    if m >= 32768 then m - ID_SPACE else m
  }

  /** One smoothing step of the drain-rate estimate. */
  function Ewma(rate: real, observed: real, alpha: real): real {
    (1.0 - alpha) * rate + alpha * observed
  }

  predicate Plausible(rate: real, nominal: real) {
    nominal * 0.5 < rate < nominal * 2.0
  }

  lemma EwmaStaysPlausible(rate: real, observed: real, alpha: real, nominal: real)
    requires Plausible(rate, nominal) && Plausible(observed, nominal) && 0.0 <= alpha <= 1.0
    ensures Plausible(Ewma(rate, observed, alpha), nominal)
  {
    var e := Ewma(rate, observed, alpha);
    WeightedPositive(alpha, rate - nominal * 0.5, observed - nominal * 0.5, e - nominal * 0.5);
    WeightedPositive(alpha, nominal * 2.0 - rate, nominal * 2.0 - observed, nominal * 2.0 - e);
  }

  function Power(a: real, k: nat): real {
    if k == 0 then 1.0 else a * Power(a, k - 1)
  }

  /** The estimate after k equal observations. */
  function EwmaRepeated(rate: real, observed: real, alpha: real, k: nat): real {
    if k == 0 then rate else Ewma(EwmaRepeated(rate, observed, alpha, k - 1), observed, alpha)
  }

  /** An error that shrinks by the factor 1 - alpha, k times over. */
  function Shrunk(error: real, alpha: real, k: nat): real {
    if k == 0 then error else (1.0 - alpha) * Shrunk(error, alpha, k - 1)
  }

  lemma {:induction false} ShrunkIsPower(error: real, alpha: real, k: nat)
    ensures Shrunk(error, alpha, k) == Power(1.0 - alpha, k) * error
  {
    if k > 0 {
      ShrunkIsPower(error, alpha, k - 1);
      Reassociate(1.0 - alpha, Power(1.0 - alpha, k - 1), error);
    }
  }

  lemma Reassociate(a: real, b: real, c: real)
    ensures a * (b * c) == (a * b) * c
  {
  }

  lemma EwmaShrinks(rate: real, observed: real, alpha: real)
    ensures Ewma(rate, observed, alpha) - observed == (1.0 - alpha) * (rate - observed)
  {
  }

  lemma {:induction false} EwmaError(rate: real, observed: real, alpha: real, k: nat)
    ensures EwmaRepeated(rate, observed, alpha, k) - observed == Shrunk(rate - observed, alpha, k)
  {
    if k > 0 {
      EwmaError(rate, observed, alpha, k - 1);
      EwmaShrinks(EwmaRepeated(rate, observed, alpha, k - 1), observed, alpha);
    }
  }

  /** Constant observations shrink the error by 1 - alpha each: the estimate converges geometrically. */
  lemma EwmaConverges(rate: real, observed: real, alpha: real, k: nat)
    ensures EwmaRepeated(rate, observed, alpha, k) - observed == Power(1.0 - alpha, k) * (rate - observed)
  {
    EwmaError(rate, observed, alpha, k);
    ShrunkIsPower(rate - observed, alpha, k);
  }

  /** Rounding the drained amount to samples costs at most half a sample. */
  lemma RoundingError(x: real)
    requires x >= 0.0
    ensures -0.5 <= Truncate(x + 0.5) as real - x <= 0.5
  {
  }

  /** A status report of the modem, as far as the tracker reads it. */
  datatype Status = Status(bufferFill: nat, fillReferenceId: nat, rxExpectedId: nat)

  /** What the host does and hears, in the order in which it happens. */
  datatype Traffic = Sent(packet: Packet) | Reported(status: Status, now: int)

  /** The packets sent among these events. */
  function SentIn(events: seq<Traffic>): seq<Packet> {
    if events == [] then []
    else
      var e := events[|events| - 1];
      SentIn(events[..|events| - 1]) + (if e.Sent? then [e.packet] else [])
  }

  /** How many reports are among these events. */
  function Reports(events: seq<Traffic>): nat {
    if events == [] then 0
    else Reports(events[..|events| - 1]) + (if events[|events| - 1].Reported? then 1 else 0)
  }

  datatype Recollection = Remembered(k: nat) | Forgot

  /** The packet of the window that carries an id. */
  ghost function Recall(sent: seq<Packet>, id: nat): (r: Recollection)
    ensures r.Remembered? ==> WindowStart(|sent|) <= r.k < |sent| && sent[r.k].id == id
    ensures r.Forgot? ==> forall k: nat :: WindowStart(|sent|) <= k < |sent| ==> sent[k].id != id
  {
    if exists k: nat :: WindowStart(|sent|) <= k < |sent| && sent[k].id == id then
      var k: nat :| WindowStart(|sent|) <= k < |sent| && sent[k].id == id;
      Remembered(k)
    else Forgot
  }

  /** The drain rate seen between two anchors: accepted samples minus the growth of the fill, per second.
      The accepted count is the signed 16-bit difference of the modem's own counter. */
  function ObservedRate(accepted: int, samplesPerPacket: nat, fillDelta: int, dt: int): real
    requires dt > 0
  {
    (accepted * samplesPerPacket - fillDelta) as real / (dt as real / NANOS)
  }

  /** The modem drains at a rate of so many samples a second from one instant to another; `drained` is its own count. */
  ghost predicate DrainsAt(drained: int -> real, from: int, to: int, rate: real) {
    drained(to) - drained(from) == rate * ((to - from) as real / NANOS)
  }

  /** The observed rate is the modem's: if the fill grew by the accepted samples less what was drained between two
      instants, and draining ran at one rate, that is the rate observed. */
  lemma ObservedIsDrain(accepted: int, samplesPerPacket: nat, fillDelta: int, from: int, to: int,
                        drained: int -> real, rate: real)
    requires from < to && DrainsAt(drained, from, to, rate)
    requires fillDelta as real == (accepted * samplesPerPacket) as real - (drained(to) - drained(from))
    ensures ObservedRate(accepted, samplesPerPacket, fillDelta, to - from) == rate
  {
    QuotientOfProduct(rate, (to - from) as real / NANOS);
  }

  lemma QuotientOfProduct(a: real, b: real)
    requires b > 0.0
    ensures a * b / b == a
  {
  }

  /** The smoothed rate after a report: one EWMA step towards a plausible observation, else unchanged. */
  function InferredRate(cfg: Config, rate: real, accepted: int, fillDelta: int, dt: int): (r: real)
    requires cfg.Sane()
    ensures Plausible(rate, cfg.dacRate as real) ==> Plausible(r, cfg.dacRate as real)
  {
    if dt > 0 && accepted > 0 && accepted * cfg.samplesPerPacket - fillDelta > 0
       && Plausible(ObservedRate(accepted, cfg.samplesPerPacket, fillDelta, dt), cfg.dacRate as real)
    then
      var observed := ObservedRate(accepted, cfg.samplesPerPacket, fillDelta, dt);
      assert Plausible(rate, cfg.dacRate as real) ==> Plausible(Ewma(rate, observed, cfg.rateAlpha), cfg.dacRate as real) by {
        if Plausible(rate, cfg.dacRate as real) {
          EwmaStaysPlausible(rate, observed, cfg.rateAlpha, cfg.dacRate as real);
        }
      }
      Ewma(rate, observed, cfg.rateAlpha)
    else rate
  }

  /** What was sent up to an event has consecutive ids if all that is sent does. */
  lemma {:induction false} SentPrefix(sent: seq<Packet>, events: seq<Traffic>, i: nat)
    requires i <= |events| && ConsecutiveIds(sent + SentIn(events))
    ensures ConsecutiveIds(sent + SentIn(events[..i]))
    decreases |events|
  {
    if i == |events| {
      assert events[..i] == events;
    } else {
      var prior := events[..|events| - 1];
      PrefixConsecutive(sent + SentIn(prior), sent + SentIn(events));
      SentPrefix(sent, prior, i);
      assert prior[..i] == events[..i];
    }
  }

  lemma PrefixConsecutive(a: seq<Packet>, b: seq<Packet>)
    requires a <= b && ConsecutiveIds(b)
    ensures ConsecutiveIds(a)
  {
    forall k: nat | k < |a|
      ensures a[k].id == (a[0].id + k) % ID_SPACE
    {
      assert b[k] == a[k];
    }
  }

  /** What the tracker goes by: its drain rate, whether it has a report behind it, and the fill, time, samples sent
      and modem counter it anchors to. */
  datatype Basis = Basis(rate: real, ready: bool, fill: int, time: int, cumulative: nat, rx: nat)

  /** The basis after a report: the reported fill at the time its reference packet was sent, and a refined rate; a
      report whose packet is forgotten anchors to its own arrival and leaves the rate alone. */
  ghost function AfterReport(cfg: Config, b: Basis, sent: seq<Packet>, status: Status, now: int): (b': Basis)
    requires cfg.Sane()
    ensures Plausible(b.rate, cfg.dacRate as real) ==> Plausible(b'.rate, cfg.dacRate as real)
  {
    match Recall(sent, status.fillReferenceId)
    case Remembered(k) =>
      var rate := if b.ready then InferredRate(cfg, b.rate, SignedDelta(status.rxExpectedId, b.rx),
                                               status.bufferFill - b.fill, sent[k].ts - b.time) else b.rate;
      Basis(rate, true, status.bufferFill, sent[k].ts, Cumulative(sent, k + 1), status.rxExpectedId)
    case Forgot =>
      Basis(b.rate, true, status.bufferFill, now, Cumulative(sent, |sent|), status.rxExpectedId)
  }

  /** The basis after a run of sends and reports in any order. */
  ghost function Follow(cfg: Config, sent: seq<Packet>, b: Basis, events: seq<Traffic>): (b': Basis)
    requires cfg.Sane()
    ensures Plausible(b.rate, cfg.dacRate as real) ==> Plausible(b'.rate, cfg.dacRate as real)
  {
    if events == [] then b
    else
      var prior, e := events[..|events| - 1], events[|events| - 1];
      if e.Sent? then Follow(cfg, sent, b, prior)
      else AfterReport(cfg, Follow(cfg, sent, b, prior), sent + SentIn(prior), e.status, e.now)
  }

  lemma FollowNext(cfg: Config, sent: seq<Packet>, b: Basis, events: seq<Traffic>, e: Traffic)
    requires cfg.Sane()
    ensures SentIn(events + [e]) == SentIn(events) + (if e.Sent? then [e.packet] else [])
    ensures Follow(cfg, sent, b, events + [e]) == if e.Sent? then Follow(cfg, sent, b, events)
      else AfterReport(cfg, Follow(cfg, sent, b, events), sent + SentIn(events), e.status, e.now)
  {
    assert (events + [e])[..|events|] == events;
  }

  /** The report names a remembered packet and is true of a modem that, since the basis, drained at the given rate,
      between half and twice the nominal one: its fill grew by the samples it accepted less those it drained. A first
      report shows no rate yet. */
  ghost predicate Observes(cfg: Config, b: Basis, sent: seq<Packet>, status: Status, drained: int -> real, rate: real) {
    match Recall(sent, status.fillReferenceId)
    case Forgot => false
    case Remembered(k) => b.ready ==>
      var accepted, growth := SignedDelta(status.rxExpectedId, b.rx), status.bufferFill - b.fill;
      && accepted > 0 && b.time < sent[k].ts && DrainsAt(drained, b.time, sent[k].ts, rate)
      && growth as real == (accepted * cfg.samplesPerPacket) as real - (drained(sent[k].ts) - drained(b.time))
      && cfg.dacRate as real < 2.0 * rate && rate < 2.0 * cfg.dacRate as real
  }

  /** Every report of the run is true of a modem that drains at one rate. */
  ghost predicate Steady(cfg: Config, sent: seq<Packet>, b: Basis, events: seq<Traffic>, drained: int -> real, rate: real)
    requires cfg.Sane()
  {
    events == [] ||
    var prior, e := events[..|events| - 1], events[|events| - 1];
    && Steady(cfg, sent, b, prior, drained, rate)
    && (e.Reported? ==> Observes(cfg, Follow(cfg, sent, b, prior), sent + SentIn(prior), e.status, drained, rate))
  }

  /** How many of the reports refine the rate: a tracker's first one only gives it an anchor. */
  function Refinements(ready: bool, events: seq<Traffic>): nat {
    if ready || Reports(events) == 0 then Reports(events) else Reports(events) - 1
  }

  /** A positive rate over a positive time drains a positive amount. */
  lemma DrainPositive(drained: int -> real, from: int, to: int, rate: real)
    requires from < to && DrainsAt(drained, from, to, rate) && rate > 0.0
    ensures drained(to) - drained(from) > 0.0
  {
    ProductPositive(rate, (to - from) as real / NANOS);
  }

  lemma ObservedStep(cfg: Config, b: Basis, sent: seq<Packet>, status: Status, now: int, drained: int -> real, rate: real)
    requires cfg.Sane() && Observes(cfg, b, sent, status, drained, rate)
    ensures AfterReport(cfg, b, sent, status, now).rate == if b.ready then Ewma(b.rate, rate, cfg.rateAlpha) else b.rate
  {
    if b.ready {
      var k := Recall(sent, status.fillReferenceId).k;
      DrainPositive(drained, b.time, sent[k].ts, rate);
      ObservedIsDrain(SignedDelta(status.rxExpectedId, b.rx), cfg.samplesPerPacket, status.bufferFill - b.fill,
                      b.time, sent[k].ts, drained, rate);
    }
  }

  lemma {:induction false} SteadyIsRepeated(cfg: Config, sent: seq<Packet>, b: Basis, events: seq<Traffic>,
                                            drained: int -> real, rate: real)
    requires cfg.Sane() && Steady(cfg, sent, b, events, drained, rate)
    ensures Follow(cfg, sent, b, events).ready <==> b.ready || Reports(events) > 0
    ensures Follow(cfg, sent, b, events).rate == EwmaRepeated(b.rate, rate, cfg.rateAlpha, Refinements(b.ready, events))
  {
    if events != [] {
      var prior, e := events[..|events| - 1], events[|events| - 1];
      SteadyIsRepeated(cfg, sent, b, prior, drained, rate);
      if e.Reported? {
        ObservedStep(cfg, Follow(cfg, sent, b, prior), sent + SentIn(prior), e.status, e.now, drained, rate);
      }
    }
  }

  /** The error of the estimate after k refinements towards one rate. */
  predicate ErrorShrunk(rate: real, first: real, observed: real, alpha: real, k: nat) {
    rate - observed == Power(1.0 - alpha, k) * (first - observed)
  }

  lemma RepeatedConverges(rate: real, first: real, observed: real, alpha: real, k: nat)
    requires rate == EwmaRepeated(first, observed, alpha, k)
    ensures ErrorShrunk(rate, first, observed, alpha, k)
  {
    EwmaConverges(first, observed, alpha, k);
  }

  /** While the modem drains at one rate, every report shrinks the error of the estimate by the same factor, whatever
      is sent in between. */
  lemma SteadyConverges(cfg: Config, sent: seq<Packet>, b: Basis, events: seq<Traffic>, drained: int -> real, rate: real)
    requires cfg.Sane() && Steady(cfg, sent, b, events, drained, rate)
    ensures ErrorShrunk(Follow(cfg, sent, b, events).rate, b.rate, rate, cfg.rateAlpha, Refinements(b.ready, events))
  {
    SteadyIsRepeated(cfg, sent, b, events, drained, rate);
    RepeatedConverges(Follow(cfg, sent, b, events).rate, b.rate, rate, cfg.rateAlpha, Refinements(b.ready, events));
  }

  class ClockFillTracker {
    const cfg: Config
    const targetFill: int
    const hystLow: int
    const hystHigh: int
    const nominalPeriod: int
    const burstPeriod: int
    const ring: array<Entry>
    var modemRate: real
    var hasAnchor: bool
    var anchorFill: int
    var anchorTime: int
    var anchorCumulative: nat
    var lastAnchorWasFallback: bool
    var skipNextRateInference: bool
    var nextRingSlot: nat
    var cumulativeSent: nat
    var prevRxExpectedId: nat
    var prevRxValid: bool
    var fallbackAnchorCount: nat
    var nextSendTime: int
    var lastSendTime: int
    var scheduleInitialized: bool
    var holding: bool

    /** The packets sent since the last reset, the scheduled sends since the schedule was initialised,
        and the latest decision time. */
    ghost var sent: seq<Packet>
    ghost var sends: seq<Send>
    ghost var lastNow: int

    ghost predicate RingValid()
      reads this`sent, this`nextRingSlot, this`cumulativeSent, ring
    {
      && ring.Length == RING_CAPACITY && WindowMap(ring[..], sent)
      && nextRingSlot == |sent| && cumulativeSent == Cumulative(sent, |sent|)
    }

    /** The two periods the schedule ever uses. */
    function MinPeriod(): int { if nominalPeriod <= burstPeriod then nominalPeriod else burstPeriod }
    function MaxPeriod(): int { if nominalPeriod <= burstPeriod then burstPeriod else nominalPeriod }

    /** One of the two is the least and the other the greatest. */
    lemma PeriodsInOrder()
      ensures MinPeriod() <= nominalPeriod <= MaxPeriod() && MinPeriod() <= burstPeriod <= MaxPeriod()
      ensures {MinPeriod(), MaxPeriod()} == {nominalPeriod, burstPeriod}
    {
    }

    /** The never-silent invariant and the run of scheduled sends. */
    ghost predicate ScheduleValid()
      reads this`scheduleInitialized, this`nextSendTime, this`lastSendTime, this`lastNow, this`sends
    {
      cfg.Sane() && nominalPeriod >= 0 && burstPeriod >= 0 &&
      (scheduleInitialized ==>
         && nextSendTime <= lastSendTime + MaxPeriod() && lastSendTime <= lastNow
         && Chain(sends, MinPeriod(), MaxPeriod())
         && (sends != [] ==> sends[|sends| - 1].next == nextSendTime && sends[|sends| - 1].time <= lastNow))
    }

    ghost predicate Valid()
      reads this`sent, this`nextRingSlot, this`cumulativeSent, ring,
            this`scheduleInitialized, this`nextSendTime, this`lastSendTime, this`lastNow, this`sends
    {
      RingValid() && ScheduleValid()
    }

    constructor (cfg: Config, rateHint: nat)
      requires cfg.Sane()
      ensures Valid() && sent == [] && !hasAnchor && !scheduleInitialized && this.cfg == cfg && fresh(ring)
      ensures modemRate == (if rateHint != 0 then rateHint else cfg.dacRate) as real
      ensures targetFill == cfg.Scaled(cfg.targetFillFrac)
      ensures hystLow == cfg.Scaled(cfg.hystLowFrac) && hystHigh == cfg.Scaled(cfg.hystHighFrac)
      ensures nominalPeriod == Period(cfg.NominalRate()) && burstPeriod == Period(cfg.BurstRate())
    {
      this.cfg := cfg;
      targetFill, hystLow, hystHigh := cfg.TargetFill(), cfg.HystLow(), cfg.HystHigh();
      nominalPeriod, burstPeriod := Period(cfg.NominalRate()), Period(cfg.BurstRate());
      ring := new Entry[RING_CAPACITY](i => Entry(0, 0, 0, false));
      modemRate := if rateHint != 0 then rateHint as real else cfg.dacRate as real;
      hasAnchor, anchorFill, anchorTime, anchorCumulative := false, 0, 0, 0;
      lastAnchorWasFallback, skipNextRateInference := false, true;
      nextRingSlot, cumulativeSent, prevRxExpectedId, prevRxValid, fallbackAnchorCount := 0, 0, 0, false, 0;
      nextSendTime, lastSendTime, scheduleInitialized, holding := 0, 0, false, false;
      sent, sends, lastNow := [], [], 0;
    }

    method OnPacketSent(packetId: nat, samples: nat, now: int)
      requires Valid()
      modifies this`cumulativeSent, this`nextRingSlot, this`sent, ring
      ensures Valid() && sent == old(sent) + [Packet(packetId, samples, now)]
    {
      ghost var p, before := Packet(packetId, samples, now), ring[..];
      cumulativeSent := cumulativeSent + samples;
      CumulativeStable(sent, p, |sent|);
      WindowMapNext(before, sent, p);
      ring[nextRingSlot % RING_CAPACITY] := Entry(packetId, now, cumulativeSent, true);
      assert ring[..] == before[|sent| % 64 := EntryOf(sent + [p], |sent|)];
      nextRingSlot := nextRingSlot + 1;
      sent := sent + [p];
    }

    /** Linear search for a packet id among the remembered sends. With consecutive ids the ring is an exact
        map on its window: an id is found exactly when one of the last 64 packets carries it, however often
        the 16-bit counter has wrapped, and then with that packet's own time and cumulative count. */
    method FindEntry(packetId: nat) returns (r: Lookup)
      requires RingValid()
      ensures r.Found? ==> exists k: nat :: WindowStart(|sent|) <= k < |sent| && sent[k].id == packetId && r.entry == EntryOf(sent, k)
      ensures r.Missing? ==> forall k: nat :: WindowStart(|sent|) <= k < |sent| ==> sent[k].id != packetId
      ensures ConsecutiveIds(sent) ==>
        forall k: nat :: WindowStart(|sent|) <= k < |sent| && sent[k].id == packetId ==> r == Found(EntryOf(sent, k))
    {
      var j := 0;
      while j < RING_CAPACITY
        invariant j <= RING_CAPACITY
        invariant forall i :: 0 <= i < j ==> !(ring[i].valid && ring[i].packetId == packetId)
      {
        if ring[j].valid && ring[j].packetId == packetId {
          ghost var k := SlotPacket(ring[..], sent, j);
          OnlyInWindow(sent, k);
          return Found(ring[j]);
        }
        j := j + 1;
      }
      forall k: nat | WindowStart(|sent|) <= k < |sent|
        ensures sent[k].id != packetId
      {
        assert ring[..][k % 64] == EntryOf(sent, k);
      }
      return Missing;
    }

    /** What the tracker would set the anchor to for a report arriving now. */
    method LookUpAnchor(status: Status, now: int) returns (found: bool, time: int, cumulative: nat)
      requires RingValid()
      ensures found ==>
        (exists k: nat :: WindowStart(|sent|) <= k < |sent| && sent[k].id == status.fillReferenceId
                          && time == sent[k].ts && cumulative == Cumulative(sent, k + 1))
      ensures found && ConsecutiveIds(sent) ==> forall k: nat ::
        WindowStart(|sent|) <= k < |sent| && sent[k].id == status.fillReferenceId ==>
        time == sent[k].ts && cumulative == Cumulative(sent, k + 1)
      ensures !found ==> time == now && cumulative == cumulativeSent
      ensures !found <==> forall k: nat :: WindowStart(|sent|) <= k < |sent| ==> sent[k].id != status.fillReferenceId
    {
      var r := FindEntry(status.fillReferenceId);
      match r
      case Found(e) => return true, e.ts, e.cumulativeAfter;
      case Missing => return false, now, cumulativeSent;
    }

    /** The reference packet of a report is no longer remembered. */
    ghost predicate Forgotten(id: nat)
      reads this`sent
    {
      forall k: nat :: WindowStart(|sent|) <= k < |sent| ==> sent[k].id != id
    }

    /** The anchor is exact for the report: the fill it names, at the time its reference packet was sent,
        against the samples sent through that packet. */
    ghost predicate AnchoredAt(status: Status, k: nat)
      requires k < |sent|
      reads this`sent, this`anchorFill, this`anchorTime, this`anchorCumulative
    {
      anchorFill == status.bufferFill && anchorTime == sent[k].ts && anchorCumulative == Cumulative(sent, k + 1)
    }

    /** Move the anchor to the reported fill. */
    method MoveAnchor(status: Status, now: int)
      requires RingValid()
      modifies this`hasAnchor, this`anchorFill, this`anchorTime, this`anchorCumulative, this`lastAnchorWasFallback,
               this`fallbackAnchorCount
      ensures hasAnchor && anchorFill == status.bufferFill
      ensures lastAnchorWasFallback <==> Forgotten(status.fillReferenceId)
      ensures lastAnchorWasFallback ==> anchorTime == now && anchorCumulative == cumulativeSent
      ensures !lastAnchorWasFallback && ConsecutiveIds(sent) ==> forall k: nat ::
        WindowStart(|sent|) <= k < |sent| && sent[k].id == status.fillReferenceId ==> AnchoredAt(status, k)
      ensures fallbackAnchorCount == old(fallbackAnchorCount) + (if lastAnchorWasFallback then 1 else 0)
    {
      var found, time, cumulative := LookUpAnchor(status, now);
      hasAnchor, anchorFill, anchorTime, anchorCumulative := true, status.bufferFill, time, cumulative;
      lastAnchorWasFallback := !found;
      if !found {
        fallbackAnchorCount := fallbackAnchorCount + 1;
      }
    }

    /** A status report: move the anchor to the reported fill at the time its reference packet was sent (or
        to the arrival time when that packet is forgotten), and refine the drain rate between anchors. The
        skip flag never survives the call: a fallback anchor suppresses its own inference, not the next. */
    method OnStatus(status: Status, now: int)
      requires Valid()
      modifies this`hasAnchor, this`anchorFill, this`anchorTime, this`anchorCumulative, this`lastAnchorWasFallback,
               this`fallbackAnchorCount, this`skipNextRateInference, this`modemRate, this`prevRxExpectedId, this`prevRxValid
      ensures Valid()
      ensures hasAnchor && anchorFill == status.bufferFill && prevRxValid && prevRxExpectedId == status.rxExpectedId
      ensures lastAnchorWasFallback <==> Forgotten(status.fillReferenceId)
      ensures lastAnchorWasFallback ==> anchorTime == now && anchorCumulative == cumulativeSent
      ensures !lastAnchorWasFallback && ConsecutiveIds(sent) ==> forall k: nat ::
        WindowStart(|sent|) <= k < |sent| && sent[k].id == status.fillReferenceId ==> AnchoredAt(status, k)
      ensures fallbackAnchorCount == old(fallbackAnchorCount) + (if lastAnchorWasFallback then 1 else 0)
      ensures !skipNextRateInference
      ensures modemRate ==
        (if old(hasAnchor) && old(prevRxValid) && !old(skipNextRateInference) && !lastAnchorWasFallback then
           InferredRate(cfg, old(modemRate), SignedDelta(status.rxExpectedId, old(prevRxExpectedId)),
                        status.bufferFill - old(anchorFill), anchorTime - old(anchorTime))
         else old(modemRate))
      ensures Plausible(old(modemRate), cfg.dacRate as real) ==> Plausible(modemRate, cfg.dacRate as real)
    {
      var prevHas, prevFill, prevT := hasAnchor, anchorFill, anchorTime;
      MoveAnchor(status, now);
      Infer(status, prevHas, prevFill, prevT);
    }

    ghost function Reference(): Basis
      reads this`modemRate, this`hasAnchor, this`prevRxValid, this`skipNextRateInference, this`anchorFill,
            this`anchorTime, this`anchorCumulative, this`prevRxExpectedId
    {
      Basis(modemRate, hasAnchor && prevRxValid && !skipNextRateInference, anchorFill, anchorTime, anchorCumulative,
            prevRxExpectedId)
    }

    /** One report moves the basis as specified. */
    method OnReport(status: Status, now: int)
      requires Valid() && ConsecutiveIds(sent)
      modifies this`hasAnchor, this`anchorFill, this`anchorTime, this`anchorCumulative, this`lastAnchorWasFallback,
               this`fallbackAnchorCount, this`skipNextRateInference, this`modemRate, this`prevRxExpectedId, this`prevRxValid
      ensures Valid() && Reference() == AfterReport(cfg, old(Reference()), sent, status, now)
    {
      OnStatus(status, now);
      if Recall(sent, status.fillReferenceId).Remembered? {
        assert AnchoredAt(status, Recall(sent, status.fillReferenceId).k);
      }
    }

    /** One send or report. */
    method OnTraffic(e: Traffic)
      requires Valid() && (e.Reported? ==> ConsecutiveIds(sent))
      modifies this`cumulativeSent, this`nextRingSlot, this`sent, ring,
               this`hasAnchor, this`anchorFill, this`anchorTime, this`anchorCumulative, this`lastAnchorWasFallback,
               this`fallbackAnchorCount, this`skipNextRateInference, this`modemRate, this`prevRxExpectedId, this`prevRxValid
      ensures Valid() && sent == if e.Sent? then old(sent) + [e.packet] else old(sent)
      ensures Reference() == if e.Sent? then old(Reference()) else AfterReport(cfg, old(Reference()), sent, e.status, e.now)
    {
      match e
      case Sent(p) => OnPacketSent(p.id, p.samples, p.ts);
      case Reported(status, now) => OnReport(status, now);
    }

    /** Where the tracker stands after these events. */
    ghost predicate Followed(sent0: seq<Packet>, b0: Basis, events: seq<Traffic>)
      reads this, ring
    {
      Valid() && sent == sent0 + SentIn(events) && Reference() == Follow(cfg, sent0, b0, events)
    }

    method FollowOne(ghost sent0: seq<Packet>, ghost b0: Basis, ghost past: seq<Traffic>, e: Traffic)
      requires Followed(sent0, b0, past) && ConsecutiveIds(sent0 + SentIn(past))
      modifies this`cumulativeSent, this`nextRingSlot, this`sent, ring,
               this`hasAnchor, this`anchorFill, this`anchorTime, this`anchorCumulative, this`lastAnchorWasFallback,
               this`fallbackAnchorCount, this`skipNextRateInference, this`modemRate, this`prevRxExpectedId, this`prevRxValid
      ensures Followed(sent0, b0, past + [e])
    {
      FollowNext(cfg, sent0, b0, past, e);
      OnTraffic(e);
      assert sent == sent0 + SentIn(past + [e]);
    }

    /** Any run of sends and reports, in any order. The tracker goes by what the specification says of the whole run:
        each report is matched against the packets sent up to then, forgotten packets included. The rate never leaves
        its plausible range; and while the modem drains at one rate, and its reports are true, every report shrinks the
        error of the estimate against that rate by the same factor, whatever is sent in between. */
    method OnReports(events: seq<Traffic>, ghost drained: int -> real, ghost rate: real)
      requires Valid() && ConsecutiveIds(sent + SentIn(events))
      modifies this`cumulativeSent, this`nextRingSlot, this`sent, ring,
               this`hasAnchor, this`anchorFill, this`anchorTime, this`anchorCumulative, this`lastAnchorWasFallback,
               this`fallbackAnchorCount, this`skipNextRateInference, this`modemRate, this`prevRxExpectedId, this`prevRxValid
      ensures Valid() && sent == old(sent) + SentIn(events)
      ensures Reference() == Follow(cfg, old(sent), old(Reference()), events)
      ensures cfg.dacRate as real < 2.0 * old(modemRate) && old(modemRate) < 2.0 * cfg.dacRate as real ==>
        cfg.dacRate as real < 2.0 * modemRate && modemRate < 2.0 * cfg.dacRate as real
      ensures Steady(cfg, old(sent), old(Reference()), events, drained, rate) ==>
        ErrorShrunk(modemRate, old(modemRate), rate, cfg.rateAlpha, Refinements(old(Reference()).ready, events))
    {
      FollowAll(events);
      if Steady(cfg, old(sent), old(Reference()), events, drained, rate) {
        SteadyConverges(cfg, old(sent), old(Reference()), events, drained, rate);
      }
    }

    /** The events one after another. */
    method FollowAll(events: seq<Traffic>)
      requires Valid() && ConsecutiveIds(sent + SentIn(events))
      modifies this`cumulativeSent, this`nextRingSlot, this`sent, ring,
               this`hasAnchor, this`anchorFill, this`anchorTime, this`anchorCumulative, this`lastAnchorWasFallback,
               this`fallbackAnchorCount, this`skipNextRateInference, this`modemRate, this`prevRxExpectedId, this`prevRxValid
      ensures Followed(old(sent), old(Reference()), events)
    {
      ghost var sent0, b0 := sent, Reference();
      assert sent0 + SentIn([]) == sent0;
      var i := 0;
      while i < |events|
        invariant i <= |events| && Followed(sent0, b0, events[..i])
      {
        SentPrefix(sent0, events, i);
        FollowOne(sent0, b0, events[..i], events[i]);
        assert events[..i] + [events[i]] == events[..i + 1];
        i := i + 1;
      }
      assert events[..i] == events;
    }

    /** Rate inference between the previous anchor and the one just set. */
    method Infer(status: Status, prevHas: bool, prevFill: int, prevT: int)
      requires cfg.Sane()
      modifies this`skipNextRateInference, this`modemRate, this`prevRxExpectedId, this`prevRxValid
      ensures prevRxValid && prevRxExpectedId == status.rxExpectedId && !skipNextRateInference
      ensures modemRate ==
        (if prevHas && old(prevRxValid) && !old(skipNextRateInference) && !lastAnchorWasFallback then
           InferredRate(cfg, old(modemRate), SignedDelta(status.rxExpectedId, old(prevRxExpectedId)),
                        anchorFill - prevFill, anchorTime - prevT)
         else old(modemRate))
    {
      if lastAnchorWasFallback {
        skipNextRateInference := true;
      }
      if prevHas && prevRxValid && !skipNextRateInference {
        modemRate := InferredRate(cfg, modemRate, SignedDelta(status.rxExpectedId, prevRxExpectedId),
                                  anchorFill - prevFill, anchorTime - prevT);
      }
      prevRxExpectedId := status.rxExpectedId;
      prevRxValid := true;
      skipNextRateInference := false;
    }

    /** The estimate before clamping to the modem buffer. */
    function Unclamped(now: int): int
      requires hasAnchor
      reads this`hasAnchor, this`anchorFill, this`anchorTime, this`anchorCumulative, this`cumulativeSent, this`modemRate
    {
      anchorFill + (cumulativeSent - anchorCumulative) - Truncate((now - anchorTime) as real / NANOS * modemRate + 0.5)
    }

    function ExtrapolatedFill(now: int): int
      reads this`hasAnchor, this`anchorFill, this`anchorTime, this`anchorCumulative, this`cumulativeSent, this`modemRate
    {
      if !hasAnchor then targetFill
      else
        var fill := if Unclamped(now) >= 0 then Unclamped(now) else 0;
        if fill <= cfg.bufferCapacity then fill else cfg.bufferCapacity
    }

    /** The extrapolation is the estimate where that is a possible fill, the nearer end of the modem's buffer where it is
        not, and the target while there is no anchor. */
    lemma FillIsPossible(now: int)
      ensures !hasAnchor ==> ExtrapolatedFill(now) == targetFill
      ensures hasAnchor ==> 0 <= ExtrapolatedFill(now) <= cfg.bufferCapacity
      ensures hasAnchor && 0 <= Unclamped(now) <= cfg.bufferCapacity ==> ExtrapolatedFill(now) == Unclamped(now)
      ensures hasAnchor && Unclamped(now) < 0 ==> ExtrapolatedFill(now) == 0
      ensures hasAnchor && Unclamped(now) > cfg.bufferCapacity ==> ExtrapolatedFill(now) == cfg.bufferCapacity
    {
    }

    /** If the anchor is exact and the modem drains at the estimated rate, the estimate is within half a
        sample of the true fill: everything sent, less everything drained. `drained` is the modem's own
        count as a function of time. */
    lemma EstimateWithinHalfSample(now: int, drained: int -> real)
      requires hasAnchor && anchorTime <= now && modemRate >= 0.0
      requires anchorFill as real == anchorCumulative as real - drained(anchorTime)
      requires drained(now) - drained(anchorTime) == (now - anchorTime) as real / NANOS * modemRate
      ensures -0.5 <= Unclamped(now) as real - (cumulativeSent as real - drained(now)) <= 0.5
    {
      var x := (now - anchorTime) as real / NANOS * modemRate;
      ProductNonNegative((now - anchorTime) as real / NANOS, modemRate);
      RoundingError(x);
    }

    /** Which fill the hold decision believes: the extrapolation, or the anchor when they disagree by more
        than half the target. */
    function EffectiveFill(fill: int): int
      reads this`hasAnchor, this`anchorFill
    {
      var gap := if fill >= anchorFill then fill - anchorFill else anchorFill - fill;
      if hasAnchor && gap > targetFill / 2 then anchorFill else fill
    }

    /** The hysteresis: hold above target plus margin, release below target. */
    function NextHolding(fill: int): bool
      reads this`hasAnchor, this`anchorFill, this`holding
    {
      if !holding then EffectiveFill(fill) > targetFill + hystHigh else EffectiveFill(fill) >= targetFill
    }

    /** The hold decision never strays from the anchor by more than half the target, and goes by the extrapolation
        whenever that does not either. */
    lemma EffectiveFillNearAnchor(fill: int)
      requires targetFill >= 0
      ensures hasAnchor ==> -(targetFill / 2) <= EffectiveFill(fill) - anchorFill <= targetFill / 2
      ensures !hasAnchor || -(targetFill / 2) <= fill - anchorFill <= targetFill / 2 ==> EffectiveFill(fill) == fill
    {
    }

    /** Above target and margin the tracker holds, below target it does not, and in between it goes on as it was. */
    lemma HoldHasHysteresis(fill: int)
      requires hystHigh >= 0
      ensures EffectiveFill(fill) > targetFill + hystHigh ==> NextHolding(fill)
      ensures EffectiveFill(fill) < targetFill ==> !NextHolding(fill)
      ensures targetFill <= EffectiveFill(fill) <= targetFill + hystHigh ==> NextHolding(fill) == holding
    {
    }

    /** A fill too low by more than its margin is answered at the burst rate, any other at the nominal rate; and a lower
        fill is never answered more slowly, the burst multiplier being at least one. */
    lemma LowFillBursts(fill: int, higher: int)
      requires cfg.Sane() && nominalPeriod == Period(cfg.NominalRate()) && burstPeriod == Period(cfg.BurstRate())
      requires fill <= higher
      ensures fill < targetFill - hystLow ==> Fills(SendPeriod(fill), cfg.NominalRate() * cfg.burstMultiplier, 1000000000.0)
      ensures fill >= targetFill - hystLow ==> Fills(SendPeriod(fill), cfg.NominalRate(), 1000000000.0)
      ensures cfg.burstMultiplier >= 1.0 ==> SendPeriod(fill) <= SendPeriod(higher)
    {
      PeriodFillsSecond(cfg.NominalRate());
      PeriodFillsSecond(cfg.BurstRate());
      if cfg.burstMultiplier >= 1.0 {
        ProductMonotone(1.0, cfg.burstMultiplier, cfg.NominalRate());
        PeriodAntitone(cfg.NominalRate(), cfg.BurstRate());
      }
    }

    /** Burst rate when deeply low, nominal rate otherwise. */
    function SendPeriod(fill: int): int {
      if fill < targetFill - hystLow then burstPeriod else nominalPeriod
    }

    /** The next slot: only a send outside a hold moves it. */
    function Rescheduled(next: int, now: int, fill: int, scheduled: bool): int {
      if scheduled then AdvanceSchedule(next, now, SendPeriod(fill)) else next
    }

    /** Decide whether to send now.
        Never silent: once initialised, a call 50 ms or more after the last send always sends, whatever the
        hold state, the anchor or their disagreement, as long as no period exceeds 50 ms.
        Rate: a hold send comes at least 50 ms after any earlier send; every other send extends the run of
        scheduled sends that SendsInWindow bounds. */
    method ShouldSend(now: int) returns (send: bool, ghost fill: int)
      requires ScheduleValid() && (scheduleInitialized ==> lastNow <= now)
      modifies this`nextSendTime, this`lastSendTime, this`scheduleInitialized, this`holding, this`sends, this`lastNow
      ensures ScheduleValid() && scheduleInitialized && lastNow == now
      ensures fill == old(ExtrapolatedFill(now)) && holding == old(NextHolding(fill))
      ensures old(scheduleInitialized) && now - old(lastSendTime) >= 50000000 && MaxPeriod() <= 50000000 ==> send
      ensures old(scheduleInitialized) && holding ==> (send <==> now - old(lastSendTime) >= KEEPALIVE_INTERVAL)
      ensures old(scheduleInitialized) && !holding ==> (send <==> old(nextSendTime) <= now)
      ensures !old(scheduleInitialized) ==> (send <==> !holding)
      ensures lastSendTime == if send || !old(scheduleInitialized) then now else old(lastSendTime)
      ensures sends == (if old(scheduleInitialized) then old(sends) else [])
        + (if send && !holding then [Send(now, SendPeriod(fill), nextSendTime)] else [])
      ensures nextSendTime == Rescheduled(if old(scheduleInitialized) then old(nextSendTime) else now, now, fill, send && !holding)
    {
      var estimate := ExtrapolatedFill(now);
      fill := estimate;
      send := DecideFrom(now, estimate);
    }

    /** Initialise the schedule on the first call, then decide. */
    method DecideFrom(now: int, fill: int) returns (send: bool)
      requires ScheduleValid() && (scheduleInitialized ==> lastNow <= now)
      modifies this`nextSendTime, this`lastSendTime, this`scheduleInitialized, this`holding, this`sends, this`lastNow
      ensures ScheduleValid() && scheduleInitialized && lastNow == now && holding == old(NextHolding(fill))
      ensures old(scheduleInitialized) && holding ==> (send <==> now - old(lastSendTime) >= KEEPALIVE_INTERVAL)
      ensures old(scheduleInitialized) && !holding ==> (send <==> old(nextSendTime) <= now)
      ensures !old(scheduleInitialized) ==> (send <==> !holding)
      ensures lastSendTime == if send || !old(scheduleInitialized) then now else old(lastSendTime)
      ensures sends == (if old(scheduleInitialized) then old(sends) else [])
        + (if send && !holding then [Send(now, SendPeriod(fill), nextSendTime)] else [])
      ensures nextSendTime == Rescheduled(if old(scheduleInitialized) then old(nextSendTime) else now, now, fill, send && !holding)
    {
      Initialise(now);
      send := Decide(now, fill);
    }

    /** The first call anchors the schedule at its own time. */
    method Initialise(now: int)
      requires ScheduleValid() && (scheduleInitialized ==> lastNow <= now)
      modifies this`nextSendTime, this`lastSendTime, this`scheduleInitialized, this`sends, this`lastNow
      ensures ScheduleValid() && scheduleInitialized && lastNow == now
      ensures nextSendTime == if old(scheduleInitialized) then old(nextSendTime) else now
      ensures lastSendTime == if old(scheduleInitialized) then old(lastSendTime) else now
      ensures sends == if old(scheduleInitialized) then old(sends) else []
    {
      if !scheduleInitialized {
        nextSendTime, lastSendTime, scheduleInitialized := now, now, true;
        sends := [];
      }
      lastNow := now;
    }

    /** The decision itself, given the extrapolated fill. */
    method Decide(now: int, fill: int) returns (send: bool)
      requires ScheduleValid() && scheduleInitialized && lastNow == now
      modifies this`nextSendTime, this`lastSendTime, this`holding, this`sends
      ensures ScheduleValid() && holding == old(NextHolding(fill))
      ensures holding ==> (send <==> now - old(lastSendTime) >= KEEPALIVE_INTERVAL)
      ensures !holding ==> (send <==> old(nextSendTime) <= now)
      ensures lastSendTime == if send then now else old(lastSendTime)
      ensures sends == old(sends) + (if send && !holding then [Send(now, SendPeriod(fill), nextSendTime)] else [])
      ensures nextSendTime == Rescheduled(old(nextSendTime), now, fill, send && !holding)
    {
      holding := NextHolding(fill);
      if holding {
        if now - lastSendTime < KEEPALIVE_INTERVAL {
          return false;
        }
        lastSendTime := now;
        return true;
      }
      if now < nextSendTime {
        return false;
      }
      var period := SendPeriod(fill);
      ChainAppend(sends, MinPeriod(), MaxPeriod(), nextSendTime, now, period);
      AdvanceBounds(nextSendTime, now, period, period);
      nextSendTime := Advance(nextSendTime, now, period);
      lastSendTime := now;
      sends := sends + [Send(now, period, nextSendTime)];
      send := true;
    }

    method ClearRing()
      requires ring.Length == RING_CAPACITY
      modifies ring
      ensures WindowMap(ring[..], [])
    {
      forall i | 0 <= i < RING_CAPACITY {
        ring[i] := ring[i].(valid := false);
      }
    }

    method ResetSends()
      requires RingValid()
      modifies this`nextRingSlot, this`cumulativeSent, this`sent, ring
      ensures RingValid() && sent == []
    {
      ClearRing();
      nextRingSlot, cumulativeSent, sent := 0, 0, [];
    }

    /** Forget everything except the smoothed rate, which is a hardware constant. */
    method Reset()
      requires Valid()
      modifies this`hasAnchor, this`anchorFill, this`anchorTime, this`anchorCumulative, this`lastAnchorWasFallback,
               this`skipNextRateInference, this`nextRingSlot, this`cumulativeSent, this`sent, ring,
               this`prevRxExpectedId, this`prevRxValid,
               this`nextSendTime, this`lastSendTime, this`scheduleInitialized, this`holding, this`sends
      ensures Valid() && sent == [] && !hasAnchor && !prevRxValid && !scheduleInitialized && !holding && skipNextRateInference
    {
      ResetSends();
      hasAnchor, anchorFill, anchorTime, anchorCumulative := false, 0, 0, 0;
      lastAnchorWasFallback, skipNextRateInference := false, true;
      prevRxExpectedId, prevRxValid := 0, false;
      nextSendTime, lastSendTime, scheduleInitialized, holding := 0, 0, false, false;
      sends := [];
    }
  }
}
