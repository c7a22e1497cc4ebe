/** Replay end to end: a recorded trajectory as a tap source, its sizing, and its record clock. */
module ReplayChannels {
  import opened Basics
  import opened Masking
  import opened RealArithmetic
  import opened TapSources
  import opened TapScenes
  import opened TapTrajectories
  import opened TapSourceRenderers
  import opened QuasiStatics
  import opened TapMessages
  import opened PairBuffers
  import opened StaticMessages
  import opened Signals

  /** Amplitude factor at a record time: one on the record, falling to zero over one frame past its end. */
  function PastEndRamp(t: Trajectory, time: real): (r: real)
    requires t.dt > 0.0
    ensures 0.0 <= r <= 1.0
    ensures time <= t.Duration() ==> r == 1.0
    ensures time >= t.Duration() + t.dt ==> r == 0.0
    ensures t.Duration() <= time <= t.Duration() + t.dt ==> (1.0 - r) * t.dt == time - t.Duration()
  {
    if time > t.Duration() then
      var q := (time - t.Duration()) / t.dt;
      RampQuotient(time - t.Duration(), t.dt);
      if 1.0 - q >= 0.0 then 1.0 - q else 0.0
    else 1.0
  }

  lemma RampQuotient(x: real, d: real)
    requires d > 0.0 && x > 0.0
    ensures x / d > 0.0 && x / d * d == x && (x >= d ==> x / d >= 1.0) && (x <= d ==> x / d <= 1.0)
  {
  }

  /** The taps a replay source answers with at a record time. */
  function ReplayTaps(t: Trajectory, fs: real, time: real): (taps: seq<SourcedTap>)
    requires t.WellFormed()
    ensures |taps| == t.tapCount
    ensures forall k: nat :: k < t.tapCount ==> taps[k].delta == t.SampleDelay(k, time) * fs
    ensures forall k: nat :: k < t.tapCount && time >= t.Duration() + t.dt ==> taps[k].gain == 0.0
    ensures forall k: nat :: k < t.tapCount && time <= t.Duration() ==> taps[k].gain == t.SampleAmplitude(k, time)
  {
    seq(t.tapCount, k requires 0 <= k < t.tapCount =>
      SourcedTap(t.SampleDelay(k, time) * fs, t.SampleAmplitude(k, time) * PastEndRamp(t, time)))
  }

  /** The record as a tap source answers from it. */
  function RecordOf(t: Trajectory, fs: real): real -> seq<SourcedTap>
    requires t.WellFormed()
  {
    time => ReplayTaps(t, fs, time)
  }

  /** The extent a replay source reports for sizing: the least integer not below the recorded maximum. */
  function MaxTapDelta(maxDelay: real, fs: real): (n: int)
    ensures maxDelay * fs <= n as real < maxDelay * fs + 1.0
  {
    -((-(maxDelay * fs)).Floor)
  }

  /** Every played delay of every tap, at any record time, lies in [lo, hi]. */
  ghost predicate PlaysWithin(t: Trajectory, lo: real, hi: real) {
    t.WellFormed() && forall k: nat, time: real :: k < t.tapCount ==> lo <= t.SampleDelay(k, time) <= hi
  }

  /** A converted record plays within its guard and its greatest frame delay. */
  lemma ConvertedPlaysWithin(t: Trajectory, taps: QuasiStaticTaps, slopes: seq<real>, offset: real, guard: real,
                             greatest: real)
    requires |slopes| == |taps.delays| && AnchoredRamps(t, taps, slopes, offset, guard)
    requires IsExtreme(t.delays, greatest, -1.0)
    ensures PlaysWithin(t, guard, greatest)
  {
    forall k: nat, time: real | k < t.tapCount
      ensures guard <= t.SampleDelay(k, time) <= greatest
    {
      ConvertedStaysInRange(t, taps, slopes, offset, guard, greatest, k, time);
    }
  }

  /** Any record plays within an eighth of its range beyond its extremes. */
  lemma RecordPlaysWithin(t: Trajectory, lo: real, hi: real)
    requires t.WellFormed()
    requires forall f, k: nat :: 0 <= f < t.frameCount && k < t.tapCount ==> lo <= t.delays[f][k] <= hi
    ensures PlaysWithin(t, lo - (hi - lo) / 8.0, hi + (hi - lo) / 8.0)
  {
    forall k: nat, time: real | k < t.tapCount
      ensures lo - (hi - lo) / 8.0 <= t.SampleDelay(k, time) <= hi + (hi - lo) / 8.0
    {
      t.SampleOvershoot(k, time, lo, hi);
    }
  }

  /** And that is reached: the record 0, 0.1, 0.1, 0 at one frame a second plays 0.1125 half way, beyond the
      extent its source reports. */
  lemma OvershootIsReached()
    ensures var t := Trajectory(1, 4, 1.0, [[0.0], [0.1], [0.1], [0.0]], [[1.0], [1.0], [1.0], [1.0]]);
      t.WellFormed() && IsExtreme(t.delays, 0.1, -1.0) &&
      ReplayTaps(t, 1000.0, 1.5)[0].delta == 112.5 && MaxTapDelta(0.1, 1000.0) == 100
  {
    var t := Trajectory(1, 4, 1.0, [[0.0], [0.1], [0.1], [0.0]], [[1.0], [1.0], [1.0], [1.0]]);
    assert t.delays[1][0] == 0.1;
    assert t.Clamped(1.5) == 1.5 && t.Segment(1.5) == 1;
  }

  /** Delays that are played, in samples: at least one (when the lower bound is) and at most the extent of
      the upper bound. */
  lemma DelayInWindow(t: Trajectory, lo: real, hi: real, fs: real, k: nat, time: real)
    requires t.WellFormed() && k < t.tapCount && lo <= t.SampleDelay(k, time) <= hi
    requires fs > 0.0 && lo * fs >= 1.0
    ensures 1.0 <= ReplayTaps(t, fs, time)[k].delta <= MaxTapDelta(hi, fs) as real
  {
    ScaledBounds(t.SampleDelay(k, time), lo, hi, fs);
  }

  lemma ScaledBounds(d: real, lo: real, hi: real, fs: real)
    requires lo <= d <= hi && fs > 0.0 && lo * fs >= 1.0
    ensures 1.0 <= d * fs <= MaxTapDelta(hi, fs) as real
  {
    ProductMonotone(lo, d, fs);
    ProductMonotone(d, hi, fs);
  }

  /** The renderer plays this record. */
  ghost predicate Plays(renderer: TapSourceRenderer, t: Trajectory) {
    t.WellFormed() && forall time :: renderer.source.record(time) == ReplayTaps(t, renderer.ReceiverRate(), time)
  }

  /** With no clock drift a record that plays within [lo, hi] keeps all lags within its extent, for messages
      of any length from any record time. */
  lemma ReplayLags(view: Scene, t: Trajectory, lo: real, hi: real, total: nat)
    requires view.fs > 0.0 && view.drift == 0.0 && PlaysWithin(t, lo, hi) && lo * view.fs >= 1.0
    requires forall time :: view.record(time) == ReplayTaps(t, view.fs, time)
    ensures view.LagsWithin(0, total, MaxTapDelta(hi, view.fs))
  {
    var w := MaxTapDelta(hi, view.fs);
    forall m: nat, k: nat | k < |view.Taps(m)|
      ensures 1.0 <= view.Taps(m)[k].delta <= w as real
    {
      var time := view.offset + m as real / view.fs;
      assert view.Taps(m) == ReplayTaps(t, view.fs, time);
      DelayInWindow(t, lo, hi, view.fs, k, time);
    }
    DelaysAreLags(view, total, w);
  }

  /** So every read of every message falls in the window when the calls fit beside that extent. */
  lemma ReplayInWindow(renderer: TapSourceRenderer, start: real, chunks: seq<seq<real>>, tail: nat,
                       t: Trajectory, lo: real, hi: real)
    requires Plays(renderer, t) && PlaysWithin(t, lo, hi)
    requires renderer.drift == 0.0 && lo * renderer.ReceiverRate() >= 1.0
    requires BLOCK + MaxTapDelta(hi, renderer.ReceiverRate()) + 1 <= renderer.line.buffer.Length
    requires forall i :: 0 <= i < |chunks| ==>
      |chunks[i]| + MaxTapDelta(hi, renderer.ReceiverRate()) + 1 <= renderer.line.buffer.Length
    ensures Setting(renderer).(offset := start).CallsInWindow(0, MessageCalls(chunks, tail), renderer.line.buffer.Length)
  {
    var view := Setting(renderer).(offset := start);
    ReplayLags(view, t, lo, hi, |Flatten(chunks)| + tail);
    LaggedIsInWindow(view, chunks, tail, MaxTapDelta(hi, view.fs), renderer.line.buffer.Length);
  }

  /** The line was sized from a recorded maximum. */
  ghost predicate SizedFrom(renderer: TapSourceRenderer, maxDelay: real) {
    renderer.line.buffer.Length
      >= MaxTapDelta(maxDelay, renderer.ReceiverRate()) + CATMULL_ROM_MARGIN + 1 + BLOCK
  }

  /** A replay channel as it is built: the record becomes a tap source, and the delay line is sized from the
      maximum in the record's header. */
  method MakeReplayRenderer(t: Trajectory, maxDelay: real, afeGain: real, baseDelay: nat, sampleRate: nat,
                            clockOffsetPpm: real, offset: real, advancePerMessage: bool, wrapIfRemainingLess: real)
    returns (renderer: TapSourceRenderer)
    requires t.WellFormed() && maxDelay >= 0.0 && sampleRate > 0
    requires MaxTapDelta(maxDelay, sampleRate as real) + CATMULL_ROM_MARGIN + DriftMargin(clockOffsetPpm) + BLOCK <= U64 / 2
    ensures fresh(renderer.Footprint()) && renderer.Valid() && Plays(renderer, t) && SizedFrom(renderer, maxDelay)
    ensures renderer.drift == clockOffsetPpm * 0.000001 && renderer.ReceiverRate() == sampleRate as real
    ensures renderer.maxTapDelta == MaxTapDelta(maxDelay, sampleRate as real)
    ensures renderer.source.record == RecordOf(t, sampleRate as real) && renderer.afeGain == afeGain
    ensures renderer.baseDelay == baseDelay && renderer.source.Continuation() == offset
    ensures ClockOf(renderer.source) == RecordClock(advancePerMessage, offset, t.Duration(), wrapIfRemainingLess)
  {
    var fs := sampleRate as real;
    ProductNonNegative(maxDelay, fs);
    var extent: nat := MaxTapDelta(maxDelay, fs);
    var source := new TapSource(RecordOf(t, fs), extent, t.Duration(), offset,
                                advancePerMessage, wrapIfRemainingLess);
    renderer := new TapSourceRenderer(source, afeGain, baseDelay, sampleRate, clockOffsetPpm, extent);
  }

  /** What that sizing is good for: calls of up to a block, and delays up to the interpolation margin beyond
      the header's maximum. */
  lemma BuiltReplayInWindow(renderer: TapSourceRenderer, start: real, chunks: seq<seq<real>>, tail: nat,
                            t: Trajectory, maxDelay: real, lo: real, hi: real)
    requires Plays(renderer, t) && SizedFrom(renderer, maxDelay) && PlaysWithin(t, lo, hi)
    requires renderer.drift == 0.0 && lo * renderer.ReceiverRate() >= 1.0
    requires hi * renderer.ReceiverRate() <= maxDelay * renderer.ReceiverRate() + CATMULL_ROM_MARGIN as real
    requires forall i :: 0 <= i < |chunks| ==> |chunks[i]| <= BLOCK
    ensures Setting(renderer).(offset := start).CallsInWindow(0, MessageCalls(chunks, tail), renderer.line.buffer.Length)
  {
    ReplayInWindow(renderer, start, chunks, tail, t, lo, hi);
  }

  /** The loader's check: the header's maximum is the data's, to a microsecond. */
  predicate HeaderAgrees(maxDelay: real, greatest: real) {
    -0.000001 <= greatest - maxDelay <= 0.000001
  }

  lemma HeaderMargin(maxDelay: real, greatest: real, fs: real)
    requires HeaderAgrees(maxDelay, greatest) && 0.0 < fs <= 4000000.0
    ensures greatest * fs <= maxDelay * fs + CATMULL_ROM_MARGIN as real
  {
    var d := greatest - maxDelay;
    var tolerance := 0.000001;
    ProductMonotone(d, tolerance, fs);
    assert d * fs <= tolerance * fs;
    assert tolerance * fs <= 4.0;
    Distribute(maxDelay, d, fs);
  }

  lemma Distribute(a: real, d: real, fs: real)
    ensures (a + d) * fs == a * fs + d * fs
  {
  }

  /** So a converted record, loaded and built as the code does at any rate up to 4 MHz, keeps every read of
      every message in the window: the constructor's line is large enough for it. */
  lemma ConvertedReplayInWindow(renderer: TapSourceRenderer, start: real, chunks: seq<seq<real>>, tail: nat,
                                t: Trajectory, maxDelay: real, taps: QuasiStaticTaps, slopes: seq<real>, offset: real,
                                guard: real, greatest: real)
    requires |slopes| == |taps.delays| && AnchoredRamps(t, taps, slopes, offset, guard)
    requires IsExtreme(t.delays, greatest, -1.0) && HeaderAgrees(maxDelay, greatest)
    requires Plays(renderer, t) && SizedFrom(renderer, maxDelay)
    requires renderer.drift == 0.0 && guard * renderer.ReceiverRate() >= 1.0 && renderer.ReceiverRate() <= 4000000.0
    requires forall i :: 0 <= i < |chunks| ==> |chunks[i]| <= BLOCK
    ensures Setting(renderer).(offset := start).CallsInWindow(0, MessageCalls(chunks, tail), renderer.line.buffer.Length)
  {
    ConvertedPlaysWithin(t, taps, slopes, offset, guard, greatest);
    HeaderMargin(maxDelay, greatest, renderer.ReceiverRate());
    BuiltReplayInWindow(renderer, start, chunks, tail, t, maxDelay, guard, greatest);
  }

  /** And so does any record whose delays keep an eighth of their range clear of one sample below and whose
      overshoot stays within the interpolation margin above. */
  lemma RecordedReplayInWindow(renderer: TapSourceRenderer, start: real, chunks: seq<seq<real>>, tail: nat,
                               t: Trajectory, maxDelay: real, lo: real, hi: real)
    requires t.WellFormed()
    requires forall f, k: nat :: 0 <= f < t.frameCount && k < t.tapCount ==> lo <= t.delays[f][k] <= hi
    requires Plays(renderer, t) && SizedFrom(renderer, maxDelay)
    requires renderer.drift == 0.0 && (lo - (hi - lo) / 8.0) * renderer.ReceiverRate() >= 1.0
    requires (hi + (hi - lo) / 8.0) * renderer.ReceiverRate()
      <= maxDelay * renderer.ReceiverRate() + CATMULL_ROM_MARGIN as real
    requires forall i :: 0 <= i < |chunks| ==> |chunks[i]| <= BLOCK
    ensures Setting(renderer).(offset := start).CallsInWindow(0, MessageCalls(chunks, tail), renderer.line.buffer.Length)
  {
    RecordPlaysWithin(t, lo, hi);
    BuiltReplayInWindow(renderer, start, chunks, tail, t, maxDelay, lo - (hi - lo) / 8.0, hi + (hi - lo) / 8.0);
  }

  /** So a run of messages through a converted, drift-free replay channel is right from end to end: every
      message is the block formula on the unbounded source, over its own stretch of the record. */
  lemma ConvertedRunMatches(renderer: TapSourceRenderer, messages: seq<Message>, played: seq<Performance>, k: nat,
                            t: Trajectory, maxDelay: real, taps: QuasiStaticTaps, slopes: seq<real>, offset: real,
                            guard: real, greatest: real)
    requires |slopes| == |taps.delays| && AnchoredRamps(t, taps, slopes, offset, guard)
    requires IsExtreme(t.delays, greatest, -1.0) && HeaderAgrees(maxDelay, greatest)
    requires Plays(renderer, t) && SizedFrom(renderer, maxDelay)
    requires renderer.drift == 0.0 && guard * renderer.ReceiverRate() >= 1.0 && renderer.ReceiverRate() <= 4000000.0
    requires AllRight(Setting(renderer), messages, played, renderer.maxTapDelta, renderer.line.buffer.Length) && k < |played|
    requires forall i :: 0 <= i < |messages[k].chunks| ==> |messages[k].chunks[i]| <= BLOCK
    ensures Matches(Setting(renderer).(offset := played[k].start),
                    Flatten(messages[k].chunks) + Zeros(renderer.maxTapDelta), played[k].cuts, played[k].y)
  {
    ConvertedReplayInWindow(renderer, played[k].start, messages[k].chunks, renderer.maxTapDelta,
                            t, maxDelay, taps, slopes, offset, guard, greatest);
    assert played[k].Right(Setting(renderer), messages[k].chunks, renderer.maxTapDelta, renderer.line.buffer.Length);
  }

  /** Sample rates are 32-bit numbers. */
  const SAMPLE_RATES: nat := 0x1_0000_0000

  lemma ExtentFits(greatest: real, fs: nat)
    requires 0.0 <= greatest <= MAX_DELAY_S && fs < SAMPLE_RATES
    ensures 0 <= MaxTapDelta(greatest, fs as real) <= SAMPLE_RATES
  {
    ProductNonNegative(greatest, fs as real);
    ProductBound(greatest, fs as real, 0.2, 4294967296.0, 858993459.2);
    ExtentBound(greatest * fs as real, MaxTapDelta(greatest, fs as real));
  }

  lemma ProductBound(a: real, b: real, aMax: real, bMax: real, most: real)
    requires 0.0 <= a <= aMax && 0.0 <= b <= bMax && aMax * bMax == most
    ensures a * b <= most
  {
    ProductMonotone(a, aMax, b);
    ProductMonotone(b, bMax, aMax);
  }

  lemma ExtentBound(x: real, n: int)
    requires 0.0 <= x <= 858993459.2 && x <= n as real < x + 1.0
    ensures 0 <= n <= SAMPLE_RATES
  {
  }

  /** What a drift-free replay of a record is, but for where on the record it starts. */
  ghost function ReplayScene(t: Trajectory, fs: real, gain: real): Scene
    requires t.WellFormed()
  {
    Scene(RecordOf(t, fs), 0.0, fs, 0.0, gain)
  }

  /** A guard of at least one sample. */
  predicate GuardsOneSample(guard: real, fs: real) {
    guard * fs >= 1.0
  }

  /** One sample period is enough. */
  lemma SampleGuards(guard: real, fs: real)
    requires fs > 0.0 && guard >= 1.0 / fs
    ensures GuardsOneSample(guard, fs)
  {
    assert 1.0 / fs * fs == 1.0;
    ProductMonotone(1.0 / fs, guard, fs);
  }

  /** A run through a drift-free channel for a converted record is right in short calls. */
  lemma ConvertedRun(renderer: TapSourceRenderer, view: Scene, tail: nat, messages: seq<Message>, played: seq<Performance>,
                     t: Trajectory, taps: QuasiStaticTaps, slopes: seq<real>, offset: real, guard: real, greatest: real)
    requires |slopes| == |taps.delays| && AnchoredRamps(t, taps, slopes, offset, guard)
    requires IsExtreme(t.delays, greatest, -1.0) && view == Setting(renderer)
    requires Plays(renderer, t) && SizedFrom(renderer, greatest)
    requires renderer.drift == 0.0 && GuardsOneSample(guard, renderer.ReceiverRate())
    requires AllRight(view, messages, played, tail, renderer.line.buffer.Length)
    ensures RunMatches(view, tail, messages, played)
  {
    ConvertedPlaysWithin(t, taps, slopes, offset, guard, greatest);
    forall k | 0 <= k < |played|
      ensures |played[k].y| == |Flatten(messages[k].chunks)| + tail
      ensures ShortCalls(messages[k]) ==>
        Matches(view.(offset := played[k].start), Flatten(messages[k].chunks) + Zeros(tail), played[k].cuts, played[k].y)
    {
      assert played[k].Right(view, messages[k].chunks, tail, renderer.line.buffer.Length);
      if ShortCalls(messages[k]) {
        BuiltReplayInWindow(renderer, played[k].start, messages[k].chunks, tail, t, greatest, guard, greatest);
      }
    }
  }

  /** A drift-free channel for a converted record. */
  method MakeConvertedRenderer(t: Trajectory, greatest: real, afeGain: real, baseDelay: nat, sampleRate: nat, start: real,
                               advance: bool, wrapIfRemainingLess: real,
                               ghost taps: QuasiStaticTaps, ghost slopes: seq<real>, ghost offset: real, ghost guard: real)
    returns (renderer: TapSourceRenderer)
    requires |slopes| == |taps.delays| && AnchoredRamps(t, taps, slopes, offset, guard)
    requires IsExtreme(t.delays, greatest, -1.0)
    requires 0 < sampleRate < SAMPLE_RATES && guard >= 0.0
    ensures fresh(renderer.Footprint()) && renderer.Valid() && Plays(renderer, t) && SizedFrom(renderer, greatest)
    ensures renderer.drift == 0.0 && renderer.ReceiverRate() == sampleRate as real
    ensures Setting(renderer) == ReplayScene(t, sampleRate as real, afeGain)
    ensures renderer.maxTapDelta == MaxTapDelta(greatest, sampleRate as real) && renderer.source.Continuation() == start
    ensures ClockOf(renderer.source) == RecordClock(advance, start, t.Duration(), wrapIfRemainingLess)
  {
    GreatestInLimits(t, taps, slopes, offset, guard, greatest, sampleRate);
    renderer := MakeReplayRenderer(t, greatest, afeGain, baseDelay, sampleRate, 0.0, start, advance, wrapIfRemainingLess);
  }

  /** A run of messages over a replayed record, as it came out: each in its place, on its own stretch of the record,
      rendered with its tail, and right when its reads stay in a line that holds the record's extent. */
  ghost predicate RecordPlayed(t: Trajectory, greatest: real, fs: real, gain: real, clock: RecordClock, opening: Opening,
                               messages: seq<Message>, played: seq<Performance>, mark: nat, capacity: nat)
    requires t.WellFormed() && fs > 0.0
  {
    && MaxTapDelta(greatest, fs) >= 0 && capacity >= MaxTapDelta(greatest, fs) + CATMULL_ROM_MARGIN + 1 + BLOCK
    && Performed(ReplayScene(t, fs, gain), opening, messages, played, mark, MaxTapDelta(greatest, fs), capacity)
    && Clocked(clock, fs, clock.startOffset, played)
  }

  /** A run of messages through a drift-free channel for a converted record. */
  method PlayThrough(renderer: TapSourceRenderer, ghost t: Trajectory, ghost greatest: real, ghost fs: real, ghost gain: real,
                     ghost clock: RecordClock, ghost opening: Opening, ghost was: Moment,
                     pb: PairBuffer, messages: seq<Message>, absoluteFirstOrigin: bool,
                     scratch: array<real>,
                     ghost taps: QuasiStaticTaps, ghost slopes: seq<real>, ghost offset: real, ghost guard: real)
    returns (ghost played: seq<Performance>, ghost capacity: nat)
    requires |slopes| == |taps.delays| && AnchoredRamps(t, taps, slopes, offset, guard)
    requires IsExtreme(t.delays, greatest, -1.0)
    requires Plays(renderer, t) && SizedFrom(renderer, greatest) && renderer.drift == 0.0
    requires fs == renderer.ReceiverRate() && Setting(renderer) == ReplayScene(t, fs, gain)
    requires renderer.maxTapDelta == MaxTapDelta(greatest, fs)
    requires clock == ClockOf(renderer.source) && renderer.source.Continuation() == clock.startOffset
    requires opening == OpeningOf(pb, absoluteFirstOrigin) && was == pb.Now()
    requires renderer.Valid() && renderer.Apart(pb) && pb.Valid() && Quiescent(pb)
    requires scratch != pb.buffer && scratch !in renderer.Footprint()
    requires forall k :: 0 <= k < |messages| ==> messages[k].Fits(scratch.Length)
    modifies renderer.Footprint(), pb, pb.buffer, scratch
    ensures pb.Valid() && Quiescent(pb)
    ensures RecordPlayed(t, greatest, fs, gain, clock, opening, messages, played, pb.watermark, capacity)
    ensures GuardsOneSample(guard, fs) ==> RunMatches(ReplayScene(t, fs, gain), MaxTapDelta(greatest, fs), messages, played)
    ensures pb.Since(was, pb.watermark)
    ensures pb.overflowDrops == was.drops ==> AllOn(played, pb.stream)
  {
    capacity := renderer.line.buffer.Length;
    played := TapMessages.TransmitAll(renderer, pb, messages, absoluteFirstOrigin, scratch);
    if GuardsOneSample(guard, fs) {
      ConvertedRun(renderer, ReplayScene(t, fs, gain), MaxTapDelta(greatest, fs), messages, played,
                   t, taps, slopes, offset, guard, greatest);
    }
  }

  /** A run of messages through a channel built, without drift, from a converted record. */
  method PlayRecord(t: Trajectory, greatest: real, afeGain: real, sampleRate: nat, start: real, advance: bool,
                    wrapIfRemainingLess: real, pb: PairBuffer, messages: seq<Message>, absoluteFirstOrigin: bool,
                    scratch: array<real>,
                    ghost taps: QuasiStaticTaps, ghost slopes: seq<real>, ghost offset: real, ghost guard: real)
    returns (ghost played: seq<Performance>, ghost capacity: nat)
    requires |slopes| == |taps.delays| && AnchoredRamps(t, taps, slopes, offset, guard)
    requires IsExtreme(t.delays, greatest, -1.0)
    requires 0 < sampleRate < SAMPLE_RATES && guard >= 0.0
    requires pb.Valid() && Quiescent(pb) && scratch != pb.buffer
    requires forall k :: 0 <= k < |messages| ==> messages[k].Fits(scratch.Length)
    modifies pb, pb.buffer, scratch
    ensures pb.Valid() && Quiescent(pb)
    ensures RecordPlayed(t, greatest, sampleRate as real, afeGain,
                         RecordClock(advance, start, t.Duration(), wrapIfRemainingLess),
                         old(OpeningOf(pb, absoluteFirstOrigin)), messages, played, pb.watermark, capacity)
    ensures GuardsOneSample(guard, sampleRate as real) ==>
      RunMatches(ReplayScene(t, sampleRate as real, afeGain), MaxTapDelta(greatest, sampleRate as real), messages, played)
    ensures pb.Since(old(pb.Now()), pb.watermark)
    ensures pb.overflowDrops == old(pb.overflowDrops) ==> AllOn(played, pb.stream)
  {
    ghost var opening, was := OpeningOf(pb, absoluteFirstOrigin), pb.Now();
    var renderer := MakeConvertedRenderer(t, greatest, afeGain, pb.baseDelay, sampleRate, start, advance,
                                          wrapIfRemainingLess, taps, slopes, offset, guard);
    played, capacity := PlayThrough(renderer, t, greatest, sampleRate as real, afeGain,
                                    RecordClock(advance, start, t.Duration(), wrapIfRemainingLess),
                                    opening, was, pb, messages, absoluteFirstOrigin, scratch, taps, slopes, offset, guard);
  }

  /** The whole replay workflow: a tap set measured once is rendered as anchored ramps, a drift-free channel is
      built from the record, and a run of messages goes through it. The conversion is refused exactly for a record
      too short or a drift too long, and then nothing is sent. Otherwise every message begins its gap past the one
      before it and plays its own stretch of the record; with a guard of at least one sample, and sent in calls of up
      to a block, it is the block formula on the unbounded source; and without drops the receiver finds all of them on
      the buffer. */
  method PlayConverted(taps: QuasiStaticTaps, recordDuration: real, dt: real, reinstallV0: bool, soundSpeed: real,
                       guard: real, afeGain: real, sampleRate: nat, start: real, advance: bool, wrapIfRemainingLess: real,
                       pb: PairBuffer, messages: seq<Message>, absoluteFirstOrigin: bool, scratch: array<real>)
    returns (r: Conversion, ghost slopes: seq<real>, ghost greatest: real, ghost played: seq<Performance>,
             ghost capacity: nat)
    requires taps.delays != [] && |taps.delays| == |taps.doppler| == |taps.amplitudes|
    requires taps.fcMeasured != 0.0 && soundSpeed != 0.0 && dt > 0.0
    requires 0 < sampleRate < SAMPLE_RATES && guard >= 0.0
    requires pb.Valid() && Quiescent(pb) && scratch != pb.buffer
    requires forall k :: 0 <= k < |messages| ==> messages[k].Fits(scratch.Length)
    modifies pb, pb.buffer, scratch
    ensures pb.Valid() && Quiescent(pb)
    // the conversion
    ensures |slopes| == |taps.delays| && forall k :: 0 <= k < |slopes| ==> slopes[k] == Slope(taps, k, reinstallV0, soundSpeed)
    ensures r.TooShort? <==> RoundHalfEven(recordDuration / dt) + 1 < 2
    ensures !r.TooShort? ==>
      (r.DelayTooLong? <==> Overlong(RawDelays(taps, slopes, RoundHalfEven(recordDuration / dt) + 1, dt), guard))
    ensures r.Converted? ==> AnchoredRamps(r.trajectory, taps, slopes, r.anchorOffset, guard)
    ensures r.Converted? ==> r.trajectory.dt == dt && r.trajectory.frameCount == RoundHalfEven(recordDuration / dt) + 1
    ensures r.Converted? ==> forall f :: 0 <= f < r.trajectory.frameCount ==> r.trajectory.amplitudes[f] == taps.amplitudes
    ensures r.Converted? ==> IsExtreme(r.trajectory.delays, greatest, -1.0)
    // the run
    ensures !r.Converted? ==> played == [] && pb.Now() == old(pb.Now())
    ensures r.Converted? ==>
      && RecordPlayed(r.trajectory, greatest, sampleRate as real, afeGain,
                      RecordClock(advance, start, r.trajectory.Duration(), wrapIfRemainingLess),
                      old(OpeningOf(pb, absoluteFirstOrigin)), messages, played, pb.watermark, capacity)
      && (GuardsOneSample(guard, sampleRate as real) ==>
            RunMatches(ReplayScene(r.trajectory, sampleRate as real, afeGain), MaxTapDelta(greatest, sampleRate as real),
                       messages, played))
      && pb.Since(old(pb.Now()), pb.watermark)
      && (pb.overflowDrops == old(pb.overflowDrops) ==> AllOn(played, pb.stream))
  {
    r, slopes := QuasiStaticToTrajectories(taps, recordDuration, dt, reinstallV0, soundSpeed, guard);
    greatest, played, capacity := 0.0, [], 0;
    if r.Converted? {
      var most := Extreme(r.trajectory.delays, -1.0);
      greatest := most;
      played, capacity := PlayRecord(r.trajectory, most, afeGain, sampleRate, start, advance, wrapIfRemainingLess,
                                     pb, messages, absoluteFirstOrigin, scratch, taps, slopes, r.anchorOffset, guard);
    }
  }

  lemma GreatestInLimits(t: Trajectory, taps: QuasiStaticTaps, slopes: seq<real>, offset: real, guard: real,
                         greatest: real, fs: nat)
    requires |slopes| == |taps.delays| && AnchoredRamps(t, taps, slopes, offset, guard)
    requires IsExtreme(t.delays, greatest, -1.0) && fs < SAMPLE_RATES && guard >= 0.0
    ensures 0.0 <= guard <= greatest <= MAX_DELAY_S
    ensures 0 <= MaxTapDelta(greatest, fs as real) <= SAMPLE_RATES
  {
    ConvertedStaysInRange(t, taps, slopes, offset, guard, greatest, 0, 0.0);
    ExtentFits(greatest, fs);
  }
}
