/** Where a message starts and how large the buffer must be: arrival alignment and capacity. */
module ArrivalAlignment {
  import opened Basics
  import opened Signals
  import opened Voicings
  import opened TapSources
  import opened RealArithmetic
  import opened PairBuffers
  import opened StaticRenderers
  import opened TapSourceRenderers
  import StaticMessages
  import TapMessages

  const NANOS: real := 1000000000.0

  /** Conversion to an integer type: toward zero. */
  function Truncate(x: real): int {
    if x >= 0.0 then x.Floor else -((-x).Floor)
  }

  /** std::round on a value that is not negative. */
  function RoundHalfUp(x: real): (n: int)
    ensures x >= 0.0 ==> n >= 0
    ensures x - 0.5 < n as real <= x + 0.5
  {
    (x + 0.5).Floor
  }

  datatype Gap = Gap(samples: nat, late: bool)

  /** Times are integer nanoseconds of the steady clock. */
  function TicksToArrival(txStart: int, propagationDelay: real, now: int, fs: nat): int {
    var target := txStart + Truncate(propagationDelay * NANOS);
    Truncate((target - now) as real / NANOS * fs as real)
  }

  /** The gap between the prior watermark and the message's first sample; a negative gap means the
      message is late and starts at once. */
  function ComputeArrivalAlignedGap(txStart: int, propagationDelay: real, now: int, fs: nat,
                                    fill: nat, watermark: nat, readPos: nat, rxRingDepth: nat): Gap
  {
    var gap := TicksToArrival(txStart, propagationDelay, now, fs) - (watermark - readPos) - rxRingDepth - fill;
    if gap < 0 then Gap(0, true) else Gap(gap, false)
  }

  /** Seconds of propagation delay behind a base delay in samples. */
  function PropagationDelay(baseDelay: nat, fs: nat): (d: real)
    ensures d * fs as real == if fs > 0 then baseDelay as real else 0.0
    ensures fs == 0 ==> d == 0.0
  {
    if fs > 0 then baseDelay as real / fs as real else 0.0
  }

  lemma TruncateBound(x: real)
    ensures x >= 0.0 ==> 0 <= Truncate(x) && Truncate(x) as real <= x < Truncate(x) as real + 1.0
    ensures x < 0.0 ==> Truncate(x) <= 0 && Truncate(x) as real >= x
  {
  }

  /** Seen from a transmission that has already started, arrival is at most the base delay away. */
  lemma TicksAtMostBaseDelay(txStart: int, baseDelay: nat, now: int, fs: nat)
    requires txStart <= now
    ensures TicksToArrival(txStart, PropagationDelay(baseDelay, fs), now, fs) <= baseDelay
  {
    var d, f := PropagationDelay(baseDelay, fs), fs as real;
    assert d >= 0.0 && d * f <= baseDelay as real;
    TruncateBound(d * NANOS);
    var ns := txStart + Truncate(d * NANOS) - now;
    var q := ns as real / NANOS;
    assert q <= d by {
      ProductMonotone(ns as real, d * NANOS, 1.0 / NANOS);
    }
    ProductMonotone(q, d, f);
    TruncateBound(q * f);
  }

  /** Not late and not in the future: the message starts within one base delay of the reader. */
  lemma AlignedOriginNearReader(txStart: int, baseDelay: nat, now: int, fs: nat,
                                fill: nat, watermark: nat, readPos: nat, rxRingDepth: nat)
    requires txStart <= now
    ensures var g := ComputeArrivalAlignedGap(txStart, PropagationDelay(baseDelay, fs), now, fs,
                                              fill, watermark, readPos, rxRingDepth);
            !g.late ==> watermark + g.samples <= readPos + baseDelay
  {
    TicksAtMostBaseDelay(txStart, baseDelay, now, fs);
  }

  datatype Environment = Environment(maxRange: real, soundSpeed: real, maxMessageDuration: real)

  /** The longest message the buffers are sized for, in samples. */
  function MaxMessageSamples(env: Environment, fs: nat): (n: nat)
    requires fs > 0
  {
    var duration := if env.maxMessageDuration > 0.0 then env.maxMessageDuration else 10.0;
    ProductNonNegative(duration, fs as real);
    RoundHalfUp(duration * fs as real)
  }

  /** So many samples last, but for half a sample, at most the configured duration, or ten seconds when none is
      configured. */
  predicate Lasts(count: nat, env: Environment, fs: nat) {
    if env.maxMessageDuration > 0.0 then count as real - 0.5 <= env.maxMessageDuration * fs as real else count <= 10 * fs
  }

  /** The longest message is the configured duration to within half a sample, ten seconds when none is configured. */
  lemma MaxMessageInSeconds(env: Environment, fs: nat, count: nat)
    requires fs > 0
    ensures env.maxMessageDuration > 0.0 ==>
      env.maxMessageDuration * fs as real - 0.5 < MaxMessageSamples(env, fs) as real <= env.maxMessageDuration * fs as real + 0.5
    ensures env.maxMessageDuration <= 0.0 ==> MaxMessageSamples(env, fs) == 10 * fs
    ensures Lasts(count, env, fs) <==> count <= MaxMessageSamples(env, fs)
  {
  }

  function SoundSpeed(env: Environment): (c: real)
    ensures c > 0.0
    ensures env.soundSpeed > 0.0 ==> c == env.soundSpeed
    ensures env.soundSpeed <= 0.0 ==> c == 1500.0
  {
    if env.soundSpeed > 0.0 then env.soundSpeed else 1500.0
  }

  /** Bulk delay at the greatest range, in samples: what sound takes to cover it. */
  function BulkDelay(env: Environment, fs: nat): (d: real)
    requires env.maxRange > 0.0
    ensures d >= 0.0 && d * SoundSpeed(env) == env.maxRange * fs as real
  {
    ProductNonNegative(env.maxRange, fs as real);
    env.maxRange * fs as real / SoundSpeed(env)
  }

  /** The multipath allowance, in samples: a fifth of a second. */
  function MultipathDelay(fs: nat): (d: real)
    ensures d >= 0.0 && 5.0 * d == fs as real
  {
    0.2 * fs as real
  }

  /** The two together, each rounded, as the request uses them. */
  function EnvironmentFloor(env: Environment, fs: nat): (n: nat)
    requires env.maxRange > 0.0
    ensures BulkDelay(env, fs) + MultipathDelay(fs) - 1.0 < n as real <= BulkDelay(env, fs) + MultipathDelay(fs) + 1.0
  {
    RoundedSum(BulkDelay(env, fs), MultipathDelay(fs));
    RoundHalfUp(BulkDelay(env, fs)) + RoundHalfUp(MultipathDelay(fs))
  }

  lemma RoundedSum(x: real, y: real)
    requires x >= 0.0 && y >= 0.0
    ensures x + y - 1.0 < (RoundHalfUp(x) + RoundHalfUp(y)) as real <= x + y + 1.0
  {
  }

  /** Capacity request for the worst write extent of any channel. */
  function PairCapacityForExtent(worstExtent: nat, env: Environment, fs: nat): (n: nat)
    requires fs > 0
    ensures n >= worstExtent + MaxMessageSamples(env, fs)
    ensures n > MaxMessageSamples(env, fs)
    ensures env.maxRange > 0.0 ==>
      (n - MaxMessageSamples(env, fs)) as real > BulkDelay(env, fs) + MultipathDelay(fs) - 1.0
    ensures worstExtent > 0 && (env.maxRange > 0.0 ==> worstExtent as real >= BulkDelay(env, fs) + MultipathDelay(fs) + 1.0)
            ==> n == worstExtent + MaxMessageSamples(env, fs)
    ensures worstExtent == 0 && env.maxRange <= 0.0 ==> n == fs + MaxMessageSamples(env, fs)
  {
    var extent := if env.maxRange > 0.0 then Max(worstExtent, EnvironmentFloor(env, fs)) else worstExtent;
    (if extent == 0 then fs else extent) + MaxMessageSamples(env, fs)
  }

  /** The request covers the environment: a message of the longest duration beyond the travel time of any range up to
      the greatest and beyond any excess delay of up to a fifth of a second, but for the roundings. */
  lemma RequestCoversEnvironment(worstExtent: nat, env: Environment, fs: nat, travel: real, excess: real)
    requires fs > 0 && env.maxRange > 0.0 && travel * SoundSpeed(env) <= env.maxRange && 5.0 * excess <= 1.0
    ensures PairCapacityForExtent(worstExtent, env, fs) as real
      > (travel + excess) * fs as real + MaxMessageSamples(env, fs) as real - 1.0
  {
    EnvironmentCovers(travel, excess, fs as real, SoundSpeed(env), env.maxRange, BulkDelay(env, fs), MultipathDelay(fs));
  }

  lemma EnvironmentCovers(travel: real, excess: real, f: real, c: real, range: real, b: real, m: real)
    requires c > 0.0 && f >= 0.0 && travel * c <= range && b * c == range * f && 5.0 * m == f && 5.0 * excess <= 1.0
    ensures (travel + excess) * f <= b + m
  {
    WithinBulk(travel, b, c, f, range);
    WithinMultipath(excess, f, m);
    SumOfDelays(travel, excess, f, b, m);
  }

  lemma SumOfDelays(q: real, e: real, f: real, b: real, m: real)
    requires q * f <= b && e * f <= m
    ensures (q + e) * f <= b + m
  {
    assert (q + e) * f == q * f + e * f;
  }

  lemma WithinMultipath(e: real, f: real, m: real)
    requires f >= 0.0 && 5.0 * m == f && 5.0 * e <= 1.0
    ensures e * f <= m
  {
    ProductMonotone(5.0 * e, 1.0, f);
  }

  lemma WithinBulk(travel: real, b: real, c: real, f: real, range: real)
    requires c > 0.0 && f >= 0.0 && travel * c <= range && b * c == range * f
    ensures travel * f <= b
  {
    ProductMonotone(travel * c, range, f);
    assert (travel * f) * c == (travel * c) * f;
    if travel * f > b {
      ProductStrict(b, travel * f, c);
    }
  }

  /** Two-pass sizing: the worst extent over all channels, then one capacity for all. */
  method WorstExtent(extents: seq<nat>) returns (worst: nat)
    ensures forall i :: 0 <= i < |extents| ==> extents[i] <= worst
    ensures worst == 0 || worst in extents
  {
    worst := 0;
    var i := 0;
    while i < |extents|
      invariant i <= |extents|
      invariant forall j :: 0 <= j < i ==> extents[j] <= worst
      invariant worst == 0 || worst in extents
    {
      if extents[i] > worst {
        worst := extents[i];
      }
      i := i + 1;
    }
  }

  /** The capacity theorem in numbers: whatever lies within one base delay of the reader, a message of
      at most the configured length, and the longest tail, end inside the ring. */
  lemma MessageFits(env: Environment, fs: nat, extent: nat, worst: nat, baseDelay: nat, maxTapDelta: nat,
                    capacity: nat, origin: nat, readPos: nat, rendered: nat)
    requires fs > 0 && extent == baseDelay + maxTapDelta && extent <= worst
    requires capacity >= PairCapacityForExtent(worst, env, fs)
    requires origin <= readPos + baseDelay && rendered <= MaxMessageSamples(env, fs)
    ensures origin + rendered + maxTapDelta <= readPos + capacity
  {
  }

  /** How one message enters the pair buffer: arrival-aligned, or first in structural-delay mode. */
  datatype Entry = Aligned(txStart: int, now: int, fill: nat, rxRingDepth: nat) | FirstStructural

  /** The entries for which the capacity guarantee is given. */
  ghost predicate OnTime(e: Entry, pb: PairBuffer, fs: nat)
    reads pb
  {
    match e
    case Aligned(txStart, now, fill, depth) =>
      txStart <= now &&
      !ComputeArrivalAlignedGap(txStart, PropagationDelay(pb.baseDelay, fs), now, fs, fill, pb.watermark, pb.readPos, depth).late
    case FirstStructural => pb.firstMessage
  }

  function EntryGap(e: Entry, baseDelay: nat, fs: nat, watermark: nat, readPos: nat): nat {
    match e
    case Aligned(txStart, now, fill, depth) =>
      ComputeArrivalAlignedGap(txStart, PropagationDelay(baseDelay, fs), now, fs, fill, watermark, readPos, depth).samples
    case FirstStructural => 0
  }

  ghost predicate SizedFor(pb: PairBuffer, env: Environment, fs: nat, worst: nat, maxTapDelta: nat) {
    fs > 0 && pb.baseDelay + maxTapDelta <= worst && pb.capacity >= PairCapacityForExtent(worst, env, fs)
  }

  /** Where a message that enters now begins. */
  function EntryOrigin(e: Entry, pb: PairBuffer, fs: nat): nat
    reads pb
  {
    if pb.firstMessage && e.FirstStructural? then pb.baseDelay
    else pb.watermark + EntryGap(e, pb.baseDelay, fs, pb.watermark, pb.readPos)
  }

  /** An aligned entry on time puts the message where everything in front of it plays out by its arrival: what the
      modem holds, what the receive ring holds and what is unread of the buffer take exactly the ticks until then. The
      first message without alignment begins at the base delay. */
  lemma EntryOriginArrives(e: Entry, pb: PairBuffer, fs: nat)
    requires pb.readPos <= pb.watermark && OnTime(e, pb, fs)
    ensures e.Aligned? ==>
      EntryOrigin(e, pb, fs) - pb.readPos + e.rxRingDepth + e.fill
        == TicksToArrival(e.txStart, PropagationDelay(pb.baseDelay, fs), e.now, fs)
    ensures e.FirstStructural? ==> EntryOrigin(e, pb, fs) == pb.baseDelay
  {
  }

  lemma EntryOriginNearReader(e: Entry, pb: PairBuffer, fs: nat)
    requires StaticMessages.Quiescent(pb)
    ensures OnTime(e, pb, fs) ==> EntryOrigin(e, pb, fs) <= pb.readPos + pb.baseDelay
  {
    match e {
      case Aligned(txStart, now, fill, depth) =>
        if txStart <= now {
          AlignedOriginNearReader(txStart, pb.baseDelay, now, fs, fill, pb.watermark, pb.readPos, depth);
        }
      case FirstStructural =>
    }
  }

  /** A static channel's message that enters on time goes where its entry says and is its input resampled; if it
      renders to at most the configured length it drops nothing, even if the receiver never reads while it is being
      sent, so that the receiver finds the whole of it on the buffer. */
  method TransmitStatic(renderer: StaticRenderer, pb: PairBuffer, e: Entry, chunks: seq<seq<real>>,
                        scratch: array<real>, ghost env: Environment, fs: nat, ghost worst: nat)
    requires renderer.Valid() && renderer.Apart(pb) && pb.Valid() && StaticMessages.Quiescent(pb)
    requires scratch != pb.buffer && scratch !in renderer.Footprint()
    requires OnTime(e, pb, fs) && SizedFor(pb, env, fs, worst, renderer.maxTapDelta)
    modifies renderer.Footprint(), pb, pb.buffer, scratch
    ensures renderer.Valid() && pb.Valid() && StaticMessages.Quiescent(pb) && !pb.firstMessage
    ensures pb.origin == old(EntryOrigin(e, pb, fs))
    ensures pb.watermark == pb.origin + renderer.processed + renderer.maxTapDelta
    ensures StaticMessages.Resampled(renderer, StaticMessages.Flatten(chunks))
    ensures Lasts(renderer.processed, env, fs) ==>
      pb.overflowDrops == old(pb.overflowDrops) && StaticMessages.MessageHeard(renderer, pb, old(pb.stream))
  {
    EntryOriginNearReader(e, pb, fs);
    var gap := EntryGap(e, pb.baseDelay, fs, pb.watermark, pb.readPos);
    ghost var readPos := pb.readPos;
    var idle: seq<nat> := seq(|chunks|, i => 0);
    StaticMessages.TransmitMessage(renderer, pb, gap, e.Aligned?, chunks, scratch, idle);
    MaxMessageInSeconds(env, fs, renderer.processed);
    if renderer.processed <= MaxMessageSamples(env, fs) {
      MessageFits(env, fs, pb.baseDelay + renderer.maxTapDelta, worst, pb.baseDelay, renderer.maxTapDelta,
                  pb.capacity, pb.origin, readPos, renderer.processed);
    }
  }

  /** The same for a tap-source channel, whose rendered length is its input; the tail is extra. What is rendered is
      the block formula on the unbounded source when the message's reads stay in the delay line's window. */
  method TransmitTapSource(renderer: TapSourceRenderer, pb: PairBuffer, e: Entry, chunks: seq<seq<real>>,
                           scratch: array<real>, ghost env: Environment, fs: nat, ghost worst: nat)
    requires renderer.Valid() && renderer.Apart(pb) && pb.Valid() && StaticMessages.Quiescent(pb)
    requires scratch != pb.buffer && scratch !in renderer.Footprint()
    requires OnTime(e, pb, fs) && SizedFor(pb, env, fs, worst, renderer.maxTapDelta)
    modifies renderer.Footprint(), pb, pb.buffer, scratch
    ensures renderer.Valid() && pb.Valid() && StaticMessages.Quiescent(pb) && !pb.firstMessage
    ensures pb.origin == old(EntryOrigin(e, pb, fs))
    ensures |renderer.y| == |StaticMessages.Flatten(chunks)| + renderer.maxTapDelta
    ensures pb.watermark == if renderer.y == [] then old(pb.watermark) else pb.origin + |renderer.y|
    ensures Sound(renderer, chunks)
    ensures renderer.source.messageOffset == old(TapMessages.NextStart(renderer.source))
    ensures Lasts(|StaticMessages.Flatten(chunks)|, env, fs) ==>
      && pb.overflowDrops == old(pb.overflowDrops)
      && Kept(old(pb.stream), pb.stream, pb.origin) && TapMessages.HeardRun(pb.stream, pb.origin, renderer.y)
  {
    EntryOriginNearReader(e, pb, fs);
    var gap := EntryGap(e, pb.baseDelay, fs, pb.watermark, pb.readPos);
    ghost var readPos := pb.readPos;
    var idle: seq<nat> := seq(|chunks|, i => 0);
    TapMessages.TransmitMessage(renderer, pb, gap, e.Aligned?, chunks, scratch, idle);
    MaxMessageInSeconds(env, fs, |StaticMessages.Flatten(chunks)|);
    if |StaticMessages.Flatten(chunks)| <= MaxMessageSamples(env, fs) {
      MessageFits(env, fs, pb.baseDelay + renderer.maxTapDelta, worst, pb.baseDelay, renderer.maxTapDelta,
                  pb.capacity, pb.origin, readPos, |StaticMessages.Flatten(chunks)|);
    }
  }

  /** The run of a message whose reads all stay in the window is the block formula on its source. */
  ghost predicate Sound(renderer: TapSourceRenderer, chunks: seq<seq<real>>)
    reads renderer, renderer.source
  {
    renderer.View().CallsInWindow(0, TapMessages.MessageCalls(chunks, renderer.maxTapDelta), renderer.line.buffer.Length)
    ==> Matches(renderer.View(), StaticMessages.Flatten(chunks) + Zeros(renderer.maxTapDelta), renderer.cuts, renderer.y)
  }
}
