/** A whole message through a static channel: TX entry, any split into process calls with the receiver
    draining in between, TX exit. */
module StaticMessages {
  import opened Basics
  import opened Signals
  import opened Voicings
  import opened Farrow
  import opened Hilbert
  import opened PairBuffers
  import opened StaticRenderers

  function Flatten(chunks: seq<seq<real>>): seq<real> {
    if chunks == [] then [] else Flatten(chunks[..|chunks| - 1]) + chunks[|chunks| - 1]
  }

  /** Between messages nothing lies past the watermark, and a fresh buffer has published nothing. */
  ghost predicate Quiescent(pb: PairBuffer)
    reads pb
  {
    SilentFrom(pb.stream, pb.watermark) && (pb.firstMessage ==> pb.watermark == 0)
  }

  /** The specification of one rendered message: at position origin + j the receiver hears the sum over
      the taps of their gain times the resampled message delayed by the tap, and nothing else. */
  ghost predicate Heard(stream: Signal, origin: nat, v: Voicing, y: seq<real>, end: nat) {
    && (forall j :: 0 <= j < end ==> stream(origin + j) == v.Mix(y, j, |v.taps|))
    && SilentFrom(stream, origin + end)
  }

  /** Reading a rendered message off the buffer: everything before its origin is untouched. */
  lemma RenderedMessage(stream: Signal, base: Signal, v: Voicing, origin: nat, y: seq<real>, maxDelta: nat)
    requires Carries(stream, base, v, origin, y, y, |v.taps|)
    requires SilentFrom(base, origin) && v.DelaysWithin(maxDelta)
    ensures Kept(base, stream, origin) && SilentFrom(stream, origin + |y| + maxDelta)
    ensures Heard(stream, origin, v, y, |y| + maxDelta)
  {
    forall p | p < origin || p >= origin + |y| + maxDelta
      ensures stream(p) == base(p)
    {
      v.MixSilentOutside(y, p - origin, |v.taps|, maxDelta);
    }
    forall j | 0 <= j < |y| + maxDelta
      ensures stream(origin + j) == v.Mix(y, j, |v.taps|)
    {
      assert stream(origin + j) == base(origin + j) + v.Mix(y, origin + j - origin, |v.taps|);
    }
  }

  /** Before any sample has been rendered the buffer carries the empty message. */
  lemma NothingRendered(base: Signal, v: Voicing, origin: nat)
    ensures Carries(base, base, v, origin, [], [], |v.taps|)
  {
    forall j
      ensures v.Mix([], j, |v.taps|) == 0.0
    {
      v.MixOfNothing(j, |v.taps|);
    }
  }

  /** The process calls of one message, the receiver draining `drains[i]` samples after chunk i. */
  method ProcessChunks(renderer: StaticRenderer, pb: PairBuffer, chunks: seq<seq<real>>,
                       scratch: array<real>, drains: seq<nat>, ghost base: Signal, ghost drops: nat)
    requires renderer.Valid() && renderer.Apart(pb) && pb.Valid() && renderer.Rendering(pb, base, drops)
    requires scratch != pb.buffer && scratch !in renderer.Footprint()
    requires |drains| == |chunks| && forall i :: 0 <= i < |drains| ==> drains[i] <= scratch.Length
    requires renderer.resampler.fed == []
    modifies renderer.Footprint(), pb`overflowDrops, pb`stream, pb`watermark, pb`readPos, pb.buffer, scratch
    ensures renderer.Valid() && pb.Valid() && renderer.Rendering(pb, base, drops)
    ensures renderer.resampler.fed == Flatten(chunks)
    ensures pb.Since(old(pb.Now()), pb.origin + renderer.processed + renderer.maxTapDelta)
  {
    ghost var was := pb.Now();
    var i := 0;
    while i < |chunks|
      invariant i <= |chunks|
      invariant renderer.Valid() && pb.Valid() && renderer.Rendering(pb, base, drops)
      invariant renderer.resampler.fed == Flatten(chunks[..i])
      invariant pb.Since(was, pb.origin + renderer.processed + renderer.maxTapDelta)
    {
      assert chunks[..i + 1][..i] == chunks[..i];
      ProcessChunk(renderer, pb, chunks[i], scratch, drains[i], base, drops);
      i := i + 1;
    }
    assert chunks[..i] == chunks;
  }

  /** One call, and some reading. */
  method ProcessChunk(renderer: StaticRenderer, pb: PairBuffer, chunk: seq<real>, scratch: array<real>, drain: nat,
                      ghost base: Signal, ghost drops: nat)
    requires renderer.Valid() && renderer.Apart(pb) && pb.Valid() && renderer.Rendering(pb, base, drops)
    requires scratch != pb.buffer && scratch !in renderer.Footprint() && drain <= scratch.Length
    modifies renderer.Footprint(), pb`overflowDrops, pb`stream, pb`watermark, pb`readPos, pb.buffer, scratch
    ensures renderer.Valid() && pb.Valid() && renderer.Rendering(pb, base, drops)
    ensures renderer.resampler.fed == old(renderer.resampler.fed) + chunk
    ensures old(renderer.processed) <= renderer.processed
    ensures pb.Since(old(pb.Now()), pb.origin + renderer.processed + renderer.maxTapDelta)
  {
    var total := renderer.Process(chunk, pb, base, drops);
    var n := pb.ReadAdvance(scratch, drain);
  }

  /** TX entry: reset the renderer and place the message's origin. */
  method OnMessageStart(renderer: StaticRenderer, pb: PairBuffer, gap: nat, absoluteFirstOrigin: bool)
    requires renderer.Valid() && renderer.Apart(pb) && pb.Valid() && Quiescent(pb)
    modifies renderer.Footprint(), pb`origin, pb`firstMessage
    ensures renderer.Valid() && pb.Valid() && !pb.firstMessage
    ensures pb.origin == if old(pb.firstMessage) && !absoluteFirstOrigin then pb.baseDelay else pb.watermark + gap
    ensures pb.watermark <= pb.origin && renderer.resampler.fed == []
    ensures renderer.Rendering(pb, pb.stream, pb.overflowDrops)
  {
    renderer.OnMessageStart();
    pb.BeginMessage(gap, absoluteFirstOrigin);
    assert renderer.y == [];
    NothingRendered(pb.stream, renderer.voicing, pb.origin);
  }

  /** y is the message x resampled, the drain zeros after it included: consecutive outputs of the closed form,
      and all of them when the drain is short enough for one batch. */
  ghost predicate ResampledFrom(x: seq<real>, ratio: real, drain: nat, y: seq<real>) {
    && Outputs(x + Zeros(drain), 0.0, ratio, y)
    && (drain as real + 1.0 <= 256.0 * ratio ==> Stalled(x + Zeros(drain), ratio, |y|))
  }

  /** The outputs of the renderer are the resampled message x followed by the drain zeros. */
  ghost predicate Resampled(renderer: StaticRenderer, x: seq<real>)
    reads renderer, renderer.hilbert
  {
    renderer.processed == |renderer.y| && ResampledFrom(x, renderer.ratio, renderer.DrainLength(), renderer.y)
  }

  /** The rendered length of a message in closed form: with the default 31-tap filter and any ratio of at
      least an eighth it is ceil((|x| + drain + 1) / r), whatever the chunking. */
  lemma RenderedLength(renderer: StaticRenderer, x: seq<real>)
    requires Resampled(renderer, x) && renderer.ratio >= 0.125 && renderer.hilbert.groupDelay <= 15
    ensures forall k: nat ::
      k < |renderer.y| <==> Steps(0.0, renderer.ratio, k) < (|x| + renderer.DrainLength()) as real + 1.0
  {
    StallCount(x + Zeros(renderer.DrainLength()), renderer.ratio, |renderer.y|);
  }

  /** The input resampled at every index, whatever is ever rendered of it. */
  ghost function ResampledStream(x: seq<real>, ratio: real): Signal {
    (k: int) => FarrowOut(x, Steps(0.0, ratio, if k >= 0 then k else 0))
  }

  /** y is the whole of the stream z: past its last sample there is nothing but silence. */
  ghost predicate WholeOf(z: Signal, y: seq<real>) {
    forall k: nat :: At(y, k) == z(k)
  }

  /** A finished message on real taps is the whole resampled stream, and ends with the first position five past the
      last input. */
  lemma RealMessageIsWhole(renderer: StaticRenderer, x: seq<real>)
    requires Resampled(renderer, x) && !renderer.voicing.needsHilbert
    requires 0.0 < renderer.ratio && 5.0 <= 256.0 * renderer.ratio
    ensures WholeOf(ResampledStream(x, renderer.ratio), renderer.y)
    ensures forall k: nat :: k < |renderer.y| <==> Steps(0.0, renderer.ratio, k) < |x| as real + 5.0
  {
    StallCount(x + Zeros(renderer.DrainLength()), renderer.ratio, |renderer.y|);
    forall k: nat
      ensures At(renderer.y, k) == ResampledStream(x, renderer.ratio)(k)
    {
      OutOfPadded(x, renderer.DrainLength(), Steps(0.0, renderer.ratio, k));
      if k >= |renderer.y| {
        SilentPast(x, Steps(0.0, renderer.ratio, k));
      }
    }
  }

  /** At ratio 1 it is the message itself, every sample of it, three samples late. */
  lemma UnityMessageIsWhole(renderer: StaticRenderer, x: seq<real>, k: nat)
    requires Resampled(renderer, x) && !renderer.voicing.needsHilbert && renderer.ratio == 1.0 && k < |x|
    ensures k + 3 < |renderer.y| && renderer.y[k + 3] == x[k]
  {
    RealMessageIsWhole(renderer, x);
    UnityRatioDelaysByThree(x, k + 3);
    assert At(renderer.y, k + 3) == ResampledStream(x, 1.0)(k + 3);
    assert Steps(0.0, 1.0, k + 3) == (k + 3) as real;
  }

  /** The echoes of a stream at receiver sample j, tap by tap: no end of message, no drain. */
  ghost function Echoes(taps: seq<ResolvedTap>, z: Signal, j: int, n: nat): real
    requires n <= |taps|
  {
    if n == 0 then 0.0
    else
      var i := j - taps[n - 1].delta;
      Echoes(taps, z, j, n - 1) + (if i < 0 then 0.0 else z(i) * taps[n - 1].gain)
  }

  lemma {:induction false} MixIsEchoes(v: Voicing, z: Signal, y: seq<real>, j: int, n: nat)
    requires WholeOf(z, y) && !v.needsHilbert && n <= |v.taps|
    ensures v.Mix(y, j, n) == Echoes(v.taps, z, j, n)
  {
    if n > 0 {
      MixIsEchoes(v, z, y, j, n - 1);
      var i := j - v.taps[n - 1].delta;
      if i >= 0 {
        assert At(y, i) == z(i);
        GainOfStream(At(y, i), z(i), v.taps[n - 1].gain);
        assert v.Voice(n - 1, y, i) == At(y, i) * v.taps[n - 1].gain;
      }
    }
  }

  lemma GainOfStream(a: real, b: real, gain: real)
    requires a == b
    ensures a * gain == b * gain
  {
  }

  /** So what is heard of a finished message on real taps is the echoes of its whole input, sample by sample. */
  lemma RealMessageIsEchoes(renderer: StaticRenderer, x: seq<real>, j: int)
    requires Resampled(renderer, x) && !renderer.voicing.needsHilbert
    requires 0.0 < renderer.ratio && 5.0 <= 256.0 * renderer.ratio
    ensures renderer.voicing.Mix(renderer.y, j, |renderer.voicing.taps|)
      == Echoes(renderer.voicing.taps, ResampledStream(x, renderer.ratio), j, |renderer.voicing.taps|)
  {
    RealMessageIsWhole(renderer, x);
    MixIsEchoes(renderer.voicing, ResampledStream(x, renderer.ratio), renderer.y, j, |renderer.voicing.taps|);
  }

  /** On complex taps output j meets filter coefficient m, or the aligned delay when m is the group delay, at message
      sample j + m; and it does so before the message ends exactly under this bound. */
  lemma ComplexMessageReach(renderer: StaticRenderer, x: seq<real>, j: nat, m: nat)
    requires Resampled(renderer, x) && renderer.voicing.needsHilbert && renderer.ratio > 0.0
    requires Max(4, renderer.hilbert.groupDelay) as real + 1.0 <= 256.0 * renderer.ratio
    ensures j + m < |renderer.y| <==>
      Steps(0.0, renderer.ratio, j + m) < (|x| + Max(4, renderer.hilbert.groupDelay)) as real + 1.0
  {
    StallCount(x + Zeros(renderer.DrainLength()), renderer.ratio, |renderer.y|);
  }

  /** So at ratio 1 input sample k reaches the aligned delay of a complex channel exactly under this bound, and the
      message is silent where it would have been otherwise. */
  lemma ComplexUnityReach(renderer: StaticRenderer, x: seq<real>, tap: nat, k: nat)
    requires Resampled(renderer, x) && renderer.voicing.needsHilbert && renderer.ratio == 1.0 && k < |x|
    requires renderer.voicing.groupDelay == renderer.hilbert.groupDelay <= 255 && tap < |renderer.voicing.taps|
    ensures var v, g := renderer.voicing, renderer.hilbert.groupDelay;
      var i := k + 3 + g;
      if k + g + 2 < |x| + Max(4, g)
      then i < |renderer.y| && v.Voice(tap, renderer.y, i)
             == x[k] * v.taps[tap].gain - HilbertOut(v.coeffs, renderer.y, i) * v.taps[tap].gainImag
      else v.Voice(tap, renderer.y, i) == 0.0
  {
    ComplexMessageReach(renderer, x, k + 3, renderer.hilbert.groupDelay);
    OutOfPadded(x, renderer.DrainLength(), Steps(0.0, 1.0, k + 3));
    UnityRatioDelaysByThree(x, k + 3);
  }

  /** A position whose delayed image lies past the end of the drain is past the reach of every input, if the group
      delay, stretched by the ratio, leaves the drain three inputs. */
  lemma PastTheReach(r: real, j: nat, g: nat, n: nat, drain: nat)
    requires g as real * r <= drain as real - 3.0
    requires Steps(0.0, r, j + g) >= (n + drain) as real + 1.0
    ensures Steps(0.0, r, j) >= n as real + 4.0
  {
    var a, b, c := j as real * r, g as real * r, (j + g) as real * r;
    assert c == a + b by {
      StepsFrom(0.0, r, j, g);
    }
  }

  /** Nothing is lost to the aligned delay when the group delay, stretched by the ratio, leaves the drain three
      inputs; with the default filter, whose drain is its group delay of 15, that is a ratio of at most 0.8. */
  lemma ComplexMessageIsWhole(renderer: StaticRenderer, x: seq<real>, j: nat)
    requires Resampled(renderer, x) && renderer.voicing.needsHilbert && renderer.ratio > 0.0
    requires Max(4, renderer.hilbert.groupDelay) as real + 1.0 <= 256.0 * renderer.ratio
    requires renderer.hilbert.groupDelay as real * renderer.ratio <= Max(4, renderer.hilbert.groupDelay) as real - 3.0
    ensures j + renderer.hilbert.groupDelay >= |renderer.y| ==> FarrowOut(x, Steps(0.0, renderer.ratio, j)) == 0.0
  {
    ComplexMessageReach(renderer, x, j, renderer.hilbert.groupDelay);
    if j + renderer.hilbert.groupDelay >= |renderer.y| {
      PastTheReach(renderer.ratio, j, renderer.hilbert.groupDelay, |x|, Max(4, renderer.hilbert.groupDelay));
      SilentPast(x, Steps(0.0, renderer.ratio, j));
    }
  }

  /** The default filter at ratio 1 leaves out exactly the last two samples of every message. */
  lemma LastTwoAreLost(renderer: StaticRenderer, x: seq<real>, k: nat)
    requires Resampled(renderer, x) && renderer.voicing.needsHilbert && renderer.ratio == 1.0 && k < |x|
    requires renderer.hilbert.groupDelay == 15
    ensures k + 3 + 15 < |renderer.y| <==> k < |x| - 2
  {
    ComplexMessageReach(renderer, x, k + 3, 15);
  }

  /** Input k reaches the aligned delay of a message of n samples rendered at ratio 1. */
  predicate Reaches(k: nat, groupDelay: nat, n: nat) {
    k + 3 + groupDelay < n
  }

  /** At ratio 1 a message on complex taps is whole exactly for the filters of at most five taps. */
  lemma ComplexUnityWholeIff(renderer: StaticRenderer, x: seq<real>)
    requires Resampled(renderer, x) && renderer.voicing.needsHilbert && renderer.ratio == 1.0 && x != []
    requires renderer.hilbert.groupDelay <= 255
    ensures (forall k: nat :: k < |x| ==> Reaches(k, renderer.hilbert.groupDelay, |renderer.y|))
      <==> renderer.hilbert.groupDelay <= 2
  {
    var g := renderer.hilbert.groupDelay;
    var last: nat := |x| - 1;
    ComplexMessageReach(renderer, x, last + 3, g);
    assert Steps(0.0, 1.0, last + 3 + g) == (last + 3 + g) as real;
    assert Reaches(last, g, |renderer.y|) <==> g <= 2;
  }

  /** Everything between TX entry and TX exit, the flush included. */
  method RenderAndFlush(renderer: StaticRenderer, pb: PairBuffer, chunks: seq<seq<real>>,
                        scratch: array<real>, drains: seq<nat>, ghost base: Signal, ghost drops: nat)
    requires renderer.Valid() && renderer.Apart(pb) && pb.Valid() && renderer.Rendering(pb, base, drops)
    requires scratch != pb.buffer && scratch !in renderer.Footprint()
    requires |drains| == |chunks| && forall i :: 0 <= i < |drains| ==> drains[i] <= scratch.Length
    requires renderer.resampler.fed == [] && SilentFrom(base, pb.origin)
    modifies renderer.Footprint(), pb`overflowDrops, pb`stream, pb`watermark, pb`readPos, pb.buffer, scratch
    ensures renderer.Valid() && pb.Valid() && drops <= pb.overflowDrops
    ensures pb.watermark == pb.origin + renderer.processed + renderer.maxTapDelta
    ensures Resampled(renderer, Flatten(chunks))
    ensures pb.overflowDrops == drops ==> MessageHeard(renderer, pb, base)
    ensures pb.Since(old(pb.Now()), pb.watermark)
  {
    ProcessChunks(renderer, pb, chunks, scratch, drains, base, drops);
    renderer.OnMessageEnd(pb, base, drops);
    if pb.overflowDrops == drops {
      MessageIsHeard(renderer, pb, base);
    }
  }

  lemma MessageIsHeard(renderer: StaticRenderer, pb: PairBuffer, base: Signal)
    requires Carries(pb.stream, base, renderer.voicing, pb.origin, renderer.y, renderer.y, |renderer.voicing.taps|)
    requires SilentFrom(base, pb.origin) && renderer.voicing.DelaysWithin(renderer.maxTapDelta)
    requires pb.watermark == pb.origin + |renderer.y| + renderer.maxTapDelta
    ensures MessageHeard(renderer, pb, base)
  {
    RenderedMessage(pb.stream, base, renderer.voicing, pb.origin, renderer.y, renderer.maxTapDelta);
  }

  /** The buffer holds the rendered message, nothing before its origin has changed, and nothing lies
      past the watermark. */
  ghost predicate MessageHeard(renderer: StaticRenderer, pb: PairBuffer, before: Signal)
    reads renderer, pb
  {
    && SilentFrom(pb.stream, pb.watermark)
    && Kept(before, pb.stream, pb.origin)
    && Heard(pb.stream, pb.origin, renderer.voicing, renderer.y, |renderer.y| + renderer.maxTapDelta)
  }

  /** The whole-message theorem. Drops or not, the buffer is left quiescent, so that the next message's
      origin is at or past everything this one wrote. With no overflow drops the result is the closed form of the message,
      independent of how it was cut and of when the receiver read; and there are no drops when the
      rendered length and tail fit the ring ahead of the reader's position at the start. */
  method TransmitMessage(renderer: StaticRenderer, pb: PairBuffer, gap: nat, absoluteFirstOrigin: bool,
                         chunks: seq<seq<real>>, scratch: array<real>, drains: seq<nat>)
    requires renderer.Valid() && renderer.Apart(pb) && pb.Valid() && Quiescent(pb)
    requires scratch != pb.buffer && scratch !in renderer.Footprint()
    requires |drains| == |chunks| && forall i :: 0 <= i < |drains| ==> drains[i] <= scratch.Length
    modifies renderer.Footprint(), pb, pb.buffer, scratch
    ensures renderer.Valid() && pb.Valid() && !pb.firstMessage
    ensures pb.origin == if old(pb.firstMessage) && !absoluteFirstOrigin then pb.baseDelay else old(pb.watermark) + gap
    ensures pb.watermark == pb.origin + renderer.processed + renderer.maxTapDelta
    ensures Resampled(renderer, Flatten(chunks))
    ensures Quiescent(pb)
    ensures pb.overflowDrops == old(pb.overflowDrops) ==> MessageHeard(renderer, pb, old(pb.stream))
    ensures pb.Since(old(pb.Now()), pb.watermark)
  {
    ghost var base, drops := pb.stream, pb.overflowDrops;
    OnMessageStart(renderer, pb, gap, absoluteFirstOrigin);
    RenderAndFlush(renderer, pb, chunks, scratch, drains, base, drops);
  }

  /** One message as the worker delivers it: the alignment gap, its calls, and the draining between them. */
  datatype Message = Message(gap: nat, chunks: seq<seq<real>>, drains: seq<nat>) {
    predicate Fits(room: nat) {
      |drains| == |chunks| && forall i :: 0 <= i < |drains| ==> drains[i] <= room
    }
  }

  /** Where a message ended up and what it was resampled to. */
  datatype Rendition = Rendition(origin: nat, y: seq<real>) {

    function End(maxDelta: nat): nat { origin + |y| + maxDelta }

    ghost predicate In(stream: Signal, v: Voicing, maxDelta: nat) {
      forall j :: 0 <= j < |y| + maxDelta ==> stream(origin + j) == v.Mix(y, j, |v.taps|)
    }
  }

  /** Renditions follow one another without overlap, all of them before `end`. */
  ghost predicate Consecutive(played: seq<Rendition>, maxDelta: nat, end: nat) {
    && (forall i, j :: 0 <= i < j < |played| ==> played[i].End(maxDelta) <= played[j].origin)
    && (forall i :: 0 <= i < |played| ==> played[i].End(maxDelta) <= end)
  }

  ghost predicate AllIn(played: seq<Rendition>, stream: Signal, v: Voicing, maxDelta: nat) {
    forall i :: 0 <= i < |played| ==> played[i].In(stream, v, maxDelta)
  }

  lemma ConsecutiveAppend(played: seq<Rendition>, r: Rendition, maxDelta: nat, end: nat)
    requires Consecutive(played, maxDelta, end) && end <= r.origin
    ensures Consecutive(played + [r], maxDelta, r.End(maxDelta))
  {
  }

  /** What was heard stays heard: the next message touches nothing before the watermark. */
  lemma AllInAppend(played: seq<Rendition>, r: Rendition, stream: Signal, stream': Signal, v: Voicing, maxDelta: nat, end: nat)
    requires Consecutive(played, maxDelta, end) && AllIn(played, stream, v, maxDelta) && Kept(stream, stream', end)
    requires Heard(stream', r.origin, v, r.y, |r.y| + maxDelta)
    ensures AllIn(played + [r], stream', v, maxDelta)
  {
    forall i | 0 <= i < |played|
      ensures played[i].In(stream', v, maxDelta)
    {
      assert played[i].In(stream, v, maxDelta);
      assert played[i].End(maxDelta) <= end;
    }
  }

  /** Rendition k is message k resampled. */
  ghost predicate AllResampled(messages: seq<Message>, played: seq<Rendition>, ratio: real, drain: nat) {
    |played| == |messages| &&
    forall k :: 0 <= k < |played| ==> ResampledFrom(Flatten(messages[k].chunks), ratio, drain, played[k].y)
  }

  lemma AllResampledAppend(messages: seq<Message>, m: Message, played: seq<Rendition>, r: Rendition, ratio: real, drain: nat)
    requires AllResampled(messages, played, ratio, drain) && ResampledFrom(Flatten(m.chunks), ratio, drain, r.y)
    ensures AllResampled(messages + [m], played + [r], ratio, drain)
  {
    forall k | 0 <= k < |played + [r]|
      ensures ResampledFrom(Flatten((messages + [m])[k].chunks), ratio, drain, (played + [r])[k].y)
    {
      if k < |played| {
        assert (messages + [m])[k] == messages[k] && (played + [r])[k] == played[k];
      }
    }
  }

  /** Where a run of messages is to go: from the watermark it found, or, when it opens a buffer without arrival
      alignment, with its first message at the base delay. */
  datatype Opening = Opening(mark: nat, structural: bool, baseDelay: nat)

  ghost function OpeningOf(pb: PairBuffer, absoluteFirstOrigin: bool): Opening
    reads pb
  {
    Opening(pb.watermark, pb.firstMessage && !absoluteFirstOrigin, pb.baseDelay)
  }

  /** Where the run has brought the watermark. */
  function Mark(opening: Opening, played: seq<Rendition>, maxDelta: nat): nat {
    if played == [] then opening.mark else played[|played| - 1].End(maxDelta)
  }

  /** Where the next message begins: its own gap past the end of the one before it, tail included. */
  function NextOrigin(opening: Opening, played: seq<Rendition>, maxDelta: nat, gap: nat): nat {
    if played == [] && opening.structural then opening.baseDelay else Mark(opening, played, maxDelta) + gap
  }

  ghost predicate Placed(opening: Opening, messages: seq<Message>, played: seq<Rendition>, maxDelta: nat) {
    && |played| == |messages|
    && (played != [] ==> played[0].origin == NextOrigin(opening, [], maxDelta, messages[0].gap))
    && (forall i, k :: 0 <= i < |played| && 0 <= k < |played| && k == i + 1 ==>
          played[k].origin == played[i].End(maxDelta) + messages[k].gap)
  }

  lemma PlacedAppend(opening: Opening, messages: seq<Message>, m: Message, played: seq<Rendition>, r: Rendition, maxDelta: nat)
    requires Placed(opening, messages, played, maxDelta)
    requires r.origin == NextOrigin(opening, played, maxDelta, m.gap)
    ensures Placed(opening, messages + [m], played + [r], maxDelta)
  {
  }

  /** What a static channel does to a message. */
  datatype Channel = Channel(voicing: Voicing, ratio: real, drain: nat, maxDelta: nat)

  ghost function ChannelOf(renderer: StaticRenderer): Channel {
    Channel(renderer.voicing, renderer.ratio, renderer.DrainLength(), renderer.maxTapDelta)
  }

  /** A run so far: each message resampled and in its place, one after another, up to the watermark. */
  ghost predicate Ran(c: Channel, opening: Opening, sent: seq<Message>, played: seq<Rendition>, mark: nat) {
    && AllResampled(sent, played, c.ratio, c.drain)
    && Placed(opening, sent, played, c.maxDelta)
    && Consecutive(played, c.maxDelta, mark)
    && mark == Mark(opening, played, c.maxDelta)
  }

  lemma RanAppend(c: Channel, opening: Opening, sent: seq<Message>, m: Message, played: seq<Rendition>, r: Rendition, mark: nat)
    requires Ran(c, opening, sent, played, mark) && ResampledFrom(Flatten(m.chunks), c.ratio, c.drain, r.y)
    requires r.origin == NextOrigin(opening, played, c.maxDelta, m.gap) && mark <= r.origin
    ensures Ran(c, opening, sent + [m], played + [r], r.End(c.maxDelta))
  {
    AllResampledAppend(sent, m, played, r, c.ratio, c.drain);
    PlacedAppend(opening, sent, m, played, r, c.maxDelta);
    ConsecutiveAppend(played, r, c.maxDelta, mark);
  }

  /** The same with what is on the buffer, as long as nothing was dropped. */
  lemma RunAppend(c: Channel, opening: Opening, sent: seq<Message>, m: Message, played: seq<Rendition>, r: Rendition,
                  mark: nat, stream: Signal, stream': Signal, undropped: bool)
    requires Ran(c, opening, sent, played, mark) && ResampledFrom(Flatten(m.chunks), c.ratio, c.drain, r.y)
    requires r.origin == NextOrigin(opening, played, c.maxDelta, m.gap) && mark <= r.origin
    requires undropped ==> AllIn(played, stream, c.voicing, c.maxDelta) && Kept(stream, stream', r.origin)
    requires undropped ==> Heard(stream', r.origin, c.voicing, r.y, |r.y| + c.maxDelta)
    ensures Ran(c, opening, sent + [m], played + [r], r.End(c.maxDelta))
    ensures undropped ==> AllIn(played + [r], stream', c.voicing, c.maxDelta)
  {
    RanAppend(c, opening, sent, m, played, r, mark);
    if undropped {
      AllInAppend(played, r, stream, stream', c.voicing, c.maxDelta, mark);
    }
  }

  /** The buffer is still to be opened in structural-delay mode exactly before the first message of such a run. */
  ghost predicate Opens(pb: PairBuffer, opening: Opening, absoluteFirstOrigin: bool, started: bool)
    reads pb
  {
    pb.baseDelay == opening.baseDelay && (pb.firstMessage && !absoluteFirstOrigin <==> !started && opening.structural)
  }

  /** One message, as a rendition. */
  method Render(renderer: StaticRenderer, pb: PairBuffer, m: Message, absoluteFirstOrigin: bool, scratch: array<real>)
    returns (ghost r: Rendition)
    requires renderer.Valid() && renderer.Apart(pb) && pb.Valid() && Quiescent(pb)
    requires scratch != pb.buffer && scratch !in renderer.Footprint() && m.Fits(scratch.Length)
    modifies renderer.Footprint(), pb, pb.buffer, scratch
    ensures renderer.Valid() && pb.Valid() && Quiescent(pb) && !pb.firstMessage
    ensures r.origin == if old(pb.firstMessage) && !absoluteFirstOrigin then pb.baseDelay else old(pb.watermark) + m.gap
    ensures old(pb.watermark) <= r.origin && pb.watermark == r.End(renderer.maxTapDelta)
    ensures ResampledFrom(Flatten(m.chunks), ChannelOf(renderer).ratio, ChannelOf(renderer).drain, r.y)
    ensures pb.overflowDrops == old(pb.overflowDrops) ==>
      Kept(old(pb.stream), pb.stream, r.origin) && Heard(pb.stream, r.origin, renderer.voicing, r.y, |r.y| + renderer.maxTapDelta)
    ensures pb.Since(old(pb.Now()), pb.watermark)
  {
    TransmitMessage(renderer, pb, m.gap, absoluteFirstOrigin, m.chunks, scratch, m.drains);
    r := Rendition(pb.origin, renderer.y);
  }

  /** One more message of a run. */
  method TransmitNext(renderer: StaticRenderer, pb: PairBuffer, m: Message, absoluteFirstOrigin: bool, scratch: array<real>,
                      ghost opening: Opening, ghost sent: seq<Message>, ghost played: seq<Rendition>, ghost was: Moment,
                      ghost sent': seq<Message>)
    returns (ghost played': seq<Rendition>)
    requires sent' == sent + [m] && renderer.Valid() && renderer.Apart(pb) && pb.Valid() && Quiescent(pb) && pb.Since(was, pb.watermark)
    requires scratch != pb.buffer && scratch !in renderer.Footprint() && m.Fits(scratch.Length)
    requires Ran(ChannelOf(renderer), opening, sent, played, pb.watermark)
    requires Opens(pb, opening, absoluteFirstOrigin, played != [])
    requires pb.overflowDrops == was.drops ==> AllIn(played, pb.stream, renderer.voicing, renderer.maxTapDelta)
    modifies renderer.Footprint(), pb, pb.buffer, scratch
    ensures renderer.Valid() && pb.Valid() && Quiescent(pb) && pb.Since(was, pb.watermark)
    ensures Ran(ChannelOf(renderer), opening, sent', played', pb.watermark)
    ensures Opens(pb, opening, absoluteFirstOrigin, played' != [])
    ensures pb.overflowDrops == was.drops ==> AllIn(played', pb.stream, renderer.voicing, renderer.maxTapDelta)
  {
    ghost var before := pb.Now();
    ghost var r := Render(renderer, pb, m, absoluteFirstOrigin, scratch);
    played' := played + [r];
    AdvancedTwice(was, before, pb.Now(), before.watermark, pb.watermark, pb.capacity);
    RunAppend(ChannelOf(renderer), opening, sent, m, played, r, before.watermark, before.stream, pb.stream,
              pb.overflowDrops == was.drops);
  }

  /** A run of messages through one channel, the receiver reading whenever it likes. Rendition k is message k
      resampled, it begins the message's gap past the end of rendition k - 1, and as long as nothing was dropped
      all of them are on the buffer at the end, through all taps and undisturbed by what came after; nothing is
      dropped if the whole run fits ahead of the reader. */
  method TransmitAll(renderer: StaticRenderer, pb: PairBuffer, messages: seq<Message>, absoluteFirstOrigin: bool,
                     scratch: array<real>)
    returns (ghost played: seq<Rendition>)
    requires renderer.Valid() && renderer.Apart(pb) && pb.Valid() && Quiescent(pb)
    requires scratch != pb.buffer && scratch !in renderer.Footprint()
    requires forall k :: 0 <= k < |messages| ==> messages[k].Fits(scratch.Length)
    modifies renderer.Footprint(), pb, pb.buffer, scratch
    ensures renderer.Valid() && pb.Valid() && Quiescent(pb)
    ensures AllResampled(messages, played, renderer.ratio, renderer.DrainLength())
    ensures Placed(old(OpeningOf(pb, absoluteFirstOrigin)), messages, played, renderer.maxTapDelta)
    ensures Consecutive(played, renderer.maxTapDelta, pb.watermark)
    ensures pb.watermark == Mark(old(OpeningOf(pb, absoluteFirstOrigin)), played, renderer.maxTapDelta)
    ensures pb.Since(old(pb.Now()), pb.watermark)
    ensures pb.overflowDrops == old(pb.overflowDrops) ==> AllIn(played, pb.stream, renderer.voicing, renderer.maxTapDelta)
  {
    ghost var was, opening := pb.Now(), OpeningOf(pb, absoluteFirstOrigin);
    played := [];
    for k := 0 to |messages|
      invariant renderer.Valid() && pb.Valid() && Quiescent(pb) && pb.Since(was, pb.watermark)
      invariant Ran(ChannelOf(renderer), opening, messages[..k], played, pb.watermark)
      invariant Opens(pb, opening, absoluteFirstOrigin, played != [])
      invariant pb.overflowDrops == was.drops ==> AllIn(played, pb.stream, renderer.voicing, renderer.maxTapDelta)
    {
      assert messages[..k + 1] == messages[..k] + [messages[k]];
      played := TransmitNext(renderer, pb, messages[k], absoluteFirstOrigin, scratch, opening, messages[..k], played, was,
                             messages[..k + 1]);
    }
    assert messages[..|messages|] == messages;
  }
}
