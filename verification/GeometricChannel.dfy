/** A geometric channel end to end: the analytic tap source in front of the read-style renderer. */
module GeometricChannels {
  import opened Basics
  import opened RealArithmetic
  import opened Signals
  import opened DelayLines
  import opened TapSources
  import opened TapScenes
  import opened TapSourceRenderers
  import opened TapMessages
  import opened StaticMessages
  import opened PairBuffers
  import opened Masking
  import opened GeometricScenes
  import opened GeometricTapSources

  /** A square root is determined by its square. */
  lemma RootOfSquare(root: real -> real, x: real)
    requires IsSquareRoot(root) && x >= 0.0
    ensures root(x * x) == x
  {
    var y := root(x * x);
    HalfSquare(x);
    assert y >= 0.0 && y * y == x * x;
    if y < x {
      SquareStrict(y, x);
    } else if x < y {
      SquareStrict(x, y);
    }
  }

  lemma SquareOrder(a: real, b: real)
    requires b >= 0.0 && a * a <= b * b
    ensures a <= b
  {
    if b < a {
      SquareStrict(b, a);
    }
  }

  /** The range at which the path with squared offset o has length l. */
  lemma RangeOfLength(root: real -> real, rMin: real, rMax: real, o: real, l: real) returns (r: real)
    requires IsSquareRoot(root) && 0.0 <= rMin <= rMax && o >= 0.0
    requires root(Square(rMin) + o) <= l <= root(Square(rMax) + o)
    ensures rMin <= r <= rMax && root(Square(r) + o) == l
  {
    var l0, l1 := root(Square(rMin) + o), root(Square(rMax) + o);
    assert l0 >= 0.0 && l0 * l0 == Square(rMin) + o && l1 * l1 == Square(rMax) + o;
    SquareMonotone(l0, l);
    SquareMonotone(l, l1);
    var x := l * l - o;
    r := root(x);
    assert r >= 0.0 && r * r == x;
    SquareOrder(rMin, r);
    SquareOrder(r, rMax);
    assert Square(r) + o == l * l;
    RootOfSquare(root, l);
  }

  /** A delay in samples. */
  function InSamples(length: real, c: real, fs: real): real
    requires c > 0.0
  {
    length / c * fs
  }

  /** A length of at most half a sample. */
  lemma HalfSampleStep(c: real, fs: real, room: real) returns (step: real)
    requires c > 0.0 && fs > 0.0 && room > 0.0
    ensures 0.0 < step <= room && 0.0 < InSamples(step, c, fs) < 1.0
  {
    var half := c / (2.0 * fs);
    step := if half <= room then half else room;
    var q := step / c;
    StepPositive(step, c, fs, q);
    StepBound(step, c, fs, half, q);
    assert q * fs < 1.0;
    assert InSamples(step, c, fs) == q * fs;
  }

  lemma StepPositive(step: real, c: real, fs: real, q: real)
    requires c > 0.0 && fs > 0.0 && step > 0.0 && q * c == step
    ensures q * fs > 0.0
  {
    if q <= 0.0 {
      ProductNonNegative(-q, c);
    }
    ProductPositive(q, fs);
  }

  lemma StepBound(step: real, c: real, fs: real, half: real, q: real)
    requires c > 0.0 && fs > 0.0 && 0.0 < step <= half && half == c / (2.0 * fs) && q * c == step
    ensures q * fs < 1.0
  {
    assert half * (2.0 * fs) == c;
    ProductMonotone(step, half, 2.0 * fs);
    assert (2.0 * (q * fs)) * c == step * (2.0 * fs);
    if q * fs >= 1.0 {
      ProductMonotone(2.0, 2.0 * (q * fs), c);
    }
  }

  /** Every geometric source that covers more than one range emits, somewhere in its envelope, a first tap
      with a delay strictly between nothing and one sample. */
  lemma NearRangeDelay(source: GeometricTapSource) returns (r: real)
    requires source.Valid() && source.rMin < source.rMax && source.sampleRate > 0
    ensures source.rMin <= r <= source.rMax && 0.0 < source.TrueExcess(r, 0) < 1.0
  {
    var o, root := source.offsets[0], source.root;
    SquareStrict(source.rMin, source.rMax);
    RootStrict(root, Square(source.rMin) + o, Square(source.rMax) + o);
    var step := HalfSampleStep(source.soundSpeed, source.sampleRate as real,
                               root(Square(source.rMax) + o) - source.anchorLength);
    r := RangeOfLength(root, source.rMin, source.rMax, o, source.anchorLength + step);
    ExcessOfStep(source, r, step);
  }

  lemma ExcessOfStep(source: GeometricTapSource, r: real, step: real)
    requires source.soundSpeed > 0.0 && |source.offsets| > 0
    requires source.root(Square(r) + source.offsets[0]) == source.anchorLength + step
    ensures source.TrueExcess(r, 0) == InSamples(step, source.soundSpeed, source.sampleRate as real)
  {
  }

  /** With such a delay the newest output of a call reads past the producer, and is wrong for some source. */
  lemma NearRangeReadIsWrong(source: GeometricTapSource, r: real, line: SourceDelayLine)
    requires source.Valid() && 0.0 < source.TrueExcess(r, 0) < 1.0 && line.Valid()
    ensures var pos := (|line.fed| - 1) as real - source.TrueExcess(r, 0);
      exists more :: line.RawRead(pos) != CubicAt(Stream(line.fed + more), pos)
  {
    NewestOutputWritten(|line.fed|, source.TrueExcess(r, 0));
    line.UnwrittenReadIsWrong((|line.fed| - 1) as real - source.TrueExcess(r, 0));
  }

  /** The scene is this source's: at message time t its taps are the ones the source resolves then. */
  ghost predicate PlaysScene(view: Scene, source: GeometricTapSource) {
    && source.Valid() && view.fs == source.sampleRate as real && view.fs > 0.0 && view.offset == 0.0
    && view.record == source.Record()
  }

  function RangeAt(source: GeometricTapSource, t: real): (r: real)
    requires source.rMin <= source.rMax
    ensures source.rMin <= r <= source.rMax
  {
    ClampReal(source.RangeFrom(source.StartRange(), t), source.rMin, source.rMax)
  }

  /** The range never comes closer than where the first tap is a whole sample behind. */
  ghost predicate StaysBehind(source: GeometricTapSource, low: real)
    requires source.Valid()
  {
    source.rMin <= low && source.TrueExcess(low, 0) >= 1.0 && forall t :: t >= 0.0 ==> low <= RangeAt(source, t)
  }

  /** Delays only grow with range and from tap to tap. */
  lemma ExcessGrows(source: GeometricTapSource, low: real, r: real, k: nat)
    requires source.Valid() && source.rMin <= low <= r <= source.rMax && k < source.tapCount
    ensures source.TrueExcess(low, 0) <= source.TrueExcess(r, k) <= source.sdlWorstExcess as real
  {
    source.TapBounds(r, k);
    source.TapBounds(low, 0);
    LengthMonotone(low, r, source.offsets[0], source.offsets[k], source.root);
    ExcessMonotone(source.root(Square(low) + source.offsets[0]), source.root(Square(r) + source.offsets[k]),
                   source.anchorLength, source.soundSpeed, source.sampleRate);
  }

  /** As long as the first tap stays a whole sample behind at the least range visited, a drift-free geometric
      channel keeps all its lags within the source's margin. */
  lemma GeometricLags(view: Scene, source: GeometricTapSource, low: real, total: nat)
    requires PlaysScene(view, source) && view.drift == 0.0 && StaysBehind(source, low)
    ensures view.LagsWithin(0, total, source.sdlWorstExcess)
  {
    forall m: nat, k: nat | k < |view.Taps(m)|
      ensures 1.0 <= view.Taps(m)[k].delta <= source.sdlWorstExcess as real
    {
      var t := m as real / view.fs;
      var r := RangeAt(source, t);
      assert t >= 0.0 && view.Taps(m) == source.TapsFor(r);
      source.TapsForIsTrue(r);
      ExcessGrows(source, low, r, k);
    }
    DelaysAreLags(view, total, source.sdlWorstExcess);
  }

  /** And then every read of every message made of calls of up to a block falls in the window of the line the
      constructor sizes from that margin. */
  lemma GeometricInWindow(view: Scene, source: GeometricTapSource, low: real, chunks: seq<seq<real>>, tail: nat, capacity: nat)
    requires PlaysScene(view, source) && view.drift == 0.0 && StaysBehind(source, low)
    requires capacity >= source.sdlWorstExcess + CATMULL_ROM_MARGIN + 1 + BLOCK
    requires forall i :: 0 <= i < |chunks| ==> |chunks[i]| <= BLOCK
    ensures view.CallsInWindow(0, MessageCalls(chunks, tail), capacity)
  {
    GeometricLags(view, source, low, |Flatten(chunks)| + tail);
    LaggedIsInWindow(view, chunks, tail, source.sdlWorstExcess, capacity);
  }

  /** What a geometric channel is. */
  ghost function GeometricScene(source: GeometricTapSource, gain: real, clockOffsetPpm: real): Scene
    requires source.Valid()
  {
    Scene(source.Record(), 0.0, source.sampleRate as real, clockOffsetPpm * 0.000001, gain)
  }

  /** A geometric channel as it is built: delays, tail and line are all sized by the source. */
  method MakeGeometricRenderer(source: GeometricTapSource, afeGain: real, clockOffsetPpm: real)
    returns (renderer: TapSourceRenderer)
    requires source.Valid() && source.sampleRate > 0
    requires source.sdlWorstExcess + CATMULL_ROM_MARGIN + DriftMargin(clockOffsetPpm) + BLOCK <= U64 / 2
    ensures fresh(renderer.Footprint()) && renderer.Valid() && PlaysScene(renderer.View(), source)
    ensures Setting(renderer) == GeometricScene(source, afeGain, clockOffsetPpm)
    ensures renderer.baseDelay == source.baseDelay && renderer.maxTapDelta == source.maxTapDelta
    ensures renderer.line.buffer.Length
      >= source.sdlWorstExcess + CATMULL_ROM_MARGIN + DriftMargin(clockOffsetPpm) + BLOCK
    ensures ClockOf(renderer.source) == RecordClock(false, 0.0, 0.0, 0.0) && renderer.source.Continuation() == 0.0
  {
    source.SizesNonNegative();
    var taps := new TapSource(source.Record(), source.maxTapDelta, 0.0, 0.0, false, 0.0);
    renderer := new TapSourceRenderer(taps, afeGain, source.baseDelay, source.sampleRate, clockOffsetPpm,
                                      source.sdlWorstExcess);
  }

  /** A drift-free run through such a channel is right in short calls as long as the range stays behind. */
  lemma GeometricRun(view: Scene, source: GeometricTapSource, low: real, messages: seq<Message>, played: seq<Performance>,
                     tail: nat, capacity: nat)
    requires PlaysScene(view, source) && view.drift == 0.0 && StaysBehind(source, low)
    requires AllRight(view, messages, played, tail, capacity) && (forall k :: 0 <= k < |played| ==> played[k].start == 0.0)
    requires capacity >= source.sdlWorstExcess + CATMULL_ROM_MARGIN + 1 + BLOCK
    ensures RunMatches(view, tail, messages, played)
  {
    forall k | 0 <= k < |played|
      ensures |played[k].y| == |Flatten(messages[k].chunks)| + tail
      ensures ShortCalls(messages[k]) ==>
        Matches(view.(offset := played[k].start), Flatten(messages[k].chunks) + Zeros(tail), played[k].cuts, played[k].y)
    {
      assert played[k].Right(view, messages[k].chunks, tail, capacity);
      if ShortCalls(messages[k]) {
        assert view.(offset := 0.0) == view;
        GeometricInWindow(view, source, low, messages[k].chunks, tail, capacity);
      }
    }
  }

  /** The whole geometric workflow: a channel is built from a source and a run of messages goes through it, each in its
      place and from the start of the motion. Rendering is the block formula whenever the reads stay in the window,
      which they do, without drift and in calls of up to a block, as long as the range stays behind. */
  method PlayGeometric(source: GeometricTapSource, afeGain: real, clockOffsetPpm: real, pb: PairBuffer,
                       messages: seq<Message>, absoluteFirstOrigin: bool, scratch: array<real>, ghost low: real)
    returns (ghost played: seq<Performance>, ghost capacity: nat)
    requires source.Valid() && source.sampleRate > 0
    requires source.sdlWorstExcess + CATMULL_ROM_MARGIN + DriftMargin(clockOffsetPpm) + BLOCK <= U64 / 2
    requires pb.Valid() && Quiescent(pb) && scratch != pb.buffer
    requires forall k :: 0 <= k < |messages| ==> messages[k].Fits(scratch.Length)
    modifies pb, pb.buffer, scratch
    ensures pb.Valid() && Quiescent(pb)
    ensures source.maxTapDelta >= 0 && source.sdlWorstExcess >= 0
    ensures capacity >= source.sdlWorstExcess + CATMULL_ROM_MARGIN + DriftMargin(clockOffsetPpm) + BLOCK
    ensures Performed(GeometricScene(source, afeGain, clockOffsetPpm), old(OpeningOf(pb, absoluteFirstOrigin)), messages,
                      played, pb.watermark, source.maxTapDelta, capacity)
    ensures forall k :: 0 <= k < |played| ==> played[k].start == 0.0
    ensures clockOffsetPpm == 0.0 && StaysBehind(source, low) ==>
      RunMatches(GeometricScene(source, afeGain, clockOffsetPpm), source.maxTapDelta, messages, played)
    ensures pb.Since(old(pb.Now()), pb.watermark)
    ensures pb.overflowDrops == old(pb.overflowDrops) ==> AllOn(played, pb.stream)
  {
    source.SizesNonNegative();
    var renderer := MakeGeometricRenderer(source, afeGain, clockOffsetPpm);
    capacity := renderer.line.buffer.Length;
    played := TapMessages.TransmitAll(renderer, pb, messages, absoluteFirstOrigin, scratch);
    if clockOffsetPpm == 0.0 && StaysBehind(source, low) {
      GeometricRun(GeometricScene(source, afeGain, clockOffsetPpm), source, low, messages, played, source.maxTapDelta, capacity);
    }
  }
}
