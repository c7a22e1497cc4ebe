/** The read-style renderer: source samples go one for one into the delay line, and each output block
    is the sum over the taps of fractional reads at moving positions. */
module TapSourceRenderers {
  import opened Basics
  import opened Masking
  import opened Signals
  import opened DelayLines
  import opened PerTap
  import opened TapSources
  import opened TapScenes
  import opened PairBuffers

  /** The stream carries the run y on top of what was there before. */
  ghost predicate CarriesRun(stream: Signal, base: Signal, origin: int, y: seq<real>) {
    forall p :: stream(p) == base(p) + At(y, p - origin)
  }

  function Sum(z: seq<real>, s: seq<real>): (r: seq<real>)
    requires |z| == |s|
  {
    seq(|z|, i requires 0 <= i < |z| => z[i] + s[i])
  }

  lemma CarriesZeros(stream: Signal, base: Signal, origin: int, y: seq<real>, n: nat)
    requires CarriesRun(stream, base, origin, y)
    ensures CarriesRun(stream, base, origin, y + Zeros(n))
  {
  }

  /** Scattering one more tap's block adds it to the block under construction. */
  lemma CarriesTap(stream: Signal, base: Signal, origin: int, y: seq<real>, z: seq<real>, s: seq<real>)
    requires |z| == |s| && CarriesRun(stream, base, origin, y + z)
    ensures CarriesRun(AddBlock(stream, origin + |y|, s), base, origin, y + Sum(z, s))
  {
    var stream' := AddBlock(stream, origin + |y|, s);
    forall p
      ensures stream'(p) == base(p) + At(y + Sum(z, s), p - origin)
    {
      assert stream'(p) == stream(p) + At(s, p - origin - |y|);
      assert At(y + z, p - origin) == (if p - origin < |y| then At(y, p - origin) else At(z, p - origin - |y|));
    }
  }

  /** The reference meaning of a rendered run y over the source fed so far: it splits at `cuts` into
      blocks, each the block formula on the unbounded source, with nothing left undetermined. */
  ghost predicate Matches(view: Scene, fed: seq<real>, cuts: seq<nat>, y: seq<real>)
    requires view.fs > 0.0
  {
    && |cuts| >= 1 && cuts[0] == 0 && cuts[|cuts| - 1] == |y|
    && forall b: nat :: b < |cuts| - 1 ==> CutMatches(view, fed, cuts, y, b)
  }

  ghost predicate CutMatches(view: Scene, fed: seq<real>, cuts: seq<nat>, y: seq<real>, b: nat)
    requires view.fs > 0.0 && b + 1 < |cuts|
  {
    cuts[b] < cuts[b + 1] <= |y| && BlockMatches(view, fed, cuts[b], cuts[b + 1] - cuts[b], y)
  }

  ghost predicate BlockMatches(view: Scene, fed: seq<real>, from: nat, n: nat, y: seq<real>)
    requires view.fs > 0.0 && n > 0 && from + n <= |y|
  {
    forall i: nat :: i < n ==> SampleMatches(view, fed, from, n, i, y)
  }

  ghost predicate SampleMatches(view: Scene, fed: seq<real>, from: nat, n: nat, i: nat, y: seq<real>)
    requires view.fs > 0.0 && i < n && from + n <= |y|
  {
    view.Determined(|fed|, from, n, i) && y[from + i] == view.BlockOut(fed, from, n, i)
  }

  lemma BlockMatchesStable(view: Scene, fed: seq<real>, more: seq<real>, from: nat, n: nat, y: seq<real>, y': seq<real>)
    requires view.fs > 0.0 && n > 0 && from + n <= |y| && y <= y'
    requires BlockMatches(view, fed, from, n, y)
    ensures BlockMatches(view, fed + more, from, n, y')
  {
    forall i: nat | i < n
      ensures SampleMatches(view, fed + more, from, n, i, y')
    {
      assert SampleMatches(view, fed, from, n, i, y);
      view.BlockOutStable(fed, more, from, n, i);
    }
  }

  lemma MatchesStable(view: Scene, fed: seq<real>, more: seq<real>, cuts: seq<nat>, y: seq<real>)
    requires view.fs > 0.0 && Matches(view, fed, cuts, y)
    ensures Matches(view, fed + more, cuts, y)
  {
    forall b: nat | b < |cuts| - 1
      ensures CutMatches(view, fed + more, cuts, y, b)
    {
      assert CutMatches(view, fed, cuts, y, b);
      BlockMatchesStable(view, fed, more, cuts[b], cuts[b + 1] - cuts[b], y, y);
    }
  }

  lemma MatchesAppend(view: Scene, fed: seq<real>, cuts: seq<nat>, y: seq<real>, z: seq<real>)
    requires view.fs > 0.0 && Matches(view, fed, cuts, y) && z != []
    requires BlockMatches(view, fed, |y|, |z|, y + z)
    ensures Matches(view, fed, cuts + [|y| + |z|], y + z)
  {
    var cuts' := cuts + [|y| + |z|];
    forall b: nat | b < |cuts'| - 1
      ensures CutMatches(view, fed, cuts', y + z, b)
    {
      if b < |cuts| - 1 {
        assert CutMatches(view, fed, cuts, y, b);
        assert fed + [] == fed;
        BlockMatchesStable(view, fed, [], cuts[b], cuts[b + 1] - cuts[b], y, y + z);
      }
    }
  }

  /** A finished block whose reads were all in the window extends the match. */
  lemma BlockDone(view: Scene, fed: seq<real>, cuts: seq<nat>, y: seq<real>, z: seq<real>)
    requires view.fs > 0.0 && z != [] && Matches(view, fed, cuts, y)
    requires forall k: nat, i: nat :: k < view.TapCount(|y|, |z|) && i < |z| ==>
      Written(|fed|, view.Position(|y|, |z|, k, i))
    requires forall i: nat :: i < |z| ==>
      z[i] == view.BlockMix(Interpolated(fed), |y|, |z|, i, view.TapCount(|y|, |z|))
    ensures Matches(view, fed, cuts + [|y| + |z|], y + z)
  {
    forall i: nat | i < |z|
      ensures SampleMatches(view, fed, |y|, |z|, i, y + z)
    {
      assert (y + z)[|y| + i] == z[i];
    }
    MatchesAppend(view, fed, cuts, y, z);
  }

  /** A tap's output is the block formula's term for any stream that agrees with the line where it reads. */
  lemma OutIsTerm(line: SourceDelayLine, view: Scene, read: real -> real, m: nat, n: nat, k: nat, i: nat)
    requires view.fs > 0.0 && line.buffer.Length > 0 && k < view.TapCount(m, n) && i < n
    requires line.RawRead(view.Position(m, n, k, i)) == read(view.Position(m, n, k, i))
    ensures TapOut(line, view.BlockState(m, n, k), view.Cursor(m), n, i) == view.TapTerm(read, m, n, i, k)
  {
  }

  class TapSourceRenderer {
    const source: TapSource
    const afeGain: real
    const baseDelay: nat
    const sampleRate: nat
    const drift: real
    const maxTapDelta: nat
    const line: SourceDelayLine
    const scratch: array<real>
    var outCursor: nat
    var sourceCursor: real

    /** The outputs of the current message, where its blocks start, and whether every read so far fell
        inside the delay line's window. */
    ghost var y: seq<real>
    ghost var cuts: seq<nat>
    ghost var exact: bool

    ghost function Footprint(): set<object>
      reads this
    {
      {this, source, line, line.buffer, scratch}
    }

    function ReceiverRate(): (fs: real)
      ensures fs > 0.0 && (sampleRate == 0 ==> fs == 500000.0)
    {
      if sampleRate > 0 then sampleRate as real else 500000.0
    }

    /** The current message's view of the tap source. */
    ghost function View(): (v: Scene)
      reads this, source
      ensures v.fs > 0.0
    {
      Scene(source.record, source.messageOffset, ReceiverRate(), drift, afeGain)
    }

    ghost predicate Wired()
      reads this
    {
      scratch.Length == BLOCK && scratch != line.buffer && maxTapDelta == source.maxTapDelta
    }

    /** Cursors, outputs and the record clock move together. */
    ghost predicate InStep()
      reads this, source, line
    {
      && outCursor == |y| && outCursor <= |line.fed|
      && sourceCursor == View().Cursor(outCursor)
      && source.maxTSeen == outCursor as real / ReceiverRate()
      && (exact ==> Matches(View(), line.fed, cuts, y))
    }

    ghost predicate Valid()
      reads Footprint()
    {
      Wired() && line.Valid() && InStep() && outCursor == |line.fed|
    }

    ghost predicate Rendering(pb: PairBuffer, base: Signal, drops: nat)
      reads this, pb
    {
      && pb.watermark <= pb.origin + outCursor
      && (outCursor > 0 ==> pb.watermark == pb.origin + outCursor)
      && drops <= pb.overflowDrops && (outCursor == 0 ==> pb.overflowDrops == drops)
      && (pb.overflowDrops == drops ==> CarriesRun(pb.stream, base, pb.origin, y))
    }

    ghost predicate Apart(pb: PairBuffer)
      reads this
    {
      pb !in Footprint() && pb.buffer !in Footprint()
    }

    /** Every read of block [m, m + n) falls in the delay line's window. */
    ghost predicate BlockSafe(m: nat, n: nat)
      requires n > 0
      reads this, source, line, line.buffer
    {
      View().BlockInWindow(m, n, |line.fed|, line.buffer.Length)
    }

    /** The delay line holds the model's worst read-back plus the interpolation, drift and block margins. */
    constructor (source: TapSource, afeGain: real, baseDelay: nat, sampleRate: nat, clockOffsetPpm: real,
                 worstExcess: nat)
      requires worstExcess + CATMULL_ROM_MARGIN + DriftMargin(clockOffsetPpm) + BLOCK <= U64 / 2
      requires source.maxTSeen == 0.0
      ensures Valid() && outCursor == 0 && exact && y == []
      ensures this.source == source && fresh(Footprint() - {source})
      ensures this.afeGain == afeGain && this.baseDelay == baseDelay && this.sampleRate == sampleRate
      ensures drift == clockOffsetPpm * 0.000001
      ensures line.buffer.Length >= worstExcess + CATMULL_ROM_MARGIN + DriftMargin(clockOffsetPpm) + BLOCK
    {
      var delayLine := new SourceDelayLine(worstExcess + CATMULL_ROM_MARGIN + DriftMargin(clockOffsetPpm) + BLOCK);
      line := delayLine;
      this.source, this.afeGain, this.baseDelay, this.sampleRate := source, afeGain, baseDelay, sampleRate;
      drift := clockOffsetPpm * 0.000001;
      maxTapDelta := source.maxTapDelta;
      scratch := new real[BLOCK](i => 0.0);
      outCursor, sourceCursor, y, cuts, exact := 0, 0.0, [], [0], true;
    }

    method OnMessageStart()
      requires Valid()
      modifies source, line`producerPosition, line`fed, line.buffer, this`outCursor, this`sourceCursor,
               this`y, this`cuts, this`exact
      ensures Valid() && outCursor == 0 && y == [] && exact && line.fed == []
      ensures !source.advancePerMessage ==> source.messageOffset == source.startOffset
      ensures source.advancePerMessage ==>
        source.messageOffset == if source.InDeadZone(old(source.Continuation())) then 0.0 else old(source.Continuation())
      ensures source.startedOnce
    {
      source.OnMessageStart();
      line.Clear();
      outCursor, sourceCursor, y, cuts, exact := 0, 0.0, [], [0], true;
    }

    /** Compute one tap's contribution to the block into the scratch. */
    method ProduceTap(n: nat, k: nat, taps0: seq<SourcedTap>, taps1: seq<SourcedTap>, ghost safe: bool)
      requires Wired() && line.Valid() && 0 < n <= BLOCK && sourceCursor == View().Cursor(outCursor)
      requires taps0 == View().Taps(outCursor) && taps1 == View().Taps(outCursor + n)
      requires k < View().TapCount(outCursor, n)
      requires safe ==> BlockSafe(outCursor, n)
      modifies scratch
      ensures safe ==> forall i: nat :: i < n ==>
        scratch[..n][i] == View().TapTerm(Interpolated(line.fed), outCursor, n, i, k)
    {
      var drifted := n as real * drift;
      var tap := TapState(taps0[k].delta, taps1[k].delta - drifted, taps0[k].gain * afeGain, taps1[k].gain * afeGain);
      ghost var view, m := View(), outCursor;
      assert tap == view.BlockState(m, n, k);
      if safe {
        forall i: nat | i < n
          ensures TapOut(line, tap, sourceCursor, n, i) == view.TapTerm(Interpolated(line.fed), m, n, i, k)
        {
          SafeTapOut(m, n, k, i);
        }
      }
      Produce(line, tap, sourceCursor, n, scratch);
    }

    /** A read inside the window answers as the unbounded source would. */
    lemma SafeRead(m: nat, n: nat, k: nat, i: nat)
      requires Wired() && line.Valid() && n > 0 && BlockSafe(m, n) && k < View().TapCount(m, n) && i < n
      ensures line.RawRead(View().Position(m, n, k, i)) == Interpolated(line.fed)(View().Position(m, n, k, i))
    {
      assert line.fed + [] == line.fed;
      line.ReadIsInterpolation(View().Position(m, n, k, i), []);
    }

    lemma SafeTapOut(m: nat, n: nat, k: nat, i: nat)
      requires Wired() && line.Valid() && n > 0 && BlockSafe(m, n) && k < View().TapCount(m, n) && i < n
      ensures TapOut(line, View().BlockState(m, n, k), View().Cursor(m), n, i)
        == View().TapTerm(Interpolated(line.fed), m, n, i, k)
    {
      SafeRead(m, n, k, i);
      OutIsTerm(line, View(), Interpolated(line.fed), m, n, k, i);
    }

    /** The block under construction: the run so far followed by the first k taps of the new block. */
    ghost predicate Building(pb: PairBuffer, base: Signal, drops: nat, z: seq<real>, k: nat, safe: bool)
      requires |z| > 0 && k <= View().TapCount(outCursor, |z|)
      reads this, source, line, pb
    {
      && drops <= pb.overflowDrops
      && (pb.overflowDrops == drops ==> CarriesRun(pb.stream, base, pb.origin, y + z))
      && (safe ==> forall i: nat :: i < |z| ==>
            z[i] == View().BlockMix(Interpolated(line.fed), outCursor, |z|, i, k))
    }

    /** Add the tap in the scratch to the buffer. */
    method ScatterTap(n: nat, k: nat, pb: PairBuffer, ghost base: Signal, ghost drops: nat,
                      ghost z: seq<real>, ghost safe: bool)
      returns (ghost z': seq<real>)
      requires Wired() && Apart(pb) && pb.Valid() && outCursor == |y| && 0 < n <= BLOCK && |z| == n
      requires k < View().TapCount(outCursor, n) && Building(pb, base, drops, z, k, safe)
      requires safe ==> forall i: nat :: i < n ==>
        scratch[..n][i] == View().TapTerm(Interpolated(line.fed), outCursor, n, i, k)
      requires pb.watermark <= pb.origin + outCursor
      modifies pb`overflowDrops, pb`stream, pb.buffer
      ensures pb.Valid() && |z'| == n && Building(pb, base, drops, z', k + 1, safe)
      ensures pb.Since(old(pb.Now()), pb.origin + outCursor + n)
    {
      ghost var s, x := scratch[..n], pb.stream;
      z' := Sum(z, s);
      pb.ScatterAdd(outCursor, scratch[..n]);
      if pb.overflowDrops == drops {
        assert s[..n] == s;
        CarriesTap(x, base, pb.origin, y, z, s);
      }
    }

    /** One pass of the tap loop: render the tap into the scratch, add it to the buffer. */
    method RenderTap(n: nat, k: nat, taps0: seq<SourcedTap>, taps1: seq<SourcedTap>, pb: PairBuffer,
                     ghost base: Signal, ghost drops: nat, ghost z: seq<real>, ghost safe: bool)
      returns (ghost z': seq<real>)
      requires Loaded(n, taps0, taps1, pb, safe) && k < View().TapCount(outCursor, n)
      requires |z| == n && Building(pb, base, drops, z, k, safe)
      modifies scratch, pb`overflowDrops, pb`stream, pb.buffer
      ensures Loaded(n, taps0, taps1, pb, safe) && |z'| == n && Building(pb, base, drops, z', k + 1, safe)
      ensures pb.Since(old(pb.Now()), pb.origin + outCursor + n)
    {
      ProduceTap(n, k, taps0, taps1, safe);
      z' := ScatterTap(n, k, pb, base, drops, z, safe);
    }

    /** What every pass of the tap loop relies on. */
    ghost predicate Loaded(n: nat, taps0: seq<SourcedTap>, taps1: seq<SourcedTap>, pb: PairBuffer, safe: bool)
      reads this, source, line, line.buffer, pb, pb.buffer
    {
      && Wired() && Apart(pb) && line.Valid() && pb.Valid() && outCursor == |y| && 0 < n <= BLOCK
      && sourceCursor == View().Cursor(outCursor)
      && taps0 == View().Taps(outCursor) && taps1 == View().Taps(outCursor + n)
      && (safe ==> BlockSafe(outCursor, n))
      && pb.watermark <= pb.origin + outCursor
    }

    /** The tap loop of one block. */
    method TapLoop(n: nat, nTaps: nat, taps0: seq<SourcedTap>, taps1: seq<SourcedTap>, pb: PairBuffer,
                   ghost base: Signal, ghost drops: nat, ghost z0: seq<real>, ghost safe: bool)
      returns (ghost z: seq<real>)
      requires Loaded(n, taps0, taps1, pb, safe) && nTaps == View().TapCount(outCursor, n)
      requires |z0| == n && Building(pb, base, drops, z0, 0, safe)
      modifies scratch, pb`overflowDrops, pb`stream, pb.buffer
      ensures pb.Valid() && |z| == n && Building(pb, base, drops, z, nTaps, safe)
      ensures pb.Since(old(pb.Now()), pb.origin + outCursor + n)
    {
      z := z0;
      ghost var was := pb.Now();
      for k := 0 to nTaps
        invariant Loaded(n, taps0, taps1, pb, safe)
        invariant |z| == n && Building(pb, base, drops, z, k, safe)
        invariant pb.Since(was, pb.origin + outCursor + n)
        modifies scratch, pb`overflowDrops, pb`stream, pb.buffer
      {
        z := RenderTap(n, k, taps0, taps1, pb, base, drops, z, safe);
      }
    }

    /** Every tap both ends of the block have contributes to it. */
    method ScatterTaps(n: nat, taps0: seq<SourcedTap>, taps1: seq<SourcedTap>, pb: PairBuffer,
                       ghost base: Signal, ghost drops: nat, ghost safe: bool)
      returns (ghost z: seq<real>)
      requires Loaded(n, taps0, taps1, pb, safe) && Rendering(pb, base, drops)
      modifies scratch, pb`overflowDrops, pb`stream, pb.buffer
      ensures pb.Valid() && |z| == n && Building(pb, base, drops, z, View().TapCount(outCursor, n), safe)
      ensures pb.Since(old(pb.Now()), pb.origin + outCursor + n)
    {
      var nTaps := if |taps0| <= |taps1| then |taps0| else |taps1|;
      z := Zeros(n);
      if pb.overflowDrops == drops {
        CarriesZeros(pb.stream, base, pb.origin, y, n);
      }
      z := TapLoop(n, nTaps, taps0, taps1, pb, base, drops, z, safe);
    }

    /** Query the taps at both ends of the block; the record clock sees the end time last. */
    method QueryTaps(n: nat) returns (taps0: seq<SourcedTap>, taps1: seq<SourcedTap>)
      requires InStep()
      modifies source`maxTSeen
      ensures View() == old(View())
      ensures taps0 == View().Taps(outCursor) && taps1 == View().Taps(outCursor + n)
      ensures source.maxTSeen == (outCursor + n) as real / ReceiverRate()
    {
      var fs := ReceiverRate();
      taps0 := source.TapsAt(outCursor as real / fs);
      taps1 := source.TapsAt((outCursor + n) as real / fs);
      QuotientMonotone(outCursor as real, (outCursor + n) as real, fs);
    }

    /** One block: query, render every tap, move the cursors, publish. */
    method RenderBlock(n: nat, pb: PairBuffer, ghost base: Signal, ghost drops: nat, ghost safe: bool)
      requires Wired() && line.Valid() && InStep() && Apart(pb) && pb.Valid() && Rendering(pb, base, drops)
      requires 0 < n <= BLOCK && outCursor + n <= |line.fed|
      requires safe ==> BlockSafe(outCursor, n)
      modifies this`outCursor, this`sourceCursor, this`y, this`cuts, this`exact, source`maxTSeen, scratch,
               pb`overflowDrops, pb`stream, pb`watermark, pb.buffer
      ensures Wired() && line.Valid() && InStep() && pb.Valid() && Rendering(pb, base, drops)
      ensures View() == old(View()) && outCursor == old(outCursor) + n && old(y) <= y
      ensures exact == (old(exact) && safe)
      ensures pb.Since(old(pb.Now()), pb.origin + outCursor)
    {
      var taps0, taps1 := QueryTaps(n);
      ghost var z := ScatterTaps(n, taps0, taps1, pb, base, drops, safe);
      FinishBlock(n, z, pb, base, drops, safe);
    }

    /** Account for a finished block and publish it. */
    method FinishBlock(n: nat, ghost z: seq<real>, pb: PairBuffer, ghost base: Signal, ghost drops: nat, ghost safe: bool)
      requires Wired() && line.Valid() && Apart(pb) && pb.Valid() && n > 0 && |z| == n
      requires outCursor == |y| && outCursor + n <= |line.fed| && sourceCursor == View().Cursor(outCursor)
      requires source.maxTSeen == (outCursor + n) as real / ReceiverRate()
      requires exact ==> Matches(View(), line.fed, cuts, y)
      requires safe ==> BlockSafe(outCursor, n)
      requires Building(pb, base, drops, z, View().TapCount(outCursor, n), safe)
      requires pb.watermark <= pb.origin + outCursor
      modifies this`outCursor, this`sourceCursor, this`y, this`cuts, this`exact, pb`watermark
      ensures InStep() && pb.Valid() && Rendering(pb, base, drops)
      ensures outCursor == old(outCursor) + n && old(y) <= y && exact == (old(exact) && safe)
      ensures old(pb.watermark) <= pb.watermark
    {
      MoveCursors(n, z, safe);
      pb.CommitSourceProgress(outCursor);
    }

    method MoveCursors(n: nat, ghost z: seq<real>, ghost safe: bool)
      requires n > 0 && |z| == n
      requires outCursor == |y| && outCursor + n <= |line.fed| && sourceCursor == View().Cursor(outCursor)
      requires source.maxTSeen == (outCursor + n) as real / ReceiverRate()
      requires exact ==> Matches(View(), line.fed, cuts, y)
      requires safe ==> BlockSafe(outCursor, n)
      requires safe ==> forall i: nat :: i < n ==>
        z[i] == View().BlockMix(Interpolated(line.fed), outCursor, n, i, View().TapCount(outCursor, n))
      modifies this`outCursor, this`sourceCursor, this`y, this`cuts, this`exact
      ensures InStep() && outCursor == old(outCursor) + n && y == old(y) + z && exact == (old(exact) && safe)
    {
      if exact && safe {
        BlockDone(View(), line.fed, cuts, y, z);
      }
      exact := exact && safe;
      cuts := cuts + [outCursor + n];
      y := y + z;
      CursorNext(drift, outCursor, n);
      outCursor := outCursor + n;
      sourceCursor := sourceCursor + n as real * (1.0 + drift);
    }

    /** Every read of a call that takes `count` samples from here falls in the line's window. */
    ghost predicate CallInWindow(count: nat)
      reads this, source
    {
      View().RunInWindow(outCursor, outCursor + count, outCursor + count, line.buffer.Length)
    }

    /** Take a run of source samples and produce as many outputs, block by block. All of it is consumed.
        As long as every read falls in the window, the outputs are the block formula on the unbounded
        source. */
    method Process(samples: seq<real>, pb: PairBuffer, ghost base: Signal, ghost drops: nat) returns (consumed: nat)
      requires Valid() && Apart(pb) && pb.Valid() && Rendering(pb, base, drops)
      modifies this`outCursor, this`sourceCursor, this`y, this`cuts, this`exact, source`maxTSeen, scratch,
               line`producerPosition, line`fed, line.buffer,
               pb`overflowDrops, pb`stream, pb`watermark, pb.buffer
      ensures Valid() && pb.Valid() && Rendering(pb, base, drops)
      ensures View() == old(View()) && consumed == |samples| && line.fed == old(line.fed) + samples
      ensures old(y) <= y
      ensures exact == (old(exact) && old(CallInWindow(|samples|)))
      ensures pb.Since(old(pb.Now()), pb.origin + outCursor)
      ensures outCursor == 0 ==> pb.watermark == old(pb.watermark)
    {
      if |samples| == 0 {
        assert line.fed + samples == line.fed;
        return 0;
      }
      var count := |samples|;
      if exact {
        MatchesStable(View(), line.fed, samples, cuts, y);
      }
      line.Write(samples);
      RenderCall(count, pb, base, drops);
      consumed := count;
    }

    /** The block loop of Process. */
    method RenderCall(count: nat, pb: PairBuffer, ghost base: Signal, ghost drops: nat)
      requires Wired() && line.Valid() && InStep() && Apart(pb) && pb.Valid() && Rendering(pb, base, drops)
      requires count > 0 && |line.fed| == outCursor + count
      modifies this`outCursor, this`sourceCursor, this`y, this`cuts, this`exact, source`maxTSeen, scratch,
               pb`overflowDrops, pb`stream, pb`watermark, pb.buffer
      ensures Valid() && pb.Valid() && Rendering(pb, base, drops)
      ensures View() == old(View()) && old(y) <= y && exact == (old(exact) && old(CallInWindow(count)))
      ensures pb.Since(old(pb.Now()), pb.origin + outCursor)
    {
      ghost var was, y0, view, m0, good := pb.Now(), y, View(), outCursor, StillGood(outCursor + count);
      var produced := 0;
      while produced < count
        invariant produced <= count && outCursor == m0 + produced
        invariant Wired() && line.Valid() && InStep() && pb.Valid() && Rendering(pb, base, drops)
        invariant View() == view && y0 <= y && StillGood(m0 + count) == good
        invariant pb.Since(was, pb.origin + outCursor)
      {
        var nOut := NextBlock(count - produced, pb, base, drops);
        produced := produced + nOut;
      }
    }

    /** No read so far has left the window, and none of the blocks up to `end` will. */
    ghost predicate StillGood(end: nat)
      reads this, source
    {
      exact && View().RunInWindow(outCursor, end, end, line.buffer.Length)
    }

    /** One pass of the block loop. */
    method NextBlock(left: nat, pb: PairBuffer, ghost base: Signal, ghost drops: nat) returns (nOut: nat)
      requires Wired() && line.Valid() && InStep() && Apart(pb) && pb.Valid() && Rendering(pb, base, drops)
      requires left > 0 && |line.fed| == outCursor + left
      modifies this`outCursor, this`sourceCursor, this`y, this`cuts, this`exact, source`maxTSeen, scratch,
               pb`overflowDrops, pb`stream, pb`watermark, pb.buffer
      ensures Wired() && line.Valid() && InStep() && pb.Valid() && Rendering(pb, base, drops)
      ensures View() == old(View()) && 0 < nOut <= left && outCursor == old(outCursor) + nOut && old(y) <= y
      ensures StillGood(|line.fed|) == old(StillGood(|line.fed|))
      ensures pb.Since(old(pb.Now()), pb.origin + outCursor)
    {
      nOut := if BLOCK <= left then BLOCK else left;
      RenderBlock(nOut, pb, base, drops, BlockSafe(outCursor, nOut));
    }

    /** The calls made since index m0 brought the cursor here, and all their reads fell in the window
        exactly when the flag still stands. */
    ghost predicate Called(m0: nat, sizes: seq<nat>, exact0: bool)
      reads this, source
    {
      outCursor == m0 + Total(sizes) && exact == (exact0 && View().CallsInWindow(m0, sizes, line.buffer.Length))
    }

    /** One more call. */
    method ProcessCall(samples: seq<real>, pb: PairBuffer, ghost base: Signal, ghost drops: nat,
                       ghost m0: nat, ghost sizes: seq<nat>, ghost exact0: bool)
      requires Valid() && Apart(pb) && pb.Valid() && Rendering(pb, base, drops) && Called(m0, sizes, exact0)
      modifies this`outCursor, this`sourceCursor, this`y, this`cuts, this`exact, source`maxTSeen, scratch,
               line`producerPosition, line`fed, line.buffer,
               pb`overflowDrops, pb`stream, pb`watermark, pb.buffer
      ensures Valid() && pb.Valid() && Rendering(pb, base, drops) && Called(m0, sizes + [|samples|], exact0)
      ensures View() == old(View()) && line.fed == old(line.fed) + samples
      ensures pb.Since(old(pb.Now()), pb.origin + outCursor)
      ensures outCursor == 0 ==> pb.watermark == old(pb.watermark)
    {
      View().CallsNext(m0, sizes, |samples|, line.buffer.Length);
      var consumed := Process(samples, pb, base, drops);
    }

    /** The tail is being fed: `remaining` of its zeros are still to come, the others came in these calls. */
    ghost predicate Draining(pb: PairBuffer, base: Signal, drops: nat, fed0: seq<real>, m0: nat, sizes: seq<nat>, exact0: bool,
                             remaining: int)
      reads Footprint(), pb, pb.buffer
    {
      && 0 <= remaining <= maxTapDelta && Valid() && pb.Valid() && Rendering(pb, base, drops)
      && line.fed == fed0 + Zeros(maxTapDelta - remaining)
      && sizes + Blocks(remaining) == Blocks(maxTapDelta) && Called(m0, sizes, exact0)
    }

    /** Feed zeros until the longest tap has read past the last sample. */
    method OnMessageEnd(pb: PairBuffer, ghost base: Signal, ghost drops: nat)
      requires Valid() && Apart(pb) && pb.Valid() && Rendering(pb, base, drops)
      modifies this`outCursor, this`sourceCursor, this`y, this`cuts, this`exact, source`maxTSeen, scratch,
               line`producerPosition, line`fed, line.buffer,
               pb`overflowDrops, pb`stream, pb`watermark, pb.buffer
      ensures Valid() && pb.Valid() && Rendering(pb, base, drops)
      ensures View() == old(View()) && line.fed == old(line.fed) + Zeros(maxTapDelta)
      ensures Called(old(outCursor), Blocks(maxTapDelta), old(exact))
      ensures pb.Since(old(pb.Now()), pb.origin + outCursor)
      ensures outCursor == 0 ==> pb.watermark == old(pb.watermark)
    {
      ghost var was, view, fed0, m0, exact0 := pb.Now(), View(), line.fed, outCursor, exact;
      ghost var sizes: seq<nat> := [];
      var remaining := maxTapDelta;
      assert fed0 + Zeros(0) == fed0;
      while remaining > 0
        invariant Draining(pb, base, drops, fed0, m0, sizes, exact0, remaining) && View() == view
        invariant pb.Since(was, pb.origin + outCursor)
        invariant remaining == maxTapDelta ==> pb.watermark == old(pb.watermark)
      {
        remaining, sizes := Drain(remaining, pb, base, drops, fed0, m0, sizes, exact0);
      }
      DrainedAll(pb, base, drops, fed0, m0, sizes, exact0);
    }

    lemma DrainedAll(pb: PairBuffer, base: Signal, drops: nat, fed0: seq<real>, m0: nat, sizes: seq<nat>, exact0: bool)
      requires Draining(pb, base, drops, fed0, m0, sizes, exact0, 0)
      ensures line.fed == fed0 + Zeros(maxTapDelta) && Called(m0, Blocks(maxTapDelta), exact0)
    {
      assert sizes == sizes + Blocks(0);
    }

    /** Feed one block of the tail's zeros. */
    method Drain(remaining: nat, pb: PairBuffer, ghost base: Signal, ghost drops: nat,
                 ghost fed0: seq<real>, ghost m0: nat, ghost sizes: seq<nat>, ghost exact0: bool)
      returns (left: nat, ghost sizes': seq<nat>)
      requires Draining(pb, base, drops, fed0, m0, sizes, exact0, remaining) && Apart(pb) && remaining > 0
      modifies this`outCursor, this`sourceCursor, this`y, this`cuts, this`exact, source`maxTSeen, scratch,
               line`producerPosition, line`fed, line.buffer,
               pb`overflowDrops, pb`stream, pb`watermark, pb.buffer
      ensures Draining(pb, base, drops, fed0, m0, sizes', exact0, left) && left < remaining && View() == old(View())
      ensures pb.Since(old(pb.Now()), pb.origin + outCursor)
    {
      var chunk: nat := if BLOCK <= remaining then BLOCK else remaining;
      left, sizes' := remaining - chunk, sizes + [chunk];
      ProcessCall(Zeros(chunk), pb, base, drops, m0, sizes, exact0);
      DrainedNext(pb, base, drops, fed0, m0, sizes, exact0, remaining, chunk);
    }

    lemma DrainedNext(pb: PairBuffer, base: Signal, drops: nat, fed0: seq<real>, m0: nat, sizes: seq<nat>, exact0: bool,
                      remaining: nat, chunk: nat)
      requires Valid() && pb.Valid() && Rendering(pb, base, drops) && Called(m0, sizes + [chunk], exact0)
      requires 0 < remaining <= maxTapDelta && chunk == (if BLOCK <= remaining then BLOCK else remaining)
      requires line.fed == fed0 + Zeros(maxTapDelta - remaining) + Zeros(chunk)
      requires sizes + Blocks(remaining) == Blocks(maxTapDelta)
      ensures Draining(pb, base, drops, fed0, m0, sizes + [chunk], exact0, remaining - chunk)
    {
      BlocksNext(remaining, chunk);
      ZerosConcat(fed0, maxTapDelta - remaining, chunk);
      assert sizes + [chunk] + Blocks(remaining - chunk) == sizes + Blocks(remaining);
    }
  }

  lemma ZerosConcat(x: seq<real>, a: nat, b: nat)
    ensures (x + Zeros(a)) + Zeros(b) == x + Zeros(a + b)
  {
  }

  lemma QuotientMonotone(a: real, b: real, fs: real)
    requires fs > 0.0 && a <= b
    ensures a / fs <= b / fs
  {
  }

  lemma CursorNext(drift: real, m: nat, n: nat)
    ensures m as real * (1.0 + drift) + n as real * (1.0 + drift) == (m + n) as real * (1.0 + drift)
  {
  }

  const CATMULL_ROM_MARGIN: nat := 4

  /** One block of clock drift, rounded up, plus one. */
  function DriftMargin(clockOffsetPpm: real): (n: nat)
    ensures n as real >= 1.0 + 256.0 * (if clockOffsetPpm >= 0.0 then clockOffsetPpm else -clockOffsetPpm) * 0.000001
    ensures n as real < 2.0 + 256.0 * (if clockOffsetPpm >= 0.0 then clockOffsetPpm else -clockOffsetPpm) * 0.000001
  {
    var perBlock := 256.0 * (if clockOffsetPpm >= 0.0 then clockOffsetPpm else -clockOffsetPpm) * 0.000001;
    -((-perBlock).Floor) + 1
  }
}
