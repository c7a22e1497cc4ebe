/** The write-style renderer: bulk Farrow resampling, then one integer-offset scatter per tap. */
module StaticRenderers {
  import opened Basics
  import opened Signals
  import opened Voicings
  import opened Farrow
  import opened Hilbert
  import opened PairBuffers

  const FARROW_DRAIN_ZEROS: nat := 4

  /** An empty tap list means the direct path; one complex tap switches the whole channel to the
      analytic pair. */
  method ResolveTaps(taps: seq<ResolvedTap>, channelGain: real)
    returns (resolved: seq<ResolvedTap>, needsHilbert: bool, maxTapDelta: nat)
    ensures resolved == if taps == [] then [ResolvedTap(0, channelGain, 0.0)] else taps
    ensures needsHilbert <==> exists k :: 0 <= k < |resolved| && resolved[k].gainImag != 0.0
    ensures forall k :: 0 <= k < |resolved| ==> resolved[k].delta <= maxTapDelta
    ensures exists k :: 0 <= k < |resolved| && resolved[k].delta == maxTapDelta
  {
    resolved := if taps == [] then [ResolvedTap(0, channelGain, 0.0)] else taps;
    needsHilbert, maxTapDelta := false, resolved[0].delta;
    var k := 0;
    while k < |resolved|
      invariant k <= |resolved|
      invariant needsHilbert <==> exists j :: 0 <= j < k && resolved[j].gainImag != 0.0
      invariant forall j :: 0 <= j < k ==> resolved[j].delta <= maxTapDelta
      invariant exists j :: 0 <= j < |resolved| && resolved[j].delta == maxTapDelta
    {
      if resolved[k].gainImag != 0.0 {
        needsHilbert := true;
      }
      if resolved[k].delta > maxTapDelta {
        maxTapDelta := resolved[k].delta;
      }
      k := k + 1;
    }
  }

  lemma Joined(fed0: seq<real>, samples: seq<real>, from: nat, consumed: nat)
    requires from + consumed <= |samples|
    ensures fed0 + samples[..from] + samples[from..][..consumed] == fed0 + samples[..from + consumed]
  {
    assert samples[..from] + samples[from..][..consumed] == samples[..from + consumed];
  }

  class StaticRenderer {
    const voicing: Voicing
    const maxTapDelta: nat
    const baseDelay: nat
    const ratio: real
    const resampler: FarrowResampler
    const hilbert: HilbertFilter
    const resampleBuf: array<real>
    const gainedBuf: array<real>
    const hilbertBuf: array<real>
    const delayedRealBuf: array<real>
    var processed: nat

    /** The Farrow outputs of the current message so far. */
    ghost var y: seq<real>

    ghost function Footprint(): set<object>
      reads this
    {
      {this, resampler, resampler.history, hilbert, hilbert.history,
       resampleBuf, gainedBuf, hilbertBuf, delayedRealBuf}
    }

    ghost predicate Distinct()
      reads this
    {
      && resampler.history != resampleBuf && resampler.history != gainedBuf
      && resampler.history != hilbertBuf && resampler.history != delayedRealBuf
      && hilbert.history != resampleBuf && hilbert.history != gainedBuf
      && hilbert.history != hilbertBuf && hilbert.history != delayedRealBuf
      && resampler.history != hilbert.history
      && resampleBuf != gainedBuf && resampleBuf != hilbertBuf && resampleBuf != delayedRealBuf
      && gainedBuf != hilbertBuf && gainedBuf != delayedRealBuf && hilbertBuf != delayedRealBuf
    }

    /** The fixed wiring: sizes and parameters settled at construction. */
    ghost predicate Wired()
      reads this
    {
      && Distinct()
      && ratio > 0.0
      && voicing.taps != [] && voicing.DelaysWithin(maxTapDelta)
      && voicing.coeffs == hilbert.coeffs && voicing.groupDelay == hilbert.groupDelay
      && (voicing.needsHilbert || forall k :: 0 <= k < |voicing.taps| ==> voicing.taps[k].gainImag == 0.0)
      && resampleBuf.Length == gainedBuf.Length == hilbertBuf.Length == delayedRealBuf.Length == BLOCK
    }

    ghost predicate Valid()
      reads Footprint()
    {
      && Wired()
      && resampler.Valid() && hilbert.Valid()
      && resampler.step == ratio
      && processed == |y|
      && resampler.Phase() == Steps(0.0, ratio, processed)
      && Outputs(resampler.fed, 0.0, ratio, y)
      && (processed > 0 ==> Steps(0.0, ratio, processed) - ratio < |resampler.fed| as real + 1.0)
      && (voicing.needsHilbert ==> hilbert.fed == y)
    }

    /** The buffer carries this message so far on top of `base`, unless something was dropped; and
        nothing past what has been rendered is published. */
    ghost predicate Rendering(pb: PairBuffer, base: Signal, drops: nat)
      reads this, pb
    {
      && pb.watermark <= pb.origin + processed
      && (processed > 0 ==> pb.watermark == pb.origin + processed)
      && drops <= pb.overflowDrops
      && (pb.overflowDrops == drops ==> Carries(pb.stream, base, voicing, pb.origin, y, y, |voicing.taps|))
    }

    ghost predicate Apart(pb: PairBuffer)
      reads this
    {
      pb !in Footprint() && pb.buffer !in Footprint()
    }

    /** An empty tap list means the direct path. */
    constructor (taps: seq<ResolvedTap>, channelGain: real, baseDelay: nat, ratio: real, coeffs: seq<real>)
      requires ratio > 0.0
      requires |coeffs| >= 3 && |coeffs| % 2 == 1
      ensures Valid()
      ensures fresh(resampler) && fresh(resampler.history) && fresh(hilbert) && fresh(hilbert.history)
      ensures fresh(resampleBuf) && fresh(gainedBuf) && fresh(hilbertBuf) && fresh(delayedRealBuf)
      ensures this.ratio == ratio && this.baseDelay == baseDelay && processed == 0
      ensures voicing.taps == if taps == [] then [ResolvedTap(0, channelGain, 0.0)] else taps
      ensures voicing.needsHilbert <==> exists k :: 0 <= k < |voicing.taps| && voicing.taps[k].gainImag != 0.0
      ensures exists k :: 0 <= k < |voicing.taps| && voicing.taps[k].delta == maxTapDelta
    {
      var resolved, needs, longest := ResolveTaps(taps, channelGain);
      var farrow := new FarrowResampler();
      var filter := new HilbertFilter(coeffs);
      var ok := farrow.SetRatio(ratio);
      resampler, hilbert := farrow, filter;
      voicing := Voicing(resolved, needs, coeffs, filter.groupDelay);
      maxTapDelta := longest;
      this.baseDelay, this.ratio := baseDelay, ratio;
      resampleBuf := new real[BLOCK](i => 0.0);
      gainedBuf := new real[BLOCK](i => 0.0);
      hilbertBuf := new real[BLOCK](i => 0.0);
      delayedRealBuf := new real[BLOCK](i => 0.0);
      processed, y := 0, [];
    }

    method OnMessageStart()
      requires Valid()
      modifies resampler, resampler.history, hilbert, hilbert.history, this`processed, this`y
      ensures Valid() && processed == 0 && resampler.fed == []
    {
      resampler.Reset();
      if voicing.needsHilbert {
        hilbert.Reset();
      }
      processed, y := 0, [];
      var ok := resampler.SetRatio(ratio);
    }

    /** Fill the gain scratch for one tap from the block just resampled. */
    method ApplyGain(k: nat, n: nat, ghost y0: seq<real>)
      requires Wired() && k < |voicing.taps| && n <= BLOCK
      requires Loaded(n, y0)
      modifies gainedBuf
      ensures forall m :: 0 <= m < n ==> gainedBuf[..n][m] == voicing.Voice(k, y, |y0| + m)
    {
      var tap := voicing.taps[k];
      var i := 0;
      while i < n
        invariant i <= n
        invariant forall m :: 0 <= m < i ==> gainedBuf[m] == voicing.Voice(k, y, |y0| + m)
      {
        if !voicing.needsHilbert {
          assert y[|y0| + i] == resampleBuf[..n][i];
          gainedBuf[i] := resampleBuf[i] * tap.gain;
        } else {
          assert delayedRealBuf[i] == delayedRealBuf[..n][i] && hilbertBuf[i] == hilbertBuf[..n][i];
          gainedBuf[i] := delayedRealBuf[i] * tap.gain - hilbertBuf[i] * tap.gainImag;
        }
        i := i + 1;
      }
    }

    /** The block just resampled, and its analytic pair when one is needed, sit in the scratch. */
    ghost predicate Loaded(n: nat, y0: seq<real>)
      requires Wired() && n <= BLOCK
      reads this, resampler, hilbert, resampleBuf, delayedRealBuf, hilbertBuf
    {
      && y == y0 + resampleBuf[..n] && processed == |y0|
      && (voicing.needsHilbert ==>
            AnalyticPair(voicing.coeffs, voicing.groupDelay, y, |y0|, delayedRealBuf[..n], hilbertBuf[..n]))
    }

    /** Scatter one block of Farrow output through every tap. */
    method ScatterTaps(n: nat, pb: PairBuffer, ghost y0: seq<real>, ghost base: Signal, ghost drops: nat)
      requires Wired() && Apart(pb) && pb.Valid() && hilbert.Valid() && n <= BLOCK
      requires y == y0 + resampleBuf[..n] && processed == |y0|
      requires voicing.needsHilbert ==> hilbert.fed == y0
      requires pb.watermark <= pb.origin + |y0| && drops <= pb.overflowDrops
      requires pb.overflowDrops == drops ==> Carries(pb.stream, base, voicing, pb.origin, y0, y0, |voicing.taps|)
      modifies gainedBuf, hilbertBuf, delayedRealBuf, hilbert`writePos, hilbert`fed, hilbert.history,
               pb`overflowDrops, pb`stream, pb.buffer
      ensures pb.Valid() && hilbert.Valid()
      ensures voicing.needsHilbert ==> hilbert.fed == y
      ensures pb.overflowDrops == drops ==> Carries(pb.stream, base, voicing, pb.origin, y, y, |voicing.taps|)
      ensures pb.Since(old(pb.Now()), pb.origin + |y| + maxTapDelta)
    {
      if voicing.needsHilbert {
        hilbert.Process(resampleBuf[..n], delayedRealBuf, hilbertBuf);
      }
      if pb.overflowDrops == drops {
        CarriesStart(pb.stream, base, voicing, pb.origin, y0, y);
      }
      ScatterLoop(n, pb, y0, base, drops);
      if pb.overflowDrops == drops {
        CarriesDone(pb.stream, base, voicing, pb.origin, y0, y);
      }
    }

    /** The per-tap loop of ScatterTaps. */
    method ScatterLoop(n: nat, pb: PairBuffer, ghost y0: seq<real>, ghost base: Signal, ghost drops: nat)
      requires Wired() && Apart(pb) && pb.Valid() && n <= BLOCK && Loaded(n, y0)
      requires pb.watermark <= pb.origin + |y0| && drops <= pb.overflowDrops
      requires pb.overflowDrops == drops ==> Carries(pb.stream, base, voicing, pb.origin, y0, y, 0)
      modifies gainedBuf, pb`overflowDrops, pb`stream, pb.buffer
      ensures pb.Valid()
      ensures pb.overflowDrops == drops ==> Carries(pb.stream, base, voicing, pb.origin, y0, y, |voicing.taps|)
      ensures pb.Since(old(pb.Now()), pb.origin + |y| + maxTapDelta)
    {
      ghost var was := pb.Now();
      var k := 0;
      while k < |voicing.taps|
        invariant k <= |voicing.taps| && pb.Valid() && Loaded(n, y0)
        invariant pb.overflowDrops == drops ==> Carries(pb.stream, base, voicing, pb.origin, y0, y, k)
        invariant pb.Since(was, pb.origin + |y| + maxTapDelta)
      {
        ApplyGain(k, n, y0);
        ScatterOneTap(k, n, pb, y0, base, drops);
        k := k + 1;
      }
    }

    method ScatterOneTap(k: nat, n: nat, pb: PairBuffer, ghost y0: seq<real>, ghost base: Signal, ghost drops: nat)
      requires Wired() && Apart(pb) && pb.Valid() && k < |voicing.taps| && n <= BLOCK
      requires y == y0 + resampleBuf[..n] && processed == |y0|
      requires forall m :: 0 <= m < n ==> gainedBuf[..n][m] == voicing.Voice(k, y, |y0| + m)
      requires pb.watermark <= pb.origin + |y0| && drops <= pb.overflowDrops
      requires pb.overflowDrops == drops ==> Carries(pb.stream, base, voicing, pb.origin, y0, y, k)
      modifies pb`overflowDrops, pb`stream, pb.buffer
      ensures pb.Valid()
      ensures pb.overflowDrops == drops ==> Carries(pb.stream, base, voicing, pb.origin, y0, y, k + 1)
      ensures pb.Since(old(pb.Now()), pb.origin + |y| + maxTapDelta)
    {
      ghost var block, x := gainedBuf[..n], pb.stream;
      pb.ScatterAdd(processed + voicing.taps[k].delta, gainedBuf[..n]);
      if pb.overflowDrops == drops {
        assert block[..n] == block;
        CarriesNext(x, base, voicing, pb.origin, y0, resampleBuf[..n], k, block);
      }
    }

    /** Resample one batch into the scratch; the message's outputs extend seamlessly. */
    method Resample(input: seq<real>) returns (produced: nat, consumed: nat)
      requires Valid()
      modifies resampler`mu, resampler`fed, resampler.history, resampleBuf
      ensures resampler.Valid() && produced <= BLOCK && consumed <= |input|
      ensures resampler.fed == old(resampler.fed) + input[..consumed]
      ensures resampler.Phase() == Steps(0.0, ratio, |y| + produced)
      ensures Outputs(resampler.fed, 0.0, ratio, y + resampleBuf[..produced])
      ensures |y| + produced > 0 ==> Steps(0.0, ratio, |y| + produced) - ratio < |resampler.fed| as real + 1.0
      ensures produced < BLOCK ==> consumed == |input| && resampler.mu >= 1.0
      ensures produced == BLOCK ==> Steps(0.0, ratio, |y| + produced) - ratio >= |resampler.fed| as real
    {
      ghost var fed0 := resampler.fed;
      produced, consumed := resampler.Process(input, resampleBuf, BLOCK);
      OutputsStable(fed0, input[..consumed], 0.0, ratio, y);
      OutputsConcat(resampler.fed, 0.0, ratio, y, resampleBuf[..produced]);
      StepsFrom(0.0, ratio, |y|, produced);
    }

    /** One pass of the batch loop: resample into the scratch, scatter, publish. */
    method RenderBatch(input: seq<real>, pb: PairBuffer, ghost base: Signal, ghost drops: nat)
      returns (produced: nat, consumed: nat)
      requires Valid() && Apart(pb) && pb.Valid() && Rendering(pb, base, drops)
      modifies Footprint(), pb`overflowDrops, pb`stream, pb`watermark, pb.buffer
      ensures Valid() && pb.Valid() && Rendering(pb, base, drops)
      ensures consumed <= |input| && resampler.fed == old(resampler.fed) + input[..consumed]
      ensures processed == old(processed) + produced && old(y) <= y
      ensures produced <= BLOCK
      ensures produced < BLOCK ==> consumed == |input| && resampler.mu >= 1.0
      ensures produced == BLOCK ==> Steps(0.0, ratio, processed) - ratio >= |resampler.fed| as real
      ensures pb.Since(old(pb.Now()), pb.origin + processed + maxTapDelta)
    {
      produced, consumed := Resample(input);
      if produced > 0 {
        Publish(produced, pb, base, drops);
      } else {
        assert y + resampleBuf[..produced] == y;
      }
    }

    /** Scatter the batch in the scratch and move the watermark past it. */
    method Publish(produced: nat, pb: PairBuffer, ghost base: Signal, ghost drops: nat)
      requires Wired() && Apart(pb) && pb.Valid() && hilbert.Valid() && Rendering(pb, base, drops)
      requires 0 < produced <= BLOCK && processed == |y| && (voicing.needsHilbert ==> hilbert.fed == y)
      modifies this`y, this`processed, gainedBuf, hilbertBuf, delayedRealBuf, hilbert`writePos, hilbert`fed,
               hilbert.history, pb`overflowDrops, pb`stream, pb`watermark, pb.buffer
      ensures pb.Valid() && hilbert.Valid() && Rendering(pb, base, drops)
      ensures y == old(y) + old(resampleBuf[..produced]) && processed == |y|
      ensures voicing.needsHilbert ==> hilbert.fed == y
      ensures pb.Since(old(pb.Now()), pb.origin + processed + maxTapDelta)
    {
      ghost var y0 := y;
      y := y0 + resampleBuf[..produced];
      ScatterTaps(produced, pb, y0, base, drops);
      processed := processed + produced;
      pb.CommitSourceProgress(processed);
    }

    lemma ProcessedBound(limit: nat, inputs: nat)
      requires Valid() && |resampler.fed| <= inputs
      requires Steps(0.0, ratio, limit) >= inputs as real + 1.0
      ensures processed <= limit
    {
      if processed > 0 {
        StepsBound(ratio, processed, limit);
      }
    }

    /** One pass of the batch loop from sample `from` of the run: render a batch, move past what it
        took, and say whether it was a full one. A pass without any progress is a short batch. */
    method Advance(samples: seq<real>, from: nat, pb: PairBuffer, ghost base: Signal, ghost drops: nat,
                   ghost fed0: seq<real>, ghost p: nat, ghost n: nat, ghost limit: nat)
      returns (to: nat, more: bool)
      requires Valid() && Apart(pb) && pb.Valid() && Rendering(pb, base, drops)
      requires from < |samples| && Underway(samples, from, fed0, p, n, true)
      requires Steps(0.0, ratio, limit) >= (|fed0| + |samples|) as real + 1.0
      modifies Footprint(), pb`overflowDrops, pb`stream, pb`watermark, pb.buffer
      ensures Valid() && pb.Valid() && Rendering(pb, base, drops)
      ensures Underway(samples, to, fed0, p, n + 1, more) && old(y) <= y
      ensures processed <= limit && (more ==> processed > old(processed))
      ensures pb.Since(old(pb.Now()), pb.origin + processed + maxTapDelta)
    {
      NotYetUsed(p, n, |fed0| + |samples|);
      var produced, consumed := RenderBatch(samples[from..], pb, base, drops);
      to, more := from + consumed, produced == BLOCK;
      Joined(fed0, samples, from, consumed);
      ProcessedBound(limit, |fed0| + |samples|);
    }

    /** Before another pass the last full batch had not used the last input. */
    lemma NotYetUsed(p: nat, n: nat, fed: nat)
      requires Valid() && processed == p + BLOCK * n && |resampler.fed| < fed
      ensures n > 0 ==> Steps(0.0, ratio, p + BLOCK * n) - ratio < fed as real
    {
    }

    /** The last batch was full and ended at output n: the last output used all input consumed. */
    ghost predicate FullTo(n: nat)
      reads this, resampler
    {
      processed == n && Steps(0.0, ratio, n) - ratio >= |resampler.fed| as real
    }

    /** Where the batch loop stands after n passes. */
    ghost predicate Underway(samples: seq<real>, total: nat, fed0: seq<real>, p: nat, n: nat, more: bool)
      reads this, resampler
    {
      && total <= |samples| && resampler.fed == fed0 + samples[..total]
      && (if more then processed == p + BLOCK * n else total == |samples|)
      && (if n == 0 then total == 0 && more else Passed(p, n, |fed0| + |samples|))
    }

    /** After n passes from output p over inputs up to `fed`: all but the last were full, and none of those
        had used the last input. */
    ghost predicate Passed(p: nat, n: nat, fed: nat)
      reads this, resampler
    {
      && n > 0 && processed <= p + BLOCK * n
      && (n > 1 ==> Steps(0.0, ratio, p + BLOCK * (n - 1)) - ratio < fed as real)
      && (resampler.mu >= 1.0 || FullTo(p + BLOCK * n))
    }

    /** A call that used its last input leaves outputs due exactly when one of its full batches is cut short. */
    lemma StalledUnlessCut(p: nat, n: nat)
      requires Valid() && Passed(p, n, |resampler.fed|)
      ensures Stalled(resampler.fed, ratio, processed) <==> !Cut(ratio, p, |resampler.fed|)
    {
      if processed > 0 {
        StepsNext(0.0, ratio, processed - 1);
      }
      if resampler.mu < 1.0 {
        assert CutShort(ratio, p, |resampler.fed|, n);
      } else {
        forall j: nat
          ensures !CutShort(ratio, p, |resampler.fed|, j)
        {
          NotCut(p, n, j);
        }
      }
    }

    lemma NotCut(p: nat, n: nat, j: nat)
      requires Valid() && Passed(p, n, |resampler.fed|) && resampler.mu >= 1.0
      ensures !CutShort(ratio, p, |resampler.fed|, j)
    {
      if j >= n {
        StepsMonotone(0.0, ratio, processed, p + BLOCK * j);
      } else if j >= 1 {
        StepsMonotone(0.0, ratio, p + BLOCK * j - 1, p + BLOCK * (n - 1) - 1);
        StepsNext(0.0, ratio, p + BLOCK * (n - 1) - 1);
      }
    }

    /** Render a run of source samples. Every input is consumed, whatever the ratio, and the buffer
        carries the message rendered so far. The run ends exhausted exactly when no full batch cuts it short. */
    method Process(samples: seq<real>, pb: PairBuffer, ghost base: Signal, ghost drops: nat) returns (total: nat)
      requires Valid() && Apart(pb) && pb.Valid() && Rendering(pb, base, drops)
      modifies Footprint(), pb`overflowDrops, pb`stream, pb`watermark, pb.buffer
      ensures Valid() && pb.Valid() && Rendering(pb, base, drops)
      ensures total == |samples| && resampler.fed == old(resampler.fed) + samples
      ensures old(y) <= y
      ensures samples != [] ==>
        (Stalled(resampler.fed, ratio, processed) <==> !Cut(ratio, old(processed), |resampler.fed|))
      ensures pb.Since(old(pb.Now()), pb.origin + processed + maxTapDelta)
    {
      ghost var limit := Archimedes((|resampler.fed| + |samples|) as real + 1.0, ratio);
      ProcessedBound(limit, |resampler.fed| + |samples|);
      ghost var p, n := processed, 0;
      total, n := RenderAll(samples, pb, base, drops, resampler.fed, limit);
      assert samples[..total] == samples;
      if samples != [] {
        StalledUnlessCut(p, n);
      }
    }

    /** The batch loop of Process. */
    method RenderAll(samples: seq<real>, pb: PairBuffer, ghost base: Signal, ghost drops: nat,
                     ghost fed0: seq<real>, ghost limit: nat)
      returns (total: nat, ghost n: nat)
      requires Valid() && Apart(pb) && pb.Valid() && Rendering(pb, base, drops)
      requires resampler.fed == fed0 && processed <= limit
      requires Steps(0.0, ratio, limit) >= (|fed0| + |samples|) as real + 1.0
      modifies Footprint(), pb`overflowDrops, pb`stream, pb`watermark, pb.buffer
      ensures Valid() && pb.Valid() && Rendering(pb, base, drops)
      ensures total == |samples| && resampler.fed == fed0 + samples[..total] && old(y) <= y
      ensures samples != [] ==> Passed(old(processed), n, |fed0| + |samples|)
      ensures pb.Since(old(pb.Now()), pb.origin + processed + maxTapDelta)
    {
      total, n := 0, 0;
      var more := true;
      ghost var was, y0, p := pb.Now(), y, processed;
      assert fed0 + samples[..0] == fed0;
      while total < |samples| && more
        invariant Valid() && pb.Valid() && Rendering(pb, base, drops)
        invariant Underway(samples, total, fed0, p, n, more) && y0 <= y && processed <= limit
        invariant pb.Since(was, pb.origin + processed + maxTapDelta)
        decreases limit - processed, more
      {
        total, more := Advance(samples, total, pb, base, drops, fed0, p, n, limit);
        n := n + 1;
      }
    }

    /** How many zeros flush the filter histories at message end. */
    function DrainLength(): nat {
      if voicing.needsHilbert then (if FARROW_DRAIN_ZEROS >= hilbert.groupDelay then FARROW_DRAIN_ZEROS else hilbert.groupDelay)
      else FARROW_DRAIN_ZEROS
    }

    /** Drain the filters with zeros. */
    method Flush(pb: PairBuffer, ghost base: Signal, ghost drops: nat)
      requires Valid() && Apart(pb) && pb.Valid() && Rendering(pb, base, drops)
      modifies Footprint(), pb`overflowDrops, pb`stream, pb`watermark, pb.buffer
      ensures Valid() && pb.Valid() && Rendering(pb, base, drops) && processed > 0
      ensures resampler.fed == old(resampler.fed) + Zeros(DrainLength())
      ensures Stalled(resampler.fed, ratio, processed) <==> !Cut(ratio, old(processed), |resampler.fed|)
      ensures pb.Since(old(pb.Now()), pb.origin + processed + maxTapDelta)
    {
      var total := Process(Zeros(DrainLength()), pb, base, drops);
      assert processed == 0 ==> Steps(0.0, ratio, processed) == 0.0;
    }

    /** Drain the filters and expose the multipath tail. The message is complete exactly when the drain is
        not cut short, which a drain of at most 256 ratios less one never is. */
    method OnMessageEnd(pb: PairBuffer, ghost base: Signal, ghost drops: nat)
      requires Valid() && Apart(pb) && pb.Valid() && Rendering(pb, base, drops)
      modifies Footprint(), pb`overflowDrops, pb`stream, pb`watermark, pb.buffer
      ensures Valid() && pb.Valid() && drops <= pb.overflowDrops
      ensures pb.overflowDrops == drops ==> Carries(pb.stream, base, voicing, pb.origin, y, y, |voicing.taps|)
      ensures resampler.fed == old(resampler.fed) + Zeros(DrainLength())
      ensures processed > 0 && pb.watermark == pb.origin + processed + maxTapDelta
      ensures Stalled(resampler.fed, ratio, processed) <==> !Cut(ratio, old(processed), |resampler.fed|)
      ensures DrainLength() as real + 1.0 <= 256.0 * ratio ==> Stalled(resampler.fed, ratio, processed)
      ensures pb.Since(old(pb.Now()), pb.origin + processed + maxTapDelta)
    {
      if DrainLength() as real + 1.0 <= 256.0 * ratio {
        ShortCallNotCut(ratio, processed, |resampler.fed|, DrainLength());
      }
      Flush(pb, base, drops);
      pb.CommitExtra(maxTapDelta);
    }
  }
}
