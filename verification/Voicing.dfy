/** What a fixed tap list does to a resampled message: the reference definition of multipath. */
module Voicings {
  import opened Signals
  import opened Hilbert

  /** A resolved tap: integer delay and the two parts of its complex gain. */
  datatype ResolvedTap = ResolvedTap(delta: nat, gain: real, gainImag: real)

  datatype Complex = Complex(re: real, im: real) {
    function Times(z: Complex): Complex {
      Complex(re * z.re - im * z.im, re * z.im + im * z.re)
    }
  }

  lemma TimesMultipliesModulus(z: Complex, w: Complex)
    ensures var p := z.Times(w);
      p.re * p.re + p.im * p.im == (z.re * z.re + z.im * z.im) * (w.re * w.re + w.im * w.im)
    ensures z.Times(w) == w.Times(z) && z.Times(Complex(1.0, 0.0)) == z
  {
  }

  /** The taps of one static channel and the analytic-pair filter they share. */
  datatype Voicing = Voicing(taps: seq<ResolvedTap>, needsHilbert: bool, coeffs: seq<real>, groupDelay: nat) {

    /** Sample i of the message y as heard through tap k alone, before its delay. */
    ghost function Voice(k: nat, y: seq<real>, i: int): real
      requires k < |taps|
    {
      if !(0 <= i < |y|) then 0.0
      else if !needsHilbert then y[i] * taps[k].gain
      else At(y, i - groupDelay) * taps[k].gain - HilbertOut(coeffs, y, i) * taps[k].gainImag
    }

    /** Receiver sample j of the message through the first n taps. */
    ghost function Mix(y: seq<real>, j: int, n: nat): real
      requires n <= |taps|
    {
      if n == 0 then 0.0
      else Mix(y, j, n - 1) + Voice(n - 1, y, j - taps[n - 1].delta)
    }

    ghost predicate DelaysWithin(maxDelta: nat) {
      forall k :: 0 <= k < |taps| ==> taps[k].delta <= maxDelta
    }

    /** A complex tap multiplies the analytic signal, the delayed message with its Hilbert transform as imaginary
        part, by its gain, and what is heard is the real part. */
    lemma VoiceIsRealPart(k: nat, y: seq<real>, i: nat)
      requires k < |taps| && i < |y| && needsHilbert
      ensures Voice(k, y, i) ==
        Complex(taps[k].gain, taps[k].gainImag).Times(Complex(At(y, i - groupDelay), HilbertOut(coeffs, y, i))).re
    {
    }

    lemma VoiceStable(k: nat, y: seq<real>, more: seq<real>, i: int)
      requires k < |taps| && i < |y|
      ensures Voice(k, y + more, i) == Voice(k, y, i)
    {
      if needsHilbert && 0 <= i {
        ConvolutionStable(coeffs, y, more, i, |coeffs|);
      }
    }

    /** Feeding more of the message adds, per tap, exactly the new samples. */
    lemma VoiceExtend(k: nat, y: seq<real>, more: seq<real>, block: seq<real>, i: int)
      requires k < |taps| && |block| == |more|
      requires forall m :: 0 <= m < |more| ==> block[m] == Voice(k, y + more, |y| + m)
      ensures Voice(k, y + more, i) == Voice(k, y, i) + At(block, i - |y|)
    {
      if i < |y| {
        VoiceStable(k, y, more, i);
      } else if i < |y| + |more| {
        assert block[i - |y|] == Voice(k, y + more, |y| + (i - |y|));
      }
    }

    lemma {:induction false} MixOfNothing(j: int, n: nat)
      requires n <= |taps|
      ensures Mix([], j, n) == 0.0
    {
      if n > 0 {
        MixOfNothing(j, n - 1);
      }
    }

    /** Past the longest tap's tail, and before the message, there is silence. */
    lemma {:induction false} MixSilentOutside(y: seq<real>, j: int, n: nat, maxDelta: nat)
      requires n <= |taps| && DelaysWithin(maxDelta)
      requires j < 0 || j >= |y| + maxDelta
      ensures Mix(y, j, n) == 0.0
    {
      if n > 0 {
        MixSilentOutside(y, j, n - 1, maxDelta);
      }
    }
  }

  /** The stream carries the message y, through the first n taps, on top of what was there before;
      the remaining taps still carry only the shorter message y0. */
  ghost predicate Carries(stream: Signal, base: Signal, v: Voicing, origin: int, y0: seq<real>, y: seq<real>, n: nat)
    requires n <= |v.taps|
  {
    forall p :: stream(p) ==
      base(p) + v.Mix(y, p - origin, n) + (v.Mix(y0, p - origin, |v.taps|) - v.Mix(y0, p - origin, n))
  }

  /** Scattering tap n's block moves the boundary by one tap. */
  lemma CarriesNext(stream: Signal, base: Signal, v: Voicing, origin: int, y0: seq<real>, more: seq<real>,
                    n: nat, block: seq<real>)
    requires n < |v.taps| && |block| == |more|
    requires Carries(stream, base, v, origin, y0, y0 + more, n)
    requires forall m :: 0 <= m < |more| ==> block[m] == v.Voice(n, y0 + more, |y0| + m)
    ensures Carries(AddBlock(stream, origin + |y0| + v.taps[n].delta, block), base, v, origin, y0, y0 + more, n + 1)
  {
    var d := v.taps[n].delta;
    var start := origin + |y0| + d;
    var stream' := AddBlock(stream, start, block);
    forall p
      ensures stream'(p) == base(p) + v.Mix(y0 + more, p - origin, n + 1)
        + (v.Mix(y0, p - origin, |v.taps|) - v.Mix(y0, p - origin, n + 1))
    {
      v.VoiceExtend(n, y0, more, block, p - origin - d);
      assert p - start == p - origin - d - |y0|;
      assert stream'(p) == stream(p) + At(block, p - start);
    }
  }

  lemma CarriesStart(stream: Signal, base: Signal, v: Voicing, origin: int, y0: seq<real>, y: seq<real>)
    requires Carries(stream, base, v, origin, y0, y0, |v.taps|)
    ensures Carries(stream, base, v, origin, y0, y, 0)
  {
  }

  lemma CarriesDone(stream: Signal, base: Signal, v: Voicing, origin: int, y0: seq<real>, y: seq<real>)
    requires Carries(stream, base, v, origin, y0, y, |v.taps|)
    ensures Carries(stream, base, v, origin, y, y, |v.taps|)
  {
  }
}
