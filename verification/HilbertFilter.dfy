/** FIR Hilbert transformer over a circular history of odd length, with the aligned delayed input. */
module Hilbert {
  import opened Masking
  import opened Signals

  /** The first k terms of the direct-form convolution at sample i. */
  function Convolution(c: seq<real>, x: seq<real>, i: int, k: nat): real
    requires k <= |c|
  {
    if k == 0 then 0.0
    else Convolution(c, x, i, k - 1) + c[k - 1] * At(x, i - (k - 1))
  }

  lemma ConvolutionNext(c: seq<real>, x: seq<real>, i: int, k: nat)
    requires k < |c|
    ensures Convolution(c, x, i, k + 1) == Convolution(c, x, i, k) + c[k] * At(x, i - k)
    ensures c[k] == 0.0 ==> Convolution(c, x, i, k + 1) == Convolution(c, x, i, k)
  {
  }

  /** The Hilbert output at sample i: the full convolution. */
  function HilbertOut(c: seq<real>, x: seq<real>, i: int): real {
    Convolution(c, x, i, |c|)
  }

  lemma {:induction false} ConvolutionOfImpulse(c: seq<real>, i: int, k: nat)
    requires k <= |c|
    ensures Convolution(c, [1.0], i, k) == if 0 <= i < k then c[i] else 0.0
  {
    if k > 0 {
      ConvolutionOfImpulse(c, i, k - 1);
      if i == k - 1 {
        assert At([1.0], i - (k - 1)) == 1.0;
      } else {
        assert At([1.0], i - (k - 1)) == 0.0;
      }
    }
  }

  /** The impulse response of the filter is its coefficients, the first and the last included, and nothing else. */
  lemma ImpulseResponse(c: seq<real>, i: int)
    ensures HilbertOut(c, [1.0], i) == At(c, i)
  {
    ConvolutionOfImpulse(c, i, |c|);
  }

  /** The filter is linear. */
  lemma {:induction false} ConvolutionIsLinear(c: seq<real>, x: seq<real>, y: seq<real>, z: seq<real>, a: real, b: real,
                                               i: int, k: nat)
    requires k <= |c| && forall p :: At(z, p) == a * At(x, p) + b * At(y, p)
    ensures Convolution(c, z, i, k) == a * Convolution(c, x, i, k) + b * Convolution(c, y, i, k)
  {
    if k > 0 {
      ConvolutionIsLinear(c, x, y, z, a, b, i, k - 1);
      var p := i - (k - 1);
      assert At(z, p) == a * At(x, p) + b * At(y, p);
      LinearTerm(c[k - 1], At(x, p), At(y, p), At(z, p), a, b);
    }
  }

  lemma LinearTerm(c: real, x: real, y: real, z: real, a: real, b: real)
    requires z == a * x + b * y
    ensures c * z == a * (c * x) + b * (c * y)
  {
  }

  /** And the same at every time: an input one sample later comes out one sample later. */
  lemma {:induction false} ConvolutionShifts(c: seq<real>, x: seq<real>, i: int, k: nat)
    requires k <= |c|
    ensures Convolution(c, [0.0] + x, i + 1, k) == Convolution(c, x, i, k)
  {
    if k > 0 {
      ConvolutionShifts(c, x, i, k - 1);
      assert At([0.0] + x, i + 1 - (k - 1)) == At(x, i - (k - 1));
    }
  }

  lemma {:induction false} ConvolutionStable(c: seq<real>, x: seq<real>, more: seq<real>, i: int, k: nat)
    requires k <= |c| && i < |x|
    ensures Convolution(c, x + more, i, k) == Convolution(c, x, i, k)
  {
    if k > 0 {
      ConvolutionStable(c, x, more, i, k - 1);
    }
  }

  /** `re` and `im` are the delayed input and the Hilbert output of x from sample n0 on. */
  ghost predicate AnalyticPair(c: seq<real>, d: int, x: seq<real>, n0: nat, re: seq<real>, im: seq<real>) {
    && |re| == |im| && n0 + |re| <= |x|
    && (forall j :: 0 <= j < |re| ==> re[j] == At(x, n0 + j - d))
    && (forall j :: 0 <= j < |im| ==> im[j] == HilbertOut(c, x, n0 + j))
  }

  lemma PairExtend(c: seq<real>, d: nat, x: seq<real>, v: real, n0: nat, re: seq<real>, im: seq<real>)
    requires AnalyticPair(c, d, x, n0, re, im) && n0 + |re| == |x|
    ensures AnalyticPair(c, d, x + [v], n0, re + [At(x + [v], |x| - d)], im + [HilbertOut(c, x + [v], |x|)])
  {
    var re', im' := re + [At(x + [v], |x| - d)], im + [HilbertOut(c, x + [v], |x|)];
    forall j | 0 <= j < |im'|
      ensures im'[j] == HilbertOut(c, x + [v], n0 + j)
    {
      if j < |im| {
        ConvolutionStable(c, x, [v], n0 + j, |c|);
      }
    }
  }

  /** The circular index of the sample k steps before sample n. */
  lemma BackIndex(n: nat, k: nat, length: nat)
    requires k < length
    ensures (Slot(n, length) + length - k) % length == Slot(n - k, length)
  {
    var q := n / length;
    assert n - k == (q - 1) * length + (n % length + length - k) by {
      assert (q - 1) * length == q * length - length;
    }
    ModDifference(n % length + length - k, n - k, length);
    ModUnique(n % length + length - k - (n - k), length, 1 - q, 0);
  }

  /** The ring's index expression for the sample k steps back. */
  method Back(writePos: nat, k: nat, length: nat, ghost n: nat) returns (idx: nat)
    requires k < length && writePos == Slot(n, length)
    ensures idx == Slot(n - k, length)
  {
    BackIndex(n, k, length);
    idx := (writePos + length - k) % length;
  }

  lemma NextIndex(n: nat, length: nat)
    requires length > 1
    ensures (Slot(n, length) + 1) % length == Slot(n + 1, length)
  {
    var q := n / length;
    ModDifference(n % length + 1, n + 1, length);
    ModUnique(n % length + 1 - (n + 1), length, -q, 0);
  }

  class HilbertFilter {
    const length: nat
    const groupDelay: nat
    const coeffs: seq<real>
    const history: array<real>
    var writePos: nat

    /** All inputs since the last reset. */
    ghost var fed: seq<real>

    ghost predicate Valid()
      reads this, history
    {
      && length >= 3 && length % 2 == 1 && groupDelay == (length - 1) / 2
      && |coeffs| == length == history.Length
      && writePos == Slot(|fed|, length)
      && Window(history[..], |fed| - length, |fed|, Stream(fed))
    }

    /** The design step rejects an even or too short length; the taps themselves are arbitrary here. */
    constructor (coeffs: seq<real>)
      requires |coeffs| >= 3 && |coeffs| % 2 == 1
      ensures Valid() && fresh(history) && fed == [] && this.coeffs == coeffs
    {
      length := |coeffs|;
      groupDelay := (|coeffs| - 1) / 2;
      this.coeffs := coeffs;
      history := new real[|coeffs|](i => 0.0);
      writePos := 0;
      fed := [];
    }

    method Reset()
      requires Valid()
      modifies this`writePos, this`fed, history
      ensures Valid() && fed == []
    {
      forall i | 0 <= i < history.Length {
        history[i] := 0.0;
      }
      writePos := 0;
      fed := [];
    }

    /** Store the current input over the oldest one. */
    method Store(v: real)
      requires Valid()
      modifies history
      ensures writePos == Slot(|fed|, length)
      ensures Window(history[..], |fed| + 1 - length, |fed| + 1, Stream(fed + [v]))
    {
      ghost var x, h, n := Stream(fed + [v]), history[..], |fed|;
      assert Window(h, n - length, n, x) by {
        forall p | n - length <= p < n
          ensures x(p) == Stream(fed)(p)
        {
        }
      }
      WindowSlide(h, n - length, x);
      SlotWraps(n - length, length);
      history[writePos] := v;
      assert history[..] == h[Slot(n, length) := x(n)];
    }

    /** The input k samples back, found in the ring. */
    method Tap(k: nat, ghost x: seq<real>) returns (v: real)
      requires length == history.Length && k < length
      requires x != [] && writePos == Slot(|x| - 1, length)
      requires Window(history[..], |x| - length, |x|, Stream(x))
      ensures v == At(x, |x| - 1 - k)
    {
      var idx := Back(writePos, k, length, |x| - 1);
      assert history[..][idx] == Stream(x)(|x| - 1 - k);
      v := history[idx];
    }

    /** The inner product over the ring equals the direct convolution; zero taps are skipped. */
    method Convolve(ghost x: seq<real>) returns (acc: real)
      requires |coeffs| == length == history.Length && length >= 3
      requires x != [] && writePos == Slot(|x| - 1, length)
      requires Window(history[..], |x| - length, |x|, Stream(x))
      ensures acc == HilbertOut(coeffs, x, |x| - 1)
    {
      acc := 0.0;
      var k := 0;
      while k < length
        invariant k <= length && acc == Convolution(coeffs, x, |x| - 1, k)
      {
        if coeffs[k] != 0.0 {
          var v := Tap(k, x);
          acc := acc + coeffs[k] * v;
        }
        ConvolutionNext(coeffs, x, |x| - 1, k);
        k := k + 1;
      }
    }

    /** Whatever the chunking, output number i of the stream is the direct convolution, paired with
        the input delayed by the group delay. */
    method Process(input: seq<real>, delayedReal: array<real>, hilbertOut: array<real>)
      requires Valid() && |input| <= delayedReal.Length && |input| <= hilbertOut.Length
      requires delayedReal != history && hilbertOut != history && delayedReal != hilbertOut
      modifies this`writePos, this`fed, history, delayedReal, hilbertOut
      ensures Valid() && fed == old(fed) + input
      ensures AnalyticPair(coeffs, groupDelay, fed, |old(fed)|, delayedReal[..|input|], hilbertOut[..|input|])
    {
      ghost var x0 := fed;
      var i := 0;
      assert input[..0] == [];
      while i < |input|
        invariant i <= |input| && Valid() && fed == x0 + input[..i]
        invariant AnalyticPair(coeffs, groupDelay, fed, |x0|, delayedReal[..i], hilbertOut[..i])
      {
        PairExtend(coeffs, groupDelay, fed, input[i], |x0|, delayedReal[..i], hilbertOut[..i]);
        assert input[..i + 1] == input[..i] + [input[i]];
        ghost var res, ims := delayedReal[..i], hilbertOut[..i];
        var re, im := Step(input[i]);
        delayedReal[i] := re;
        hilbertOut[i] := im;
        assert delayedReal[..i + 1] == res + [re] && hilbertOut[..i + 1] == ims + [im];
        i := i + 1;
      }
      assert input[..i] == input;
    }

    /** One pass of the sample loop. */
    method Step(v: real) returns (re: real, im: real)
      requires Valid()
      modifies this`writePos, this`fed, history
      ensures Valid() && fed == old(fed) + [v]
      ensures im == HilbertOut(coeffs, fed, |old(fed)|)
      ensures re == At(fed, |old(fed)| - groupDelay)
    {
      ghost var x := fed + [v];
      Store(v);
      im := Convolve(x);
      re := Tap(groupDelay, x);
      NextIndex(|fed|, length);
      writePos := (writePos + 1) % length;
      fed := x;
    }
  }
}
