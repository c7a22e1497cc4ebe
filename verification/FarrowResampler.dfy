/** Fractional sample-rate conversion with a four-sample history carried across calls. */
module Farrow {
  import opened Basics
  import opened Signals

  /** The resampled stream in closed form: the value at input-stream position `phase`, interpolated
      from the four inputs before it. */
  function FarrowOut(x: seq<real>, phase: real): real {
    var n := phase.Floor;
    Cubic(At(x, n - 4), At(x, n - 3), At(x, n - 2), At(x, n - 1), phase - n as real)
  }

  /** The position k steps past `p0`. */
  function Steps(p0: real, step: real, k: nat): real {
    p0 + k as real * step
  }

  lemma StepsNext(p0: real, step: real, k: nat)
    ensures Steps(p0, step, k + 1) == Steps(p0, step, k) + step
  {
    assert (k + 1) as real == k as real + 1.0;
  }

  lemma StepsFrom(p0: real, step: real, j: nat, k: nat)
    ensures Steps(Steps(p0, step, j), step, k) == Steps(p0, step, j + k)
  {
    assert (j + k) as real == j as real + k as real;
  }

  /** `ys` are consecutive outputs of the closed form from position `p0`, all of them determined by `x`. */
  ghost predicate Outputs(x: seq<real>, p0: real, step: real, ys: seq<real>) {
    forall k :: 0 <= k < |ys| ==>
      ys[k] == FarrowOut(x, Steps(p0, step, k)) && Steps(p0, step, k).Floor <= |x|
  }

  /** `history` holds the last four inputs of the stream, zeros standing in before its start. */
  ghost predicate Recent(history: seq<real>, fed: seq<real>) {
    |history| == 4 && forall j :: 0 <= j < 4 ==> history[j] == At(fed, |fed| - 4 + j)
  }

  lemma Shift(history: seq<real>, fed: seq<real>, v: real)
    requires Recent(history, fed)
    ensures Recent([history[1], history[2], history[3], v], fed + [v])
  {
    var fed', h := fed + [v], [history[1], history[2], history[3], v];
    forall j | 0 <= j < 4
      ensures h[j] == At(fed', |fed'| - 4 + j)
    {
      if j < 3 {
        assert history[j + 1] == At(fed, |fed| - 4 + (j + 1));
      }
    }
  }

  /** Inputs that arrive later never change an output already determined. */
  lemma OutStable(x: seq<real>, more: seq<real>, phase: real)
    requires phase.Floor <= |x|
    ensures FarrowOut(x + more, phase) == FarrowOut(x, phase)
  {
  }

  lemma OutputsStable(x: seq<real>, more: seq<real>, p0: real, step: real, ys: seq<real>)
    requires Outputs(x, p0, step, ys)
    ensures Outputs(x + more, p0, step, ys)
  {
    forall k | 0 <= k < |ys|
      ensures ys[k] == FarrowOut(x + more, Steps(p0, step, k)) && Steps(p0, step, k).Floor <= |x + more|
    {
      OutStable(x, more, Steps(p0, step, k));
    }
  }

  lemma OutputsConcat(x: seq<real>, p0: real, step: real, ys: seq<real>, zs: seq<real>)
    requires Outputs(x, p0, step, ys) && Outputs(x, Steps(p0, step, |ys|), step, zs)
    ensures Outputs(x, p0, step, ys + zs)
  {
    forall k | 0 <= k < |ys + zs|
      ensures (ys + zs)[k] == FarrowOut(x, Steps(p0, step, k)) && Steps(p0, step, k).Floor <= |x|
    {
      if k >= |ys| {
        StepsFrom(p0, step, |ys|, k - |ys|);
        assert (ys + zs)[k] == zs[k - |ys|];
      }
    }
  }

  /** Zeros appended to the input change nothing; past the last input's reach there is silence. */
  lemma OutOfPadded(x: seq<real>, n: nat, phase: real)
    ensures FarrowOut(x + Zeros(n), phase) == FarrowOut(x, phase)
  {
  }

  lemma SilentPast(x: seq<real>, phase: real)
    requires phase >= |x| as real + 4.0
    ensures FarrowOut(x, phase) == 0.0
  {
  }

  /** With ratio 1 the resampler is a pure delay of three samples. */
  lemma UnityRatioDelaysByThree(x: seq<real>, k: nat)
    ensures FarrowOut(x, Steps(0.0, 1.0, k)) == At(x, k - 3)
  {
    assert Steps(0.0, 1.0, k).Floor == k;
  }

  /** Nothing more can be produced from `x`: the next position needs an input that has not arrived. */
  ghost predicate Stalled(x: seq<real>, r: real, count: nat) {
    && Steps(0.0, r, count) >= |x| as real + 1.0
    && (count > 0 ==> Steps(0.0, r, count - 1) < |x| as real + 1.0)
  }

  lemma StepsMonotone(p0: real, r: real, j: nat, k: nat)
    requires r > 0.0 && j <= k
    ensures Steps(p0, r, j) <= Steps(p0, r, k)
  {
    assert (k as real - j as real) * r >= 0.0;
    assert k as real * r == (k as real - j as real) * r + j as real * r;
  }

  lemma Archimedes(a: real, r: real) returns (n: nat)
    requires r > 0.0 && a >= 0.0
    ensures Steps(0.0, r, n) >= a
  {
    var q := a / r;
    n := q.Floor + 1;
    assert n as real >= q;
    assert (n as real - q) * r >= 0.0;
  }

  /** A phase short of position `limit` has taken at most `limit` steps. */
  lemma StepsBound(r: real, count: nat, limit: nat)
    requires r > 0.0 && count > 0 && Steps(0.0, r, count) - r < Steps(0.0, r, limit)
    ensures count <= limit
  {
    StepsNext(0.0, r, count - 1);
    if limit < count {
      StepsMonotone(0.0, r, limit, count - 1);
    }
  }

  /** A call over the inputs up to `fed`, starting at output `p`, ends with outputs still due: the last
      output of its j-th full batch has used all input, and the next one needs no more. */
  ghost predicate CutShort(r: real, p: nat, fed: nat, j: nat) {
    && j >= 1
    && Steps(0.0, r, p + BLOCK * j - 1) >= fed as real
    && Steps(0.0, r, p + BLOCK * j) < fed as real + 1.0
  }

  ghost predicate Cut(r: real, p: nat, fed: nat) {
    exists j: nat :: CutShort(r, p, fed, j)
  }

  /** At least 256 steps past the first unread input are needed for that, so a short call never is. */
  lemma ShortCallNotCut(r: real, p: nat, fed0: nat, count: nat)
    requires r > 0.0 && Steps(0.0, r, p) >= fed0 as real
    requires count as real + 1.0 <= 256.0 * r
    ensures !Cut(r, p, fed0 + count)
  {
    var fed := fed0 + count;
    forall j: nat
      ensures !CutShort(r, p, fed, j)
    {
      if j >= 1 {
        StepsMonotone(0.0, r, p + BLOCK, p + BLOCK * j);
        assert (p + BLOCK) as real * r == p as real * r + 256.0 * r;
      }
    }
  }

  /** It does happen: at a ratio of 1/65 four inputs after any exhausted run leave four of 260 outputs due. */
  lemma SlowRatioIsCut(x: seq<real>)
    ensures Stalled(x, 1.0 / 65.0, 65 * (|x| + 1))
    ensures CutShort(1.0 / 65.0, 65 * (|x| + 1), |x| + 4, 1)
  {
    var p := 65 * (|x| + 1);
    assert p as real * (1.0 / 65.0) == |x| as real + 1.0;
  }

  /** The number of outputs of an exhausted run is ceil((|x| + 1) / r), however it was cut. */
  lemma StallCount(x: seq<real>, r: real, count: nat)
    requires r > 0.0 && Stalled(x, r, count)
    ensures forall k: nat :: k < count <==> Steps(0.0, r, k) < |x| as real + 1.0
  {
    forall k: nat
      ensures k < count <==> Steps(0.0, r, k) < |x| as real + 1.0
    {
      if k < count {
        StepsMonotone(0.0, r, k, count - 1);
      } else {
        StepsMonotone(0.0, r, count, k);
      }
    }
  }

  /** Chunk independence: two runs from reset that saw compatible inputs agree wherever both have
      produced, and two exhausted runs over the same input are identical. */
  lemma ChunkIndependence(x: seq<real>, more: seq<real>, r: real, ys: seq<real>, zs: seq<real>)
    requires r > 0.0
    requires Outputs(x, 0.0, r, ys) && Outputs(x + more, 0.0, r, zs)
    ensures forall k :: 0 <= k < |ys| && k < |zs| ==> ys[k] == zs[k]
    ensures more == [] && Stalled(x, r, |ys|) && Stalled(x, r, |zs|) ==> ys == zs
  {
    OutputsStable(x, more, 0.0, r, ys);
    if more == [] && Stalled(x, r, |ys|) && Stalled(x, r, |zs|) {
      StallCount(x, r, |ys|);
      StallCount(x, r, |zs|);
      assert !(|ys| < |zs|) && !(|zs| < |ys|);
    }
  }

  class FarrowResampler {
    var step: real
    var mu: real
    const history: array<real>

    /** All inputs consumed since the last reset. */
    ghost var fed: seq<real>

    ghost predicate Valid()
      reads this, history
    {
      history.Length == 4 && step > 0.0 && mu >= 0.0 && Recent(history[..], fed)
    }

    /** The input-stream position of the next output. */
    ghost function Phase(): real
      reads this
    {
      |fed| as real + mu
    }

    constructor ()
      ensures Valid() && fresh(history) && fed == [] && mu == 0.0 && step == 1.0
    {
      history := new real[4](i => 0.0);
      step, mu, fed := 1.0, 0.0, [];
    }

    /** Rejects a ratio that would not advance. */
    method SetRatio(ratio: real) returns (ok: bool)
      requires Valid()
      modifies this`step
      ensures Valid()
      ensures ok <==> ratio > 0.0
      ensures step == if ok then ratio else old(step)
    {
      ok := ratio > 0.0;
      if ok {
        step := ratio;
      }
    }

    function Interpolate(): (y: real)
      requires history.Length == 4
      reads this, history
    {
      Cubic(history[0], history[1], history[2], history[3], mu)
    }

    /** With the phase inside [0, 1) the history is exactly what the closed form asks for. */
    lemma InterpolateIsClosedForm()
      requires Valid() && mu < 1.0
      ensures Phase().Floor == |fed|
      ensures Interpolate() == FarrowOut(fed, Phase())
    {
      var n := |fed|;
      assert Phase().Floor == n;
      assert forall j :: 0 <= j < 4 ==> history[..][j] == history[j];
    }

    /** Shift one input into the history. */
    method Consume(v: real)
      requires Valid() && mu >= 1.0
      modifies this`mu, this`fed, history
      ensures Valid()
      ensures fed == old(fed) + [v] && mu == old(mu) - 1.0
    {
      ghost var h := history[..];
      history[0] := history[1];
      history[1] := history[2];
      history[2] := history[3];
      history[3] := v;
      mu := mu - 1.0;
      Shift(h, fed, v);
      assert history[..] == [h[1], h[2], h[3], v];
      fed := fed + [v];
    }

    /** Advance the history until the phase is fractional again, or the input runs out. */
    method Refill(input: seq<real>, consumed0: nat) returns (consumed: nat)
      requires Valid() && consumed0 <= |input|
      modifies this`mu, this`fed, history
      ensures Valid()
      ensures consumed0 <= consumed <= |input|
      ensures fed == old(fed) + input[consumed0..consumed]
      ensures Phase() == old(Phase())
      ensures mu >= 1.0 ==> consumed == |input|
    {
      consumed := consumed0;
      assert input[consumed0..consumed] == [];
      while mu >= 1.0
        invariant Valid() && consumed0 <= consumed <= |input|
        invariant fed == old(fed) + input[consumed0..consumed]
        invariant Phase() == old(Phase())
        decreases |input| - consumed
      {
        if consumed >= |input| {
          return;
        }
        Consume(input[consumed]);
        assert input[consumed0..consumed + 1] == input[consumed0..consumed] + [input[consumed]];
        consumed := consumed + 1;
      }
    }

    /** Produce up to `count` outputs. Whatever the split into calls, output k of the call is the
        closed form at k steps past the position reached so far; a short call has used all its input. */
    method Process(input: seq<real>, output: array<real>, count: nat)
      returns (produced: nat, consumed: nat)
      requires Valid() && count <= output.Length && output != history
      modifies this`mu, this`fed, history, output
      ensures Valid()
      ensures produced <= count && consumed <= |input|
      ensures fed == old(fed) + input[..consumed]
      ensures Phase() == Steps(old(Phase()), step, produced)
      ensures Outputs(fed, old(Phase()), step, output[..produced])
      ensures produced > 0 ==> Phase() - step < |fed| as real + 1.0
      ensures produced > 0 && produced == count ==> Phase() - step >= |fed| as real
      ensures produced < count ==> consumed == |input| && mu >= 1.0
    {
      produced, consumed := 0, 0;
      ghost var x0, p0 := fed, Phase();
      assert input[..0] == [];
      while produced < count
        invariant Valid() && produced <= count && consumed <= |input|
        invariant fed == x0 + input[..consumed]
        invariant Phase() == Steps(p0, step, produced)
        invariant Outputs(fed, p0, step, output[..produced])
        invariant produced > 0 ==> |fed| as real <= Phase() - step < |fed| as real + 1.0
        decreases count - produced
      {
        var emitted;
        consumed, emitted := Pass(input, consumed, output, produced, x0, p0);
        if !emitted {
          return;
        }
        produced := produced + 1;
      }
    }

    /** One pass of the output loop: refill, and emit unless the input ran out. */
    method Pass(input: seq<real>, consumed0: nat, output: array<real>, k: nat, ghost x0: seq<real>, ghost p0: real)
      returns (consumed: nat, emitted: bool)
      requires Valid() && consumed0 <= |input| && k < output.Length && output != history
      requires fed == x0 + input[..consumed0] && Phase() == Steps(p0, step, k) && Outputs(fed, p0, step, output[..k])
      modifies this`mu, this`fed, history, output
      ensures Valid() && consumed <= |input| && fed == x0 + input[..consumed] && |old(fed)| <= |fed|
      ensures emitted ==> Outputs(fed, p0, step, output[..k + 1]) && |fed| as real <= Phase() - step < |fed| as real + 1.0
      ensures !emitted ==> Outputs(fed, p0, step, output[..k]) && consumed == |input| && mu >= 1.0
      ensures Phase() == Steps(p0, step, if emitted then k + 1 else k)
    {
      ghost var before, ys := fed, output[..k];
      consumed := Refill(input, consumed0);
      assert input[..consumed] == input[..consumed0] + input[consumed0..consumed];
      OutputsStable(before, input[consumed0..consumed], p0, step, ys);
      emitted := mu < 1.0;
      if emitted {
        Emit(output, k, p0);
      }
    }

    /** Write one output and advance the phase. */
    method Emit(output: array<real>, k: nat, ghost p0: real)
      requires Valid() && mu < 1.0 && k < output.Length && output != history
      requires Phase() == Steps(p0, step, k) && Outputs(fed, p0, step, output[..k])
      modifies this`mu, output
      ensures Valid()
      ensures mu == old(mu) + step && Phase() == Steps(p0, step, k + 1)
      ensures Outputs(fed, p0, step, output[..k + 1])
    {
      InterpolateIsClosedForm();
      StepsNext(p0, step, k);
      ghost var ys := output[..k];
      output[k] := Interpolate();
      assert output[..k + 1] == ys + [FarrowOut(fed, Steps(p0, step, k))];
      mu := mu + step;
    }

    method Reset()
      requires history.Length == 4 && step > 0.0
      modifies this`mu, this`fed, history
      ensures Valid() && fed == [] && mu == 0.0
    {
      mu := 0.0;
      fed := [];
      forall i | 0 <= i < 4 {
        history[i] := 0.0;
      }
    }
  }
}
