/** Per-tap fractional reads: delay and amplitude run linearly across one output block. */
module PerTap {
  import opened DelayLines

  datatype TapState = TapState(delayStart: real, delayEnd: real, ampStart: real, ampEnd: real) {

    function Alpha(n: nat, i: int): real
      requires n > 0
    {
      i as real * (1.0 / n as real)
    }

    function Delay(n: nat, i: int): real
      requires n > 0
    {
      delayStart + Alpha(n, i) * (delayEnd - delayStart)
    }

    function Amplitude(n: nat, i: int): real
      requires n > 0
    {
      ampStart + Alpha(n, i) * (ampEnd - ampStart)
    }

    function ReadPosition(outPos: real, n: nat, i: int): real
      requires n > 0
    {
      outPos + i as real - Delay(n, i)
    }
  }

  /** One output of a tap: amplitude times the delay line's answer at the read position. */
  ghost function TapOut(src: SourceDelayLine, tap: TapState, outPos: real, n: nat, i: int): real
    requires n > 0 && src.buffer.Length > 0
    reads src, src.buffer
  {
    tap.Amplitude(n, i) * src.RawRead(tap.ReadPosition(outPos, n, i))
  }

  /** The inner step: interpolate delay and amplitude, read, scale. */
  method ProduceOne(src: SourceDelayLine, tap: TapState, outPos: real, n: nat, i: nat) returns (y: real)
    requires src.Valid() && i < n
    ensures y == TapOut(src, tap, outPos, n, i)
  {
    var pos := tap.ReadPosition(outPos, n, i);
    var v := src.ReadAt(pos);
    y := tap.Amplitude(n, i) * v;
  }

  /** Fill the scratch with one tap's output for a block. */
  method Produce(src: SourceDelayLine, tap: TapState, outPos: real, n: nat, out: array<real>)
    requires src.Valid() && n <= out.Length && out != src.buffer
    modifies out
    ensures forall i :: 0 <= i < n ==> out[..n][i] == old(TapOut(src, tap, outPos, n, i))
  {
    var i := 0;
    while i < n
      invariant i <= n && src.Valid()
      invariant forall j :: 0 <= j < i ==> out[j] == old(TapOut(src, tap, outPos, n, j))
    {
      out[i] := ProduceOne(src, tap, outPos, n, i);
      i := i + 1;
    }
  }
}
