/** What the read-style renderer computes, as functions of the source stream: the block formula, its
    window of reads, its continuity, and its closed form for affine taps. */
module TapScenes {
  import opened Basics
  import opened Signals
  import opened RealArithmetic
  import opened DelayLines
  import opened PerTap
  import opened TapSources

  function Total(sizes: seq<nat>): nat {
    if sizes == [] then 0 else Total(sizes[..|sizes| - 1]) + sizes[|sizes| - 1]
  }

  lemma {:induction false} TotalConcat(a: seq<nat>, b: seq<nat>)
    ensures Total(a + b) == Total(a) + Total(b)
    decreases |b|
  {
    if b == [] {
      assert a + b == a;
    } else {
      assert (a + b)[..|a + b| - 1] == a + b[..|b| - 1];
      TotalConcat(a, b[..|b| - 1]);
    }
  }

  /** A run of n samples cut into blocks. */
  function Blocks(n: nat): (sizes: seq<nat>)
    ensures forall i :: 0 <= i < |sizes| ==> 0 < sizes[i] <= BLOCK
  {
    if n == 0 then [] else if n <= BLOCK then [n] else [BLOCK] + Blocks(n - BLOCK)
  }

  lemma BlocksNext(n: nat, k: nat)
    requires n > 0 && k == Min(BLOCK, n)
    ensures Blocks(n) == [k] + Blocks(n - k)
  {
  }

  lemma {:induction false} BlocksTotal(n: nat)
    ensures Total(Blocks(n)) == n
  {
    if n > BLOCK {
      BlocksTotal(n - BLOCK);
      TotalConcat([BLOCK], Blocks(n - BLOCK));
      assert [BLOCK][..0] == [];
    } else if n > 0 {
      assert [n][..0] == [];
    }
  }

  /** One message's view of a pure tap source: the record, where on it the message started, the
      receiver clock, its relative drift, and the gain chain. */
  datatype Scene = Scene(record: real -> seq<SourcedTap>, offset: real, fs: real, drift: real, gain: real) {

    /** The tap set at receiver index m. */
    function Taps(m: nat): seq<SourcedTap>
      requires fs > 0.0
    {
      record(offset + m as real / fs)
    }

    function TapCount(m: nat, n: nat): nat
      requires fs > 0.0
    {
      Min(|Taps(m)|, |Taps(m + n)|)
    }

    /** The state handed to the inner loop for tap k of the block [m, m + n): the block's clock drift is
        folded into the end delay. */
    function BlockState(m: nat, n: nat, k: nat): TapState
      requires fs > 0.0 && k < TapCount(m, n)
    {
      var a, b := Taps(m)[k], Taps(m + n)[k];
      TapState(a.delta, b.delta - n as real * drift, a.gain * gain, b.gain * gain)
    }

    /** The source-rate cursor at receiver index m. */
    function Cursor(m: nat): real {
      m as real * (1.0 + drift)
    }

    function Position(m: nat, n: nat, k: nat, i: int): real
      requires fs > 0.0 && n > 0 && k < TapCount(m, n)
    {
      BlockState(m, n, k).ReadPosition(Cursor(m), n, i)
    }

    /** Output i of the block through tap k alone, for any way of reading the source. */
    ghost function TapTerm(read: real -> real, m: nat, n: nat, i: nat, k: nat): real
      requires fs > 0.0 && n > 0 && k < TapCount(m, n)
    {
      BlockState(m, n, k).Amplitude(n, i) * read(Position(m, n, k, i))
    }

    /** Output i of the block through its first j taps. */
    ghost function BlockMix(read: real -> real, m: nat, n: nat, i: nat, j: nat): real
      requires fs > 0.0 && n > 0 && j <= TapCount(m, n)
    {
      if j == 0 then 0.0 else BlockMix(read, m, n, i, j - 1) + TapTerm(read, m, n, i, j - 1)
    }

    /** Output i of the block on the unbounded source x. */
    ghost function BlockOut(x: seq<real>, m: nat, n: nat, i: nat): real
      requires fs > 0.0 && n > 0
    {
      BlockMix(Interpolated(x), m, n, i, TapCount(m, n))
    }

    /** Every read behind output i of the block finds its samples written. */
    ghost predicate Determined(count: nat, m: nat, n: nat, i: nat)
      requires fs > 0.0 && n > 0
    {
      forall k: nat :: k < TapCount(m, n) ==> Written(count, Position(m, n, k, i))
    }

    /** How far behind the receiver index tap k reads there, clock drift included. */
    function Lag(m: nat, k: nat): real
      requires fs > 0.0 && k < |Taps(m)|
    {
      Taps(m)[k].delta - m as real * drift
    }

    /** Every tap's lag stays within [1, w] at all receiver indices of the range. */
    ghost predicate LagsWithin(from: nat, to: nat, w: int)
      requires fs > 0.0
    {
      forall m: nat, k: nat :: from <= m <= to && k < |Taps(m)| ==> 1.0 <= Lag(m, k) <= w as real
    }

    /** Every read of block [m, m + n), made with `written` samples in a line of `capacity` slots, falls in
        the line's window. */
    ghost predicate BlockInWindow(m: nat, n: nat, written: nat, capacity: nat)
      requires fs > 0.0 && n > 0
    {
      forall k: nat, i: nat :: k < TapCount(m, n) && i < n ==> InWindow(written, capacity, Position(m, n, k, i))
    }

    /** The same for all blocks of the run [from, end), which is cut every BLOCK samples. */
    ghost predicate RunInWindow(from: nat, end: nat, written: nat, capacity: nat)
      requires fs > 0.0
      decreases end - from
    {
      from >= end || (
        var n := Min(BLOCK, end - from);
        BlockInWindow(from, n, written, capacity) && RunInWindow(from + n, end, written, capacity))
    }

    /** And for consecutive calls of the given sizes, each of which first writes all its samples. */
    ghost predicate CallsInWindow(from: nat, sizes: seq<nat>, capacity: nat)
      requires fs > 0.0
    {
      sizes == [] || (
        var m, end := from + Total(sizes[..|sizes| - 1]), from + Total(sizes);
        CallsInWindow(from, sizes[..|sizes| - 1], capacity) && RunInWindow(m, end, end, capacity))
    }

    lemma CallsNext(from: nat, sizes: seq<nat>, n: nat, capacity: nat)
      requires fs > 0.0
      ensures Total(sizes + [n]) == Total(sizes) + n
      ensures var m := from + Total(sizes);
        CallsInWindow(from, sizes + [n], capacity) ==
        (CallsInWindow(from, sizes, capacity) && RunInWindow(m, m + n, m + n, capacity))
    {
      assert (sizes + [n])[..|sizes|] == sizes;
    }

    lemma {:induction false} CallsConcat(from: nat, a: seq<nat>, b: seq<nat>, capacity: nat)
      requires fs > 0.0
      ensures CallsInWindow(from, a + b, capacity)
        <==> CallsInWindow(from, a, capacity) && CallsInWindow(from + Total(a), b, capacity)
      decreases |b|
    {
      if b == [] {
        assert a + b == a;
      } else {
        var front := b[..|b| - 1];
        assert (a + b)[..|a + b| - 1] == a + front;
        CallsConcat(from, a, front, capacity);
        TotalConcat(a, b);
        TotalConcat(a, front);
      }
    }

    /** Lags in [1, w] keep every read of a call in the window when the line holds w + 1 samples before it. */
    lemma {:induction false} LagsKeepRun(from: nat, end: nat, w: int, written: nat, capacity: nat)
      requires fs > 0.0 && LagsWithin(from, end, w) && end <= written && written - from + w + 1 <= capacity
      ensures RunInWindow(from, end, written, capacity)
      decreases end - from
    {
      if from < end {
        var n: nat := Min(BLOCK, end - from);
        forall k: nat, i: nat | k < TapCount(from, n) && i < n
          ensures InWindow(written, capacity, Position(from, n, k, i))
        {
          assert 1.0 <= Lag(from, k) <= w as real && 1.0 <= Lag(from + n, k) <= w as real;
          BlockReadsInWindow(from, n, k, i, w, written, capacity);
        }
        LagsKeepRun(from + n, end, w, written, capacity);
      }
    }

    lemma {:induction false} LagsKeepCalls(from: nat, sizes: seq<nat>, w: int, capacity: nat)
      requires fs > 0.0 && LagsWithin(from, from + Total(sizes), w)
      requires forall i :: 0 <= i < |sizes| ==> sizes[i] + w + 1 <= capacity
      ensures CallsInWindow(from, sizes, capacity)
      decreases |sizes|
    {
      if sizes != [] {
        var front := sizes[..|sizes| - 1];
        LagsKeepCalls(from, front, w, capacity);
        LagsKeepRun(from + Total(front), from + Total(sizes), w, from + Total(sizes), capacity);
      }
    }

    /** Both ends of a block agree with the tap source: the read position at index i of the block is
        the index minus a convex combination of the two end lags. */
    lemma PositionIsLerp(m: nat, n: nat, k: nat, i: int)
      requires fs > 0.0 && n > 0 && k < TapCount(m, n)
      ensures Position(m, n, k, i)
        == (m + i) as real - (Lag(m, k) + (i as real * (1.0 / n as real)) * (Lag(m + n, k) - Lag(m, k)))
    {
      var s := BlockState(m, n, k);
      var t := 1.0 / n as real;
      assert t * n as real == 1.0;
      var d, a := drift, i as real * t;
      assert (m + n) as real * d == m as real * d + n as real * d;
      assert a * (n as real) == i as real by {
        assert (i as real * t) * n as real == i as real * (t * n as real);
      }
      LerpAlgebra(m as real, i as real, a, n as real, d, s.delayStart, Taps(m + n)[k].delta);
    }

    /** The read position is continuous across block boundaries, for any pure source: approached from
        the block before and from the block after, it is the index with drift minus the tap's delay. */
    lemma BoundaryContinuity(m: nat, n: nat, n': nat, k: nat)
      requires fs > 0.0 && n > 0 && n' > 0 && k < TapCount(m, n) && k < TapCount(m + n, n')
      ensures Position(m, n, k, n) == Position(m + n, n', k, 0)
        == Cursor(m + n) - Taps(m + n)[k].delta
    {
      PositionIsLerp(m, n, k, n);
      PositionIsLerp(m + n, n', k, 0);
      assert n as real * (1.0 / n as real) == 1.0;
      assert Cursor(m + n) == (m + n) as real + (m + n) as real * drift;
    }

    lemma PositionBetween(m: nat, n: nat, k: nat, i: nat, w: int)
      requires fs > 0.0 && k < TapCount(m, n) && i < n
      requires 1.0 <= Lag(m, k) <= w as real && 1.0 <= Lag(m + n, k) <= w as real
      ensures (m + i) as real - w as real <= Position(m, n, k, i) <= (m + i) as real - 1.0
    {
      PositionIsLerp(m, n, k, i);
      var a := i as real * (1.0 / n as real);
      AlphaRange(i, n);
      ConvexRange(Lag(m, k), Lag(m + n, k), a, 1.0, w as real);
    }

    /** With all lags of a block's ends in [1, w], every read of the block is in the delay line's
        window once `written` samples are in, provided the ring holds w + 1 samples before the block. */
    lemma BlockReadsInWindow(m: nat, n: nat, k: nat, i: nat, w: int, written: nat, capacity: nat)
      requires fs > 0.0 && k < TapCount(m, n) && i < n && m + n <= written
      requires 1.0 <= Lag(m, k) <= w as real && 1.0 <= Lag(m + n, k) <= w as real
      requires written - m + w + 1 <= capacity
      ensures Written(written, Position(m, n, k, i)) && Retained(written, capacity, Position(m, n, k, i))
    {
      PositionBetween(m, n, k, i, w);
      PositionInWindow(Position(m, n, k, i), m + i, m, w, written, capacity);
    }

    /** The mix depends on the source only through the positions it reads. */
    lemma {:induction false} BlockMixCongruent(read: real -> real, read': real -> real, m: nat, n: nat, i: nat, j: nat)
      requires fs > 0.0 && n > 0 && j <= TapCount(m, n)
      requires forall k: nat :: k < j ==> read(Position(m, n, k, i)) == read'(Position(m, n, k, i))
      ensures BlockMix(read, m, n, i, j) == BlockMix(read', m, n, i, j)
    {
      if j > 0 {
        BlockMixCongruent(read, read', m, n, i, j - 1);
      }
    }

    /** Source samples that arrive later never change an output already determined. */
    lemma BlockOutStable(x: seq<real>, more: seq<real>, m: nat, n: nat, i: nat)
      requires fs > 0.0 && n > 0 && Determined(|x|, m, n, i)
      ensures BlockOut(x + more, m, n, i) == BlockOut(x, m, n, i)
    {
      var j := TapCount(m, n);
      forall k: nat | k < j
        ensures Interpolated(x + more)(Position(m, n, k, i)) == Interpolated(x)(Position(m, n, k, i))
      {
        InterpolatedStable(x, more, Position(m, n, k, i));
      }
      BlockMixCongruent(Interpolated(x + more), Interpolated(x), m, n, i, j);
    }

    /** The tap set moves along straight lines, as a function of receiver index. */
    ghost predicate Follows(law: seq<AffineTap>)
      requires fs > 0.0
    {
      forall m: nat :: |Taps(m)| == |law| && forall k: nat :: k < |law| ==> Taps(m)[k] == law[k].At(m)
    }

    /** The closed form at receiver index m: no block structure in sight. */
    ghost function ClosedMix(law: seq<AffineTap>, read: real -> real, m: nat, j: nat): real
      requires j <= |law|
    {
      if j == 0 then 0.0
      else
        var tap := law[j - 1].At(m);
        ClosedMix(law, read, m, j - 1) + tap.gain * gain * read(Cursor(m) - tap.delta)
    }

    lemma AffineBlock(law: seq<AffineTap>, m: nat, n: nat, k: nat, i: nat)
      requires fs > 0.0 && n > 0 && Follows(law) && k < |law|
      ensures TapCount(m, n) == |law|
      ensures Position(m, n, k, i) == Cursor(m + i) - law[k].At(m + i).delta
      ensures BlockState(m, n, k).Amplitude(n, i) == law[k].At(m + i).gain * gain
    {
      assert |Taps(m)| == |law| && |Taps(m + n)| == |law|;
      assert Taps(m)[k] == law[k].At(m) && Taps(m + n)[k] == law[k].At(m + n);
      var t := 1.0 / n as real;
      assert t * n as real == 1.0;
      assert (i as real * t) * n as real == i as real * (t * n as real);
      var c := law[k];
      AffineDelayAlgebra(m as real, i as real, i as real * t, n as real, drift, c.delta0, c.deltaSlope);
      AffineGainAlgebra(m as real, i as real, i as real * t, n as real, gain, c.gain0, c.gainSlope);
    }

    /** For affine taps a block computes the closed form at each of its indices, so the rendered message
        does not depend on how the input was cut into calls and blocks. */
    lemma {:induction false} AffineMixIsClosed(law: seq<AffineTap>, read: real -> real, m: nat, n: nat, i: nat, j: nat)
      requires fs > 0.0 && n > 0 && Follows(law) && j <= TapCount(m, n) && j <= |law|
      ensures BlockMix(read, m, n, i, j) == ClosedMix(law, read, m + i, j)
    {
      if j > 0 {
        AffineMixIsClosed(law, read, m, n, i, j - 1);
        AffineBlock(law, m, n, j - 1, i);
      }
    }
  }

  /** A tap whose delay and amplitude are straight lines in receiver index. */
  datatype AffineTap = AffineTap(delta0: real, deltaSlope: real, gain0: real, gainSlope: real) {
    function At(m: nat): SourcedTap {
      SourcedTap(delta0 + deltaSlope * m as real, gain0 + gainSlope * m as real)
    }
  }

  lemma AffineDelayAlgebra(m: real, i: real, a: real, n: real, d: real, c: real, s: real)
    requires a * n == i
    ensures m * (1.0 + d) + i - ((c + s * m) + a * ((c + s * (m + n) - n * d) - (c + s * m)))
      == (m + i) * (1.0 + d) - (c + s * (m + i))
  {
    assert (c + s * (m + n) - n * d) - (c + s * m) == (s - d) * n;
    assert a * ((s - d) * n) == (s - d) * (a * n);
  }

  lemma AffineGainAlgebra(m: real, i: real, a: real, n: real, g: real, c: real, s: real)
    requires a * n == i
    ensures (c + s * m) * g + a * ((c + s * (m + n)) * g - (c + s * m) * g) == (c + s * (m + i)) * g
  {
    assert (c + s * (m + n)) * g - (c + s * m) * g == (s * g) * n;
    assert a * ((s * g) * n) == (s * g) * (a * n);
  }

  /** Interpolation on the unbounded source x, as a function of position. */
  ghost function Interpolated(x: seq<real>): real -> real {
    (pos: real) => CubicAt(Stream(x), pos)
  }

  lemma InterpolatedStable(x: seq<real>, more: seq<real>, pos: real)
    requires Written(|x|, pos)
    ensures Interpolated(x + more)(pos) == Interpolated(x)(pos)
  {
    CubicAtStable(x, more, pos);
  }

  lemma LerpAlgebra(m: real, i: real, a: real, n: real, d: real, delta0: real, delta1: real)
    requires a * n == i
    ensures m * (1.0 + d) + i - (delta0 + a * ((delta1 - n * d) - delta0))
      == m + i - ((delta0 - m * d) + a * ((delta1 - (m + n) * d) - (delta0 - m * d)))
  {
    assert a * ((delta1 - n * d) - delta0) == a * (delta1 - delta0) - (a * n) * d;
    assert (delta1 - (m + n) * d) - (delta0 - m * d) == (delta1 - delta0) - n * d;
    assert a * ((delta1 - delta0) - n * d) == a * (delta1 - delta0) - (a * n) * d;
    assert m * (1.0 + d) == m + m * d;
  }

  lemma AlphaRange(i: nat, n: nat)
    requires i < n
    ensures 0.0 <= i as real * (1.0 / n as real) <= 1.0
  {
    var t := 1.0 / n as real;
    assert t * n as real == 1.0 && t > 0.0;
    ProductMonotone(i as real, n as real, t);
    ProductNonNegative(i as real, t);
  }

  lemma ConvexRange(p: real, q: real, a: real, lo: real, hi: real)
    requires 0.0 <= a <= 1.0 && lo <= p <= hi && lo <= q <= hi
    ensures lo <= p + a * (q - p) <= hi
  {
    SumOfProducts(1.0 - a, p - lo, a, q - lo, p + a * (q - p) - lo);
    SumOfProducts(1.0 - a, hi - p, a, hi - q, hi - (p + a * (q - p)));
  }

  lemma PositionInWindow(pos: real, index: nat, start: nat, w: int, written: nat, capacity: nat)
    requires start <= index < written
    requires index as real - w as real <= pos <= index as real - 1.0
    requires written - start + w + 1 <= capacity
    ensures Written(written, pos) && Retained(written, capacity, pos)
  {
  }
}
