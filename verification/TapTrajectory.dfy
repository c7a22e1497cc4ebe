/** Recorded tap trajectories: Catmull-Rom interpolation on a uniform grid with clamped ends. */
module TapTrajectories {
  import opened RealArithmetic
  import opened Signals
  import opened TapSources

  /** Frames by taps, on a grid of step dt. */
  datatype Trajectory = Trajectory(tapCount: nat, frameCount: nat, dt: real,
                                   delays: seq<seq<real>>, amplitudes: seq<seq<real>>) {
    predicate WellFormed() {
      && tapCount >= 1 && frameCount >= 2 && dt > 0.0
      && |delays| == |amplitudes| == frameCount
      && (forall f :: 0 <= f < frameCount ==> |delays[f]| == tapCount)
      && (forall f :: 0 <= f < frameCount ==> |amplitudes[f]| == tapCount)
    }

    function Last(): int { frameCount - 1 }

    function Duration(): real { Last() as real * dt }

    /** Record time in frames, clamped to the grid. */
    function Clamped(t: real): (u: real)
      requires frameCount >= 2 && dt > 0.0
      ensures 0.0 <= u <= Last() as real
    {
      var raw := t / dt;
      if raw < 0.0 then 0.0 else if raw > Last() as real then Last() as real else raw
    }

    /** On the record it is the time itself, in frames. */
    lemma ClampedOnRecord(t: real)
      requires frameCount >= 2 && dt > 0.0 && 0.0 <= t <= Duration()
      ensures Clamped(t) * dt == t
    {
      var q := t / dt;
      assert q * dt == t;
      QuotientBelow(q, dt, Last() as real, t);
      QuotientAbove(q, dt, 0.0, t);
    }

    /** The segment a time falls in; the last frame belongs to the last segment. */
    function Segment(t: real): (i: nat)
      requires frameCount >= 2 && dt > 0.0
      ensures i < Last() && 0.0 <= Clamped(t) - i as real <= 1.0
    {
      var i := Clamped(t).Floor;
      if i <= Last() - 1 then i else Last() - 1
    }

    /** Interpolation of one track on segment i at phase mu; end frames are virtually duplicated. */
    function Interp(track: seq<seq<real>>, tap: nat, i: nat, mu: real): real
      requires frameCount >= 2 && i < Last() && |track| == frameCount
      requires forall f :: 0 <= f < frameCount ==> tap < |track[f]|
    {
      Cubic(track[if i == 0 then 0 else i - 1][tap], track[i][tap], track[i + 1][tap],
            track[if i + 2 <= Last() then i + 2 else Last()][tap], mu)
    }

    function SampleDelay(tap: nat, t: real): real
      requires WellFormed() && tap < tapCount
    {
      Interp(delays, tap, Segment(t), Clamped(t) - Segment(t) as real)
    }

    function SampleAmplitude(tap: nat, t: real): (a: real)
      requires WellFormed() && tap < tapCount
      ensures a >= 0.0
    {
      MaxReal(Interp(amplitudes, tap, Segment(t), Clamped(t) - Segment(t) as real), 0.0)
    }

    /** At a frame's own time the segment begins with it, or ends with it if it is the last. */
    lemma FrameSegment(f: nat)
      requires frameCount >= 2 && dt > 0.0 && f < frameCount
      ensures Clamped(f as real * dt) == f as real
      ensures Segment(f as real * dt) == if f == frameCount - 1 then f - 1 else f
    {
      assert f as real * dt / dt == f as real;
    }

    /** Interpolation at the ends of a segment is its frames. */
    lemma InterpAtEnds(track: seq<seq<real>>, tap: nat, i: nat)
      requires frameCount >= 2 && i < Last() && |track| == frameCount
      requires forall f :: 0 <= f < frameCount ==> tap < |track[f]|
      ensures Interp(track, tap, i, 0.0) == track[i][tap] && Interp(track, tap, i, 1.0) == track[i + 1][tap]
    {
    }

    /** Every frame is hit exactly, the last one included. */
    lemma SampleHitsFrames(tap: nat, f: nat)
      requires WellFormed() && tap < tapCount && f < frameCount
      ensures SampleDelay(tap, f as real * dt) == delays[f][tap]
    {
      FrameSegment(f);
      InterpAtEnds(delays, tap, Segment(f as real * dt));
    }

    /** Before its first frame and after its last the record plays that frame. */
    lemma SampleHoldsEnds(tap: nat, t: real)
      requires WellFormed() && tap < tapCount
      ensures t <= 0.0 ==> SampleDelay(tap, t) == delays[0][tap]
      ensures t >= Duration() ==> SampleDelay(tap, t) == delays[frameCount - 1][tap]
    {
      var q := t / dt;
      assert q * dt == t;
      if t <= 0.0 {
        QuotientBelow(q, dt, 0.0, t);
        assert Clamped(t) == 0.0 && Segment(t) == 0;
      }
      if t >= Duration() {
        QuotientAbove(q, dt, Last() as real, t);
        assert Clamped(t) == Last() as real && Segment(t) == Last() - 1;
      }
    }

    /** Amplitudes too, but for negative ones, which play as silence. */
    lemma AmplitudeHitsFrames(tap: nat, f: nat)
      requires WellFormed() && tap < tapCount && f < frameCount
      ensures SampleAmplitude(tap, f as real * dt) == if amplitudes[f][tap] >= 0.0 then amplitudes[f][tap] else 0.0
    {
      FrameSegment(f);
      InterpAtEnds(amplitudes, tap, Segment(f as real * dt));
    }

    /** An amplitude that is constant over the record plays as that constant, and any stays below its greatest
        frame by at most an eighth of its range more. */
    lemma AmplitudeOvershoot(tap: nat, t: real, lo: real, hi: real)
      requires WellFormed() && tap < tapCount && 0.0 <= lo <= hi
      requires forall f :: 0 <= f < frameCount ==> lo <= amplitudes[f][tap] <= hi
      ensures lo - (hi - lo) / 8.0 <= SampleAmplitude(tap, t) <= hi + (hi - lo) / 8.0
    {
      var i := Segment(t);
      var first, last: nat := if i == 0 then 0 else i - 1, if i + 2 <= Last() then i + 2 else Last();
      var p0, p1, p2, p3 := amplitudes[first][tap], amplitudes[i][tap], amplitudes[i + 1][tap], amplitudes[last][tap];
      CubicOvershoot(p0, p1, p2, p3, Clamped(t) - i as real, lo, hi);
    }

    /** The interpolated delay leaves the range of its four frames by at most an eighth of that range. */
    lemma SampleOvershoot(tap: nat, t: real, lo: real, hi: real)
      requires WellFormed() && tap < tapCount
      requires forall f :: 0 <= f < frameCount && Segment(t) - 1 <= f <= Segment(t) + 2 ==> lo <= delays[f][tap] <= hi
      ensures lo - (hi - lo) / 8.0 <= SampleDelay(tap, t) <= hi + (hi - lo) / 8.0
    {
      var i := Segment(t);
      var first, last: nat := if i == 0 then 0 else i - 1, if i + 2 <= Last() then i + 2 else Last();
      var p0, p1, p2, p3 := delays[first][tap], delays[i][tap], delays[i + 1][tap], delays[last][tap];
      CubicOvershoot(p0, p1, p2, p3, Clamped(t) - i as real, lo, hi);
    }

    /** Tap k's delays are the straight line d0 + slope * f over the frames. */
    ghost predicate Ramp(tap: nat, d0: real, slope: real)
      requires WellFormed() && tap < tapCount
    {
      forall f :: 0 <= f < frameCount ==> delays[f][tap] == d0 + slope * f as real
    }

    /** On interior segments a straight line is reproduced exactly. */
    lemma LinearInterior(tap: nat, t: real, d0: real, slope: real)
      requires WellFormed() && tap < tapCount && Ramp(tap, d0, slope)
      requires 1 <= Segment(t) && Segment(t) + 2 <= Last()
      ensures SampleDelay(tap, t) == d0 + slope * Clamped(t)
    {
      var i := Segment(t);
      CubicOfLine(delays[i][tap], slope, Clamped(t) - i as real);
    }

    /** So is an amplitude that rises or falls evenly. */
    lemma AmplitudeInterior(tap: nat, t: real, a0: real, slope: real)
      requires WellFormed() && tap < tapCount && (forall f :: 0 <= f < frameCount ==> amplitudes[f][tap] == a0 + slope * f as real)
      requires 1 <= Segment(t) && Segment(t) + 2 <= Last()
      ensures SampleAmplitude(tap, t) == MaxReal(a0 + slope * Clamped(t), 0.0)
    {
      var i := Segment(t);
      CubicOfLine(amplitudes[i][tap], slope, Clamped(t) - i as real);
    }

    /** Everywhere, end segments included, a straight line stays between its first and last value. */
    lemma LinearStaysInRange(tap: nat, t: real, d0: real, slope: real, lo: real, hi: real)
      requires WellFormed() && tap < tapCount && Ramp(tap, d0, slope)
      requires forall f :: 0 <= f < frameCount ==> lo <= delays[f][tap] <= hi
      ensures lo <= SampleDelay(tap, t) <= hi
    {
      var i := Segment(t);
      var p0 := delays[if i == 0 then 0 else i - 1][tap];
      var p3 := delays[if i + 2 <= Last() then i + 2 else Last()][tap];
      CubicOfClampedLine(p0, delays[i][tap], delays[i + 1][tap], p3, slope, Clamped(t) - i as real, lo, hi);
    }
  }

  lemma QuotientBelow(q: real, d: real, limit: real, t: real)
    requires d > 0.0 && q * d == t && t <= limit * d
    ensures q <= limit
  {
    if q > limit {
      ProductStrict(limit, q, d);
    }
  }

  lemma QuotientAbove(q: real, d: real, limit: real, t: real)
    requires d > 0.0 && q * d == t && t >= limit * d
    ensures q >= limit
  {
    if q < limit {
      ProductStrict(q, limit, d);
    }
  }

  /** The cubic as a weighted sum: the outer weights are -t(1-t)^2/2 and -t^2(1-t)/2. */
  lemma CubicWeights(h0: real, h1: real, h2: real, h3: real, t: real)
    ensures Cubic(h0, h1, h2, h3, t)
      == h0 * (-0.5 * (t * (1.0 - t)) * (1.0 - t)) + h3 * (-0.5 * (t * (1.0 - t)) * t)
         + h1 * ((1.0 - t) * (1.0 + t - 1.5 * (t * t))) + h2 * (t * (0.5 + 2.0 * t - 1.5 * (t * t)))
  {
  }

  lemma CubicOvershoot(h0: real, h1: real, h2: real, h3: real, t: real, lo: real, hi: real)
    requires 0.0 <= t <= 1.0
    requires lo <= h0 <= hi && lo <= h1 <= hi && lo <= h2 <= hi && lo <= h3 <= hi
    ensures lo - (hi - lo) / 8.0 <= Cubic(h0, h1, h2, h3, t) <= hi + (hi - lo) / 8.0
  {
    CubicBelow(h0, h1, h2, h3, t, lo, hi);
    CubicBelow(-h0, -h1, -h2, -h3, t, -hi, -lo);
    assert Cubic(-h0, -h1, -h2, -h3, t) == -Cubic(h0, h1, h2, h3, t);
  }

  lemma CubicBelow(h0: real, h1: real, h2: real, h3: real, t: real, lo: real, hi: real)
    requires 0.0 <= t <= 1.0
    requires lo <= h0 <= hi && lo <= h1 <= hi && lo <= h2 <= hi && lo <= h3 <= hi
    ensures Cubic(h0, h1, h2, h3, t) <= hi + (hi - lo) / 8.0
  {
    SquareGap(t);
    var q := t * (1.0 - t);
    var w0, w3 := 0.5 * q * (1.0 - t), 0.5 * q * t;
    var w1, w2 := (1.0 - t) * (1.0 + t - 1.5 * (t * t)), t * (0.5 + 2.0 * t - 1.5 * (t * t));
    ProductNonNegative(0.5 * q, 1.0 - t);
    ProductNonNegative(0.5 * q, t);
    ProductNonNegative(1.0 - t, 1.0 + t - 1.5 * (t * t));
    ProductNonNegative(t, 0.5 + 2.0 * t - 1.5 * (t * t));
    WeightsSum(t);
    assert w0 + w3 == 0.5 * q;
    CubicWeights(h0, h1, h2, h3, t);
    WeightedBound(w0, w1, w2, w3, h0, h1, h2, h3, lo, hi, Cubic(h0, h1, h2, h3, t));
  }

  lemma WeightsSum(t: real)
    ensures (1.0 - t) * (1.0 + t - 1.5 * (t * t)) + t * (0.5 + 2.0 * t - 1.5 * (t * t))
      == 1.0 + 0.5 * (t * (1.0 - t)) * (1.0 - t) + 0.5 * (t * (1.0 - t)) * t
  {
  }

  lemma WeightedBound(w0: real, w1: real, w2: real, w3: real, h0: real, h1: real, h2: real, h3: real,
                      lo: real, hi: real, y: real)
    requires w0 >= 0.0 && w1 >= 0.0 && w2 >= 0.0 && w3 >= 0.0
    requires w1 + w2 == 1.0 + w0 + w3 && w0 + w3 <= 0.125
    requires lo <= h0 && lo <= h3 && h1 <= hi && h2 <= hi && lo <= hi
    requires y == h0 * (-w0) + h3 * (-w3) + h1 * w1 + h2 * w2
    ensures y <= hi + (hi - lo) / 8.0
  {
    ProductNonNegative(h0 - lo, w0);
    ProductNonNegative(h3 - lo, w3);
    ProductNonNegative(hi - h1, w1);
    ProductNonNegative(hi - h2, w2);
    var d := w0 + w3;
    assert hi * w1 + hi * w2 == hi * (w1 + w2) == hi + hi * w0 + hi * w3;
    assert y <= hi + (hi * w0 + hi * w3 - lo * w0 - lo * w3);
    assert (hi - lo) * d == hi * w0 + hi * w3 - lo * w0 - lo * w3;
    ProductMonotone(d, 0.125, hi - lo);
  }

  lemma CubicOfLine(p: real, s: real, t: real)
    ensures Cubic(p - s, p, p + s, p + 2.0 * s, t) == p + s * t
  {
  }

  /** A line whose outer frames may be duplicated at the ends of the grid. */
  lemma CubicOfClampedLine(p0: real, p1: real, p2: real, p3: real, s: real, t: real, lo: real, hi: real)
    requires 0.0 <= t <= 1.0 && p2 == p1 + s
    requires (p0 == p1 - s || p0 == p1) && (p3 == p2 + s || p3 == p2)
    requires lo <= p1 <= hi && lo <= p2 <= hi
    ensures lo <= Cubic(p0, p1, p2, p3, t) <= hi
  {
    if p0 == p1 && p3 == p2 {
      CubicOfStretchedRamp(p1, s, 0.0, 1.0, t, lo, hi);
    } else if p0 == p1 {
      CubicOfStretchedRamp(p1, s, 0.0, 2.0, t, lo, hi);
    } else if p3 == p2 {
      CubicOfStretchedRamp(p1, s, -1.0, 1.0, t, lo, hi);
    } else {
      CubicOfStretchedRamp(p1, s, -1.0, 2.0, t, lo, hi);
    }
  }

  lemma CubicOfStretchedRamp(p: real, s: real, u0: real, u3: real, t: real, lo: real, hi: real)
    requires 0.0 <= t <= 1.0 && (u0 == 0.0 || u0 == -1.0) && (u3 == 1.0 || u3 == 2.0)
    requires lo <= p <= hi && lo <= p + s <= hi
    ensures lo <= Cubic(p + s * u0, p, p + s, p + s * u3, t) <= hi
  {
    CubicAffine(p, s, u0, u3, t);
    UnitRamp(u0, u3, t);
    Between(p, s, Cubic(u0, 0.0, 1.0, u3, t), lo, hi);
  }

  lemma Between(p: real, s: real, a: real, lo: real, hi: real)
    requires 0.0 <= a <= 1.0 && lo <= p <= hi && lo <= p + s <= hi
    ensures lo <= p + s * a <= hi
  {
    if s >= 0.0 {
      ProductNonNegative(s, a);
      ProductNonNegative(s, 1.0 - a);
    } else {
      ProductNonNegative(-s, a);
      ProductNonNegative(-s, 1.0 - a);
    }
  }

  lemma CubicAffine(p: real, s: real, u0: real, u3: real, t: real)
    ensures Cubic(p + s * u0, p, p + s, p + s * u3, t) == p + s * Cubic(u0, 0.0, 1.0, u3, t)
  {
  }

  /** The four shapes of a unit ramp, with either end duplicated or not, stay within the unit interval. */
  lemma UnitRamp(u0: real, u3: real, t: real)
    requires 0.0 <= t <= 1.0 && (u0 == 0.0 || u0 == -1.0) && (u3 == 1.0 || u3 == 2.0)
    ensures 0.0 <= Cubic(u0, 0.0, 1.0, u3, t) <= 1.0
  {
    SquareGap(t);
    var y := Cubic(u0, 0.0, 1.0, u3, t);
    if u0 == -1.0 && u3 == 2.0 {
      assert y == t;
    } else if u0 == 0.0 && u3 == 2.0 {
      NonNegativeFactors(t, 0.5 + t - 0.5 * (t * t), y);
      NonNegativeFactors(1.0 - t, 1.0 + 0.5 * t - 0.5 * (t * t), 1.0 - y);
    } else if u0 == -1.0 && u3 == 1.0 {
      NonNegativeFactors(t, 1.0 + 0.5 * t - 0.5 * (t * t), y);
      NonNegativeFactors(1.0 - t, 1.0 - 0.5 * (t * t), 1.0 - y);
    } else {
      NonNegativeFactors(t, 0.5 + 1.5 * t - t * t, y);
      NonNegativeFactors(1.0 - t, 1.0 + 0.5 * t - t * t, 1.0 - y);
    }
  }
}
