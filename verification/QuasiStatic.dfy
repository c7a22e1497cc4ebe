/** Conversion of a frozen tap set to a replay record: one straight delay line per tap. */
module QuasiStatics {
  import opened RealArithmetic
  import opened TapTrajectories

  const MAX_DELAY_S: real := 0.2

  datatype QuasiStaticTaps = QuasiStaticTaps(delays: seq<real>, doppler: seq<real>, amplitudes: seq<real>,
                                             fcMeasured: real, v0: real)

  datatype Conversion = Converted(trajectory: Trajectory, anchorOffset: real) | TooShort | DelayTooLong

  /** Rounding to nearest, ties to even. */
  function RoundHalfEven(x: real): (n: int)
    ensures -0.5 <= x - n as real <= 0.5
    ensures x - n as real == 0.5 || x - n as real == -0.5 ==> n % 2 == 0
  {
    var f := x.Floor;
    var d := x - f as real;
    if d < 0.5 then f else if d > 0.5 then f + 1 else if f % 2 == 0 then f else f + 1
  }

  /** Delay drift of tap k in seconds per second. */
  function Slope(taps: QuasiStaticTaps, k: nat, reinstallV0: bool, soundSpeed: real): real
    requires k < |taps.doppler| && taps.fcMeasured != 0.0 && soundSpeed != 0.0
  {
    -taps.doppler[k] / taps.fcMeasured + (if reinstallV0 && taps.v0 != 0.0 then taps.v0 / soundSpeed else 0.0)
  }

  /** A tone heard through a delay that grows by s seconds a second is lowered by s times its frequency: the slope
      lowers a tone at the measured carrier by minus its measured Doppler shift, and by the shift of receding at the
      reinstalled speed. */
  lemma SlopeIsDoppler(taps: QuasiStaticTaps, k: nat, reinstallV0: bool, soundSpeed: real)
    requires k < |taps.doppler| && taps.fcMeasured != 0.0 && soundSpeed != 0.0
    ensures var shift := -taps.fcMeasured * Slope(taps, k, reinstallV0, soundSpeed);
      (taps.doppler[k] - shift) * soundSpeed == if reinstallV0 then taps.fcMeasured * taps.v0 else 0.0
  {
    var f, c, d := taps.fcMeasured, soundSpeed, taps.doppler[k];
    var s := Slope(taps, k, reinstallV0, soundSpeed);
    var a, b := -d / f, if reinstallV0 then taps.v0 / c else 0.0;
    assert a * f == -d && b * c == if reinstallV0 then taps.v0 else 0.0;
    assert s == a + b;
    ShiftOfSlope(d, f, c, a, b, b * c);
  }

  lemma ShiftOfSlope(d: real, f: real, c: real, a: real, b: real, v: real)
    requires a * f == -d && b * c == v
    ensures (d - -f * (a + b)) * c == f * v
  {
    assert f * (a + b) == a * f + b * f;
    assert (b * f) * c == f * (b * c);
    assert (d - -f * (a + b)) * c == (b * f) * c;
  }

  /** The delay matrix before anchoring: frames by taps. */
  function RawDelays(taps: QuasiStaticTaps, slopes: seq<real>, frames: nat, dt: real): (m: seq<seq<real>>)
    requires |slopes| == |taps.delays|
    ensures |m| == frames && forall f :: 0 <= f < frames ==> |m[f]| == |taps.delays|
  {
    seq(frames, f requires 0 <= f < frames =>
      seq(|taps.delays|, k requires 0 <= k < |taps.delays| => taps.delays[k] + slopes[k] * (f as real * dt)))
  }

  function Shifted(m: seq<seq<real>>, offset: real): (s: seq<seq<real>>)
    ensures |s| == |m|
    ensures forall f :: 0 <= f < |m| ==> |s[f]| == |m[f]| && forall k :: 0 <= k < |m[f]| ==> s[f][k] == m[f][k] + offset
  {
    seq(|m|, f requires 0 <= f < |m| => seq(|m[f]|, k requires 0 <= k < |m[f]| => m[f][k] + offset))
  }

  /** The extreme entries of a matrix with no empty row. */
  ghost predicate IsExtreme(m: seq<seq<real>>, x: real, sign: real) {
    && (exists f, k :: 0 <= f < |m| && 0 <= k < |m[f]| && m[f][k] == x)
    && (forall f, k :: 0 <= f < |m| && 0 <= k < |m[f]| ==> sign * m[f][k] >= sign * x)
  }

  /** Least entry for sign 1, greatest for sign -1. */
  method Extreme(m: seq<seq<real>>, sign: real) returns (x: real)
    requires m != [] && (sign == 1.0 || sign == -1.0)
    requires forall f :: 0 <= f < |m| ==> m[f] != []
    ensures IsExtreme(m, x, sign)
  {
    x := m[0][0];
    var f := 0;
    while f < |m|
      invariant f <= |m|
      invariant exists i, k :: 0 <= i < |m| && 0 <= k < |m[i]| && m[i][k] == x
      invariant forall i, k :: 0 <= i < f && 0 <= k < |m[i]| ==> sign * m[i][k] >= sign * x
    {
      var k := 0;
      while k < |m[f]|
        invariant k <= |m[f]|
        invariant exists i, j :: 0 <= i < |m| && 0 <= j < |m[i]| && m[i][j] == x
        invariant forall i, j :: 0 <= i < f && 0 <= j < |m[i]| ==> sign * m[i][j] >= sign * x
        invariant forall j :: 0 <= j < k ==> sign * m[f][j] >= sign * x
      {
        if sign * m[f][k] < sign * x {
          x := m[f][k];
        }
        k := k + 1;
      }
      f := f + 1;
    }
  }

  /** Every tap a straight line, everything at or above the guard, the guard attained, nothing above the
      largest frame delay. */
  ghost predicate AnchoredRamps(t: Trajectory, taps: QuasiStaticTaps, slopes: seq<real>, offset: real, guard: real)
    requires |slopes| == |taps.delays|
  {
    && t.WellFormed() && t.tapCount == |taps.delays|
    && (forall k: nat :: k < t.tapCount ==> t.Ramp(k, taps.delays[k] + offset, slopes[k] * t.dt))
    && IsExtreme(t.delays, guard, 1.0)
    && (forall f, k :: 0 <= f < |t.delays| && 0 <= k < |t.delays[f]| ==> t.delays[f][k] <= MAX_DELAY_S)
  }

  lemma AnchoringShiftsMinimum(m: seq<seq<real>>, least: real, guard: real)
    requires IsExtreme(m, least, 1.0)
    ensures IsExtreme(Shifted(m, guard - least), guard, 1.0)
  {
    var s := Shifted(m, guard - least);
    var f, k :| 0 <= f < |m| && 0 <= k < |m[f]| && m[f][k] == least;
    assert s[f][k] == guard;
    forall f, k | 0 <= f < |s| && 0 <= k < |s[f]|
      ensures s[f][k] >= guard
    {
      assert 1.0 * m[f][k] >= 1.0 * least;
    }
  }

  lemma RampOfShifted(t: Trajectory, taps: QuasiStaticTaps, slopes: seq<real>, offset: real, k: nat)
    requires t.WellFormed() && t.tapCount == |taps.delays| == |slopes| && k < t.tapCount
    requires t.delays == Shifted(RawDelays(taps, slopes, t.frameCount, t.dt), offset)
    ensures t.Ramp(k, taps.delays[k] + offset, slopes[k] * t.dt)
  {
    forall f | 0 <= f < t.frameCount
      ensures t.delays[f][k] == taps.delays[k] + offset + slopes[k] * t.dt * f as real
    {
      assert slopes[k] * (f as real * t.dt) == slopes[k] * t.dt * f as real;
    }
  }

  lemma RampsAnchored(t: Trajectory, taps: QuasiStaticTaps, slopes: seq<real>, offset: real, guard: real, greatest: real)
    requires t.WellFormed() && t.tapCount == |taps.delays| == |slopes|
    requires t.delays == Shifted(RawDelays(taps, slopes, t.frameCount, t.dt), offset)
    requires IsExtreme(t.delays, guard, 1.0) && IsExtreme(t.delays, greatest, -1.0) && greatest <= MAX_DELAY_S
    ensures AnchoredRamps(t, taps, slopes, offset, guard)
  {
    forall k: nat | k < t.tapCount
      ensures t.Ramp(k, taps.delays[k] + offset, slopes[k] * t.dt)
    {
      RampOfShifted(t, taps, slopes, offset, k);
    }
    forall f, k | 0 <= f < |t.delays| && 0 <= k < |t.delays[f]|
      ensures t.delays[f][k] <= MAX_DELAY_S
    {
      assert -1.0 * t.delays[f][k] >= -1.0 * greatest;
    }
  }

  /** The drift pushes some delay past the channel limit. */
  ghost predicate Overlong(raw: seq<seq<real>>, guard: real) {
    exists least, f, k :: IsExtreme(raw, least, 1.0) && 0 <= f < |raw| && 0 <= k < |raw[f]|
      && raw[f][k] + (guard - least) > MAX_DELAY_S
  }

  /** Two least entries of one matrix are equal. */
  lemma LeastIsUnique(m: seq<seq<real>>, x: real, y: real)
    requires IsExtreme(m, x, 1.0) && IsExtreme(m, y, 1.0)
    ensures x == y
  {
    var f, k :| 0 <= f < |m| && 0 <= k < |m[f]| && m[f][k] == x;
    assert 1.0 * m[f][k] >= 1.0 * y;
    var i, j :| 0 <= i < |m| && 0 <= j < |m[i]| && m[i][j] == y;
    assert 1.0 * m[i][j] >= 1.0 * x;
  }

  /** The anchored maximum exceeds the limit exactly when the drift pushes some delay past it. */
  lemma OverlongIff(raw: seq<seq<real>>, least: real, guard: real, greatest: real)
    requires IsExtreme(raw, least, 1.0) && IsExtreme(Shifted(raw, guard - least), greatest, -1.0)
    ensures Overlong(raw, guard) <==> greatest > MAX_DELAY_S
  {
    var s := Shifted(raw, guard - least);
    if greatest > MAX_DELAY_S {
      var f, k :| 0 <= f < |s| && 0 <= k < |s[f]| && s[f][k] == greatest;
      assert raw[f][k] + (guard - least) > MAX_DELAY_S;
    }
    if Overlong(raw, guard) {
      var x, f, k :| IsExtreme(raw, x, 1.0) && 0 <= f < |raw| && 0 <= k < |raw[f]|
        && raw[f][k] + (guard - x) > MAX_DELAY_S;
      LeastIsUnique(raw, x, least);
      assert -1.0 * s[f][k] >= -1.0 * greatest;
    }
  }

  /** Lift the raw delays so that their minimum sits on the guard; refuse them if the greatest is then
      past the channel limit. */
  method Anchor(taps: QuasiStaticTaps, slopes: seq<real>, frames: nat, dt: real, guardDelay: real) returns (r: Conversion)
    requires taps.delays != [] && |slopes| == |taps.delays| == |taps.amplitudes| && dt > 0.0 && frames >= 2
    ensures !r.TooShort? && (r.DelayTooLong? <==> Overlong(RawDelays(taps, slopes, frames, dt), guardDelay))
    ensures r.Converted? ==> AnchoredRamps(r.trajectory, taps, slopes, r.anchorOffset, guardDelay)
    ensures r.Converted? ==> r.trajectory.dt == dt && r.trajectory.frameCount == frames
    ensures r.Converted? ==> forall f :: 0 <= f < frames ==> r.trajectory.amplitudes[f] == taps.amplitudes
  {
    var raw := RawDelays(taps, slopes, frames, dt);
    var least := Extreme(raw, 1.0);
    var offset := guardDelay - least;
    var delays := Shifted(raw, offset);
    AnchoringShiftsMinimum(raw, least, guardDelay);
    var greatest := Extreme(delays, -1.0);
    OverlongIff(raw, least, guardDelay, greatest);
    if greatest > MAX_DELAY_S {
      return DelayTooLong;
    }
    var t := Trajectory(|taps.delays|, frames, dt, delays, seq(frames, f => taps.amplitudes));
    RampsAnchored(t, taps, slopes, offset, guardDelay, greatest);
    r := Converted(t, offset);
  }

  /** Render the tap set as anchored linear delay ramps on a uniform grid, or say why it cannot be done. */
  method QuasiStaticToTrajectories(taps: QuasiStaticTaps, recordDuration: real, dt: real, reinstallV0: bool,
                                   soundSpeed: real, guardDelay: real)
    returns (r: Conversion, ghost slopes: seq<real>)
    requires taps.delays != [] && |taps.delays| == |taps.doppler| == |taps.amplitudes|
    requires taps.fcMeasured != 0.0 && soundSpeed != 0.0 && dt > 0.0
    ensures |slopes| == |taps.delays| && forall k :: 0 <= k < |slopes| ==> slopes[k] == Slope(taps, k, reinstallV0, soundSpeed)
    ensures r.TooShort? <==> RoundHalfEven(recordDuration / dt) + 1 < 2
    ensures !r.TooShort? ==>
      (r.DelayTooLong? <==> Overlong(RawDelays(taps, slopes, RoundHalfEven(recordDuration / dt) + 1, dt), guardDelay))
    ensures r.Converted? ==> AnchoredRamps(r.trajectory, taps, slopes, r.anchorOffset, guardDelay)
    ensures r.Converted? ==> r.trajectory.dt == dt && r.trajectory.frameCount == RoundHalfEven(recordDuration / dt) + 1
    ensures r.Converted? ==> forall f :: 0 <= f < r.trajectory.frameCount ==> r.trajectory.amplitudes[f] == taps.amplitudes
  {
    var rates := seq(|taps.delays|, k requires 0 <= k < |taps.delays| => Slope(taps, k, reinstallV0, soundSpeed));
    slopes := rates;
    var frames := RoundHalfEven(recordDuration / dt) + 1;
    if frames < 2 {
      return TooShort, slopes;
    }
    r := Anchor(taps, rates, frames, dt, guardDelay);
  }

  /** A converted record never plays back a delay below the guard or above its own greatest frame delay, at
      any record time, the clamped end segments included. */
  lemma ConvertedStaysInRange(t: Trajectory, taps: QuasiStaticTaps, slopes: seq<real>, offset: real, guard: real,
                              greatest: real, k: nat, time: real)
    requires |slopes| == |taps.delays| && AnchoredRamps(t, taps, slopes, offset, guard) && k < t.tapCount
    requires IsExtreme(t.delays, greatest, -1.0)
    ensures guard <= t.SampleDelay(k, time) <= greatest <= MAX_DELAY_S
  {
    forall f | 0 <= f < t.frameCount
      ensures guard <= t.delays[f][k] <= greatest
    {
      assert 1.0 * t.delays[f][k] >= 1.0 * guard;
      assert -1.0 * t.delays[f][k] >= -1.0 * greatest;
    }
    t.LinearStaysInRange(k, time, taps.delays[k] + offset, slopes[k] * t.dt, guard, greatest);
  }
}
