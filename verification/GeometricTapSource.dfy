/** The analytic tap source: paths at the current range, as excess delays over a fixed anchor. */
module GeometricTapSources {
  import opened RealArithmetic
  import opened GeometricScenes
  import opened TapSources
  import opened ArrivalAlignment

  datatype Outcome<+T> = Made(value: T) | NoEnabledPath

  function Ceil(x: real): int { -((-x).Floor) }

  function ClampReal(x: real, lo: real, hi: real): (y: real)
    requires lo <= hi
    ensures lo <= y <= hi && (lo <= x <= hi ==> y == x)
  {
    if x < lo then lo else if x > hi then hi else x
  }

  /** The anchor path's own delay in whole samples. */
  function StructuralDelay(anchor: real, soundSpeed: real, fs: nat): int
    requires soundSpeed > 0.0
  {
    RoundHalfUp(anchor / soundSpeed * fs as real)
  }

  /** That is the travel time along the anchor path, to within half a sample. */
  lemma StructuralDelayIsTravel(anchor: real, soundSpeed: real, fs: nat) returns (travel: real)
    requires soundSpeed > 0.0
    ensures travel * soundSpeed == anchor
    ensures travel * fs as real - 0.5 < StructuralDelay(anchor, soundSpeed, fs) as real <= travel * fs as real + 0.5
  {
    travel := anchor / soundSpeed;
  }

  /** Excess delay in samples of a path over the anchor, clamped at zero. */
  function Excess(length: real, anchor: real, soundSpeed: real, fs: nat): real
    requires soundSpeed > 0.0
  {
    MaxReal(0.0, (length - anchor) / soundSpeed) * fs as real
  }

  lemma ExcessMonotone(a: real, b: real, anchor: real, c: real, fs: nat)
    requires c > 0.0 && a <= b
    ensures 0.0 <= Excess(a, anchor, c, fs) <= Excess(b, anchor, c, fs)
  {
    var x, y := (a - anchor) / c, (b - anchor) / c;
    assert x <= y by {
      assert x * c == a - anchor && y * c == b - anchor;
      if y < x {
        ProductStrict(y, x, c);
      }
    }
    ProductMonotone(MaxReal(0.0, x), MaxReal(0.0, y), fs as real);
    ProductNonNegative(MaxReal(0.0, x), fs as real);
  }

  lemma AnchorNonNegative(anchor: real, c: real, fs: nat)
    requires c > 0.0 && anchor >= 0.0
    ensures StructuralDelay(anchor, c, fs) >= 0
  {
    ProductNonNegative(anchor / c, fs as real);
  }

  lemma ExcessUnclamped(length: real, anchor: real, c: real, fs: nat)
    requires c > 0.0 && anchor <= length
    ensures Excess(length, anchor, c, fs) == (length - anchor) / c * fs as real
  {
    assert (length - anchor) / c >= 0.0;
  }

  /** Length grows with range and with offset. */
  lemma LengthMonotone(r: real, s: real, e: real, f: real, root: real -> real)
    requires IsSquareRoot(root) && 0.0 <= r <= s && 0.0 <= e <= f
    ensures root(Square(r) + e) <= root(Square(s) + f)
  {
    SquareMonotone(r, s);
    RootMonotone(root, Square(r) + e, Square(s) + f);
  }

  lemma LengthsFromOffsets(paths: seq<Path>, offsets: seq<real>, r: real, root: real -> real)
    requires LengthsAt(paths, r, root) && Offsets(paths) == offsets
    ensures forall k: nat :: k < |offsets| ==> paths[k].length == root(Square(r) + offsets[k])
  {
    forall k: nat | k < |offsets|
      ensures paths[k].length == root(Square(r) + offsets[k])
    {
      assert Offsets(paths)[k] == Square(paths[k].image.dz);
    }
  }

  /** Images arranged at any range have their own offsets, in order, and the lengths those give. */
  lemma OffsetsOfArranged(cs: seq<Candidate>, offsets: seq<real>, r: real, root: real -> real)
    requires IsSquareRoot(root) && Sorted(offsets) && multiset(offsets) == multiset(CandidateOffsets(cs))
    ensures |Arranged(cs, r, root)| == |offsets| == |cs|
    ensures Offsets(Arranged(cs, r, root)) == offsets && multiset(Images(Arranged(cs, r, root))) == multiset(cs)
    ensures forall k: nat :: k < |offsets| ==> Arranged(cs, r, root)[k].length == root(Square(r) + offsets[k])
  {
    var paths := Arranged(cs, r, root);
    ArrangedKeeps(cs, r, root);
    OffsetsRearranged(Images(paths), cs);
    LengthOrderIsOffsetOrder(paths, r, root);
    SortedUnique(Offsets(paths), offsets);
    LengthsFromOffsets(paths, offsets, r, root);
  }

  /** The offsets of images in length order, whatever the range. */
  ghost function OffsetList(cs: seq<Candidate>, r: real, root: real -> real): seq<real> {
    Offsets(Arranged(cs, r, root))
  }

  lemma OffsetListIsOwn(cs: seq<Candidate>, r: real, root: real -> real)
    requires IsSquareRoot(root)
    ensures var o := OffsetList(cs, r, root);
      |o| == |cs| && Sorted(o) && multiset(o) == multiset(CandidateOffsets(cs)) && forall k :: 0 <= k < |o| ==> o[k] >= 0.0
  {
    ArrangedKeeps(cs, r, root);
    OffsetsRearranged(Images(Arranged(cs, r, root)), cs);
    LengthOrderIsOffsetOrder(Arranged(cs, r, root), r, root);
  }

  class GeometricTapSource {
    const geom: Geometry
    const root: real -> real
    const gainOf: Path -> real
    const rMin: real
    const rMax: real
    const soundSpeed: real
    const sampleRate: nat
    const configuredInitialRange: real
    const configuredRange: real
    const velocity: real
    const acceleration: real
    const anchorLength: real
    const baseDelay: int
    const maxTapDelta: int
    const sdlWorstExcess: int
    const tapCount: nat
    var initialRange: real

    /** The squared offset magnitudes of the taps, index by index. */
    ghost const offsets: seq<real>

    ghost predicate Valid() {
      && IsSquareRoot(root) && 0.0 <= rMin <= rMax && soundSpeed > 0.0
      && tapCount == |offsets| > 0 && Sorted(offsets) && (forall k :: 0 <= k < |offsets| ==> offsets[k] >= 0.0)
      && multiset(offsets) == multiset(CandidateOffsets(ActivePaths(geom, Candidates(geom))))
      && anchorLength == root(Square(rMin) + offsets[0])
      && Excess(root(Square(rMax) + offsets[tapCount - 1]), anchorLength, soundSpeed, sampleRate) <= sdlWorstExcess as real
      && Excess(root(Square(rMax) + offsets[tapCount - 1]), anchorLength, soundSpeed, sampleRate) <= maxTapDelta as real + 0.5
      && baseDelay == StructuralDelay(anchorLength, soundSpeed, sampleRate)
    }

    /** Built from this scene, motion and envelope. */
    ghost predicate Describes(geom: Geometry, root: real -> real, gainOf: Path -> real, rMin: real, rMax: real, soundSpeed: real,
                              sampleRate: nat, initialRange: real, range: real, velocity: real, acceleration: real)
    {
      && this.geom == geom && this.root == root && this.gainOf == gainOf && this.rMin == rMin && this.rMax == rMax
      && this.soundSpeed == (if soundSpeed > 0.0 then soundSpeed else 1500.0) && this.sampleRate == sampleRate
      && configuredInitialRange == initialRange && configuredRange == range
      && this.velocity == velocity && this.acceleration == acceleration
      && tapCount == |ActivePaths(geom, Candidates(geom))|
    }

    /** Anchors the base delay at the shortest enabled path at the least range, and sizes both buffers
        from the longest enabled path at the greatest range. */
    constructor (geom: Geometry, root: real -> real, gainOf: Path -> real, rMin: real, rMax: real,
                 soundSpeed: real, sampleRate: nat, initialRange: real, range: real, velocity: real, acceleration: real)
      requires IsSquareRoot(root) && 0.0 <= rMin <= rMax
      requires ActivePaths(geom, Candidates(geom)) != []
      ensures Valid() && Settled()
      ensures Describes(geom, root, gainOf, rMin, rMax, soundSpeed, sampleRate, initialRange, range, velocity, acceleration)
    {
      var c := if soundSpeed > 0.0 then soundSpeed else 1500.0;
      var n, anchor, worst, rminWorst;
      ghost var squares;
      n, anchor, worst, rminWorst, squares := Envelope(geom, root, rMin, rMax);
      this.geom, this.root, this.gainOf, this.rMin, this.rMax := geom, root, gainOf, rMin, rMax;
      this.soundSpeed, this.sampleRate := c, sampleRate;
      configuredInitialRange, configuredRange := initialRange, range;
      this.velocity, this.acceleration := velocity, acceleration;
      anchorLength := anchor;
      baseDelay := StructuralDelay(anchor, c, sampleRate);
      maxTapDelta := RoundHalfUp(Excess(worst, anchor, c, sampleRate));
      tapCount := n;
      sdlWorstExcess := LargerCeil(Excess(rminWorst, anchor, c, sampleRate), Excess(worst, anchor, c, sampleRate));
      this.initialRange := if initialRange > 0.0 then initialRange else range;
      offsets := squares;
    }

    /** Where the motion starts at every message. */
    function StartRange(): real {
      if configuredInitialRange > 0.0 then configuredInitialRange else configuredRange
    }

    ghost predicate Settled()
      reads this
    {
      initialRange == StartRange()
    }

    method OnMessageStart()
      modifies this
      ensures Settled()
    {
      initialRange := if configuredInitialRange > 0.0 then configuredInitialRange else configuredRange;
    }

    function RangeFrom(start: real, t: real): real {
      start + velocity * t + 0.5 * acceleration * t * t
    }

    /** The motion starts at `start` and covers any stretch of time at the speed it has half way through. */
    lemma RangeMoves(start: real, t: real, h: real)
      ensures RangeFrom(start, 0.0) == start
      ensures RangeFrom(start, t + h) - RangeFrom(start, t) == h * (velocity + acceleration * (t + 0.5 * h))
    {
    }

    function RangeAtSourceTime(t: real): real
      reads this
    {
      RangeFrom(initialRange, t)
    }

    lemma ExcessBetween(length: real, worst: real)
      requires soundSpeed > 0.0 && anchorLength <= length <= worst
      ensures 0.0 <= ExcessOf(length) <= ExcessOf(worst)
      ensures ExcessOf(length) == Unclamped(length)
    {
      ExcessMonotone(length, worst, anchorLength, soundSpeed, sampleRate);
      ExcessUnclamped(length, anchorLength, soundSpeed, sampleRate);
    }

    /** At every range of the envelope tap k's length lies between the anchor and the worst length, so its
        excess needs no clamping and stays within the delay line's margin. */
    lemma TapBounds(r: real, k: nat)
      requires Valid() && rMin <= r <= rMax && k < tapCount
      ensures var length := root(Square(r) + offsets[k]);
        && anchorLength <= length
        && Excess(length, anchorLength, soundSpeed, sampleRate) == TrueExcess(r, k)
        && 0.0 <= Excess(length, anchorLength, soundSpeed, sampleRate) <= sdlWorstExcess as real
        && Excess(length, anchorLength, soundSpeed, sampleRate) <= maxTapDelta as real + 0.5
    {
      LengthMonotone(rMin, r, offsets[0], offsets[k], root);
      LengthMonotone(r, rMax, offsets[k], offsets[tapCount - 1], root);
      ExcessBetween(root(Square(r) + offsets[k]), root(Square(rMax) + offsets[tapCount - 1]));
    }

    /** The taps at a range. */
    function TapsFor(r: real): (taps: seq<SourcedTap>)
      requires soundSpeed > 0.0
      ensures |taps| == |PathsAt(geom, r, root)|
    {
      var paths := PathsAt(geom, r, root);
      seq(|paths|, k requires 0 <= k < |paths| => SourcedTap(ExcessOf(paths[k].length), gainOf(paths[k])))
    }

    /** The taps at every time of a message, as the renderer queries them. */
    function Record(): real -> seq<SourcedTap>
      requires soundSpeed > 0.0 && rMin <= rMax
    {
      t => TapsFor(ClampReal(RangeFrom(StartRange(), t), rMin, rMax))
    }

    /** The arrivals at a range have exactly the tap source's offsets, in order. */
    lemma PathsHaveOffsets(r: real)
      requires Valid()
      ensures var paths := PathsAt(geom, r, root);
        && |paths| == tapCount && Offsets(paths) == offsets
        && multiset(Images(paths)) == multiset(ActivePaths(geom, Candidates(geom)))
        && forall k: nat :: k < tapCount ==> paths[k].length == root(Square(r) + offsets[k])
    {
      OffsetsOfArranged(ActivePaths(geom, Candidates(geom)), offsets, r, root);
    }

    /** Anywhere in the envelope there are tapCount taps, and their delays are the true excesses. */
    lemma TapsForIsTrue(r: real)
      requires Valid() && rMin <= r <= rMax
      ensures |TapsFor(r)| == tapCount
      ensures forall k: nat :: k < tapCount ==> TapsFor(r)[k].delta == TrueExcess(r, k)
    {
      PathsHaveOffsets(r);
      forall k: nat | k < tapCount
        ensures TapsFor(r)[k].delta == TrueExcess(r, k)
      {
        TapBounds(r, k);
      }
    }

    /** The sizes a renderer is built with are not negative. */
    lemma SizesNonNegative()
      requires Valid()
      ensures baseDelay >= 0 && maxTapDelta >= 0 && sdlWorstExcess >= 0
    {
      TapBounds(rMax, tapCount - 1);
      AnchorNonNegative(anchorLength, soundSpeed, sampleRate);
    }

    /** The taps at a message time. Whatever the motion, there are always tapCount of them, tap k is the
        path with squared offset offsets[k], and its delay is the true excess, between zero and the margin. */
    method TapsAt(t: real) returns (out: seq<SourcedTap>, ghost images: seq<Path>)
      requires Valid()
      ensures |out| == |images| == tapCount && Offsets(images) == offsets
      ensures multiset(Images(images)) == multiset(ActivePaths(geom, Candidates(geom)))
      ensures forall k: nat :: k < tapCount ==> out[k].gain == gainOf(images[k])
      ensures var r := ClampReal(RangeAtSourceTime(t), rMin, rMax);
        out == TapsFor(r) && forall k: nat :: k < tapCount ==> out[k].delta == TrueExcess(r, k)
      ensures forall k: nat :: k < tapCount ==>
        0.0 <= out[k].delta <= sdlWorstExcess as real && out[k].delta <= maxTapDelta as real + 0.5
      ensures Settled() ==> out == Record()(t)
    {
      var r := ClampReal(RangeAtSourceTime(t), rMin, rMax);
      var paths := PathsNow(r);
      images := paths;
      out := Resolved(paths);
      TapsForIsTrue(r);
      forall k: nat | k < tapCount
        ensures 0.0 <= out[k].delta <= sdlWorstExcess as real && out[k].delta <= maxTapDelta as real + 0.5
      {
        TapBounds(r, k);
      }
    }

    /** The loop over the paths. */
    method Resolved(paths: seq<Path>) returns (out: seq<SourcedTap>)
      requires soundSpeed > 0.0
      ensures |out| == |paths|
      ensures forall k :: 0 <= k < |out| ==> out[k] == SourcedTap(ExcessOf(paths[k].length), gainOf(paths[k]))
    {
      out := [];
      while |out| < |paths|
        invariant |out| <= |paths|
        invariant forall k :: 0 <= k < |out| ==> out[k] == SourcedTap(ExcessOf(paths[k].length), gainOf(paths[k]))
        decreases |paths| - |out|
      {
        var p := paths[|out|];
        out := out + [SourcedTap(ExcessOf(p.length), gainOf(p))];
      }
    }

    function ExcessOf(length: real): real
      requires soundSpeed > 0.0
    {
      Excess(length, anchorLength, soundSpeed, sampleRate)
    }

    /** The excess delay of tap k at range r, unclamped. */
    ghost function TrueExcess(r: real, k: nat): real
      requires soundSpeed > 0.0 && k < |offsets|
    {
      Unclamped(root(Square(r) + offsets[k]))
    }

    ghost function Unclamped(length: real): real
      requires soundSpeed > 0.0
    {
      (length - anchorLength) / soundSpeed * sampleRate as real
    }

    /** The sorted paths at a range have exactly the tap source's offsets, in order. */
    method PathsNow(r: real) returns (paths: seq<Path>)
      requires Valid()
      ensures paths == PathsAt(geom, r, root) && |paths| == tapCount && Offsets(paths) == offsets
      ensures multiset(Images(paths)) == multiset(ActivePaths(geom, Candidates(geom)))
      ensures forall k: nat :: k < tapCount ==> paths[k].length == root(Square(r) + offsets[k])
    {
      paths := ComputePaths(geom, r, root);
      PathsHaveOffsets(r);
    }
  }

  function LargerCeil(a: real, b: real): (n: int)
    ensures a <= n as real && b <= n as real
  {
    if Ceil(a) >= Ceil(b) then Ceil(a) else Ceil(b)
  }

  /** The shortest and longest arrivals at a range, from the offsets. */
  lemma EndLengths(cs: seq<Candidate>, offsets: seq<real>, r: real, root: real -> real)
    requires IsSquareRoot(root) && Sorted(offsets) && multiset(offsets) == multiset(CandidateOffsets(cs)) && cs != []
    ensures var paths, n := Arranged(cs, r, root), |cs|;
      && |paths| == |offsets| == n
      && paths[0].length == root(Square(r) + offsets[0]) && paths[n - 1].length == root(Square(r) + offsets[n - 1])
  {
    OffsetsOfArranged(cs, offsets, r, root);
  }

  lemma EnvelopeEnds(cs: seq<Candidate>, rMin: real, rMax: real, root: real -> real) returns (offsets: seq<real>)
    requires IsSquareRoot(root) && cs != []
    ensures |offsets| == |cs| && Sorted(offsets) && forall k :: 0 <= k < |offsets| ==> offsets[k] >= 0.0
    ensures multiset(offsets) == multiset(CandidateOffsets(cs))
    ensures |Arranged(cs, rMin, root)| == |Arranged(cs, rMax, root)| == |cs|
    ensures Arranged(cs, rMin, root)[0].length == root(Square(rMin) + offsets[0])
    ensures Arranged(cs, rMin, root)[|cs| - 1].length == root(Square(rMin) + offsets[|cs| - 1])
    ensures Arranged(cs, rMax, root)[|cs| - 1].length == root(Square(rMax) + offsets[|cs| - 1])
  {
    offsets := OffsetList(cs, rMin, root);
    OffsetListIsOwn(cs, rMin, root);
    EndLengths(cs, offsets, rMin, root);
    EndLengths(cs, offsets, rMax, root);
  }

  /** The paths at both ends of the range envelope, summed up in what sizing needs. */
  method Envelope(geom: Geometry, root: real -> real, rMin: real, rMax: real)
    returns (n: nat, anchor: real, worst: real, rminWorst: real, ghost offsets: seq<real>)
    requires IsSquareRoot(root) && ActivePaths(geom, Candidates(geom)) != []
    ensures n == |ActivePaths(geom, Candidates(geom))|
    ensures n == |offsets| > 0 && Sorted(offsets) && forall k :: 0 <= k < |offsets| ==> offsets[k] >= 0.0
    ensures multiset(offsets) == multiset(CandidateOffsets(ActivePaths(geom, Candidates(geom))))
    ensures anchor == root(Square(rMin) + offsets[0]) && worst == root(Square(rMax) + offsets[n - 1])
    ensures rminWorst == root(Square(rMin) + offsets[n - 1])
  {
    var pathsRmin := ComputePaths(geom, rMin, root);
    var pathsRmax := ComputePaths(geom, rMax, root);
    offsets := EnvelopeEnds(ActivePaths(geom, Candidates(geom)), rMin, rMax, root);
    n := |pathsRmin|;  // the two counts are equal, so this is their maximum
    anchor, worst := pathsRmin[0].length, pathsRmax[|pathsRmax| - 1].length;
    rminWorst := pathsRmin[|pathsRmin| - 1].length;
  }

  /** A scene with no enabled path is rejected; any other is accepted. */
  method MakeGeometricTapSource(geom: Geometry, root: real -> real, gainOf: Path -> real, rMin: real, rMax: real,
                                soundSpeed: real, sampleRate: nat, initialRange: real, range: real,
                                velocity: real, acceleration: real)
    returns (r: Outcome<GeometricTapSource>)
    requires IsSquareRoot(root) && 0.0 <= rMin <= rMax
    ensures r.NoEnabledPath? <==> ActivePaths(geom, Candidates(geom)) == []
    ensures r.Made? ==> r.value.Valid() && r.value.Settled() && fresh(r.value)
    ensures r.Made? ==> r.value.Describes(geom, root, gainOf, rMin, rMax, soundSpeed, sampleRate, initialRange, range,
                                          velocity, acceleration)
  {
    var paths := ComputePaths(geom, rMin, root);
    if |paths| == 0 {
      return NoEnabledPath;
    }
    var source := new GeometricTapSource(geom, root, gainOf, rMin, rMax, soundSpeed, sampleRate,
                                         initialRange, range, velocity, acceleration);
    r := Made(source);
  }
}
