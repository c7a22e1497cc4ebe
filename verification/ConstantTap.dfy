/** The delay line's window for a tap of constant delay: exactly which calls, and which whole messages, read
    only inside it, in terms of the delay, the clock drift, the cut of the message and the capacity. */
module ConstantTaps {
  import opened Basics
  import opened RealArithmetic
  import opened DelayLines
  import opened TapSources
  import opened TapScenes

  /** The scene has one tap, and it does not move. */
  ghost predicate Constant(view: Scene, d: real, g: real) {
    view.fs > 0.0 && view.Follows([AffineTap(d, 0.0, g, 0.0)])
  }

  /** How far behind receiver index j its read falls. */
  function LagAt(d: real, drift: real, j: int): real { d - j as real * drift }

  function ReadPos(d: real, drift: real, j: int): real { j as real * (1.0 + drift) - d }

  lemma ReadLags(d: real, drift: real, j: int)
    ensures ReadPos(d, drift, j) == j as real - LagAt(d, drift, j)
  {
  }

  lemma ReadsAdvance(d: real, drift: real, i: int, j: int)
    requires i <= j && drift > -1.0
    ensures ReadPos(d, drift, i) <= ReadPos(d, drift, j)
  {
    var rate := 1.0 + drift;
    ProductMonotone(i as real, j as real, rate);
    assert ReadPos(d, drift, i) == i as real * rate - d && ReadPos(d, drift, j) == j as real * rate - d;
  }

  lemma ReadBefore(d: real, drift: real, j: int)
    ensures ReadPos(d, drift, j - 1) == ReadPos(d, drift, j) - (1.0 + drift)
  {
    assert (j - 1) as real * (1.0 + drift) == j as real * (1.0 + drift) - (1.0 + drift);
  }

  /** The window, in positions: behind the last two samples or on the last, and past the oldest kept. */
  lemma WindowIff(count: int, capacity: int, pos: real)
    ensures Written(count, pos) <==> pos <= (count - 2) as real || pos == (count - 1) as real
    ensures Retained(count, capacity, pos) <==> pos >= (count - capacity + 1) as real
  {
  }

  lemma ConstantRead(view: Scene, d: real, g: real, m: nat, n: nat, i: nat)
    requires Constant(view, d, g) && n > 0
    ensures view.TapCount(m, n) == 1
    ensures view.Position(m, n, 0, i) == ReadPos(d, view.drift, m + i)
  {
    var law := [AffineTap(d, 0.0, g, 0.0)];
    view.AffineBlock(law, m, n, 0, i);
    assert law[0].At(m + i).delta == d;
  }

  ghost predicate ReadsInWindow(d: real, drift: real, from: nat, end: nat, written: nat, capacity: nat) {
    forall j: nat :: from <= j < end ==> InWindow(written, capacity, ReadPos(d, drift, j))
  }

  lemma BlockIsReads(view: Scene, d: real, g: real, m: nat, n: nat, written: nat, capacity: nat)
    requires Constant(view, d, g) && n > 0
    ensures view.BlockInWindow(m, n, written, capacity) <==> ReadsInWindow(d, view.drift, m, m + n, written, capacity)
  {
    forall i: nat | i < n
      ensures view.TapCount(m, n) == 1 && view.Position(m, n, 0, i) == ReadPos(d, view.drift, m + i)
    {
      ConstantRead(view, d, g, m, n, i);
    }
    ConstantRead(view, d, g, m, n, 0);
    if view.BlockInWindow(m, n, written, capacity) {
      forall j: nat | m <= j < m + n
        ensures InWindow(written, capacity, ReadPos(d, view.drift, j))
      {
        var i: nat := j - m;
        assert InWindow(written, capacity, view.Position(m, n, 0, i));
      }
    }
  }

  /** How a run is cut into blocks does not matter. */
  lemma {:induction false} RunIsReads(view: Scene, d: real, g: real, from: nat, end: nat, written: nat, capacity: nat)
    requires Constant(view, d, g)
    ensures view.RunInWindow(from, end, written, capacity) <==> ReadsInWindow(d, view.drift, from, end, written, capacity)
    decreases end - from
  {
    if from < end {
      var n: nat := Min(BLOCK, end - from);
      BlockIsReads(view, d, g, from, n, written, capacity);
      RunIsReads(view, d, g, from + n, end, written, capacity);
      SplitReads(d, view.drift, from, from + n, end, written, capacity);
    }
  }

  lemma SplitReads(d: real, drift: real, from: nat, mid: nat, end: nat, written: nat, capacity: nat)
    requires from <= mid <= end
    ensures ReadsInWindow(d, drift, from, end, written, capacity)
      <==> ReadsInWindow(d, drift, from, mid, written, capacity) && ReadsInWindow(d, drift, mid, end, written, capacity)
  {
  }

  /** The newest read of a call is at least one sample behind, or exactly on the newest sample. */
  predicate NewestFits(d: real, drift: real, m: nat, count: nat)
    requires count > 0
  {
    var lag := LagAt(d, drift, m + count - 1);
    lag >= 1.0 || (lag == 0.0 && (count == 1 || drift >= 0.0))
  }

  /** What a caller can check before a call of `count` samples from index m on. */
  predicate CallFits(d: real, drift: real, m: nat, count: nat, capacity: nat) {
    count == 0 || (NewestFits(d, drift, m, count) && LagAt(d, drift, m) + count as real + 1.0 <= capacity as real)
  }

  /** A call reads only inside the window exactly when its newest read is far enough behind and its oldest
      leaves room for the call. */
  lemma CallFitsIff(d: real, drift: real, m: nat, count: nat, capacity: nat)
    requires drift > -1.0
    ensures ReadsInWindow(d, drift, m, m + count, m + count, capacity) <==> CallFits(d, drift, m, count, capacity)
  {
    if count > 0 {
      ReadLags(d, drift, m);
      ReadLags(d, drift, m + count - 1);
      if ReadsInWindow(d, drift, m, m + count, m + count, capacity) {
        ReadsFit(d, drift, m, count, capacity);
      }
      if CallFits(d, drift, m, count, capacity) {
        forall j: nat | m <= j < m + count
          ensures InWindow(m + count, capacity, ReadPos(d, drift, j))
        {
          FitReads(d, drift, m, count, capacity, j);
        }
      }
    }
  }

  lemma ReadsFit(d: real, drift: real, m: nat, count: nat, capacity: nat)
    requires drift > -1.0 && count > 0 && ReadsInWindow(d, drift, m, m + count, m + count, capacity)
    ensures CallFits(d, drift, m, count, capacity)
  {
    var last := m + count - 1;
    ReadLags(d, drift, m);
    ReadLags(d, drift, last);
    WindowIff(m + count, capacity, ReadPos(d, drift, m));
    WindowIff(m + count, capacity, ReadPos(d, drift, last));
    if count > 1 {
      ReadBefore(d, drift, last);
      WindowIff(m + count, capacity, ReadPos(d, drift, last - 1));
    }
  }

  lemma FitReads(d: real, drift: real, m: nat, count: nat, capacity: nat, j: nat)
    requires drift > -1.0 && count > 0 && CallFits(d, drift, m, count, capacity) && m <= j < m + count
    ensures InWindow(m + count, capacity, ReadPos(d, drift, j))
  {
    var last := m + count - 1;
    ReadLags(d, drift, m);
    ReadLags(d, drift, last);
    ReadsAdvance(d, drift, m, j);
    WindowIff(m + count, capacity, ReadPos(d, drift, j));
    if j < last {
      ReadsAdvance(d, drift, j, last - 1);
      ReadBefore(d, drift, last);
    }
  }

  /** The read at `pos` is right for every source. */
  ghost predicate Right(count: nat, capacity: nat, pos: real)
    requires capacity > 0
  {
    forall x :: RightFor(x, count, capacity, pos)
  }

  lemma RightIff(count: nat, capacity: nat, pos: real)
    requires 4 <= capacity <= count
    ensures Right(count, capacity, pos) <==> Clear(count, capacity, pos)
  {
    SourceReadExactIff(count, capacity, pos);
    FullLineWindow(count, capacity, pos);
    WindowIff(count, capacity, pos);
    IntegralAt(pos, count - capacity);
  }

  lemma IntegralAt(pos: real, z: int)
    ensures pos == z as real <==> pos == pos.Floor as real && pos.Floor == z
  {
  }

  /** The oldest read of a call keeps one more sample than the call behind it, or reads the last kept sample
      exactly. */
  predicate OldestExact(d: real, drift: real, m: nat, count: nat, capacity: nat) {
    var span := LagAt(d, drift, m) + count as real;
    span + 1.0 <= capacity as real || (span == capacity as real && (count == 1 || drift >= 0.0))
  }

  /** On a line that has filled, every read of a call is right for every source exactly under these two
      conditions; so a call that leaves the window, but for that one integral read, is wrong for some source. */
  lemma CallExactIff(d: real, drift: real, m: nat, count: nat, capacity: nat)
    requires drift > -1.0 && count > 0 && 4 <= capacity <= m + count
    ensures (forall j: nat :: m <= j < m + count ==> Right(m + count, capacity, ReadPos(d, drift, j)))
      <==> NewestFits(d, drift, m, count) && OldestExact(d, drift, m, count, capacity)
  {
    if forall j: nat :: m <= j < m + count ==> Right(m + count, capacity, ReadPos(d, drift, j)) {
      RightFits(d, drift, m, count, capacity);
    }
    if NewestFits(d, drift, m, count) && OldestExact(d, drift, m, count, capacity) {
      forall j: nat | m <= j < m + count
        ensures Right(m + count, capacity, ReadPos(d, drift, j))
      {
        FitsRight(d, drift, m, count, capacity, j);
      }
    }
  }

  lemma RightFits(d: real, drift: real, m: nat, count: nat, capacity: nat)
    requires drift > -1.0 && count > 0 && 4 <= capacity <= m + count
    requires forall j: nat :: m <= j < m + count ==> Right(m + count, capacity, ReadPos(d, drift, j))
    ensures NewestFits(d, drift, m, count) && OldestExact(d, drift, m, count, capacity)
  {
    var last, top := m + count - 1, m + count;
    ClearOf(top, capacity, ReadPos(d, drift, m));
    ClearOf(top, capacity, ReadPos(d, drift, last));
    if count > 1 {
      ClearOf(top, capacity, ReadPos(d, drift, last - 1));
      ClearOf(top, capacity, ReadPos(d, drift, m + 1));
    }
    ClearFits(d, drift, m, count, capacity);
  }

  /** Where a read on a full line is right. */
  predicate Clear(count: nat, capacity: nat, pos: real) {
    && (pos <= (count - 2) as real || pos == (count - 1) as real)
    && (pos >= (count - capacity + 1) as real || pos == (count - capacity) as real)
  }

  lemma ClearOf(count: nat, capacity: nat, pos: real)
    requires 4 <= capacity <= count && Right(count, capacity, pos)
    ensures Clear(count, capacity, pos)
  {
    RightIff(count, capacity, pos);
  }

  lemma ClearFits(d: real, drift: real, m: nat, count: nat, capacity: nat)
    requires drift > -1.0 && count > 0
    requires Clear(m + count, capacity, ReadPos(d, drift, m)) && Clear(m + count, capacity, ReadPos(d, drift, m + count - 1))
    requires count > 1 ==> Clear(m + count, capacity, ReadPos(d, drift, m + count - 2))
    requires count > 1 ==> Clear(m + count, capacity, ReadPos(d, drift, m + 1))
    ensures NewestFits(d, drift, m, count) && OldestExact(d, drift, m, count, capacity)
  {
    ReadLags(d, drift, m);
    ReadLags(d, drift, m + count - 1);
    ReadBefore(d, drift, m + count - 1);
    ReadBefore(d, drift, m + 1);
  }

  lemma FitsRight(d: real, drift: real, m: nat, count: nat, capacity: nat, j: nat)
    requires drift > -1.0 && count > 0 && 4 <= capacity <= m + count && m <= j < m + count
    requires NewestFits(d, drift, m, count) && OldestExact(d, drift, m, count, capacity)
    ensures Right(m + count, capacity, ReadPos(d, drift, j))
  {
    var last := m + count - 1;
    ReadLags(d, drift, m);
    ReadLags(d, drift, last);
    RightIff(m + count, capacity, ReadPos(d, drift, j));
    if j < last {
      ReadsAdvance(d, drift, j, last - 1);
      ReadBefore(d, drift, last);
    }
    if j > m {
      ReadsAdvance(d, drift, m + 1, j);
      ReadBefore(d, drift, m + 1);
    }
  }

  ghost predicate CallsFit(d: real, drift: real, sizes: seq<nat>, capacity: nat) {
    forall i :: 0 <= i < |sizes| ==> CallFits(d, drift, Total(sizes[..i]), sizes[i], capacity)
  }

  /** A whole message reads only inside the window exactly when each of its calls fits. */
  lemma {:induction false} MessageFitsIff(view: Scene, d: real, g: real, sizes: seq<nat>, capacity: nat)
    requires Constant(view, d, g) && view.drift > -1.0
    ensures view.CallsInWindow(0, sizes, capacity) <==> CallsFit(d, view.drift, sizes, capacity)
    decreases |sizes|
  {
    if sizes != [] {
      var front, m, count := sizes[..|sizes| - 1], Total(sizes[..|sizes| - 1]), sizes[|sizes| - 1];
      MessageFitsIff(view, d, g, front, capacity);
      RunIsReads(view, d, g, m, m + count, m + count, capacity);
      CallFitsIff(d, view.drift, m, count, capacity);
      CallsFitNext(d, view.drift, sizes, capacity);
    }
  }

  lemma CallsFitNext(d: real, drift: real, sizes: seq<nat>, capacity: nat)
    requires sizes != []
    ensures var front := sizes[..|sizes| - 1];
      CallsFit(d, drift, sizes, capacity) ==
      (CallsFit(d, drift, front, capacity) && CallFits(d, drift, Total(front), sizes[|sizes| - 1], capacity))
  {
    var front := sizes[..|sizes| - 1];
    forall i | 0 <= i < |front|
      ensures front[..i] == sizes[..i] && front[i] == sizes[i]
    {
    }
  }

  /** A message of q calls of b samples each. */
  function Equal(q: nat, b: nat): seq<nat> { seq(q, i => b) }

  lemma {:induction false} EqualTotal(q: nat, b: nat, i: nat)
    requires i <= q
    ensures Total(Equal(q, b)[..i]) == i * b
  {
    if i > 0 {
      EqualTotal(q, b, i - 1);
      assert Equal(q, b)[..i][..i - 1] == Equal(q, b)[..i - 1];
      assert i * b == (i - 1) * b + b;
    }
  }

  /** For equal calls the two ends of the message decide: when the read cursor gains on the producer the last
      newest read and the first oldest one, when it falls behind the other way round. */
  predicate EndsFit(d: real, drift: real, q: nat, b: nat, capacity: nat)
    requires q > 0 && b > 0
  {
    var room := capacity as real - b as real - 1.0;
    if drift == 0.0 then (d >= 1.0 || d == 0.0) && d <= room
    else if drift > 0.0 then LagAt(d, drift, q * b - 1) >= 1.0 && d <= room
    else LagAt(d, drift, b - 1) >= 1.0 && LagAt(d, drift, (q - 1) * b) <= room
  }

  lemma LagMonotone(d: real, drift: real, i: int, j: int)
    requires i <= j
    ensures drift >= 0.0 ==> LagAt(d, drift, j) <= LagAt(d, drift, i)
    ensures drift <= 0.0 ==> LagAt(d, drift, i) <= LagAt(d, drift, j)
  {
    if drift >= 0.0 {
      ProductMonotone(i as real, j as real, drift);
    } else {
      ProductMonotone(i as real, j as real, -drift);
    }
  }

  predicate SlowDrift(drift: real, b: nat) { -1.0 < drift * b as real < 1.0 }

  /** The closed form for equal calls whose drift over one call stays below a sample. */
  lemma EqualCallsIff(view: Scene, d: real, g: real, q: nat, b: nat, capacity: nat)
    requires Constant(view, d, g) && q >= 2 && b >= 2
    requires SlowDrift(view.drift, b)
    ensures view.CallsInWindow(0, Equal(q, b), capacity) <==> EndsFit(d, view.drift, q, b, capacity)
  {
    var drift := view.drift;
    DriftOfCall(drift, b);
    MessageFitsIff(view, d, g, Equal(q, b), capacity);
    if CallsFit(d, drift, Equal(q, b), capacity) {
      EqualCallFits(d, drift, q, b, capacity, 0);
      EqualCallFits(d, drift, q, b, capacity, q - 2);
      EqualCallFits(d, drift, q, b, capacity, q - 1);
      CallsImplyEnds(d, drift, q, b, capacity);
    }
    if EndsFit(d, drift, q, b, capacity) {
      forall i | 0 <= i < q
        ensures CallFits(d, drift, Total(Equal(q, b)[..i]), Equal(q, b)[i], capacity)
      {
        EqualTotal(q, b, i);
        EndsImplyCall(d, drift, q, b, capacity, i);
      }
    }
  }

  lemma DriftOfCall(drift: real, b: nat)
    requires b >= 2 && SlowDrift(drift, b)
    ensures -1.0 < drift < 1.0
  {
    if drift >= 1.0 {
      ProductMonotone(1.0, drift, b as real);
    } else if drift <= -1.0 {
      ProductMonotone(1.0, -drift, b as real);
    }
  }

  lemma EqualCallFits(d: real, drift: real, q: nat, b: nat, capacity: nat, i: nat)
    requires i < q && CallsFit(d, drift, Equal(q, b), capacity)
    ensures CallFits(d, drift, i * b, b, capacity)
  {
    EqualTotal(q, b, i);
    assert CallFits(d, drift, Total(Equal(q, b)[..i]), Equal(q, b)[i], capacity);
  }

  lemma LagStep(d: real, drift: real, j: int, b: nat)
    ensures LagAt(d, drift, j - b) == LagAt(d, drift, j) + drift * b as real
  {
    assert (j - b) as real * drift == j as real * drift - b as real * drift;
  }

  lemma CallsImplyEnds(d: real, drift: real, q: nat, b: nat, capacity: nat)
    requires q >= 2 && b >= 2 && SlowDrift(drift, b)
    requires CallFits(d, drift, 0 * b, b, capacity) && CallFits(d, drift, (q - 2) * b, b, capacity)
    requires CallFits(d, drift, (q - 1) * b, b, capacity)
    ensures EndsFit(d, drift, q, b, capacity)
  {
    assert (q - 1) * b + b == q * b && (q - 2) * b + b == (q - 1) * b;
    LagStep(d, drift, q * b - 1, b);
    if drift > 0.0 {
      ProductPositive(drift, b as real);
    }
  }

  lemma EndsImplyCall(d: real, drift: real, q: nat, b: nat, capacity: nat, i: nat)
    requires i < q && b >= 2 && EndsFit(d, drift, q, b, capacity)
    ensures CallFits(d, drift, i * b, b, capacity)
  {
    IndexOrder(i, q, b);
    LagMonotone(d, drift, 0, i * b);
    LagMonotone(d, drift, i * b, (q - 1) * b);
    LagMonotone(d, drift, b - 1, i * b + b - 1);
    LagMonotone(d, drift, i * b + b - 1, q * b - 1);
  }

  lemma IndexOrder(i: nat, q: nat, b: nat)
    requires i < q
    ensures 0 <= i * b <= (q - 1) * b && i * b + b <= q * b
  {
    assert (q - 1) * b == i * b + (q - 1 - i) * b;
    assert (q - 1 - i) * b >= 0;
    assert q * b == (q - 1) * b + b;
  }

  /** A hundred parts per million against a 40.5-sample tap: blocks of 256 into a line of 512 slots read
      inside the window for 1500 blocks, three quarters of a second at 500 kHz, and not for 1600. */
  lemma HundredPpm(view: Scene, g: real)
    requires Constant(view, 40.5, g) && view.drift == 0.0001
    ensures view.CallsInWindow(0, Equal(1500, 256), 512)
    ensures !view.CallsInWindow(0, Equal(1600, 256), 512)
  {
    EqualCallsIff(view, 40.5, g, 1500, 256, 512);
    EqualCallsIff(view, 40.5, g, 1600, 256, 512);
  }

  /** A call longer than the line keeps behind it leaves the window without any drift: a 900-sample batch beside a
      40.5-sample tap. */
  lemma LongBatch(view: Scene, g: real)
    requires Constant(view, 40.5, g) && view.drift == 0.0
    ensures view.CallsInWindow(0, [400], 512) && !view.CallsInWindow(0, [900], 512)
  {
    MessageFitsIff(view, 40.5, g, [400], 512);
    MessageFitsIff(view, 40.5, g, [900], 512);
    assert [400][..0] == [] && [900][..0] == [];
    assert CallFits(40.5, 0.0, Total([400][..0]), [400][0], 512);
    assert !CallFits(40.5, 0.0, Total([900][..0]), [900][0], 512);
  }
}
