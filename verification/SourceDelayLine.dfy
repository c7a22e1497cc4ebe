/** The source-sample reservoir of the read-style renderer: a masked ring written one sample at a time
    and read at fractional, possibly negative, positions. */
module DelayLines {
  import opened Masking
  import opened Signals
  import opened RealArithmetic

  /** Cubic interpolation on an unbounded stream. */
  ghost function CubicAt(x: Signal, pos: real): real {
    var n := pos.Floor;
    Cubic(x(n - 1), x(n), x(n + 1), x(n + 2), pos - n as real)
  }

  /** Every sample the interpolation at `pos` depends on has been written: two more follow it, or the
      position is integral and its sample is there. */
  predicate Written(count: int, pos: real) {
    pos.Floor + 2 < count || (pos == pos.Floor as real && pos.Floor < count)
  }

  /** No such sample has been overwritten in a ring of `capacity` slots. */
  predicate Retained(count: int, capacity: int, pos: real) {
    count - capacity <= pos.Floor - 1
  }

  /** All of them are in the ring. */
  predicate InWindow(count: int, capacity: int, pos: real) {
    Written(count, pos) && Retained(count, capacity, pos)
  }

  lemma CubicAtStable(x: seq<real>, more: seq<real>, pos: real)
    requires Written(|x|, pos)
    ensures CubicAt(Stream(x + more), pos) == CubicAt(Stream(x), pos)
  {
    var n := pos.Floor;
    forall i | i < |x|
      ensures At(x + more, i) == At(x, i)
    {
    }
    if n + 2 >= |x| {
      IntegralCubic(Stream(x), pos);
      IntegralCubic(Stream(x + more), pos);
    }
  }

  lemma IntegralCubic(x: Signal, pos: real)
    requires pos == pos.Floor as real
    ensures CubicAt(x, pos) == x(pos.Floor)
  {
  }

  class SourceDelayLine {
    const buffer: array<real>
    var producerPosition: nat

    /** Everything written since the last clear. */
    ghost var fed: seq<real>

    ghost predicate Valid()
      reads this, buffer
    {
      && RingCapacity(buffer.Length)
      && producerPosition == |fed|
      && Window(buffer[..], |fed| - buffer.Length, |fed|, Stream(fed))
    }

    constructor (minimum: nat)
      requires minimum <= U64 / 2
      ensures Valid() && fresh(buffer) && fed == [] && buffer.Length >= minimum
    {
      var cap := RoundUpPow2(minimum);
      buffer := new real[cap](i => 0.0);
      producerPosition, fed := 0, [];
    }

    method Clear()
      requires RingCapacity(buffer.Length)
      modifies this`producerPosition, this`fed, buffer
      ensures Valid() && fed == []
    {
      forall i | 0 <= i < buffer.Length {
        buffer[i] := 0.0;
      }
      producerPosition, fed := 0, [];
    }

    method Store(v: real, i: nat, ghost x: seq<real>)
      requires RingCapacity(buffer.Length) && producerPosition + i == |x|
      requires Window(buffer[..], |x| - buffer.Length, |x|, Stream(x))
      modifies buffer
      ensures Window(buffer[..], |x| + 1 - buffer.Length, |x| + 1, Stream(x + [v]))
    {
      ghost var z, ring, n := Stream(x + [v]), buffer[..], |x|;
      var slot := Mask(producerPosition + i, buffer.Length);
      assert Window(ring, n - |ring|, n, z) by {
        forall p | n - |ring| <= p < n
          ensures z(p) == Stream(x)(p)
        {
        }
      }
      WindowSlide(ring, n - |ring|, z);
      SlotWraps(n - |ring|, |ring|);
      buffer[slot] := v;
      assert buffer[..] == ring[Slot(n - |ring|, |ring|) := z(n)];
    }

    method Write(input: seq<real>)
      requires Valid()
      modifies this`producerPosition, this`fed, buffer
      ensures Valid() && fed == old(fed) + input
    {
      ghost var x := fed;
      var i := 0;
      assert x + input[..0] == x;
      while i < |input|
        invariant i <= |input|
        invariant Window(buffer[..], |x| + i - buffer.Length, |x| + i, Stream(x + input[..i]))
        modifies buffer
      {
        assert x + input[..i + 1] == x + input[..i] + [input[i]];
        Store(input[i], i, x + input[..i]);
        i := i + 1;
      }
      assert input[..i] == input;
      producerPosition := producerPosition + |input|;
      fed := x + input;
    }

    /** What the ring answers at `pos`, whatever the slots hold. */
    ghost function RawRead(pos: real): real
      requires buffer.Length > 0
      reads this, buffer
    {
      var n, len := pos.Floor, buffer.Length;
      Cubic(buffer[Slot(n - 1, len)], buffer[Slot(n, len)], buffer[Slot(n + 1, len)], buffer[Slot(n + 2, len)],
            pos - n as real)
    }

    method ReadAt(pos: real) returns (v: real)
      requires RingCapacity(buffer.Length)
      ensures v == RawRead(pos)
    {
      var n := pos.Floor;
      var mu := pos - n as real;
      var i0 := Mask(n - 1, buffer.Length);
      var i1 := Mask(n, buffer.Length);
      var i2 := Mask(n + 1, buffer.Length);
      var i3 := Mask(n + 2, buffer.Length);
      v := Cubic(buffer[i0], buffer[i1], buffer[i2], buffer[i3], mu);
    }

    lemma SlotHolds(p: int)
      requires Valid() && |fed| - buffer.Length <= p < |fed|
      ensures buffer[Slot(p, buffer.Length)] == At(fed, p)
    {
      assert buffer[..][Slot(p, buffer.Length)] == Stream(fed)(p);
    }

    /** What the ring answers is the interpolation of the ring's own stream. */
    lemma RawReadIsRingRead(pos: real)
      requires Valid()
      ensures RawRead(pos) == CubicAt(RingStream(fed, buffer.Length), pos)
    {
      var n := pos.Floor;
      forall p | n - 1 <= p <= n + 2
        ensures buffer[Slot(p, buffer.Length)] == RingStream(fed, buffer.Length)(p)
      {
        var q := Newest(|fed|, buffer.Length, p);
        SlotSame(p, q, buffer.Length);
        SlotHolds(q);
      }
    }

    /** Inside its window the ring is the zero-prefixed source: a read equals interpolation on the
        unbounded stream, at negative positions too, whatever arrives later. */
    lemma ReadIsInterpolation(pos: real, more: seq<real>)
      requires Valid() && Written(|fed|, pos) && Retained(|fed|, buffer.Length, pos)
      ensures RawRead(pos) == CubicAt(Stream(fed + more), pos)
    {
      var n := pos.Floor;
      CubicAtStable(fed, more, pos);
      SlotHolds(n);
      if n + 2 < |fed| {
        SlotHolds(n - 1);
        SlotHolds(n + 1);
        SlotHolds(n + 2);
      } else {
        IntegralCubic(Stream(fed), pos);
      }
    }

    /** Outside it the promise cannot be kept: if a needed sample has not been written, the read misses
        the stream for some continuation of the source. */
    lemma UnwrittenReadIsWrong(pos: real)
      requires Valid() && !Written(|fed|, pos)
      ensures exists more :: RawRead(pos) != CubicAt(Stream(fed + more), pos)
    {
      var n, mu := pos.Floor, pos - pos.Floor as real;
      var i: nat := if n >= |fed| then n - |fed| else n + 2 - |fed|;
      var a, b := Zeros(i) + [0.0], Zeros(i) + [1.0];
      if RawRead(pos) == CubicAt(Stream(fed + a), pos) {
        forall p
          ensures Stream(fed + b)(p) == Stream(fed + a)(p) + (if p == |fed| + i then 1.0 else 0.0)
        {
        }
        SpikeShows(Stream(fed + a), Stream(fed + b), pos, |fed| + i);
      }
    }

    /** So, while nothing needed has been overwritten, a read is exact for every source exactly when
        everything it depends on has been written. */
    lemma ReadExactIff(pos: real)
      requires Valid() && Retained(|fed|, buffer.Length, pos)
      ensures (forall more :: RawRead(pos) == CubicAt(Stream(fed + more), pos)) <==> Written(|fed|, pos)
    {
      if Written(|fed|, pos) {
        forall more
          ensures RawRead(pos) == CubicAt(Stream(fed + more), pos)
        {
          ReadIsInterpolation(pos, more);
        }
      } else {
        UnwrittenReadIsWrong(pos);
      }
    }
  }

  /** The latest position before `count` that shares the slot of p: whose sample the ring answers with. */
  ghost function Newest(count: int, capacity: nat, p: int): (q: int)
    requires capacity > 0
    ensures count - capacity <= q < count && (p - q) % capacity == 0
    ensures p < count ==> p <= q
  {
    NewestCongruent(count - 1 - p, capacity);
    count - 1 - (count - 1 - p) % capacity
  }

  lemma NewestCongruent(a: int, capacity: nat)
    requires capacity > 0
    ensures (a % capacity - a) % capacity == 0 && (a >= 0 ==> a % capacity <= a)
  {
    ModUnique(a % capacity - a, capacity, -(a / capacity), 0);
    if a >= 0 && a < capacity {
      ModUnique(a, capacity, 0, a);
    }
  }

  /** The ring as a stream: after the samples x it repeats the last `capacity` of them. */
  ghost function RingStream(x: seq<real>, capacity: nat): Signal
    requires capacity > 0
  {
    (p: int) => At(x, Newest(|x|, capacity, p))
  }

  /** The samples a read at `pos` gives weight to. */
  predicate Needed(pos: real, p: int) {
    p == pos.Floor || (pos != pos.Floor as real && pos.Floor - 1 <= p <= pos.Floor + 2)
  }

  /** The ring answers for p with p's own sample, or with silence for silence. */
  ghost predicate Held(count: nat, capacity: nat, p: int)
    requires capacity > 0
  {
    Newest(count, capacity, p) == p || (p < 0 && Newest(count, capacity, p) < 0)
  }

  ghost predicate AllHeld(count: nat, capacity: nat, pos: real)
    requires capacity > 0
  {
    forall p :: Needed(pos, p) ==> Held(count, capacity, p)
  }

  /** Once `count` samples of the source x are in, the read is right for it. */
  ghost predicate RightFor(x: seq<real>, count: nat, capacity: nat, pos: real)
    requires capacity > 0
  {
    |x| >= count ==> CubicAt(RingStream(x[..count], capacity), pos) == CubicAt(Stream(x), pos)
  }

  /** A read after `count` samples is right for every source exactly when the ring answers rightly for every
      sample the read gives weight to: nothing unwritten, nothing overwritten. */
  lemma SourceReadExactIff(count: nat, capacity: nat, pos: real)
    requires capacity >= 4
    ensures (forall x :: RightFor(x, count, capacity, pos)) <==> AllHeld(count, capacity, pos)
  {
    if AllHeld(count, capacity, pos) {
      forall x
        ensures RightFor(x, count, capacity, pos)
      {
        if |x| >= count {
          HeldReadIsRight(x, count, capacity, pos);
        }
      }
    } else {
      var p :| Needed(pos, p) && !Held(count, capacity, p);
      var x := WrongSource(count, capacity, pos, p);
    }
  }

  lemma HeldReadIsRight(x: seq<real>, count: nat, capacity: nat, pos: real)
    requires capacity >= 4 && |x| >= count && AllHeld(count, capacity, pos)
    ensures RightFor(x, count, capacity, pos)
  {
    var n, z := pos.Floor, RingStream(x[..count], capacity);
    forall p | Needed(pos, p)
      ensures z(p) == Stream(x)(p)
    {
      assert Held(count, capacity, p);
    }
    if pos == n as real {
      IntegralCubic(z, pos);
      IntegralCubic(Stream(x), pos);
    } else {
      assert Needed(pos, n - 1) && Needed(pos, n) && Needed(pos, n + 1) && Needed(pos, n + 2);
    }
  }

  /** A source that shows it: a single spike, where the read should see it or where it must not. */
  lemma WrongSource(count: nat, capacity: nat, pos: real, p: int) returns (x: seq<real>)
    requires capacity >= 4 && Needed(pos, p) && !Held(count, capacity, p)
    ensures !RightFor(x, count, capacity, pos)
  {
    var q := Newest(count, capacity, p);
    if p >= count {
      x := Zeros(p) + [1.0];
      NoSpike(RingStream(x[..count], capacity), pos);
      SpikeSeen(Stream(x), pos, p);
    } else {
      ApartByRing(p, q, capacity);
      x := Zeros(q) + [1.0] + Zeros(count - q - 1);
      assert x[..count] == x;
      NoSpike(Stream(x), pos);
      forall i | pos.Floor - 1 <= i <= pos.Floor + 2
        ensures RingStream(x, capacity)(i) == if i == p then 1.0 else 0.0
      {
        SameSlotOnlyOnce(count, capacity, p, i);
      }
      SpikeSeen(RingStream(x, capacity), pos, p);
    }
  }

  lemma ApartByRing(p: int, q: int, capacity: nat)
    requires capacity > 0 && p < q && (p - q) % capacity == 0
    ensures q >= p + capacity
  {
    if q - p < capacity {
      ModUnique(p - q, capacity, -1, p - q + capacity);
    }
  }

  lemma SameSlotOnlyOnce(count: int, capacity: nat, p: int, i: int)
    requires capacity > 0 && -(capacity as int) < p - i < capacity
    ensures Newest(count, capacity, i) == Newest(count, capacity, p) ==> i == p
  {
    var q := Newest(count, capacity, p);
    if Newest(count, capacity, i) == q && i != p {
      SlotSame(p, q, capacity);
      SlotSame(i, q, capacity);
      SlotDistinct(p, i, capacity);
    }
  }

  lemma NoSpike(z: Signal, pos: real)
    requires forall i :: pos.Floor - 1 <= i <= pos.Floor + 2 ==> z(i) == 0.0
    ensures CubicAt(z, pos) == 0.0
  {
  }

  lemma SpikeSeen(z: Signal, pos: real, p: int)
    requires Needed(pos, p)
    requires forall i :: pos.Floor - 1 <= i <= pos.Floor + 2 ==> z(i) == if i == p then 1.0 else 0.0
    ensures CubicAt(z, pos) != 0.0
  {
    var n, t := pos.Floor, pos - pos.Floor as real;
    UnitWeights(t);
    assert p == n - 1 || p == n || p == n + 1 || p == n + 2;
  }

  /** Every weight of the interpolation differs from zero strictly between two samples. */
  lemma UnitWeights(t: real)
    requires 0.0 <= t < 1.0
    ensures Cubic(0.0, 1.0, 0.0, 0.0, t) != 0.0
    ensures t > 0.0 ==> Cubic(1.0, 0.0, 0.0, 0.0, t) != 0.0 && Cubic(0.0, 0.0, 1.0, 0.0, t) != 0.0
    ensures t > 0.0 ==> Cubic(0.0, 0.0, 0.0, 1.0, t) != 0.0
  {
    CentreWeightPositive(t);
    if t > 0.0 {
      var u := 1.0 - t;
      ProductPositive(t, u);
      PositiveFactors(t * u, u, -2.0 * Cubic(1.0, 0.0, 0.0, 0.0, t));
      PositiveFactors(t * u, t, -2.0 * Cubic(0.0, 0.0, 0.0, 1.0, t));
      SquareGap(t);
      PositiveFactors(t, 1.0 + 4.0 * t - 3.0 * (t * t), 2.0 * Cubic(0.0, 0.0, 1.0, 0.0, t));
    }
  }

  /** On a line that has filled once, that is the window, give or take an integral read of its last sample. */
  lemma FullLineWindow(count: nat, capacity: nat, pos: real)
    requires 4 <= capacity <= count
    ensures AllHeld(count, capacity, pos)
      <==> InWindow(count, capacity, pos) || (pos == pos.Floor as real && pos.Floor == count - capacity)
  {
    var n := pos.Floor;
    forall p
      ensures Held(count, capacity, p) <==> count - capacity <= p < count
    {
      var q := Newest(count, capacity, p);
      if count - capacity <= p < count && p != q {
        ApartByRing(p, q, capacity);
      }
    }
    if AllHeld(count, capacity, pos) {
      assert Needed(pos, n) && Held(count, capacity, n);
      if pos != n as real {
        assert Needed(pos, n - 1) && Held(count, capacity, n - 1);
        assert Needed(pos, n + 2) && Held(count, capacity, n + 2);
      }
    }
  }

  /** The newest output of a call may be read only through a tap at least one sample long, or one of
      exactly no delay: a delay strictly between makes the read run past the producer. */
  lemma NewestOutputWritten(count: nat, delay: real)
    ensures Written(count, (count - 1) as real - delay) <==> delay >= 1.0 || delay == 0.0
  {
  }

  /** Raising one sample by one moves the interpolated value, when its weight there is not zero. */
  lemma SpikeShows(x: Signal, z: Signal, pos: real, at: int)
    requires at == pos.Floor || (at == pos.Floor + 2 && pos != pos.Floor as real)
    requires forall p :: z(p) == x(p) + (if p == at then 1.0 else 0.0)
    ensures CubicAt(z, pos) != CubicAt(x, pos)
  {
    var n, t := pos.Floor, pos - pos.Floor as real;
    if at == n {
      CentreWeight(x(n - 1), x(n), x(n + 1), x(n + 2), t);
    } else {
      EdgeWeight(x(n - 1), x(n), x(n + 1), x(n + 2), t);
    }
  }

  lemma CentreWeightPositive(t: real)
    requires 0.0 <= t < 1.0
    ensures 1.0 + 0.5 * t * (t * (-5.0 + t * 3.0)) > 0.0
  {
    SquareGap(t);
    PositiveFactors(1.0 - t, 1.0 + t - 1.5 * (t * t), 1.0 + 0.5 * t * (t * (-5.0 + t * 3.0)));
  }

  lemma CentreWeight(h0: real, h1: real, h2: real, h3: real, t: real)
    requires 0.0 <= t < 1.0
    ensures Cubic(h0, h1 + 1.0, h2, h3, t) != Cubic(h0, h1, h2, h3, t)
  {
    CentreWeightPositive(t);
    CubicLinearInH1(h0, h1, h2, h3, t);
  }

  lemma CubicLinearInH1(h0: real, h1: real, h2: real, h3: real, t: real)
    ensures Cubic(h0, h1 + 1.0, h2, h3, t) == Cubic(h0, h1, h2, h3, t) + (1.0 + 0.5 * t * (t * (-5.0 + t * 3.0)))
  {
    var c := 3.0 * (h1 - h2) + h3 - h0;
    var b := 2.0 * h0 - 5.0 * h1 + 4.0 * h2 - h3;
    assert t * (c + 3.0) == t * c + t * 3.0;
    assert t * (b - 5.0 + (t * c + t * 3.0)) == t * (b + t * c) + t * (-5.0 + t * 3.0);
  }

  lemma EdgeWeight(h0: real, h1: real, h2: real, h3: real, t: real)
    requires 0.0 < t < 1.0
    ensures Cubic(h0, h1, h2, h3 + 1.0, t) != Cubic(h0, h1, h2, h3, t)
  {
    assert Cubic(h0, h1, h2, h3 + 1.0, t) == Cubic(h0, h1, h2, h3, t) + 0.5 * t * (t * (t - 1.0));
    ProductPositive(t, 1.0 - t);
    ProductPositive(t, t * (1.0 - t));
  }
}
