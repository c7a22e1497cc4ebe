/** The (source, receiver) sample buffer in absolute receiver time: an additive power-of-two ring. */
module PairBuffers {
  import opened Basics
  import opened Masking
  import opened Signals

  datatype Result<+T> = Ok(value: T) | InvalidArgument

  /** How many samples of a block starting at `start` lie below the write limit. */
  function Accepted(start: int, count: nat, limit: int): (n: nat)
    ensures n <= count
    ensures n == 0 || start + n <= limit
    ensures n < count ==> limit <= start + n
  {
    if start >= limit then 0
    else if start + count > limit then limit - start
    else count
  }

  /** One accumulation through the mask turns the first i samples of a block into the first i + 1. */
  lemma ScatterStep(ring: seq<real>, lo: int, x: Signal, start: int, samples: seq<real>, i: nat)
    requires |ring| > 0 && i < |samples| && lo <= start + i < lo + |ring|
    requires Window(ring, lo, lo + |ring|, AddBlock(x, start, samples[..i]))
    ensures var slot := Slot(start + i, |ring|);
            Window(ring[slot := ring[slot] + samples[i]], lo, lo + |ring|, AddBlock(x, start, samples[..i + 1]))
  {
    var now, next := AddBlock(x, start, samples[..i]), AddBlock(x, start, samples[..i + 1]);
    forall q | lo <= q < lo + |ring| && q != start + i
      ensures next(q) == now(q)
    {
      assert At(samples[..i], q - start) == At(samples[..i + 1], q - start);
    }
    assert At(samples[..i], i) == 0.0 && At(samples[..i + 1], i) == samples[i];
    assert next(start + i) == x(start + i) + At(samples[..i + 1], start + i - start);
    assert next(start + i) == now(start + i) + samples[i];
    WindowStore(ring, lo, lo + |ring|, now, start + i, next);
    assert ring[Slot(start + i, |ring|)] == now(start + i);
  }

  /** What a buffer looked like at some moment. */
  datatype Moment = Moment(stream: Signal, drops: nat, watermark: nat, readPos: nat)

  /** From one moment to a later one nothing published at the first has changed and nothing was written at or past
      `end`; positions only advanced; and nothing was dropped if `end` fitted the ring already at the first. */
  ghost predicate Advanced(m: Moment, m': Moment, end: nat, capacity: nat) {
    && Kept(m.stream, m'.stream, m.watermark) && Beyond(m.stream, m'.stream, end)
    && m.watermark <= m'.watermark && m.readPos <= m'.readPos && m.drops <= m'.drops
    && (end <= m.readPos + capacity ==> m'.drops == m.drops)
  }

  lemma AdvancedTwice(a: Moment, b: Moment, c: Moment, end: nat, end': nat, capacity: nat)
    requires Advanced(a, b, end, capacity) && Advanced(b, c, end', capacity) && end <= end'
    ensures Advanced(a, c, end', capacity)
  {
  }

  class PairBuffer {
    const capacity: nat
    const baseDelay: nat
    const buffer: array<real>
    var readPos: nat
    var watermark: nat
    var origin: nat
    var firstMessage: bool
    var overflowDrops: nat

    /** Everything accumulated so far, position by position: the infinite stream the ring refines. */
    ghost var stream: Signal

    ghost predicate Valid()
      reads this, buffer
    {
      && RingCapacity(capacity) && buffer.Length == capacity && baseDelay < capacity
      && readPos <= watermark
      && Window(buffer[..], readPos, readPos + capacity, stream)
      && SilentFrom(stream, readPos + capacity)
    }

    ghost function Now(): Moment
      reads this
    {
      Moment(stream, overflowDrops, watermark, readPos)
    }

    ghost predicate Since(m: Moment, end: nat)
      reads this
    {
      Advanced(m, Now(), end, capacity)
    }

    constructor (capacity: nat, baseDelay: nat)
      requires RingCapacity(capacity) && baseDelay < capacity
      ensures Valid() && fresh(buffer)
      ensures this.capacity == capacity && this.baseDelay == baseDelay
      ensures readPos == watermark == origin == overflowDrops == 0 && firstMessage
      ensures stream == Silence()
    {
      this.capacity := capacity;
      this.baseDelay := baseDelay;
      buffer := new real[capacity](i => 0.0);
      readPos, watermark, origin, firstMessage, overflowDrops := 0, 0, 0, true, 0;
      stream := Silence();
    }

    /** TX entry: place the next message's sample 0. The first message of a buffer without arrival
        alignment lands at the base delay; every other one at the watermark plus the caller's gap. */
    method BeginMessage(gap: nat, absoluteFirstOrigin: bool)
      requires Valid()
      modifies this`origin, this`firstMessage
      ensures Valid() && !firstMessage
      ensures origin == if old(firstMessage) && !absoluteFirstOrigin then baseDelay else watermark + gap
    {
      if firstMessage && !absoluteFirstOrigin {
        origin := baseDelay;
        firstMessage := false;
        return;
      }
      origin := watermark + gap;
      firstMessage := false;
    }

    /** Accumulate a block wherever the reader has not been yet; what lies at or past `readPos + capacity`
        is dropped and counted. The renderers keep out of the committed region as well, which the reader
        may be draining at the same time. */
    method ScatterAdd(offset: nat, samples: seq<real>)
      requires Valid()
      requires samples != [] ==> readPos <= origin + offset
      modifies this`overflowDrops, this`stream, buffer
      ensures Valid()
      ensures var n := Accepted(origin + offset, |samples|, readPos + capacity);
              stream == AddBlock(old(stream), origin + offset, samples[..n]) &&
              overflowDrops == old(overflowDrops) + |samples| - n
      ensures watermark <= origin + offset ==> Since(old(Now()), origin + offset + |samples|)
    {
      assert samples[..0] == [];
      if |samples| == 0 {
        stream := AddBlock(stream, origin + offset, []);
        return;
      }
      var start := origin + offset;
      var end := start + |samples|;
      var maxWritableEnd := readPos + capacity;
      var toWrite := |samples|;
      if start >= maxWritableEnd {
        overflowDrops := overflowDrops + |samples|;
        stream := AddBlock(stream, start, []);
        return;
      }
      if end > maxWritableEnd {
        var dropped := end - maxWritableEnd;
        overflowDrops := overflowDrops + dropped;
        toWrite := maxWritableEnd - start;
      }
      Accumulate(start, samples[..toWrite]);
    }

    /** The accumulation loop of ScatterAdd, over slots inside the write window. */
    method Accumulate(start: nat, block: seq<real>)
      requires Valid() && readPos <= start && start + |block| <= readPos + capacity
      modifies this`stream, buffer
      ensures Valid()
      ensures stream == AddBlock(old(stream), start, block)
    {
      ghost var x := stream;
      var i := 0;
      while i < |block|
        invariant 0 <= i <= |block|
        invariant Window(buffer[..], readPos, readPos + capacity, AddBlock(x, start, block[..i]))
        modifies buffer
      {
        ScatterStep(buffer[..], readPos, x, start, block, i);
        var slot := Mask(start + i, capacity);
        buffer[slot] := buffer[slot] + block[i];
        i := i + 1;
      }
      assert block[..i] == block;
      stream := AddBlock(x, start, block);
    }

    /** Publish the first `processed` samples of the message; never moves backwards. */
    method CommitSourceProgress(processed: nat)
      requires Valid()
      modifies this`watermark
      ensures Valid()
      ensures watermark == Max(old(watermark), origin + processed)
    {
      var newWatermark := origin + processed;
      if newWatermark > watermark {
        watermark := newWatermark;
      }
    }

    /** Expose the multipath tail. */
    method CommitExtra(extra: nat)
      requires Valid()
      modifies this`watermark
      ensures Valid()
      ensures watermark == old(watermark) + extra
    {
      if extra == 0 {
        return;
      }
      watermark := watermark + extra;
    }

    /** Take the sample at position p and zero its slot, which then stands for the position one
        capacity later: nothing has been scattered there yet. */
    method Recycle(p: nat) returns (v: real)
      requires RingCapacity(capacity) && buffer.Length == capacity
      requires Window(buffer[..], p, p + capacity, stream) && stream(p + capacity) == 0.0
      modifies buffer
      ensures v == stream(p)
      ensures Window(buffer[..], p + 1, p + 1 + capacity, stream)
    {
      var slot := Mask(p, capacity);
      ghost var ring := buffer[..];
      assert ring[slot] == stream(p);
      v := buffer[slot];
      WindowSlide(ring, p, stream);
      buffer[slot] := 0.0;
      assert buffer[..] == ring[slot := 0.0];
    }

    /** Drain up to `count` committed samples. Each slot is zeroed as it is consumed, which hands it
        to the position one capacity later without touching the stream. */
    method ReadAdvance(out: array<real>, count: nat) returns (n: nat)
      requires Valid() && count <= out.Length && out != buffer
      modifies this`readPos, buffer, out
      ensures Valid()
      ensures n == Min(count, watermark - old(readPos)) && readPos == old(readPos) + n
      ensures forall i :: 0 <= i < n ==> out[i] == stream(old(readPos) + i)
      ensures forall i :: n <= i < out.Length ==> out[i] == old(out[i])
    {
      var rp := readPos;
      var available := if watermark > rp then watermark - rp else 0;
      n := if count <= available then count else available;
      var i := 0;
      while i < n
        invariant 0 <= i <= n
        invariant Window(buffer[..], rp + i, rp + i + capacity, stream)
        invariant forall j :: 0 <= j < i ==> out[j] == stream(rp + j)
        invariant forall j :: i <= j < out.Length ==> out[j] == old(out[j])
        modifies buffer, out
      {
        out[i] := Recycle(rp + i);
        i := i + 1;
      }
      if n > 0 {
        readPos := rp + n;
      }
    }
  }

  /** The capacity a request is rounded up to. */
  ghost predicate LeastRing(cap: nat, request: nat) {
    RingCapacity(cap) && request <= cap && forall q: nat :: IsPow2(q) && request <= q ==> cap <= q
  }

  /** Construction rounds the capacity up and rejects exactly the base delays the ring cannot hold. */
  method MakePairBuffer(capacity: nat, baseDelay: nat) returns (r: Result<PairBuffer>)
    requires capacity <= U64 / 2
    ensures r.Ok? ==>
      && fresh(r.value) && r.value.Valid() && fresh(r.value.buffer)
      && r.value.baseDelay == baseDelay && r.value.capacity >= capacity
      && r.value.stream == Silence() && r.value.watermark == 0 && r.value.firstMessage
    ensures r.Ok? ==> LeastRing(r.value.capacity, capacity)
    ensures r.InvalidArgument? <==> exists cap: nat :: LeastRing(cap, capacity) && cap <= baseDelay
  {
    var cap := RoundUpPow2(capacity);
    assert LeastRing(cap, capacity);
    if baseDelay >= cap {
      r := InvalidArgument;
      return;
    }
    var pb := new PairBuffer(cap, baseDelay);
    r := Ok(pb);
  }
}
