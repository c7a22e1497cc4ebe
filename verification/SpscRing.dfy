/** The lock-free single-producer single-consumer ring between threads: a bounded FIFO. */
module SpscRings {
  import opened Masking

  /** Positions [lo, hi) of the item stream are in the ring. */
  ghost predicate Stored<T>(ring: seq<T>, lo: nat, hi: nat, items: seq<T>) {
    && |ring| > 0 && lo <= hi <= |items|
    && forall p :: lo <= p < hi ==> ring[Slot(p, |ring|)] == items[p]
  }

  /** Storing the next item leaves every unread one in place, as long as there is a free slot. */
  lemma StoreNext<T>(ring: seq<T>, lo: nat, items: seq<T>, v: T)
    requires Stored(ring, lo, |items|, items) && |items| - lo < |ring|
    ensures Stored(ring[Slot(|items|, |ring|) := v], lo, |items| + 1, items + [v])
  {
    var ring' := ring[Slot(|items|, |ring|) := v];
    forall p | lo <= p < |items| + 1
      ensures ring'[Slot(p, |ring'|)] == (items + [v])[p]
    {
      if p < |items| {
        SlotDistinct(p, |items|, |ring|);
      }
    }
  }

  class SpscRing<T(0)> {
    const capacity: nat
    const buffer: array<T>
    var writePos: nat
    var readPos: nat

    /** Every item accepted since the last reset. */
    ghost var accepted: seq<T>

    ghost predicate Valid()
      reads this, buffer
    {
      && RingCapacity(capacity) && buffer.Length == capacity
      && |accepted| == writePos && readPos <= writePos <= readPos + capacity
      && Stored(buffer[..], readPos, writePos, accepted)
    }

    /** The items waiting to be read. */
    ghost function Contents(): seq<T>
      requires Valid()
      reads this, buffer
    {
      accepted[readPos..]
    }

    constructor (minimum: nat)
      requires minimum <= U64 / 2
      ensures Valid() && fresh(buffer) && Contents() == [] && capacity >= minimum
      ensures forall q: nat :: IsPow2(q) && minimum <= q ==> capacity <= q
    {
      var cap := RoundUpPow2(minimum);
      capacity := cap;
      buffer := new T[cap];
      writePos, readPos, accepted := 0, 0, [];
    }

    function AvailableWrite(): (n: int)
      requires Valid()
      reads this, buffer
      ensures n == capacity - |Contents()|
    {
      capacity - (writePos - readPos)
    }

    function AvailableRead(): (n: int)
      requires Valid()
      reads this, buffer
      ensures n == |Contents()|
    {
      writePos - readPos
    }

    /** One pass of the write loop: the item at `pos` goes into its slot. */
    method Store(pos: nat, item: T, ghost items: seq<T>)
      requires RingCapacity(capacity) && buffer.Length == capacity
      requires pos == |items| && Stored(buffer[..], readPos, pos, items) && pos - readPos < capacity
      modifies buffer
      ensures Stored(buffer[..], readPos, pos + 1, items + [item])
    {
      StoreNext(buffer[..], readPos, items, item);
      var slot := Mask(pos, capacity);
      ghost var ring := buffer[..];
      buffer[slot] := item;
      assert buffer[..] == ring[slot := item];
    }

    method Write(data: seq<T>) returns (n: nat)
      requires Valid()
      modifies this`writePos, this`accepted, buffer
      ensures Valid()
      ensures n == if |data| <= capacity - |old(Contents())| then |data| else capacity - |old(Contents())|
      ensures Contents() == old(Contents()) + data[..n]
      ensures accepted == old(accepted) + data[..n]
    {
      var available := capacity - (writePos - readPos);
      n := if |data| <= available then |data| else available;
      ghost var items := accepted;
      var i := 0;
      assert items + data[..0] == items;
      while i < n
        invariant i <= n
        invariant Stored(buffer[..], readPos, writePos + i, items + data[..i])
        modifies buffer
      {
        Store(writePos + i, data[i], items + data[..i]);
        assert items + data[..i] + [data[i]] == items + data[..i + 1];
        i := i + 1;
      }
      writePos := writePos + n;
      accepted := items + data[..n];
    }

    /** One pass of the read loop: the unread item at `pos` is in its slot. */
    method Load(pos: nat) returns (item: T)
      requires Valid() && readPos <= pos < writePos
      ensures item == accepted[pos]
    {
      var slot := Mask(pos, capacity);
      assert buffer[..][slot] == accepted[pos];
      item := buffer[slot];
    }

    method Read(data: array<T>, count: nat) returns (n: nat)
      requires Valid() && count <= data.Length && data != buffer
      modifies this`readPos, data
      ensures Valid()
      ensures n == if count <= |old(Contents())| then count else |old(Contents())|
      ensures data[..n] == old(Contents())[..n]
      ensures Contents() == old(Contents())[n..]
    {
      var available := writePos - readPos;
      n := if count <= available then count else available;
      CopyOut(data, n);
      assert accepted[readPos..readPos + n] == accepted[readPos..][..n];
      readPos := readPos + n;
    }

    /** The copy loop of Read. */
    method CopyOut(data: array<T>, n: nat)
      requires Valid() && n <= data.Length && data != buffer && readPos + n <= writePos
      modifies data
      ensures data[..n] == accepted[readPos..readPos + n]
    {
      var i := 0;
      while i < n
        invariant i <= n
        invariant data[..i] == accepted[readPos..readPos + i]
      {
        data[i] := Load(readPos + i);
        i := i + 1;
      }
    }

    method Reset()
      requires Valid()
      modifies this
      ensures Valid() && Contents() == []
    {
      writePos, readPos, accepted := 0, 0, [];
    }
  }
}
