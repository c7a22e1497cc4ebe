/** Index masking shared by every power-of-two ring in the program.
    `Slot(p, capacity)` is the machine expression `uint64(p) & (capacity - 1)`; the lemmas show it is
    the residue of `p`, for negative positions too, which is what makes a ring a window on a stream. */
module Masking {

  /** One past the largest 64-bit unsigned value. */
  const U64: nat := 0x1_0000_0000_0000_0000

  predicate IsPow2(n: nat) {
    n == 1 || (n > 1 && n % 2 == 0 && IsPow2(n / 2))
  }

  function BitAnd(a: nat, b: nat): nat {
    if a == 0 || b == 0 then 0
    else 2 * BitAnd(a / 2, b / 2) + (if a % 2 == 1 && b % 2 == 1 then 1 else 0)
  }

  predicate RingCapacity(capacity: nat) {
    IsPow2(capacity) && capacity <= U64
  }

  lemma {:induction false} Pow2Product(a: nat, b: nat)
    requires IsPow2(a) && IsPow2(b)
    ensures IsPow2(a * b)
    decreases a
  {
    if a > 1 {
      Pow2Product(a / 2, b);
      MulAtLeast(a / 2, b);
      DoubleProduct(a / 2, b);
    }
  }

  lemma DoubleProduct(h: nat, b: nat)
    ensures (2 * h) * b == 2 * (h * b)
  {
  }

  lemma U64IsPow2()
    ensures IsPow2(U64)
  {
    assert IsPow2(2);
    Pow2Product(2, 2);
    Pow2Product(4, 4);
    Pow2Product(0x10, 0x10);
    Pow2Product(0x100, 0x100);
    Pow2Product(0x1_0000, 0x1_0000);
    Pow2Product(0x1_0000_0000, 0x1_0000_0000);
  }

  lemma MulAtLeast(a: int, m: int)
    requires a >= 1 && m >= 0
    ensures a * m >= m
  {
    assert a * m == (a - 1) * m + m;
  }

  lemma DivModUnique(q: int, r: int, q': int, r': int, m: int)
    requires 0 <= r < m && 0 <= r' < m && q * m + r == q' * m + r'
    ensures q == q' && r == r'
  {
    assert (q - q') * m == q * m - q' * m;
    if q > q' {
      MulAtLeast(q - q', m);
    } else if q < q' {
      assert (q' - q) * m == q' * m - q * m;
      MulAtLeast(q' - q, m);
    }
  }

  lemma ModUnique(n: int, m: nat, q: int, r: int)
    requires m > 0 && 0 <= r < m && n == q * m + r
    ensures n % m == r && n / m == q
  {
    DivModUnique(q, r, n / m, n % m, m);
  }

  /** Halving a residue: the step of the masking proof. */
  lemma ModDouble(p: nat, c: nat)
    requires c > 0
    ensures p % (2 * c) == 2 * ((p / 2) % c) + p % 2
  {
    var q, r := (p / 2) / c, (p / 2) % c;
    assert p / 2 == q * c + r;
    assert p == q * (2 * c) + (2 * r + p % 2) by {
      assert q * (2 * c) == 2 * (q * c);
    }
    ModUnique(p, 2 * c, q, 2 * r + p % 2);
  }

  lemma {:induction false} MaskIsMod(p: nat, capacity: nat)
    requires IsPow2(capacity)
    ensures BitAnd(p, capacity - 1) == p % capacity
    decreases capacity
  {
    if capacity > 1 {
      var c := capacity / 2;
      MaskIsMod(p / 2, c);
      ModDouble(p, c);
      assert (capacity - 1) / 2 == c - 1;
    }
  }

  lemma {:induction false} Pow2Divides(a: nat, b: nat)
    requires IsPow2(a) && IsPow2(b) && a <= b
    ensures b % a == 0
    decreases a
  {
    if a > 1 {
      Pow2Divides(a / 2, b / 2);
      ModDouble(b, a / 2);
    }
  }

  /** Where position `p` of a stream lives in a ring of `n` slots. */
  function Slot(p: int, n: nat): (s: nat)
    requires n > 0
    ensures s < n
  {
    p % n
  }

  lemma ModOfMod(p: int, u: nat, c: nat)
    requires c > 0 && u > 0 && u % c == 0
    ensures (p % u) % c == p % c
  {
    var k, a, b, r := u / c, p / u, (p % u) / c, (p % u) % c;
    calc {
      p;
      a * u + p % u;
      { assert u == k * c; }
      a * (k * c) + (b * c + r);
      { assert a * (k * c) == (a * k) * c; }
      (a * k) * c + (b * c + r);
      { assert (a * k + b) * c == (a * k) * c + b * c; }
      (a * k + b) * c + r;
    }
    ModUnique(p, c, a * k + b, r);
  }

  /** The masked index is the true residue, negative positions included: the detour through
      64-bit unsigned arithmetic is harmless because the capacity divides 2^64. */
  lemma MaskIsSlot(p: int, capacity: nat)
    requires RingCapacity(capacity)
    ensures BitAnd(p % U64, capacity - 1) == Slot(p, capacity)
  {
    U64IsPow2();
    Pow2Divides(capacity, U64);
    MaskIsMod(p % U64, capacity);
    ModOfMod(p, U64, capacity);
  }

  /** The machine's index expression `uint64(p) & (capacity - 1)` finds that slot. */
  method Mask(p: int, capacity: nat) returns (s: nat)
    requires RingCapacity(capacity)
    ensures s == Slot(p, capacity)
  {
    MaskIsSlot(p, capacity);
    s := BitAnd(p % U64, capacity - 1);
  }

  lemma ModDifference(p: int, q: int, c: nat)
    requires c > 0
    ensures p % c == q % c <==> (p - q) % c == 0
  {
    var a, b, r, s := p / c, q / c, p % c, q % c;
    assert (a - b) * c == a * c - b * c;
    if r >= s {
      ModUnique(p - q, c, a - b, r - s);
    } else {
      assert (a - b - 1) * c == (a - b) * c - c;
      ModUnique(p - q, c, a - b - 1, r - s + c);
    }
  }

  /** Two positions share a slot exactly when a whole number of ring lengths separates them. */
  lemma SlotSame(p: int, q: int, n: nat)
    requires n > 0
    ensures Slot(p, n) == Slot(q, n) <==> (p - q) % n == 0
  {
    ModDifference(p, q, n);
  }

  lemma SlotDistinct(p: int, q: int, n: nat)
    requires p != q && -(n as int) < p - q < n
    ensures Slot(p, n) != Slot(q, n)
  {
    SlotSame(p, q, n);
    if p > q {
      ModUnique(p - q, n, 0, p - q);
    } else {
      ModUnique(p - q, n, -1, p - q + n);
    }
  }

  lemma SlotWraps(p: int, n: nat)
    requires n > 0
    ensures Slot(p + n, n) == Slot(p, n)
  {
    SlotSame(p + n, p, n);
    ModUnique(n as int, n, 1, 0);
  }

  /** The ring shows the stream `x` on the positions [lo, hi). */
  ghost predicate Window<T>(ring: seq<T>, lo: int, hi: int, x: int -> T)
    requires |ring| > 0
  {
    forall p :: lo <= p < hi ==> ring[Slot(p, |ring|)] == x(p)
  }

  /** A store through the mask changes one position of a window no longer than the ring. */
  lemma WindowStore<T>(ring: seq<T>, lo: int, hi: int, x: int -> T, p: int, x': int -> T)
    requires |ring| > 0 && Window(ring, lo, hi, x) && hi - lo <= |ring|
    requires lo <= p < hi
    requires forall q :: lo <= q < hi && q != p ==> x'(q) == x(q)
    ensures Window(ring[Slot(p, |ring|) := x'(p)], lo, hi, x')
  {
    var ring' := ring[Slot(p, |ring|) := x'(p)];
    forall q | lo <= q < hi
      ensures ring'[Slot(q, |ring'|)] == x'(q)
    {
      if q != p {
        SlotDistinct(p, q, |ring|);
        assert ring[Slot(q, |ring|)] == x(q);
      }
    }
  }

  /** Recycling the oldest slot slides a full window forward by one position. */
  lemma WindowSlide<T>(ring: seq<T>, lo: int, x: int -> T)
    requires |ring| > 0 && Window(ring, lo, lo + |ring|, x)
    ensures Window(ring[Slot(lo, |ring|) := x(lo + |ring|)], lo + 1, lo + 1 + |ring|, x)
  {
    var n := |ring|;
    SlotWraps(lo, n);
    var ring' := ring[Slot(lo, n) := x(lo + n)];
    forall q | lo + 1 <= q < lo + 1 + n
      ensures ring'[Slot(q, |ring'|)] == x(q)
    {
      if q < lo + n {
        SlotDistinct(lo, q, n);
        assert ring[Slot(q, n)] == x(q);
      }
    }
  }

  lemma {:induction false} Pow2Gap(q: nat, p: nat)
    requires IsPow2(q) && IsPow2(p) && q < p
    ensures 2 * q <= p
    decreases p
  {
    if q > 1 {
      Pow2Gap(q / 2, p / 2);
    }
  }

  /** Doubling search for the capacity: the least power of two that is at least `n`. */
  method RoundUpPow2(n: nat) returns (p: nat)
    requires n <= U64 / 2
    ensures RingCapacity(p) && n <= p
    ensures forall q: nat :: IsPow2(q) && n <= q ==> p <= q
  {
    if n == 0 {
      p := 1;
      return;
    }
    p := 1;
    while p < n
      invariant IsPow2(p) && p <= U64 / 2
      invariant forall q: nat :: IsPow2(q) && n <= q ==> p <= q
      decreases n - p
    {
      forall q: nat | IsPow2(q) && n <= q
        ensures 2 * p <= q
      {
        Pow2Gap(p, q);
      }
      DoubleFits(p);
      p := p * 2;
    }
  }

  lemma DoubleFits(p: nat)
    requires IsPow2(p) && p < U64 / 2
    ensures 2 * p <= U64 / 2 && IsPow2(2 * p)
  {
    U64IsPow2();
    assert IsPow2(2 * p);
    Pow2Gap(2 * p, U64);
  }
}
