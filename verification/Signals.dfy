/** Streams of samples: the infinite objects that the rings, filters and resamplers stand for. */
module Signals {

  /** An infinite stream indexed by absolute sample position. */
  type Signal = int -> real

  /** A finite sample block read as a stream: zero outside its own extent. */
  function At(s: seq<real>, i: int): real {
    if 0 <= i < |s| then s[i] else 0.0
  }

  ghost function Stream(s: seq<real>): Signal { (p: int) => At(s, p) }

  ghost function Silence(): Signal { (p: int) => 0.0 }

  ghost predicate SilentFrom(x: Signal, n: int) {
    forall p :: p >= n ==> x(p) == 0.0
  }

  /** The two streams agree on every position before n. */
  ghost predicate Kept(x: Signal, x': Signal, n: int) {
    forall p :: p < n ==> x'(p) == x(p)
  }

  /** The two streams agree on every position from n on. */
  ghost predicate Beyond(x: Signal, x': Signal, n: int) {
    forall p :: p >= n ==> x'(p) == x(p)
  }

  /** The stream after adding `block` at positions [start, start + |block|). */
  ghost function AddBlock(x: Signal, start: int, block: seq<real>): Signal {
    (p: int) => x(p) + At(block, p - start)
  }

  /** Catmull-Rom interpolation between h1 and h2, in the Horner form of the source. */
  function Cubic(h0: real, h1: real, h2: real, h3: real, t: real): real {
    h1 + 0.5 * t * ((h2 - h0)
      + t * ((2.0 * h0 - 5.0 * h1 + 4.0 * h2 - h3)
        + t * (3.0 * (h1 - h2) + h3 - h0)))
  }

  /** Zeros appended to a block do not change the stream it stands for. */
  function Zeros(n: nat): (z: seq<real>)
    ensures |z| == n && forall i :: 0 <= i < n ==> z[i] == 0.0
  {
    seq(n, i => 0.0)
  }
}
