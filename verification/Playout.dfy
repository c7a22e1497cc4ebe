/** When an aligned message is heard: the pipeline pair buffer, receive ring, modem buffer as one FIFO,
    one sample played per receiver tick. */
module Playout {
  import opened Basics
  import opened ArrivalAlignment
  import opened RealArithmetic

  /** What a pipeline slot holds: something already in flight at alignment, the pair-buffer sample at an
      absolute position, a zero pulled because the source was behind, or (played only) a tick on which
      the modem had nothing. */
  datatype Item = Earlier | Sample(pos: nat) | Pad | Starved

  datatype State = State(watermark: nat, readPos: nat, rxRing: seq<Item>, modem: seq<Item>, played: seq<Item>)

  /** No item is refused by the ring and no send is lost: those are the hypotheses of the theorem. */
  datatype Step = Commit(more: nat) | Pull(count: nat) | Send(count: nat) | Tick

  /** The items of one pull: the committed samples, then zeros for what is missing. */
  function Pulled(readPos: nat, got: nat, pads: nat): seq<Item>
    decreases got + pads
  {
    if pads > 0 then Pulled(readPos, got, pads - 1) + [Pad]
    else if got > 0 then Pulled(readPos, got - 1, 0) + [Sample(readPos + got - 1)]
    else []
  }

  predicate Enabled(s: State, step: Step) {
    s.readPos <= s.watermark && (step.Send? ==> step.count <= |s.rxRing|)
  }

  function Apply(s: State, step: Step): State
    requires Enabled(s, step)
  {
    match step
    case Commit(more) => s.(watermark := s.watermark + more)
    case Pull(count) =>
      var got := Min(count, s.watermark - s.readPos);
      s.(rxRing := s.rxRing + Pulled(s.readPos, got, count - got), readPos := s.readPos + got)
    case Send(count) => s.(modem := s.modem + s.rxRing[..count], rxRing := s.rxRing[count..])
    case Tick =>
      if s.modem == [] then s.(played := s.played + [Starved])
      else s.(played := s.played + [s.modem[0]], modem := s.modem[1..])
  }

  /** The number of items of one kind. */
  function Count(q: seq<Item>, kind: Item -> bool): nat {
    if q == [] then 0 else Count(q[..|q| - 1], kind) + (if kind(q[|q| - 1]) then 1 else 0)
  }

  function IsEarlier(): Item -> bool { (x: Item) => x.Earlier? }
  function IsSample(): Item -> bool { (x: Item) => x.Sample? }
  function IsPad(): Item -> bool { (x: Item) => x.Pad? }
  function IsStarved(): Item -> bool { (x: Item) => x.Starved? }

  lemma {:induction false} CountConcat(a: seq<Item>, b: seq<Item>, kind: Item -> bool)
    ensures Count(a + b, kind) == Count(a, kind) + Count(b, kind)
  {
    if b == [] {
      assert a + b == a;
    } else {
      assert (a + b)[..|a + b| - 1] == a + b[..|b| - 1];
      CountConcat(a, b[..|b| - 1], kind);
    }
  }

  /** Every item is of exactly one kind. */
  lemma {:induction false} CountAll(q: seq<Item>)
    ensures |q| == Count(q, IsEarlier()) + Count(q, IsSample()) + Count(q, IsPad()) + Count(q, IsStarved())
  {
    if q != [] {
      CountAll(q[..|q| - 1]);
    }
  }

  /** Pair-buffer samples appear in order of position, after everything that was in flight. */
  ghost predicate InOrder(q: seq<Item>, start: nat, flight: nat) {
    forall i :: 0 <= i < |q| && q[i].Sample? ==> Placed(q, i, start, flight)
  }

  ghost predicate Placed(q: seq<Item>, i: nat, start: nat, flight: nat)
    requires i < |q| && q[i].Sample?
  {
    Count(q[..i], IsSample()) == q[i].pos - start && Count(q[..i], IsEarlier()) == flight
  }

  /** Everything from the first tick after alignment to the newest pulled item, in playing order. */
  function Line(s: State): seq<Item> { s.played + s.modem + s.rxRing }

  ghost predicate Inv(s: State, start: nat, flight: nat) {
    && start <= s.readPos <= s.watermark
    && InOrder(Line(s), start, flight)
    && Count(Line(s), IsSample()) == s.readPos - start
    && Count(Line(s), IsEarlier()) == flight
  }

  lemma OrderAppend(q: seq<Item>, x: Item, start: nat, flight: nat)
    requires InOrder(q, start, flight)
    requires x.Sample? ==> Count(q, IsSample()) == x.pos - start && Count(q, IsEarlier()) == flight
    ensures InOrder(q + [x], start, flight)
    ensures Count(q + [x], IsSample()) == Count(q, IsSample()) + (if x.Sample? then 1 else 0)
    ensures Count(q + [x], IsEarlier()) == Count(q, IsEarlier()) + (if x.Earlier? then 1 else 0)
  {
    var q' := q + [x];
    assert q'[..|q|] == q;
    forall i | 0 <= i < |q'| && q'[i].Sample?
      ensures Placed(q', i, start, flight)
    {
      if i < |q| {
        assert Placed(q, i, start, flight);
        assert q'[..i] == q[..i];
      }
    }
  }

  /** A starved tick slips into the line without disturbing the order of the samples around it. */
  lemma OrderInsert(a: seq<Item>, b: seq<Item>, start: nat, flight: nat)
    requires InOrder(a + b, start, flight)
    ensures InOrder(a + [Starved] + b, start, flight)
  {
    var q, q' := a + b, a + [Starved] + b;
    forall i | 0 <= i < |q'| && q'[i].Sample?
      ensures Placed(q', i, start, flight)
    {
      if i < |a| {
        assert Placed(q, i, start, flight);
        assert q'[..i] == q[..i];
      } else {
        var j := i - 1;
        assert q[j] == q'[i];
        assert Placed(q, j, start, flight);
        assert q[..j] == a + b[..j - |a|] && q'[..i] == a + [Starved] + b[..j - |a|];
        StarvedAddsNothing(a, b[..j - |a|]);
      }
    }
  }

  lemma StarvedAddsNothing(a: seq<Item>, b: seq<Item>)
    ensures Count(a + [Starved] + b, IsSample()) == Count(a + b, IsSample())
    ensures Count(a + [Starved] + b, IsEarlier()) == Count(a + b, IsEarlier())
  {
    CountConcat(a + [Starved], b, IsSample());
    CountConcat(a, [Starved], IsSample());
    CountConcat(a, b, IsSample());
    CountConcat(a + [Starved], b, IsEarlier());
    CountConcat(a, [Starved], IsEarlier());
    CountConcat(a, b, IsEarlier());
  }

  lemma {:induction false} OrderPulled(q: seq<Item>, readPos: nat, got: nat, pads: nat, start: nat, flight: nat)
    requires InOrder(q, start, flight) && start <= readPos
    requires Count(q, IsSample()) == readPos - start && Count(q, IsEarlier()) == flight
    ensures InOrder(q + Pulled(readPos, got, pads), start, flight)
    ensures Count(q + Pulled(readPos, got, pads), IsSample()) == readPos + got - start
    ensures Count(q + Pulled(readPos, got, pads), IsEarlier()) == flight
    decreases got + pads
  {
    if pads > 0 {
      OrderPulled(q, readPos, got, pads - 1, start, flight);
      OrderAppend(q + Pulled(readPos, got, pads - 1), Pad, start, flight);
      AppendAssociative(q, Pulled(readPos, got, pads - 1), Pad);
    } else if got > 0 {
      OrderPulled(q, readPos, got - 1, 0, start, flight);
      OrderAppend(q + Pulled(readPos, got - 1, 0), Sample(readPos + got - 1), start, flight);
      AppendAssociative(q, Pulled(readPos, got - 1, 0), Sample(readPos + got - 1));
    } else {
      assert q + [] == q;
    }
  }

  lemma AppendAssociative(a: seq<Item>, b: seq<Item>, x: Item)
    ensures a + (b + [x]) == (a + b) + [x]
  {
  }

  lemma PullLine(s: State, count: nat)
    requires Enabled(s, Pull(count))
    ensures var got := Min(count, s.watermark - s.readPos);
      Line(Apply(s, Pull(count))) == Line(s) + Pulled(s.readPos, got, count - got)
  {
  }

  lemma PullKeeps(s: State, count: nat, start: nat, flight: nat)
    requires Inv(s, start, flight) && Enabled(s, Pull(count))
    ensures Inv(Apply(s, Pull(count)), start, flight)
  {
    var got := Min(count, s.watermark - s.readPos);
    OrderPulled(Line(s), s.readPos, got, count - got, start, flight);
    PullLine(s, count);
  }

  lemma TickKeeps(s: State, start: nat, flight: nat)
    requires Inv(s, start, flight)
    ensures Inv(Apply(s, Tick), start, flight)
  {
    var s' := Apply(s, Tick);
    if s.modem == [] {
      assert Line(s) == s.played + s.rxRing && Line(s') == s.played + [Starved] + s.rxRing;
      OrderInsert(s.played, s.rxRing, start, flight);
      StarvedAddsNothing(s.played, s.rxRing);
    } else {
      assert s.modem == [s.modem[0]] + s.modem[1..];
      assert Line(s') == Line(s);
    }
  }

  lemma StepKeeps(s: State, step: Step, start: nat, flight: nat)
    requires Inv(s, start, flight) && Enabled(s, step)
    ensures Inv(Apply(s, step), start, flight)
  {
    var s' := Apply(s, step);
    match step {
      case Commit(_) =>
      case Pull(count) => PullKeeps(s, count, start, flight);
      case Send(count) =>
        assert s.rxRing == s.rxRing[..count] + s.rxRing[count..];
        assert Line(s') == Line(s);
      case Tick => TickKeeps(s, start, flight);
    }
  }

  ghost predicate Run(s: State, steps: seq<Step>, s': State)
    decreases |steps|
  {
    if steps == [] then s' == s else Enabled(s, steps[0]) && Run(Apply(s, steps[0]), steps[1..], s')
  }

  lemma {:induction false} RunKeeps(s: State, steps: seq<Step>, s': State, start: nat, flight: nat)
    requires Inv(s, start, flight) && Run(s, steps, s')
    ensures Inv(s', start, flight)
    decreases |steps|
  {
    if steps != [] {
      StepKeeps(s, steps[0], start, flight);
      RunKeeps(Apply(s, steps[0]), steps[1..], s', start, flight);
    }
  }

  /** The moment of alignment: the fill and the ring depth are in flight, nothing has been played yet. */
  function AtAlignment(watermark: nat, readPos: nat, depth: nat, fill: nat): State {
    State(watermark, readPos, seq(depth, i => Earlier), seq(fill, i => Earlier), [])
  }

  lemma {:induction false} CountEarlier(n: nat)
    ensures Count(seq(n, i => Earlier), IsEarlier()) == n && Count(seq(n, i => Earlier), IsSample()) == 0
  {
    if n > 0 {
      assert seq(n, i => Earlier)[..n - 1] == seq(n - 1, i => Earlier);
      CountEarlier(n - 1);
    }
  }

  /** A sample at any position p is played exactly as many ticks after alignment as there were items in
      front of it, plus one for every zero pulled and every starved tick before it. */
  lemma SamplePlaysAt(watermark: nat, readPos: nat, depth: nat, fill: nat, steps: seq<Step>, s: State, t: nat)
    requires readPos <= watermark && Run(AtAlignment(watermark, readPos, depth, fill), steps, s)
    requires t < |s.played| && s.played[t].Sample?
    ensures t == fill + depth + (s.played[t].pos - readPos)
      + Count(s.played[..t], IsPad()) + Count(s.played[..t], IsStarved())
  {
    var s0 := AtAlignment(watermark, readPos, depth, fill);
    assert Line(s0) == seq(fill + depth, i => Earlier);
    CountEarlier(fill + depth);
    RunKeeps(s0, steps, s, readPos, fill + depth);
    assert Line(s)[t] == s.played[t] && Line(s)[..t] == s.played[..t];
    assert Placed(Line(s), t, readPos, fill + depth);
    CountAll(s.played[..t]);
  }

  /** The playout theorem: a message that is not late starts to play exactly the predicted number of
      ticks after alignment, plus the underruns met on the way. */
  lemma MessagePlaysOnTime(txStart: int, propagationDelay: real, now: int, fs: nat, fill: nat, depth: nat,
                           watermark: nat, readPos: nat, steps: seq<Step>, s: State, t: nat)
    requires readPos <= watermark && Run(AtAlignment(watermark, readPos, depth, fill), steps, s)
    requires t < |s.played| && s.played[t].Sample?
    ensures var g := ComputeArrivalAlignedGap(txStart, propagationDelay, now, fs, fill, watermark, readPos, depth);
            !g.late && s.played[t].pos == watermark + g.samples ==>
            t == TicksToArrival(txStart, propagationDelay, now, fs)
              + Count(s.played[..t], IsPad()) + Count(s.played[..t], IsStarved())
  {
    SamplePlaysAt(watermark, readPos, depth, fill, steps, s, t);
  }

  /** A message is late exactly when even at once it starts after its tick: it then goes straight behind everything
      in front of it, and plays after the tick it was meant for. */
  lemma LateStartsAtOnce(txStart: int, propagationDelay: real, now: int, fs: nat, fill: nat, depth: nat,
                         watermark: nat, readPos: nat, steps: seq<Step>, s: State, t: nat)
    requires readPos <= watermark && Run(AtAlignment(watermark, readPos, depth, fill), steps, s)
    requires t < |s.played| && s.played[t].Sample?
    ensures var g := ComputeArrivalAlignedGap(txStart, propagationDelay, now, fs, fill, watermark, readPos, depth);
            g.late && s.played[t].pos == watermark + g.samples ==>
            && t == fill + depth + (watermark - readPos) + Count(s.played[..t], IsPad()) + Count(s.played[..t], IsStarved())
            && t > TicksToArrival(txStart, propagationDelay, now, fs)
  {
    SamplePlaysAt(watermark, readPos, depth, fill, steps, s, t);
  }

  /** A full second is as many ticks as the sample rate says, and a nanosecond clock has a billion ticks in it. */
  lemma SecondOfTicks(now: int, fs: nat)
    ensures TicksToArrival(now, 1.0, now, fs) == fs && TicksToArrival(now + 1000000000, 0.0, now, fs) == fs
  {
    assert 1.0 * fs as real == fs as real;
  }

  /** Every tick plays something. */
  function Ticks(steps: seq<Step>): nat
    decreases |steps|
  {
    if steps == [] then 0 else (if steps[0].Tick? then 1 else 0) + Ticks(steps[1..])
  }

  lemma {:induction false} TicksPlay(s: State, steps: seq<Step>, s': State)
    requires Run(s, steps, s')
    ensures |s'.played| == |s.played| + Ticks(steps)
    decreases |steps|
  {
    if steps != [] {
      TicksPlay(Apply(s, steps[0]), steps[1..], s');
    }
  }

  /** Where the pulls of a run take the reader: each by what it asks for, as far as was committed by then. */
  function PullThrough(watermark: nat, readPos: nat, steps: seq<Step>): nat
    decreases |steps|
  {
    if steps == [] then readPos
    else
      match steps[0]
      case Commit(more) => PullThrough(watermark + more, readPos, steps[1..])
      case Pull(count) =>
        PullThrough(watermark, if readPos + count <= watermark then readPos + count else Max(readPos, watermark), steps[1..])
      case _ => PullThrough(watermark, readPos, steps[1..])
  }

  lemma {:induction false} PullsRead(s: State, steps: seq<Step>, s': State)
    requires Run(s, steps, s')
    ensures s'.readPos == PullThrough(s.watermark, s.readPos, steps)
    decreases |steps|
  {
    if steps != [] {
      PullsRead(Apply(s, steps[0]), steps[1..], s');
    }
  }

  /** In an ordered line every sample that was counted is there. */
  lemma {:induction false} FindSample(q: seq<Item>, start: nat, flight: nat, p: nat) returns (i: nat)
    requires InOrder(q, start, flight) && start <= p < start + Count(q, IsSample())
    ensures i < |q| && q[i] == Sample(p)
    decreases |q|
  {
    var n := |q| - 1;
    if q[n].Sample? {
      assert Placed(q, n, start, flight);
    }
    if q[n] == Sample(p) {
      i := n;
    } else {
      forall j | 0 <= j < n && q[..n][j].Sample?
        ensures Placed(q[..n], j, start, flight)
      {
        assert Placed(q, j, start, flight) && q[..n][..j] == q[..j];
      }
      i := FindSample(q[..n], start, flight, p);
    }
  }

  /** Nothing is forgotten on the way: every sample the pulls reached is in line at its place, and is played once so
      many ticks have passed. */
  lemma EverySamplePlays(watermark: nat, readPos: nat, depth: nat, fill: nat, steps: seq<Step>, s: State, p: nat)
    returns (t: nat)
    requires readPos <= watermark && Run(AtAlignment(watermark, readPos, depth, fill), steps, s)
    requires readPos <= p < PullThrough(watermark, readPos, steps)
    ensures t < |Line(s)| && Line(s)[t] == Sample(p)
    ensures t == fill + depth + (p - readPos) + Count(Line(s)[..t], IsPad()) + Count(Line(s)[..t], IsStarved())
    ensures t < Ticks(steps) ==> t < |s.played| && s.played[t] == Sample(p)
  {
    var s0 := AtAlignment(watermark, readPos, depth, fill);
    assert Line(s0) == seq(fill + depth, i => Earlier);
    CountEarlier(fill + depth);
    RunKeeps(s0, steps, s, readPos, fill + depth);
    PullsRead(s0, steps, s);
    TicksPlay(s0, steps, s);
    t := FindSample(Line(s), readPos, fill + depth, p);
    assert Placed(Line(s), t, readPos, fill + depth);
    CountAll(Line(s)[..t]);
  }

  /** Without underruns the message starts within one sample period of the intended instant: at the last
      tick not after it or, when the instant has just passed but the message is not late, at once. */
  lemma WithinOneSample(txStart: int, propagationDelay: real, now: int, fs: nat, t: nat)
    requires fs > 0 && t == TicksToArrival(txStart, propagationDelay, now, fs)
    ensures var target := (txStart + Truncate(propagationDelay * NANOS) - now) as real / NANOS;
      && (target >= 0.0 ==> t as real / fs as real <= target < (t + 1) as real / fs as real)
      && (target < 0.0 ==> t == 0 && -target < 1.0 / fs as real)
  {
    var q, f := (txStart + Truncate(propagationDelay * NANOS) - now) as real / NANOS, fs as real;
    TruncateBound(q * f);
    assert (q * f) / f == q;
    if q >= 0.0 {
      ProductNonNegative(q, f);
      QuotientOrder(t as real, q * f, f);
      assert (t + 1) as real == t as real + 1.0;
      QuotientStrict(q * f, (t + 1) as real, f);
    } else {
      ProductStrict(q, 0.0, f);
      TruncateNegative(q * f);
      QuotientStrict(-(q * f), 1.0, f);
      assert (-(q * f)) / f == -q;
    }
  }

  lemma TruncateNegative(x: real)
    requires x < 0.0 && Truncate(x) >= 0
    ensures Truncate(x) == 0 && -x < 1.0
  {
  }

  lemma QuotientOrder(a: real, b: real, f: real)
    requires f > 0.0 && a <= b
    ensures a / f <= b / f
  {
  }

  lemma QuotientStrict(a: real, b: real, f: real)
    requires f > 0.0 && a < b
    ensures a / f < b / f
  {
  }
}
