/** Each call of the buffer class is a run of the two-thread machine: whoever calls the class takes its steps. */
module PairBufferCalls {
  import opened Basics
  import opened Signals
  import opened PairBuffers
  import opened PairBufferRace

  /** Between calls the object and the machine's state are one thing seen twice. */
  ghost predicate Agrees(pb: PairBuffer, s: State)
    reads pb, pb.buffer
  {
    && pb.Valid() && Inv(s) && s.producer.Idle? && s.consumer.Resting? && |s.ring| == pb.capacity
    && s.readPos == pb.readPos && s.watermark == pb.watermark && s.origin == pb.origin
    && s.firstMessage == pb.firstMessage && s.drops == pb.overflowDrops
    && forall p :: Total(s.log, p) == pb.stream(p)
  }

  lemma OneStep(s: State, step: Step)
    requires |s.ring| > 0 && Enabled(s, step)
    ensures Run(s, [step], Apply(s, step))
  {
    assert Run(Apply(s, step), [step][1..], Apply(s, step));
  }

  /** A fresh buffer is the machine's initial state. */
  method Fresh(capacity: nat, baseDelay: nat) returns (pb: PairBuffer)
    requires Masking.RingCapacity(capacity) && baseDelay < capacity
    ensures fresh(pb) && Agrees(pb, Init(capacity))
  {
    pb := new PairBuffer(capacity, baseDelay);
    InitInv(capacity);
  }

  method Begin(pb: PairBuffer, gap: nat, absoluteFirstOrigin: bool, ghost s: State)
    requires Agrees(pb, s)
    modifies pb`origin, pb`firstMessage
    ensures Agrees(pb, Apply(s, BeginMessage(gap, absoluteFirstOrigin, pb.baseDelay)))
  {
    StepKeeps(s, BeginMessage(gap, absoluteFirstOrigin, pb.baseDelay));
    pb.BeginMessage(gap, absoluteFirstOrigin);
  }

  method Commit(pb: PairBuffer, processed: nat, ghost s: State)
    requires Agrees(pb, s)
    modifies pb`watermark
    ensures Agrees(pb, Apply(s, Step.CommitSourceProgress(processed)))
  {
    StepKeeps(s, Step.CommitSourceProgress(processed));
    pb.CommitSourceProgress(processed);
  }

  method Extra(pb: PairBuffer, extra: nat, ghost s: State)
    requires Agrees(pb, s)
    modifies pb`watermark
    ensures Agrees(pb, Apply(s, Step.CommitExtra(extra)))
  {
    StepKeeps(s, Step.CommitExtra(extra));
    pb.CommitExtra(extra);
  }

  /** The accumulation loop, slot by slot, to the end of the scatter. */
  lemma {:induction false} FinishJob(s: State) returns (steps: seq<Step>, s': State)
    requires |s.ring| > 0 && s.producer.Scattering? && s.producer.done <= s.producer.job.accepted
    ensures Run(s, steps, s') && s'.log == s.log + [s.producer.job] && s'.producer.Idle?
    ensures |s'.ring| == |s.ring| && s' == s.(ring := s'.ring, log := s'.log, producer := Idle)
    decreases s.producer.job.accepted - s.producer.done
  {
    if s.producer.done == s.producer.job.accepted {
      steps, s' := [FinishScatter], Apply(s, FinishScatter);
      OneStep(s, FinishScatter);
    } else {
      var s1 := Apply(s, Accumulate);
      OneStep(s, Accumulate);
      var rest;
      rest, s' := FinishJob(s1);
      RunsJoin(s, [Accumulate], s1, rest, s');
      steps := [Accumulate] + rest;
    }
  }

  /** A whole scatter as a run, seeing the reader where it is. */
  lemma ScatterRun(s: State, offset: nat, samples: seq<real>) returns (steps: seq<Step>, s': State)
    requires |s.ring| > 0 && Enabled(s, StartScatter(offset, samples, s.readPos))
    ensures Run(s, steps, s') && |s'.ring| == |s.ring|
    ensures var n := Accepted(s.origin + offset, |samples|, s.readPos + |s.ring|);
      s' == s.(ring := s'.ring, drops := s.drops + (|samples| - n),
               log := s.log + [Contribution(s.origin + offset, samples, n)])
  {
    var step := StartScatter(offset, samples, s.readPos);
    OneStep(s, step);
    steps, s' := FinishJob(Apply(s, step));
    RunsJoin(s, [step], Apply(s, step), steps, s');
    steps := [step] + steps;
  }

  lemma TotalsAgree(log: seq<Contribution>, c: Contribution, x: Signal, x': Signal)
    requires c.accepted <= |c.samples| && (forall p :: Total(log, p) == x(p))
    requires x' == AddBlock(x, c.start, c.samples[..c.accepted])
    ensures forall p :: Total(log + [c], p) == x'(p)
  {
    forall p
      ensures Total(log + [c], p) == x'(p)
    {
      ContributionIsAddBlock(log, c, p);
    }
  }

  /** One scatter past the watermark. */
  method Scatter(pb: PairBuffer, offset: nat, samples: seq<real>, ghost s: State)
    returns (ghost steps: seq<Step>, ghost s': State)
    requires Agrees(pb, s) && (samples != [] ==> pb.watermark <= pb.origin + offset)
    modifies pb`overflowDrops, pb`stream, pb.buffer
    ensures Run(s, steps, s') && Agrees(pb, s')
  {
    ghost var x := pb.stream;
    steps, s' := ScatterRun(s, offset, samples);
    RunKeeps(s, steps, s');
    pb.ScatterAdd(offset, samples);
    TotalsAgree(s.log, s'.log[|s.log|], x, pb.stream);
  }

  /** Take and clear the slots of a read, to its end. */
  lemma {:induction false} FinishReading(s: State) returns (steps: seq<Step>, s': State)
    requires |s.ring| > 0 && s.consumer.Draining? && s.consumer.done <= s.consumer.n && !s.consumer.loaded
    ensures Run(s, steps, s') && s'.consumer.Resting? && s'.readPos == s.readPos + s.consumer.n
    ensures |s'.ring| == |s.ring| && s.delivered <= s'.delivered
    ensures s' == s.(ring := s'.ring, delivered := s'.delivered, readPos := s'.readPos, consumer := Resting)
    decreases s.consumer.n - s.consumer.done
  {
    if s.consumer.done == s.consumer.n {
      steps, s' := [FinishRead], Apply(s, FinishRead);
      OneStep(s, FinishRead);
    } else {
      var s1 := Apply(s, Load);
      OneStep(s, Load);
      var s2 := Apply(s1, Clear);
      OneStep(s1, Clear);
      var rest;
      rest, s' := FinishReading(s2);
      RunsJoin(s1, [Clear], s2, rest, s');
      RunsJoin(s, [Load], s1, [Clear] + rest, s');
      steps := [Load] + ([Clear] + rest);
    }
  }

  /** A whole read as a run, seeing the watermark where it is. */
  lemma ReadRun(s: State, count: nat) returns (steps: seq<Step>, s': State)
    requires |s.ring| > 0 && s.readPos <= s.watermark && s.consumer.Resting?
    ensures Run(s, steps, s') && |s'.ring| == |s.ring|
    ensures s'.readPos == s.readPos + Min(count, s.watermark - s.readPos) && s.delivered <= s'.delivered
    ensures s' == s.(ring := s'.ring, delivered := s'.delivered, readPos := s'.readPos)
  {
    var step := StartRead(count, s.watermark);
    OneStep(s, step);
    steps, s' := FinishReading(Apply(s, step));
    RunsJoin(s, [step], Apply(s, step), steps, s');
    steps := [step] + steps;
  }

  /** What was delivered since is the stream at the positions passed. */
  lemma DeliveredSince(s: State, s': State, x: Signal, got: seq<real>)
    requires Inv(s) && Inv(s') && s.consumer.Resting? && s'.consumer.Resting? && s'.producer.Idle? && s.delivered <= s'.delivered
    requires |got| == s'.readPos - s.readPos && (forall p :: Total(s'.log, p) == x(p))
    requires forall i :: 0 <= i < |got| ==> got[i] == x(s.readPos + i)
    ensures s'.delivered == s.delivered + got
  {
    forall i | 0 <= i < |got|
      ensures s'.delivered[|s.delivered| + i] == got[i]
    {
      assert s'.delivered[s.readPos + i] == Value(s', s.readPos + i);
    }
  }

  /** One read: what the caller gets is what the machine delivers. */
  method Read(pb: PairBuffer, out: array<real>, count: nat, ghost s: State)
    returns (n: nat, ghost steps: seq<Step>, ghost s': State)
    requires Agrees(pb, s) && count <= out.Length && out != pb.buffer
    modifies pb`readPos, pb.buffer, out
    ensures Run(s, steps, s') && Agrees(pb, s')
    ensures n <= count && s'.delivered == s.delivered + out[..n]
  {
    steps, s' := ReadRun(s, count);
    RunKeeps(s, steps, s');
    n := pb.ReadAdvance(out, count);
    DeliveredSince(s, s', pb.stream, out[..n]);
  }
}
