/** Each call of the ring class is a run of the two-thread machine: whoever calls the class takes its steps. */
module SpscCalls {
  import opened Basics
  import opened SpscRings
  import opened SpscRace

  /** Between calls the object and the machine's state are one thing seen twice. */
  ghost predicate Agrees<T(0,!new)>(r: SpscRing<T>, s: State<T>)
    reads r, r.buffer
  {
    && r.Valid() && Inv(s) && s.producer.Idle? && s.consumer.Resting? && |s.ring| == r.capacity
    && s.readPos == r.readPos && s.writePos == r.writePos && s.accepted == r.accepted
  }

  lemma OneStep<T(!new)>(s: State<T>, step: Step<T>)
    requires |s.ring| > 0 && Enabled(s, step)
    ensures Run(s, [step], Apply(s, step))
  {
    assert Run(Apply(s, step), [step][1..], Apply(s, step));
  }

  lemma {:induction false} RunsJoin<T(!new)>(s: State<T>, a: seq<Step<T>>, s1: State<T>, b: seq<Step<T>>, s2: State<T>)
    requires Run(s, a, s1) && Run(s1, b, s2)
    ensures Run(s, a + b, s2)
    decreases |a|
  {
    if a == [] {
      assert a + b == b;
    } else {
      RunsJoin(Apply(s, a[0]), a[1..], s1, b, s2);
      assert (a + b)[1..] == a[1..] + b;
    }
  }

  /** The store loop, slot by slot, to the publication of the write. */
  lemma {:induction false} FinishWriting<T(!new)>(s: State<T>) returns (steps: seq<Step<T>>, s': State<T>)
    requires |s.ring| > 0 && s.producer.Writing? && s.producer.done <= s.producer.n <= |s.producer.data|
    ensures Run(s, steps, s') && |s'.ring| == |s.ring|
    ensures s' == s.(ring := s'.ring, accepted := s.accepted + s.producer.data[..s.producer.n],
                     writePos := s.writePos + s.producer.n, producer := Idle)
    decreases s.producer.n - s.producer.done
  {
    if s.producer.done == s.producer.n {
      steps, s' := [PublishWrite], Apply(s, PublishWrite);
      OneStep(s, PublishWrite);
    } else {
      var s1 := Apply(s, Store);
      OneStep(s, Store);
      var rest;
      rest, s' := FinishWriting(s1);
      RunsJoin(s, [Store], s1, rest, s');
      steps := [Store] + rest;
    }
  }

  /** A whole write as a run, seeing the reader where it is. */
  lemma WriteRun<T(!new)>(s: State<T>, data: seq<T>) returns (steps: seq<Step<T>>, s': State<T>)
    requires |s.ring| > 0 && Enabled(s, StartWrite(data, s.readPos)) && 0 <= s.writePos - s.readPos <= |s.ring|
    ensures Run(s, steps, s') && |s'.ring| == |s.ring|
    ensures var n := Min(|data|, |s.ring| - (s.writePos - s.readPos));
      s' == s.(ring := s'.ring, accepted := s.accepted + data[..n], writePos := s.writePos + n, seenReadPos := s.readPos)
  {
    var step := StartWrite(data, s.readPos);
    OneStep(s, step);
    steps, s' := FinishWriting(Apply(s, step));
    RunsJoin(s, [step], Apply(s, step), steps, s');
    steps := [step] + steps;
  }

  method Write<T(0,!new)>(r: SpscRing<T>, data: seq<T>, ghost s: State<T>)
    returns (n: nat, ghost steps: seq<Step<T>>, ghost s': State<T>)
    requires Agrees(r, s)
    modifies r`writePos, r`accepted, r.buffer
    ensures Run(s, steps, s') && Agrees(r, s') && n <= |data| && s'.accepted == s.accepted + data[..n]
  {
    steps, s' := WriteRun(s, data);
    RunKeeps(s, steps, s');
    n := r.Write(data);
  }

  /** The fetch loop, slot by slot, to the publication of the read. */
  lemma {:induction false} FinishReading<T(!new)>(s: State<T>) returns (steps: seq<Step<T>>, s': State<T>)
    requires |s.ring| > 0 && s.consumer.Reading? && s.consumer.done <= s.consumer.n
    ensures Run(s, steps, s') && |s'.ring| == |s.ring| && s.delivered <= s'.delivered
    ensures s' == s.(delivered := s'.delivered, readPos := s.readPos + s.consumer.n, consumer := Resting)
    decreases s.consumer.n - s.consumer.done
  {
    if s.consumer.done == s.consumer.n {
      steps, s' := [PublishRead], Apply(s, PublishRead);
      OneStep(s, PublishRead);
    } else {
      var s1 := Apply(s, Fetch);
      OneStep(s, Fetch);
      var rest;
      rest, s' := FinishReading(s1);
      RunsJoin(s, [Fetch], s1, rest, s');
      steps := [Fetch] + rest;
    }
  }

  /** A whole read as a run, seeing the writer where it is. */
  lemma ReadRun<T(!new)>(s: State<T>, count: nat) returns (steps: seq<Step<T>>, s': State<T>)
    requires |s.ring| > 0 && s.readPos <= s.writePos && Enabled(s, StartRead(count, s.writePos))
    ensures Run(s, steps, s') && |s'.ring| == |s.ring| && s.delivered <= s'.delivered
    ensures s' == s.(delivered := s'.delivered, readPos := s.readPos + Min(count, s.writePos - s.readPos),
                     seenWritePos := s.writePos)
  {
    var step := StartRead(count, s.writePos);
    OneStep(s, step);
    steps, s' := FinishReading(Apply(s, step));
    RunsJoin(s, [step], Apply(s, step), steps, s');
    steps := [step] + steps;
  }

  /** What was delivered since is the next items of the queue. */
  lemma DeliveredSince<T(!new)>(s: State<T>, s': State<T>, n: nat, got: seq<T>)
    requires s.readPos + n <= |s.accepted| && s'.readPos == s.readPos + n && s'.accepted == s.accepted
    requires s.delivered == s.accepted[..s.readPos] && s'.delivered == s'.accepted[..s'.readPos]
    requires got == s.accepted[s.readPos..][..n]
    ensures s'.delivered == s.delivered + got
  {
  }

  /** What the caller gets is what the machine delivers. */
  method Read<T(0,!new)>(r: SpscRing<T>, data: array<T>, count: nat, ghost s: State<T>)
    returns (n: nat, ghost steps: seq<Step<T>>, ghost s': State<T>)
    requires Agrees(r, s) && count <= data.Length && data != r.buffer
    modifies r`readPos, data
    ensures Run(s, steps, s') && Agrees(r, s') && n <= count && s'.delivered == s.delivered + data[..n]
  {
    steps, s' := ReadRun(s, count);
    RunKeeps(s, steps, s');
    n := r.Read(data, count);
    DeliveredSince(s, s', n, data[..n]);
  }
}
