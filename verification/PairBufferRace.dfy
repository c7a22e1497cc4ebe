/** The pair buffer as two threads see it: every load, store and publication is a separate step, the
    steps interleave freely, and each thread may act on an arbitrarily old view of the other's position. */
module PairBufferRace {
  import opened Basics
  import opened Masking
  import opened Signals
  import opened PairBuffers

  /** One scatter_add call: what was asked for, and how much of it lay inside the write window. */
  datatype Contribution = Contribution(start: int, samples: seq<real>, accepted: nat)

  datatype Producer = Idle | Scattering(job: Contribution, done: nat)

  /** `done` slots of the current read have been taken and cleared; `loaded` tells whether the next
      one has been copied out but not yet cleared. */
  datatype Consumer = Resting | Draining(n: nat, done: nat, loaded: bool)

  datatype State = State(
    ring: seq<real>, readPos: nat, watermark: nat, origin: nat, firstMessage: bool, drops: nat,
    producer: Producer, consumer: Consumer,
    log: seq<Contribution>, delivered: seq<real>)

  datatype Step =
    | BeginMessage(gap: nat, absoluteFirstOrigin: bool, baseDelay: nat)
    | StartScatter(offset: nat, samples: seq<real>, seenReadPos: nat)
    | Accumulate
    | FinishScatter
    | CommitSourceProgress(processed: nat)
    | CommitExtra(extra: nat)
    | StartRead(count: nat, seenWatermark: nat)
    | Load
    | Clear
    | FinishRead

  /** The reference meaning: what the finished contributions add up to at position p. */
  ghost function Total(log: seq<Contribution>, p: int): real {
    if log == [] then 0.0
    else
      var c := log[|log| - 1];
      Total(log[..|log| - 1], p) + At(c.samples[..Min(c.accepted, |c.samples|)], p - c.start)
  }

  function Dropped(log: seq<Contribution>): int {
    if log == [] then 0
    else Dropped(log[..|log| - 1]) + |log[|log| - 1].samples| - log[|log| - 1].accepted
  }

  ghost function Pending(producer: Producer, p: int): real {
    if producer.Scattering? then At(producer.job.samples[..Min(producer.done, |producer.job.samples|)], p - producer.job.start)
    else 0.0
  }

  /** Everything that has reached the ring for position p. */
  ghost function Value(s: State, p: int): real {
    Total(s.log, p) + Pending(s.producer, p)
  }

  ghost function Values(s: State): Signal { (p: int) => Value(s, p) }

  function Head(s: State): nat {
    s.readPos + (if s.consumer.Draining? then s.consumer.done else 0)
  }

  ghost predicate ProducerOk(s: State) {
    s.producer.Scattering? ==>
      var c := s.producer.job;
      && s.producer.done <= c.accepted <= |c.samples|
      && (c.samples != [] ==> s.watermark <= c.start)
      && (c.accepted > 0 ==> c.start + c.accepted <= s.readPos + |s.ring|)
  }

  ghost predicate ConsumerOk(s: State) {
    && s.readPos <= s.watermark
    && (s.consumer.Draining? ==>
          && s.consumer.done <= s.consumer.n && s.readPos + s.consumer.n <= s.watermark
          && (s.consumer.loaded ==> s.consumer.done < s.consumer.n))
  }

  /** What the consumer has been given so far is the value of every position it has passed. */
  ghost predicate DeliveredOk(s: State) {
    && |s.delivered| == Head(s) + (if s.consumer.Draining? && s.consumer.loaded then 1 else 0)
    && forall p :: 0 <= p < |s.delivered| ==> s.delivered[p] == Value(s, p)
  }

  ghost predicate RingOk(s: State) {
    && |s.ring| > 0
    && Window(s.ring, Head(s), Head(s) + |s.ring|, Values(s))
    && forall p :: p >= s.readPos + |s.ring| ==> Value(s, p) == 0.0
  }

  ghost predicate DropsOk(s: State) {
    s.drops == Dropped(s.log)
      + (if s.producer.Scattering? then |s.producer.job.samples| - s.producer.job.accepted else 0)
  }

  ghost predicate Inv(s: State) {
    ProducerOk(s) && ConsumerOk(s) && DeliveredOk(s) && RingOk(s) && DropsOk(s)
  }

  function Init(capacity: nat): (s: State)
    requires capacity > 0
  {
    State(Zeros(capacity), 0, 0, 0, true, 0, Idle, Resting, [], [])
  }

  /** When a thread can take a step. A thread runs its calls one after the other; its view of the other
      side's position is any value that position has had (both only grow). The renderers' discipline
      enters in StartScatter: a scatter never starts below the watermark. */
  predicate Enabled(s: State, step: Step) {
    match step
    case BeginMessage(_, _, _) => s.producer.Idle?
    case StartScatter(offset, samples, seen) =>
      s.producer.Idle? && seen <= s.readPos && (samples != [] ==> s.watermark <= s.origin + offset)
    case Accumulate => s.producer.Scattering? && s.producer.done < s.producer.job.accepted
    case FinishScatter => s.producer.Scattering? && s.producer.done == s.producer.job.accepted
    case CommitSourceProgress(_) => s.producer.Idle?
    case CommitExtra(_) => s.producer.Idle?
    case StartRead(_, seen) => s.consumer.Resting? && seen <= s.watermark
    case Load => s.consumer.Draining? && s.consumer.done < s.consumer.n && !s.consumer.loaded
    case Clear => s.consumer.Draining? && s.consumer.loaded
    case FinishRead => s.consumer.Draining? && s.consumer.done == s.consumer.n
  }

  function Apply(s: State, step: Step): State
    requires |s.ring| > 0 && Enabled(s, step)
  {
    match step
    case BeginMessage(gap, absolute, baseDelay) =>
      s.(origin := if s.firstMessage && !absolute then baseDelay else s.watermark + gap, firstMessage := false)
    case StartScatter(offset, samples, seen) =>
      var n := Accepted(s.origin + offset, |samples|, seen + |s.ring|);
      s.(producer := Scattering(Contribution(s.origin + offset, samples, n), 0), drops := s.drops + (|samples| - n))
    case Accumulate =>
      var c := s.producer.job;
      var slot := Slot(c.start + s.producer.done, |s.ring|);
      s.(ring := s.ring[slot := s.ring[slot] + At(c.samples, s.producer.done)],
         producer := s.producer.(done := s.producer.done + 1))
    case FinishScatter => s.(log := s.log + [s.producer.job], producer := Idle)
    case CommitSourceProgress(processed) => s.(watermark := Max(s.watermark, s.origin + processed))
    case CommitExtra(extra) => s.(watermark := s.watermark + extra)
    case StartRead(count, seen) =>
      s.(consumer := Draining(if seen > s.readPos then Min(count, seen - s.readPos) else 0, 0, false))
    case Load =>
      s.(delivered := s.delivered + [s.ring[Slot(Head(s), |s.ring|)]], consumer := s.consumer.(loaded := true))
    case Clear =>
      s.(ring := s.ring[Slot(Head(s), |s.ring|) := 0.0],
         consumer := s.consumer.(done := s.consumer.done + 1, loaded := false))
    case FinishRead => s.(readPos := s.readPos + s.consumer.n, consumer := Resting)
  }

  /** The two threads never have the same slot in hand. */
  lemma NoSharedSlot(s: State)
    requires Inv(s) && Enabled(s, Accumulate) && s.consumer.Draining? && s.consumer.done < s.consumer.n
    ensures Slot(s.producer.job.start + s.producer.done, |s.ring|) != Slot(Head(s), |s.ring|)
  {
    SlotDistinct(s.producer.job.start + s.producer.done, Head(s), |s.ring|);
  }

  /** Nothing the producer is doing, or may still do, reaches a published position. */
  lemma PendingIsPastWatermark(s: State, p: int)
    requires ProducerOk(s) && p < s.watermark
    ensures Pending(s.producer, p) == 0.0
  {
  }

  lemma AccumulateKeeps(s: State)
    requires Inv(s) && Enabled(s, Accumulate)
    ensures Inv(Apply(s, Accumulate))
  {
    var s' := Apply(s, Accumulate);
    var c, i := s.producer.job, s.producer.done;
    assert At(c.samples[..i], i) == 0.0 && At(c.samples[..i + 1], i) == c.samples[i];
    forall p | p != c.start + i
      ensures Value(s', p) == Value(s, p)
    {
      assert At(c.samples[..i], p - c.start) == At(c.samples[..i + 1], p - c.start);
    }
    assert Value(s', c.start + i) == Value(s, c.start + i) + c.samples[i] by {
      assert Pending(s'.producer, c.start + i) == At(c.samples[..i + 1], c.start + i - c.start);
    }
    var lo, n := Head(s), |s.ring|;
    assert s.ring[Slot(c.start + i, n)] == Values(s)(c.start + i);
    WindowStore(s.ring, lo, lo + n, Values(s), c.start + i, Values(s'));
  }

  /** What was pending is now in the log; nothing else moves. */
  lemma LogAppend(log: seq<Contribution>, c: Contribution, p: int)
    ensures Total(log + [c], p) == Total(log, p) + At(c.samples[..Min(c.accepted, |c.samples|)], p - c.start)
    ensures Dropped(log + [c]) == Dropped(log) + |c.samples| - c.accepted
  {
    assert (log + [c])[..|log|] == log;
  }

  lemma FinishScatterValue(s: State, p: int)
    requires ProducerOk(s) && Enabled(s, FinishScatter) && |s.ring| > 0
    ensures Value(Apply(s, FinishScatter), p) == Value(s, p)
  {
    LogAppend(s.log, s.producer.job, p);
  }

  lemma FinishScatterKeeps(s: State)
    requires Inv(s) && Enabled(s, FinishScatter)
    ensures Inv(Apply(s, FinishScatter))
  {
    var s' := Apply(s, FinishScatter);
    forall p
      ensures Value(s', p) == Value(s, p)
    {
      FinishScatterValue(s, p);
    }
    LogAppend(s.log, s.producer.job, 0);
    ValuesKept(s, s');
  }

  /** If no value and no position changes, ring and deliveries stay right. */
  lemma ValuesKept(s: State, s': State)
    requires RingOk(s) && DeliveredOk(s)
    requires s'.ring == s.ring && s'.readPos == s.readPos && s'.consumer == s.consumer && s'.delivered == s.delivered
    requires forall p :: Value(s', p) == Value(s, p)
    ensures RingOk(s') && DeliveredOk(s')
  {
    WindowSame(s.ring, Head(s), Head(s) + |s.ring|, Values(s), Values(s'));
  }

  lemma WindowSame(ring: seq<real>, lo: int, hi: int, x: Signal, x': Signal)
    requires |ring| > 0 && Window(ring, lo, hi, x) && forall p :: x'(p) == x(p)
    ensures Window(ring, lo, hi, x')
  {
  }

  lemma StartScatterKeeps(s: State, step: Step)
    requires Inv(s) && step.StartScatter? && Enabled(s, step)
    ensures Inv(Apply(s, step))
  {
    var s' := Apply(s, step);
    forall p
      ensures Value(s', p) == Value(s, p)
    {
      assert s'.producer.job.samples[..0] == [];
    }
    ValuesKept(s, s');
  }

  lemma ValuesSame(s: State, s': State)
    requires s'.log == s.log && s'.producer == s.producer
    ensures forall p :: Value(s', p) == Value(s, p)
  {
  }

  lemma LoadKeeps(s: State)
    requires Inv(s) && Enabled(s, Load)
    ensures Inv(Apply(s, Load))
  {
    var s' := Apply(s, Load);
    ValuesSame(s, s');
    assert s.ring[Slot(Head(s), |s.ring|)] == Values(s)(Head(s));
    assert DeliveredOk(s');
    WindowSame(s.ring, Head(s), Head(s) + |s.ring|, Values(s), Values(s'));
  }

  /** A cleared slot stands for the position one ring length later, which nothing has reached. */
  lemma ClearedWindow(ring: seq<real>, head: int, x: Signal)
    requires |ring| > 0 && Window(ring, head, head + |ring|, x) && x(head + |ring|) == 0.0
    ensures Window(ring[Slot(head, |ring|) := 0.0], head + 1, head + 1 + |ring|, x)
  {
    WindowSlide(ring, head, x);
  }

  lemma ClearKeeps(s: State)
    requires Inv(s) && Enabled(s, Clear)
    ensures Inv(Apply(s, Clear))
  {
    var s' := Apply(s, Clear);
    ValuesSame(s, s');
    assert RingOk(s') by {
      assert Values(s)(Head(s) + |s.ring|) == Value(s, Head(s) + |s.ring|) == 0.0;
      ClearedWindow(s.ring, Head(s), Values(s));
      WindowSame(s'.ring, Head(s'), Head(s') + |s'.ring|, Values(s), Values(s'));
    }
  }

  /** Steps that move only positions leave the ring and all values alone. */
  lemma PositionStepKeeps(s: State, step: Step)
    requires Inv(s) && Enabled(s, step)
    requires step.BeginMessage? || step.CommitSourceProgress? || step.CommitExtra? || step.StartRead? || step.FinishRead?
    ensures Inv(Apply(s, step))
  {
    var s' := Apply(s, step);
    ValuesSame(s, s');
    WindowSame(s.ring, Head(s), Head(s) + |s.ring|, Values(s), Values(s'));
  }

  lemma StepKeeps(s: State, step: Step)
    requires Inv(s) && Enabled(s, step)
    ensures Inv(Apply(s, step))
  {
    match step
    case StartScatter(_, _, _) => StartScatterKeeps(s, step);
    case Accumulate => AccumulateKeeps(s);
    case FinishScatter => FinishScatterKeeps(s);
    case Load => LoadKeeps(s);
    case Clear => ClearKeeps(s);
    case _ => PositionStepKeeps(s, step);
  }

  /** The state after a run, if every step of it could be taken. */
  ghost predicate Run(s: State, steps: seq<Step>, s': State)
    decreases |steps|
  {
    if steps == [] then s' == s
    else |s.ring| > 0 && Enabled(s, steps[0]) && Run(Apply(s, steps[0]), steps[1..], s')
  }

  lemma {:induction false} RunsJoin(s: State, a: seq<Step>, s1: State, b: seq<Step>, s2: State)
    requires Run(s, a, s1) && Run(s1, b, s2)
    ensures Run(s, a + b, s2)
    decreases |a|
  {
    if a == [] {
      assert a + b == b;
    } else {
      RunsJoin(Apply(s, a[0]), a[1..], s1, b, s2);
      assert (a + b)[1..] == a[1..] + b;
    }
  }

  lemma InitInv(capacity: nat)
    requires capacity > 0
    ensures Inv(Init(capacity))
  {
  }

  /** Published values are final: whatever happens later, what was delivered stays a prefix of what is
      delivered, and no later contribution changes the total of a position below the watermark. */
  lemma StepIsFinal(s: State, step: Step)
    requires Inv(s) && Enabled(s, step)
    ensures var s' := Apply(s, step);
      && s.watermark <= s'.watermark && s.delivered <= s'.delivered
      && forall p :: 0 <= p < s.watermark ==> Total(s'.log, p) == Total(s.log, p)
  {
    var s' := Apply(s, step);
    if step.FinishScatter? {
      assert s'.log[..|s'.log| - 1] == s.log;
    }
  }

  lemma {:induction false} RunKeeps(s: State, steps: seq<Step>, s': State)
    requires Inv(s) && Run(s, steps, s')
    ensures Inv(s')
    ensures s.watermark <= s'.watermark && s.delivered <= s'.delivered
    ensures forall p :: 0 <= p < s.watermark ==> Total(s'.log, p) == Total(s.log, p)
    decreases |steps|
  {
    if steps != [] {
      StepKeeps(s, steps[0]);
      StepIsFinal(s, steps[0]);
      RunKeeps(Apply(s, steps[0]), steps[1..], s');
    }
  }

  /** The main theorem, for every interleaving from a fresh buffer: each position p the receiver has
      been given is exactly the sum of the accepted contributions addressed to p, however often the
      ring has wrapped; it stays so for ever; and every sample is either accepted or counted as dropped. */
  lemma RingRefinesStream(capacity: nat, steps: seq<Step>, s: State, later: seq<Step>, s': State)
    requires capacity > 0 && Run(Init(capacity), steps, s) && Run(s, later, s')
    ensures forall p :: 0 <= p < |s.delivered| ==>
      s.delivered[p] == Total(s.log, p) == Total(s'.log, p) && p < |s'.delivered| && s'.delivered[p] == s.delivered[p]
    ensures s.producer.Idle? ==> s.drops == Dropped(s.log)
    ensures s.readPos <= |s.delivered| <= s.watermark
  {
    InitInv(capacity);
    RunKeeps(Init(capacity), steps, s);
    RunKeeps(s, later, s');
    forall p | 0 <= p < |s.delivered|
      ensures s.delivered[p] == Total(s.log, p) == Total(s'.log, p)
    {
      PendingIsPastWatermark(s, p);
      assert s.delivered[p] == Value(s, p);
    }
  }

  /** The sequential class and this machine speak of the same stream: one more finished contribution is
      one more AddBlock of its accepted part. */
  lemma ContributionIsAddBlock(log: seq<Contribution>, c: Contribution, p: int)
    requires c.accepted <= |c.samples|
    ensures Total(log + [c], p) == AddBlock((q: int) => Total(log, q), c.start, c.samples[..c.accepted])(p)
  {
    assert (log + [c])[..|log|] == log;
  }

  // What a run asked for, read off its steps.

  /** One scatter as the producer asked for it, and the write limit it saw. */
  datatype Request = Request(start: int, samples: seq<real>, limit: int)

  /** What a step asks for. */
  function Asked(s: State, step: Step): seq<Request> {
    match step
    case StartScatter(offset, samples, seen) => [Request(s.origin + offset, samples, seen + |s.ring|)]
    case _ => []
  }

  /** The scatters of a run, in order. */
  function Requests(s: State, steps: seq<Step>): seq<Request>
    decreases |steps|
  {
    if steps == [] || |s.ring| == 0 || !Enabled(s, steps[0]) then []
    else Asked(s, steps[0]) + Requests(Apply(s, steps[0]), steps[1..])
  }

  /** The contribution is the longest part of what was asked for that ends by the limit seen. */
  predicate Answers(c: Contribution, r: Request) {
    && c.start == r.start && c.samples == r.samples && c.accepted <= |r.samples|
    && (c.accepted > 0 ==> r.start + c.accepted <= r.limit)
    && (c.accepted < |r.samples| ==> r.limit <= r.start + c.accepted)
  }

  ghost predicate AllAnswer(log: seq<Contribution>, asked: seq<Request>) {
    |log| == |asked| && forall i :: 0 <= i < |log| ==> Answers(log[i], asked[i])
  }

  /** The contributions so far, the one under way included. */
  function Jobs(s: State): seq<Contribution> {
    s.log + (if s.producer.Scattering? then [s.producer.job] else [])
  }

  lemma StepAnswers(s: State, step: Step) returns (made: seq<Contribution>)
    requires |s.ring| > 0 && Enabled(s, step)
    ensures Jobs(Apply(s, step)) == Jobs(s) + made && AllAnswer(made, Asked(s, step))
  {
    made := if step.StartScatter? then [Apply(s, step).producer.job] else [];
  }

  lemma AllAnswerJoin(a: seq<Contribution>, x: seq<Request>, b: seq<Contribution>, y: seq<Request>)
    requires AllAnswer(a, x) && AllAnswer(b, y)
    ensures AllAnswer(a + b, x + y)
  {
  }

  /** From the steps alone: a run logs exactly what it asked for, in order, each block as far as the write limit
      it saw and no shorter. */
  lemma {:induction false} RunAnswers(s: State, steps: seq<Step>, s': State) returns (made: seq<Contribution>)
    requires Run(s, steps, s')
    ensures Jobs(s') == Jobs(s) + made && AllAnswer(made, Requests(s, steps))
    decreases |steps|
  {
    if steps == [] {
      made := [];
    } else {
      var first := StepAnswers(s, steps[0]);
      var rest := RunAnswers(Apply(s, steps[0]), steps[1..], s');
      made := first + rest;
      AllAnswerJoin(first, Asked(s, steps[0]), rest, Requests(Apply(s, steps[0]), steps[1..]));
    }
  }

  /** Every scatter of the run ended by the write limit it saw. */
  ghost predicate AllFit(asked: seq<Request>) {
    forall i :: 0 <= i < |asked| ==> asked[i].start + |asked[i].samples| <= asked[i].limit
  }

  /** These requests, accepted in full. */
  ghost function InFull(asked: seq<Request>): seq<Contribution> {
    seq(|asked|, i requires 0 <= i < |asked| => Contribution(asked[i].start, asked[i].samples, |asked[i].samples|))
  }

  lemma {:induction false} NoneDropped(log: seq<Contribution>)
    requires forall i :: 0 <= i < |log| ==> log[i].accepted == |log[i].samples|
    ensures Dropped(log) == 0
    decreases |log|
  {
    if log != [] {
      NoneDropped(log[..|log| - 1]);
    }
  }

  lemma FittingIsInFull(log: seq<Contribution>, asked: seq<Request>)
    requires AllAnswer(log, asked) && AllFit(asked)
    ensures log == InFull(asked)
  {
    forall i | 0 <= i < |log|
      ensures log[i] == InFull(asked)[i]
    {
      assert Answers(log[i], asked[i]);
    }
  }

  /** When every contribution was accepted in full, nothing has been dropped. */
  lemma InFullDropsNothing(s: State, asked: seq<Request>)
    requires DropsOk(s) && Jobs(s) == InFull(asked)
    ensures s.drops == 0
  {
    forall i | 0 <= i < |Jobs(s)|
      ensures Jobs(s)[i].accepted == |Jobs(s)[i].samples|
    {
      assert Jobs(s)[i] == InFull(asked)[i];
    }
    forall i | 0 <= i < |s.log|
      ensures s.log[i].accepted == |s.log[i].samples|
    {
      assert s.log[i] == Jobs(s)[i];
    }
    NoneDropped(s.log);
    if s.producer.Scattering? {
      assert Jobs(s)[|s.log|] == s.producer.job;
    }
  }

  /** So a run whose scatters all end by the limits they saw drops nothing, and its log is exactly the blocks asked
      for, in order. */
  lemma FittingRunDropsNothing(capacity: nat, steps: seq<Step>, s: State)
    requires capacity > 0 && Run(Init(capacity), steps, s) && AllFit(Requests(Init(capacity), steps))
    ensures s.drops == 0 && Jobs(s) == InFull(Requests(Init(capacity), steps))
  {
    var made := RunAnswers(Init(capacity), steps, s);
    assert Jobs(s) == made;
    FittingIsInFull(made, Requests(Init(capacity), steps));
    InitInv(capacity);
    RunKeeps(Init(capacity), steps, s);
    InFullDropsNothing(s, Requests(Init(capacity), steps));
  }

  /** Where the reader stands once the read under way is finished. */
  function ReadGoal(s: State): nat {
    s.readPos + (if s.consumer.Draining? then s.consumer.n else 0)
  }

  /** Where the reads of a run take the reader from a position: each by as much as it asked for and saw published. */
  function ReadThrough(pos: nat, steps: seq<Step>): nat
    decreases |steps|
  {
    if steps == [] then pos
    else
      match steps[0]
      case StartRead(count, seen) => ReadThrough(if pos + count <= seen then pos + count else Max(pos, seen), steps[1..])
      case _ => ReadThrough(pos, steps[1..])
  }

  lemma {:induction false} RunReads(s: State, steps: seq<Step>, s': State)
    requires Run(s, steps, s')
    ensures ReadGoal(s') == ReadThrough(ReadGoal(s), steps)
    decreases |steps|
  {
    if steps != [] {
      RunReads(Apply(s, steps[0]), steps[1..], s');
    }
  }

  predicate NoReads(steps: seq<Step>) {
    forall i :: 0 <= i < |steps| ==> !steps[i].StartRead?
  }

  lemma {:induction false} NoReadsStay(pos: nat, steps: seq<Step>)
    requires NoReads(steps)
    ensures ReadThrough(pos, steps) == pos
    decreases |steps|
  {
    if steps != [] {
      assert !steps[0].StartRead?;
      NoReadsStay(pos, steps[1..]);
    }
  }

  /** A finished read that saw `count` samples published ahead of it has delivered `count` samples. */
  lemma FinishedReadDelivers(s: State, count: nat, seen: nat, steps: seq<Step>, s': State)
    requires Inv(s) && Enabled(s, StartRead(count, seen)) && s.readPos + count <= seen
    requires Run(Apply(s, StartRead(count, seen)), steps, s') && NoReads(steps) && s'.consumer.Resting?
    ensures |s'.delivered| == |s.delivered| + count
  {
    StepKeeps(s, StartRead(count, seen));
    RunKeeps(Apply(s, StartRead(count, seen)), steps, s');
    RunReads(Apply(s, StartRead(count, seen)), steps, s');
    NoReadsStay(s.readPos + count, steps);
  }

  /** Over a whole run the receiver has been given exactly what its reads asked for and saw. */
  lemma RunDelivers(capacity: nat, steps: seq<Step>, s: State)
    requires capacity > 0 && Run(Init(capacity), steps, s) && s.consumer.Resting?
    ensures |s.delivered| == ReadThrough(0, steps)
  {
    InitInv(capacity);
    RunKeeps(Init(capacity), steps, s);
    RunReads(Init(capacity), steps, s);
  }
}
