/** The same ring under every interleaving of its two threads, slot by slot. Each side works from a view
    of the other's position that may be stale but never goes backwards. */
module SpscRace {
  import opened Basics
  import opened Masking
  import opened SpscRings

  datatype Producer<T> = Idle | Writing(data: seq<T>, n: nat, done: nat)
  datatype Consumer = Resting | Reading(n: nat, done: nat)

  datatype State<T> = State(
    ring: seq<T>, writePos: nat, readPos: nat,
    seenReadPos: nat, seenWritePos: nat,
    producer: Producer<T>, consumer: Consumer,
    accepted: seq<T>, delivered: seq<T>)

  datatype Step<T> =
    | StartWrite(data: seq<T>, seen: nat)
    | Store
    | PublishWrite
    | StartRead(count: nat, seen: nat)
    | Fetch
    | PublishRead

  /** The item stream including what the current write has stored but not published. */
  function Items<T>(s: State<T>): seq<T> {
    s.accepted + (if s.producer.Writing? then s.producer.data[..Min(s.producer.done, |s.producer.data|)] else [])
  }

  function Tail(s: State): nat { s.readPos + (if s.consumer.Reading? then s.consumer.done else 0) }

  ghost predicate Inv<T(!new)>(s: State<T>) {
    && s.seenReadPos <= s.readPos <= s.seenWritePos <= s.writePos <= s.seenReadPos + |s.ring|
    && |s.accepted| == s.writePos
    && (s.producer.Writing? ==>
          s.producer.done <= s.producer.n <= |s.producer.data| && s.writePos + s.producer.n <= s.seenReadPos + |s.ring|)
    && (s.consumer.Reading? ==> s.consumer.done <= s.consumer.n && s.readPos + s.consumer.n <= s.seenWritePos)
    && Stored(s.ring, Tail(s), |Items(s)|, Items(s))
    && s.delivered == s.accepted[..Tail(s)]
  }

  predicate Enabled<T>(s: State<T>, step: Step<T>) {
    match step
    case StartWrite(_, seen) => s.producer.Idle? && s.seenReadPos <= seen <= s.readPos
    case Store => s.producer.Writing? && s.producer.done < s.producer.n && s.producer.done < |s.producer.data|
    case PublishWrite => s.producer.Writing? && s.producer.done == s.producer.n
    case StartRead(_, seen) => s.consumer.Resting? && s.seenWritePos <= seen <= s.writePos
    case Fetch => s.consumer.Reading? && s.consumer.done < s.consumer.n
    case PublishRead => s.consumer.Reading? && s.consumer.done == s.consumer.n
  }

  /** The free space and the fill are unsigned differences in the source; here a negative difference
      would show up as zero, and the invariant excludes it. */
  function Clip(x: int): nat { if x < 0 then 0 else x }

  function Apply<T>(s: State<T>, step: Step<T>): State<T>
    requires |s.ring| > 0 && Enabled(s, step)
  {
    match step
    case StartWrite(data, seen) =>
      s.(seenReadPos := seen,
         producer := Writing(data, Clip(Min(|data|, |s.ring| - (s.writePos - seen))), 0))
    case Store =>
      s.(ring := s.ring[Slot(s.writePos + s.producer.done, |s.ring|) := s.producer.data[s.producer.done]],
         producer := s.producer.(done := s.producer.done + 1))
    case PublishWrite =>
      s.(accepted := Items(s), writePos := s.writePos + s.producer.n, producer := Idle)
    case StartRead(count, seen) =>
      s.(seenWritePos := seen, consumer := Reading(Clip(Min(count, seen - s.readPos)), 0))
    case Fetch =>
      s.(delivered := s.delivered + [s.ring[Slot(Tail(s), |s.ring|)]],
         consumer := s.consumer.(done := s.consumer.done + 1))
    case PublishRead =>
      s.(readPos := s.readPos + s.consumer.n, consumer := Resting)
  }

  /** An unread slot is never overwritten. */
  lemma StoreHitsNoUnreadSlot<T(!new)>(s: State<T>, p: nat)
    requires Inv(s) && Enabled(s, Store) && Tail(s) <= p < s.writePos + s.producer.done
    ensures Slot(s.writePos + s.producer.done, |s.ring|) != Slot(p, |s.ring|)
  {
    SlotDistinct(s.writePos + s.producer.done, p, |s.ring|);
  }

  lemma StoreKeeps<T(!new)>(s: State<T>)
    requires Inv(s) && Enabled(s, Store)
    ensures Inv(Apply(s, Store))
  {
    var s' := Apply(s, Store);
    var i := s.producer.done;
    StoreNext(s.ring, Tail(s), Items(s), s.producer.data[i]);
    assert Items(s') == Items(s) + [s.producer.data[i]];
  }

  lemma FetchKeeps<T(!new)>(s: State<T>)
    requires Inv(s) && Enabled(s, Fetch)
    ensures Inv(Apply(s, Fetch))
  {
    var s' := Apply(s, Fetch);
    var p := Tail(s);
    assert s.ring[Slot(p, |s.ring|)] == Items(s)[p] == s.accepted[p];
    assert s.accepted[..p + 1] == s.accepted[..p] + [s.accepted[p]];
  }

  lemma StepKeeps<T(!new)>(s: State<T>, step: Step<T>)
    requires Inv(s) && Enabled(s, step)
    ensures Inv(Apply(s, step))
  {
    var s' := Apply(s, step);
    match step
    case StartWrite(_, _) => assert Items(s') == Items(s) == s.accepted;
    case Store => StoreKeeps(s);
    case PublishWrite => assert Items(s') == Items(s);
    case Fetch => FetchKeeps(s);
    case _ => assert Items(s') == Items(s);
  }

  ghost predicate Run<T(!new)>(s: State<T>, steps: seq<Step<T>>, s': State<T>)
    decreases |steps|
  {
    if steps == [] then s' == s
    else |s.ring| > 0 && Enabled(s, steps[0]) && Run(Apply(s, steps[0]), steps[1..], s')
  }

  lemma {:induction false} RunKeeps<T(!new)>(s: State<T>, steps: seq<Step<T>>, s': State<T>)
    requires Inv(s) && Run(s, steps, s')
    ensures Inv(s') && |s'.ring| == |s.ring|
    ensures s.accepted <= s'.accepted && s.delivered <= s'.delivered
    decreases |steps|
  {
    if steps != [] {
      StepKeeps(s, steps[0]);
      RunKeeps(Apply(s, steps[0]), steps[1..], s');
    }
  }

  /** An empty ring whose slots hold anything at all. */
  function Init<T>(ring: seq<T>): State<T> {
    State(ring, 0, 0, 0, 0, Idle, Resting, [], [])
  }

  /** The ring is a FIFO: after every run the items read are a prefix of the items accepted, in order and
      without loss or repetition, and the fill stays between empty and full. */
  lemma RingIsFifo<T(!new)>(ring: seq<T>, steps: seq<Step<T>>, s: State<T>)
    requires |ring| > 0 && Run(Init(ring), steps, s)
    ensures s.delivered <= s.accepted
    ensures s.readPos <= |s.delivered| <= |s.accepted| == s.writePos
    ensures 0 <= s.writePos - s.readPos <= |ring|
    ensures s.consumer.Resting? ==> |s.accepted| - |s.delivered| == s.writePos - s.readPos
  {
    RunKeeps(Init(ring), steps, s);
  }

  /** With stale views the two differences the threads compute are still in range: neither side ever
      sees more than the capacity in use, nor fewer items than none. */
  lemma ViewsInRange<T(!new)>(s: State<T>, seenRead: nat, seenWrite: nat)
    requires Inv(s)
    requires s.seenReadPos <= seenRead <= s.readPos && s.seenWritePos <= seenWrite <= s.writePos
    ensures 0 <= s.writePos - seenRead <= |s.ring|
    ensures 0 <= seenWrite - s.readPos <= |s.ring|
  {
  }

  // What a run asked for, read off its steps.

  /** The accepted items once the write under way is published. */
  function Offered<T>(s: State<T>): seq<T> {
    s.accepted + (if s.producer.Writing? then s.producer.data[..Min(s.producer.n, |s.producer.data|)] else [])
  }

  /** The queue grew by the longest prefix of the data that fits behind the reader's position. */
  predicate Extends<T(==)>(before: seq<T>, data: seq<T>, limit: int, after: seq<T>) {
    && before <= after && after <= before + data
    && (|after| > |before| ==> |after| <= limit)
    && (|after| < |before| + |data| ==> |after| >= limit)
  }

  /** Each write of the run extends the queue as far as the space it saw. */
  ghost predicate Written<T(!new)>(before: seq<T>, steps: seq<Step<T>>, capacity: nat, after: seq<T>)
    decreases |steps|
  {
    if steps == [] then after == before
    else
      match steps[0]
      case StartWrite(data, seen) =>
        exists next :: Extends(before, data, seen + capacity, next) && Written(next, steps[1..], capacity, after)
      case _ => Written(before, steps[1..], capacity, after)
  }

  lemma StepExtends<T(!new)>(s: State<T>, step: Step<T>)
    requires Inv(s) && Enabled(s, step)
    ensures step.StartWrite? ==> Extends(Offered(s), step.data, step.seen + |s.ring|, Offered(Apply(s, step)))
    ensures !step.StartWrite? ==> Offered(Apply(s, step)) == Offered(s)
  {
  }

  /** From the steps alone: over every run the ring takes of each write exactly the longest prefix that fits the
      space it saw. */
  lemma {:induction false} RunWrites<T(!new)>(s: State<T>, steps: seq<Step<T>>, s': State<T>)
    requires Inv(s) && Run(s, steps, s')
    ensures Written(Offered(s), steps, |s.ring|, Offered(s'))
    decreases |steps|
  {
    if steps != [] {
      StepKeeps(s, steps[0]);
      StepExtends(s, steps[0]);
      RunWrites(Apply(s, steps[0]), steps[1..], s');
    }
  }

  /** Where the reader stands once the read under way is finished. */
  function ReadGoal(s: State): nat {
    s.readPos + (if s.consumer.Reading? then s.consumer.n else 0)
  }

  /** Where the reads of a run take the reader from a position: each by as much as it asked for and saw written. */
  function ReadThrough<T>(pos: nat, steps: seq<Step<T>>): nat
    decreases |steps|
  {
    if steps == [] then pos
    else
      match steps[0]
      case StartRead(count, seen) => ReadThrough(if pos + count <= seen then pos + count else Max(pos, seen), steps[1..])
      case _ => ReadThrough(pos, steps[1..])
  }

  lemma {:induction false} RunReads<T(!new)>(s: State<T>, steps: seq<Step<T>>, s': State<T>)
    requires Inv(s) && Run(s, steps, s')
    ensures ReadGoal(s') == ReadThrough(ReadGoal(s), steps)
    decreases |steps|
  {
    if steps != [] {
      StepKeeps(s, steps[0]);
      RunReads(Apply(s, steps[0]), steps[1..], s');
    }
  }

  /** So between writes the queue has taken exactly what its writes could place. */
  lemma RunTakes<T(!new)>(ring: seq<T>, steps: seq<Step<T>>, s: State<T>)
    requires |ring| > 0 && Run(Init(ring), steps, s) && s.producer.Idle?
    ensures Written([], steps, |ring|, s.accepted)
  {
    RunWrites(Init(ring), steps, s);
    assert Offered(Init(ring)) == [] && Offered(s) == s.accepted;
  }

  /** And between reads the reader has taken exactly what its reads asked for and saw. */
  lemma RunGives<T(!new)>(ring: seq<T>, steps: seq<Step<T>>, s: State<T>)
    requires |ring| > 0 && Run(Init(ring), steps, s) && s.consumer.Resting?
    ensures |s.delivered| == ReadThrough(0, steps) && s.delivered <= s.accepted
  {
    RunKeeps(Init(ring), steps, s);
    RunReads(Init(ring), steps, s);
  }
}
