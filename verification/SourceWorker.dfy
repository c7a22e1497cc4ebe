/** The source worker: state edges delimit messages, and every sample taken from the transmit ring goes,
    once and in order, to every outgoing channel. */
module SourceWorkers {
  import opened SpscRings
  import opened SampleConversions

  datatype ModemState = IDLE | TX | SETTLING | RX

  /** What one outgoing channel is told. */
  datatype Event = Start | Feed(samples: seq<real>) | End

  /** A message is in progress after these events. */
  predicate Open(ev: seq<Event>) {
    ev != [] && match ev[|ev| - 1]
      case Start => true
      case End => false
      case Feed(_) => Open(ev[..|ev| - 1])
  }

  /** Starts and ends alternate, beginning with a start, and samples come only inside a message. */
  predicate Nested(ev: seq<Event>) {
    ev == [] || (
      && Nested(ev[..|ev| - 1])
      && (ev[|ev| - 1].Start? <==> !Open(ev[..|ev| - 1])))
  }

  /** The samples rendered in the current, or else the last, message. */
  function Rendered(ev: seq<Event>): seq<real> {
    if ev == [] then []
    else match ev[|ev| - 1]
      case Start => []
      case End => Rendered(ev[..|ev| - 1])
      case Feed(x) => Rendered(ev[..|ev| - 1]) + x
  }

  /** The samples rendered in all messages so far. */
  function History(ev: seq<Event>): seq<real> {
    if ev == [] then []
    else History(ev[..|ev| - 1]) + (if ev[|ev| - 1].Feed? then ev[|ev| - 1].samples else [])
  }

  /** How many messages have been begun. */
  function Starts(ev: seq<Event>): nat {
    if ev == [] then 0 else Starts(ev[..|ev| - 1]) + (if ev[|ev| - 1].Start? then 1 else 0)
  }

  lemma Append(ev: seq<Event>, e: Event)
    ensures (ev + [e])[..|ev + [e]| - 1] == ev
    ensures Open(ev + [e]) == (if e.Feed? then Open(ev) else e.Start?)
    ensures Nested(ev + [e]) == (Nested(ev) && (e.Start? <==> !Open(ev)))
    ensures Rendered(ev + [e]) == (if e.Start? then [] else if e.End? then Rendered(ev) else Rendered(ev) + e.samples)
    ensures History(ev + [e]) == History(ev) + (if e.Feed? then e.samples else [])
    ensures Starts(ev + [e]) == Starts(ev) + (if e.Start? then 1 else 0)
  {
    assert (ev + [e])[..|ev + [e]| - 1] == ev;
  }

  /** One channel as the worker sees it: what it has been told and what it has not yet consumed. */
  datatype Outgoing = Outgoing(events: seq<Event>, residual: seq<real>) {

    /** Offer the residual and the new samples; the channel takes the first `consumed` of them. */
    function Offer(samples: seq<real>, consumed: nat): Outgoing {
      var offered := residual + samples;
      var c := if consumed <= |offered| then consumed else |offered|;
      Outgoing(events + [Feed(offered[..c])], offered[c..])
    }

    lemma OfferConserves(samples: seq<real>, consumed: nat)
      ensures Rendered(Offer(samples, consumed).events) + Offer(samples, consumed).residual
        == Rendered(events) + residual + samples
      ensures History(Offer(samples, consumed).events) + Offer(samples, consumed).residual
        == History(events) + residual + samples
      ensures Open(Offer(samples, consumed).events) == Open(events)
      ensures Starts(Offer(samples, consumed).events) == Starts(events)
      ensures Nested(Offer(samples, consumed).events) == (Nested(events) && Open(events))
      ensures consumed >= |residual| + |samples| ==> Offer(samples, consumed).residual == []
    {
      var offered := residual + samples;
      var c := if consumed <= |offered| then consumed else |offered|;
      Append(events, Feed(offered[..c]));
      assert offered == offered[..c] + offered[c..];
    }

    /** A channel with nothing left over that takes all it is offered has rendered it. */
    lemma OfferCompletes(samples: seq<real>, consumed: nat)
      requires residual == [] && consumed >= |samples|
      ensures Offer(samples, consumed).residual == []
      ensures History(Offer(samples, consumed).events) == History(events) + samples
    {
      OfferConserves(samples, consumed);
      assert History(events) + [] == History(events);
    }

    function Begin(): Outgoing { Outgoing(events + [Start], []) }

    /** The final partial batch, if any, then the end of the message. */
    function Finish(consumed: nat): Outgoing {
      var flushed := if residual != [] then Offer([], consumed) else this;
      flushed.(events := flushed.events + [End])
    }

    lemma FinishConserves(consumed: nat)
      ensures Rendered(Finish(consumed).events) + Finish(consumed).residual == Rendered(events) + residual
      ensures History(Finish(consumed).events) + Finish(consumed).residual == History(events) + residual
      ensures !Open(Finish(consumed).events) && Starts(Finish(consumed).events) == Starts(events)
      ensures Nested(Finish(consumed).events) == (Nested(events) && Open(events))
      ensures consumed >= |residual| ==> Finish(consumed).residual == []
    {
      var flushed := if residual != [] then Offer([], consumed) else this;
      if residual != [] {
        FlushConserves(consumed);
      }
      Append(flushed.events, End);
    }

    /** The flush of what is left over. */
    lemma FlushConserves(consumed: nat)
      ensures Rendered(Offer([], consumed).events) + Offer([], consumed).residual == Rendered(events) + residual
      ensures History(Offer([], consumed).events) + Offer([], consumed).residual == History(events) + residual
      ensures Open(Offer([], consumed).events) == Open(events) && Starts(Offer([], consumed).events) == Starts(events)
      ensures Nested(Offer([], consumed).events) == (Nested(events) && Open(events))
      ensures consumed >= |residual| ==> Offer([], consumed).residual == []
    {
      OfferConserves([], consumed);
      assert Rendered(events) + residual + [] == Rendered(events) + residual;
      assert History(events) + residual + [] == History(events) + residual;
    }
  }

  function Converted(raw: seq<int>, midpoint: int): (x: seq<real>)
    requires midpoint > 0
    ensures |x| == |raw|
  {
    seq(|raw|, i requires 0 <= i < |raw| => AdcToFloat(raw[i], midpoint))
  }

  lemma ConvertedConcat(a: seq<int>, b: seq<int>, midpoint: int)
    requires midpoint > 0
    ensures Converted(a + b, midpoint) == Converted(a, midpoint) + Converted(b, midpoint)
  {
  }

  /** How many samples channel i consumes on its next call when offered so many. */
  type Appetite = (nat, nat) -> nat

  /** One pass of the loop: the state it loads, and what the modem's thread puts into the ring before the
      edge is polled, after each batch of a drain, and before the pass takes its own batch. */
  datatype Pass = Pass(arrivals: seq<int>, state: ModemState, late: seq<seq<int>>, between: seq<int>)

  /** The state last seen after these polls. */
  function LastPolled(from: ModemState, states: seq<ModemState>): ModemState {
    if states == [] then from else states[|states| - 1]
  }

  /** How many of these polls find a transmission the poll before had not seen. */
  function Entries(from: ModemState, states: seq<ModemState>): nat {
    if states == [] then 0
    else
      var before := states[..|states| - 1];
      Entries(from, before) + (if LastPolled(from, before) != TX && states[|states| - 1] == TX then 1 else 0)
  }

  lemma EntriesNext(from: ModemState, states: seq<ModemState>, now: ModemState)
    ensures LastPolled(from, states + [now]) == now
    ensures Entries(from, states + [now])
      == Entries(from, states) + (if LastPolled(from, states) != TX && now == TX then 1 else 0)
  {
    assert (states + [now])[..|states|] == states;
  }

  /** The states a run of passes polls. */
  function Polled(passes: seq<Pass>): (states: seq<ModemState>)
    ensures |states| == |passes|
  {
    seq(|passes|, i requires 0 <= i < |passes| => passes[i].state)
  }

  lemma PolledNext(passes: seq<Pass>, i: nat)
    requires i < |passes|
    ensures Polled(passes[..i + 1]) == Polled(passes[..i]) + [passes[i].state]
  {
  }

  class SourceWorker {
    const txRing: SpscRing<int>
    const rawBuf: array<int>
    const midpoint: int
    const appetite: Appetite
    var lastState: ModemState
    var outgoing: seq<Outgoing>

    /** The samples taken from the ring in the current or last message. */
    ghost var taken: seq<real>

    /** The samples taken from the ring by this worker, in all messages, and where it began. */
    ghost var everything: seq<real>
    ghost const start: nat

    ghost predicate Valid()
      reads this, txRing, txRing.buffer
    {
      && txRing.Valid() && rawBuf.Length > 0 && rawBuf != txRing.buffer && midpoint > 0
      && start <= txRing.readPos
      && everything == Converted(txRing.accepted[start..txRing.readPos], midpoint)
    }

    /** Every channel is in a message exactly when the worker is, its events are properly nested, and
        what it has rendered plus what it still holds is everything taken since the start. */
    ghost predicate Conserving()
      reads this
    {
      forall i: nat :: i < |outgoing| ==> Consistent(outgoing[i])
    }

    ghost predicate Consistent(og: Outgoing)
      reads this
    {
      && Nested(og.events) && (Open(og.events) <==> lastState == TX)
      && (lastState == TX ==> Rendered(og.events) + og.residual == taken)
    }

    /** Since the given moment every channel has begun n more messages. */
    ghost predicate Entered(before: seq<Outgoing>, n: nat)
      reads this
    {
      && |outgoing| == |before|
      && forall i: nat :: i < |outgoing| ==> Starts(outgoing[i].events) == Starts(before[i].events) + n
    }

    /** A renderer that always consumes everything it is offered, as both renderers here do. */
    ghost predicate Hungry()
      reads this
    {
      forall i: nat, n: nat :: appetite(i, n) >= n
    }

    constructor (ring: SpscRing<int>, batch: nat, adcBits: nat, channels: nat, appetite: Appetite)
      requires ring.Valid() && batch > 0 && 0 < adcBits <= 16
      ensures Valid() && Conserving() && fresh(rawBuf) && txRing == ring && lastState == IDLE
      ensures |outgoing| == channels && this.appetite == appetite && midpoint == HalfScale(adcBits)
      ensures Complete()
    {
      txRing := ring;
      rawBuf := new int[batch](i => 0);
      midpoint := HalfScale(adcBits);
      this.appetite := appetite;
      lastState := IDLE;
      outgoing := seq(channels, i => Outgoing([], []));
      taken, everything, start := [], [], ring.readPos;
    }

    /** Take one batch from the ring and offer it to every channel. */
    method ProcessAvailable() returns (got: nat)
      requires Valid()
      modifies this`outgoing, this`taken, this`everything, rawBuf, txRing`readPos
      ensures Valid()
      ensures got == 0 <==> |old(txRing.Contents())| == 0
      ensures got <= |old(txRing.Contents())| && txRing.Contents() == old(txRing.Contents())[got..]
      ensures taken == old(taken) + Converted(old(txRing.Contents())[..got], midpoint)
      ensures everything == old(everything) + Converted(old(txRing.Contents())[..got], midpoint)
      ensures got > 0 ==> Offered(old(outgoing), outgoing, Converted(old(txRing.Contents())[..got], midpoint), |outgoing|)
      ensures got == 0 ==> outgoing == old(outgoing)
    {
      var avail := txRing.AvailableRead();
      if avail == 0 {
        assert old(txRing.Contents())[..0] == [];
        return 0;
      }
      var batch := if avail <= rawBuf.Length then avail else rawBuf.Length;
      ghost var before, from, x := txRing.accepted, txRing.readPos, txRing.Contents();
      got := txRing.Read(rawBuf, batch);
      TakenSoFar(before, from, txRing.readPos);
      var floatBuf := Converted(rawBuf[..got], midpoint);
      taken, everything := taken + floatBuf, everything + floatBuf;
      OfferAll(floatBuf);
    }

    lemma TakenSoFar(accepted: seq<int>, from: nat, to: nat)
      requires midpoint > 0 && start <= from <= to <= |accepted|
      ensures Converted(accepted[start..to], midpoint)
        == Converted(accepted[start..from], midpoint) + Converted(accepted[from..][..to - from], midpoint)
    {
      assert accepted[start..to] == accepted[start..from] + accepted[from..][..to - from];
    }

    /** The list of channels after each of the first n was offered the block. */
    ghost predicate Offered(before: seq<Outgoing>, after: seq<Outgoing>, samples: seq<real>, n: nat) {
      && |after| == |before| && n <= |before|
      && (forall i: nat :: i < n ==>
            after[i] == before[i].Offer(samples, appetite(i, |before[i].residual| + |samples|)))
      && (forall i: nat :: n <= i < |before| ==> after[i] == before[i])
    }

    method OfferAll(samples: seq<real>)
      modifies this`outgoing
      ensures Offered(old(outgoing), outgoing, samples, |outgoing|)
    {
      ghost var before := outgoing;
      var i := 0;
      while i < |outgoing|
        invariant i <= |outgoing| && Offered(before, outgoing, samples, i)
      {
        var og := outgoing[i];
        outgoing := outgoing[i := og.Offer(samples, appetite(i, |og.residual| + |samples|))];
        i := i + 1;
      }
    }

    /** Inside a message a batch keeps every channel conserving; outside one it breaks the nesting of
        every channel. */
    lemma OfferedConserves(before: seq<Outgoing>, samples: seq<real>, taken0: seq<real>, i: nat)
      requires Offered(before, outgoing, samples, |outgoing|) && i < |outgoing|
      ensures Open(outgoing[i].events) == Open(before[i].events)
      ensures Starts(outgoing[i].events) == Starts(before[i].events)
      ensures Nested(outgoing[i].events) == (Nested(before[i].events) && Open(before[i].events))
      ensures Rendered(before[i].events) + before[i].residual == taken0 ==>
        Rendered(outgoing[i].events) + outgoing[i].residual == taken0 + samples
    {
      before[i].OfferConserves(samples, appetite(i, |before[i].residual| + |samples|));
    }

    /** A channel that takes all it is offered renders the batch at once. */
    lemma OfferedCompletes(before: seq<Outgoing>, samples: seq<real>, everything0: seq<real>)
      requires Offered(before, outgoing, samples, |outgoing|) && Hungry() && everything == everything0 + samples
      requires forall i: nat :: i < |before| ==> before[i].residual == [] && History(before[i].events) == everything0
      ensures Complete()
    {
      forall i: nat | i < |outgoing|
        ensures outgoing[i].residual == [] && History(outgoing[i].events) == everything
      {
        before[i].OfferCompletes(samples, appetite(i, |before[i].residual| + |samples|));
      }
    }

    /** A batch taken inside a message. */
    method ProcessInMessage() returns (got: nat)
      requires Valid() && Conserving() && lastState == TX
      modifies this`outgoing, this`taken, this`everything, rawBuf, txRing`readPos
      ensures Valid() && Conserving() && Entered(old(outgoing), 0)
      ensures got == 0 <==> |old(txRing.Contents())| == 0
      ensures got <= |old(txRing.Contents())| && txRing.Contents() == old(txRing.Contents())[got..]
      ensures taken == old(taken) + Converted(old(txRing.Contents())[..got], midpoint)
      ensures Hungry() && old(Complete()) ==> Complete()
    {
      ghost var before, taken0, x := outgoing, taken, txRing.Contents();
      got := ProcessAvailable();
      if got > 0 {
        forall i: nat | i < |outgoing|
          ensures Consistent(outgoing[i]) && Starts(outgoing[i].events) == Starts(before[i].events)
        {
          assert old(Consistent(outgoing[i]));
          OfferedConserves(before, Converted(x[..got], midpoint), taken0, i);
        }
        if Hungry() && old(Complete()) {
          OfferedCompletes(before, Converted(x[..got], midpoint), old(everything));
        }
      }
    }

    /** No channel holds anything back, and each has rendered everything ever taken from the ring. */
    ghost predicate Complete()
      reads this
    {
      forall i: nat :: i < |outgoing| ==> outgoing[i].residual == [] && History(outgoing[i].events) == everything
    }

    lemma TakenNext(accepted: seq<int>, from: nat, mid: nat, to: nat)
      requires midpoint > 0 && from <= mid <= to <= |accepted|
      ensures Converted(accepted[from..to], midpoint)
        == Converted(accepted[from..mid], midpoint) + Converted(accepted[mid..][..to - mid], midpoint)
    {
      assert accepted[from..to] == accepted[from..mid] + accepted[mid..][..to - mid];
    }

    /** TX exit, first half: take whatever is in the ring, and whatever still arrives meanwhile, so that no
        sample is lost. */
    method DrainRing(late: seq<seq<int>>)
      requires Valid() && Conserving() && lastState == TX
      modifies this`outgoing, this`taken, this`everything, rawBuf, txRing, txRing.buffer
      ensures Valid() && Conserving() && Entered(old(outgoing), 0) && txRing.Contents() == []
      ensures Taken(old(txRing.accepted), old(txRing.readPos), old(taken))
      ensures Hungry() && old(Complete()) ==> Complete()
    {
      ghost var before, accepted, from, taken0, whole := outgoing, txRing.accepted, txRing.readPos, taken, Complete();
      var i := 0;
      while txRing.AvailableRead() > 0
        invariant 0 <= i <= |late| && Draining(before, accepted, from, taken0, whole)
        decreases |late| - i, |txRing.Contents()|
      {
        var got := DrainOnce(before, accepted, from, taken0, whole);
        if got == 0 {
          break;
        }
        if i < |late| {
          Arrive(late[i], before, accepted, from, taken0, whole);
          i := i + 1;
        }
      }
    }

    /** Samples arrive during a drain. */
    method Arrive(samples: seq<int>, ghost before: seq<Outgoing>, ghost accepted: seq<int>, ghost from: nat,
                  ghost taken0: seq<real>, ghost whole: bool)
      requires Draining(before, accepted, from, taken0, whole)
      modifies txRing`writePos, txRing`accepted, txRing.buffer
      ensures Draining(before, accepted, from, taken0, whole)
    {
      ghost var items := txRing.accepted;
      var n := txRing.Write(samples);
      assert txRing.accepted[start..txRing.readPos] == items[start..txRing.readPos];
      assert txRing.accepted[from..txRing.readPos] == items[from..txRing.readPos];
    }

    /** A drain under way: nothing is lost and no message begun. */
    ghost predicate Draining(before: seq<Outgoing>, accepted: seq<int>, from: nat, taken0: seq<real>, whole: bool)
      reads this, txRing, txRing.buffer
    {
      && Valid() && Conserving() && Entered(before, 0) && Taken(accepted, from, taken0)
      && (Hungry() && whole ==> Complete())
    }

    /** Since the ring stood at `from` with these items accepted, everything read from it was taken, in order. */
    ghost predicate Taken(accepted: seq<int>, from: nat, taken0: seq<real>)
      requires midpoint > 0
      reads this`taken, txRing
    {
      && accepted <= txRing.accepted && from <= txRing.readPos <= |txRing.accepted|
      && taken == taken0 + Converted(txRing.accepted[from..txRing.readPos], midpoint)
    }

    /** One batch of the drain. */
    method DrainOnce(ghost before: seq<Outgoing>, ghost accepted: seq<int>, ghost from: nat, ghost taken0: seq<real>,
                     ghost whole: bool)
      returns (got: nat)
      requires Draining(before, accepted, from, taken0, whole) && lastState == TX
      modifies this`outgoing, this`taken, this`everything, rawBuf, txRing`readPos
      ensures Draining(before, accepted, from, taken0, whole)
      ensures got == 0 <==> |old(txRing.Contents())| == 0
      ensures |txRing.Contents()| == |old(txRing.Contents())| - got
    {
      ghost var mid := txRing.readPos;
      got := ProcessInMessage();
      TakenNext(txRing.accepted, from, mid, txRing.readPos);
    }

    /** The list of channels after the first n were told the message is over. */
    ghost predicate Finished(before: seq<Outgoing>, after: seq<Outgoing>, n: nat) {
      && |after| == |before| && n <= |before|
      && (forall i: nat :: i < n ==> after[i] == before[i].Finish(appetite(i, |before[i].residual|)))
      && (forall i: nat :: n <= i < |before| ==> after[i] == before[i])
    }

    method FinishAll()
      modifies this`outgoing
      ensures Finished(old(outgoing), outgoing, |outgoing|)
    {
      ghost var before := outgoing;
      var i := 0;
      while i < |outgoing|
        invariant i <= |outgoing| && Finished(before, outgoing, i)
      {
        outgoing := outgoing[i := outgoing[i].Finish(appetite(i, |outgoing[i].residual|))];
        i := i + 1;
      }
    }

    /** The whole of TX exit. Afterwards every channel has been told the message is over, and has
        rendered, in order, everything taken from the ring since the start except what it still holds;
        a channel that consumes all it is offered holds nothing. */
    method LeaveMessage(now: ModemState, late: seq<seq<int>>)
      requires Valid() && Conserving() && lastState == TX && now != TX
      modifies this`outgoing, this`taken, this`everything, this`lastState, rawBuf, txRing, txRing.buffer
      ensures Valid() && Conserving() && lastState == now && Entered(old(outgoing), 0) && txRing.Contents() == []
      ensures Taken(old(txRing.accepted), old(txRing.readPos), old(taken))
      ensures forall i: nat :: i < |outgoing| ==> Rendered(outgoing[i].events) + outgoing[i].residual == taken
      ensures Hungry() && old(Complete()) ==>
        Complete() && forall i: nat :: i < |outgoing| ==> Rendered(outgoing[i].events) == taken
    {
      DrainRing(late);
      CloseAll(now);
    }

    /** TX exit, second half: flush and close every channel. */
    method CloseAll(now: ModemState)
      requires Valid() && Conserving() && lastState == TX && now != TX
      modifies this`outgoing, this`lastState
      ensures Conserving() && lastState == now && Entered(old(outgoing), 0)
      ensures forall i: nat :: i < |outgoing| ==> Rendered(outgoing[i].events) + outgoing[i].residual == taken
      ensures Hungry() && old(Complete()) ==> Complete()
    {
      ghost var before := outgoing;
      FinishAll();
      lastState := now;
      forall i: nat | i < |outgoing|
        ensures Consistent(outgoing[i]) && Rendered(outgoing[i].events) + outgoing[i].residual == taken
        ensures Starts(outgoing[i].events) == Starts(before[i].events)
        ensures Hungry() && old(Complete()) ==> outgoing[i].residual == [] && History(outgoing[i].events) == everything
      {
        FinishedConserves(before, i);
      }
    }

    lemma FinishedConserves(before: seq<Outgoing>, i: nat)
      requires Finished(before, outgoing, |outgoing|) && i < |outgoing|
      ensures !Open(outgoing[i].events) && Starts(outgoing[i].events) == Starts(before[i].events)
      ensures Nested(outgoing[i].events) == (Nested(before[i].events) && Open(before[i].events))
      ensures Rendered(outgoing[i].events) + outgoing[i].residual == Rendered(before[i].events) + before[i].residual
      ensures History(outgoing[i].events) + outgoing[i].residual == History(before[i].events) + before[i].residual
      ensures Hungry() ==> outgoing[i].residual == []
    {
      before[i].FinishConserves(appetite(i, |before[i].residual|));
    }

    /** TX entry: a new message on every channel; what was left of the last one is discarded. */
    method EnterMessage()
      requires Valid() && Conserving() && lastState != TX
      modifies this`outgoing, this`taken, this`lastState
      ensures Valid() && Conserving() && lastState == TX && taken == []
      ensures old(Complete()) ==> Complete()
      ensures Entered(old(outgoing), 1)
      ensures forall i: nat :: i < |outgoing| ==> outgoing[i] == old(outgoing)[i].Begin()
    {
      ghost var before := outgoing;
      outgoing := seq(|outgoing|, i requires 0 <= i < |outgoing| reads this => outgoing[i].Begin());
      taken := [];
      lastState := TX;
      forall i: nat | i < |outgoing|
        ensures Consistent(outgoing[i]) && Starts(outgoing[i].events) == Starts(before[i].events) + 1
      {
        assert old(Consistent(outgoing[i]));
        Append(before[i].events, Start);
      }
    }

    /** Detect an edge of the modem state and fire the lifecycle callbacks. */
    method PollStateEdges(now: ModemState, late: seq<seq<int>>)
      requires Valid() && Conserving()
      modifies this`outgoing, this`taken, this`everything, this`lastState, rawBuf, txRing, txRing.buffer
      ensures Valid() && Conserving() && lastState == now
      ensures Entered(old(outgoing), if old(lastState) != TX && now == TX then 1 else 0)
      ensures old(lastState) == TX && now != TX ==> txRing.Contents() == [] && AllTold()
      ensures old(lastState) != TX || now == TX ==> txRing.Contents() == old(txRing.Contents())
      ensures old(lastState) != TX && now != TX ==> outgoing == old(outgoing)
      ensures old(lastState) != TX && now == TX ==>
        taken == [] && forall i: nat :: i < |outgoing| ==> outgoing[i] == old(outgoing)[i].Begin()
      ensures old(lastState) == TX && now == TX ==> outgoing == old(outgoing) && taken == old(taken)
      ensures Hungry() && old(Complete()) ==> Complete()
    {
      if now == lastState {
        return;
      }
      if lastState != TX && now == TX {
        EnterMessage();
      } else if lastState == TX && now != TX {
        LeaveMessage(now, late);
      } else {
        ghost var before := outgoing;
        lastState := now;
        forall i: nat | i < |outgoing|
          ensures Consistent(outgoing[i])
        {
          assert old(Consistent(outgoing[i]));
        }
      }
    }

    /** Every channel has rendered the whole message, up to what it still holds. */
    ghost predicate AllTold()
      reads this
    {
      forall i: nat :: i < |outgoing| ==> Rendered(outgoing[i].events) + outgoing[i].residual == taken
    }

    /** One pass of the worker loop, with the two state loads it performs and the samples that arrive
        meanwhile. Conservation survives the pass exactly when the second load does not see a transmission the
        first one missed while samples are waiting: then, and only then, are samples fed outside a message. */
    method Iterate(polled: ModemState, late: seq<seq<int>>, between: seq<int>, gate: ModemState)
      returns (ghost waiting: bool)
      requires Valid() && Conserving()
      modifies this`outgoing, this`taken, this`everything, this`lastState, rawBuf, txRing, txRing.buffer
      ensures Valid() && lastState == polled
      ensures Entered(old(outgoing), if old(lastState) != TX && polled == TX then 1 else 0)
      ensures old(lastState) == TX && polled != TX && gate != TX ==> txRing.Contents() <= between
      ensures polled != TX && old(lastState) != TX ==>
        (waiting <==> |old(txRing.Contents())| > 0 || between != [])
      ensures Conserving() <==> !(gate == TX && polled != TX && waiting && |outgoing| > 0)
      ensures Hungry() && old(Complete()) ==> Complete()
    {
      PollStateEdges(polled, late);
      var n := txRing.Write(between);
      waiting := |txRing.Contents()| > 0;
      if gate == TX {
        if lastState == TX {
          var got := ProcessInMessage();
        } else {
          ProcessOutsideMessage();
        }
      }
    }

    /** A batch taken while the worker believes no message is in progress: every channel is fed between
        an end and a start. */
    method ProcessOutsideMessage()
      requires Valid() && Conserving() && lastState != TX
      modifies this`outgoing, this`taken, this`everything, rawBuf, txRing`readPos
      ensures Valid() && Entered(old(outgoing), 0)
      ensures Conserving() <==> !(|old(txRing.Contents())| > 0 && |outgoing| > 0)
      ensures Hungry() && old(Complete()) ==> Complete()
    {
      ghost var before, taken0, x := outgoing, taken, txRing.Contents();
      var got := ProcessAvailable();
      if got > 0 {
        forall i: nat | i < |outgoing|
          ensures Starts(outgoing[i].events) == Starts(before[i].events)
        {
          OfferedConserves(before, Converted(x[..got], midpoint), taken0, i);
        }
      }
      if got > 0 && |outgoing| > 0 {
        assert old(Consistent(outgoing[0]));
        OfferedConserves(before, Converted(x[..got], midpoint), taken0, 0);
        assert !Consistent(outgoing[0]);
      }
      if got > 0 && Hungry() && old(Complete()) {
        OfferedCompletes(before, Converted(x[..got], midpoint), old(everything));
      }
    }

    /** Shutdown: catch a last edge, then end a message that is still open. Starts and ends balance. */
    method Shutdown(polled: ModemState, late: seq<seq<int>>, later: seq<seq<int>>)
      requires Valid() && Conserving()
      modifies this`outgoing, this`taken, this`everything, this`lastState, rawBuf, txRing, txRing.buffer
      ensures Valid() && Conserving() && lastState != TX
      ensures Entered(old(outgoing), if old(lastState) != TX && polled == TX then 1 else 0)
      ensures forall i: nat :: i < |outgoing| ==> Nested(outgoing[i].events) && !Open(outgoing[i].events)
      ensures old(lastState) == TX || polled == TX ==> txRing.Contents() == []
      ensures Hungry() && old(Complete()) ==> Complete()
    {
      PollStateEdges(polled, late);
      if lastState == TX {
        LeaveMessage(IDLE, later);
      }
      assert forall i: nat :: i < |outgoing| ==> Consistent(outgoing[i]);
    }

    /** After these polls, every channel has begun one message for each transmission they entered. */
    ghost predicate Polling(before: seq<Outgoing>, from: ModemState, states: seq<ModemState>)
      reads this
    {
      lastState == LastPolled(from, states) && Entered(before, Entries(from, states))
    }

    /** One pass with one state load; a pass that leaves a transmission leaves nothing in the ring but what
        arrived after its drain. */
    method PassOnce(pass: Pass, ghost before: seq<Outgoing>, ghost from: ModemState, ghost states: seq<ModemState>)
      requires Valid() && Conserving() && (Hungry() ==> Complete()) && Polling(before, from, states)
      modifies this`outgoing, this`taken, this`everything, this`lastState, rawBuf, txRing, txRing.buffer
      ensures Valid() && Conserving() && (Hungry() ==> Complete()) && Polling(before, from, states + [pass.state])
      ensures old(lastState) == TX && pass.state != TX ==> txRing.Contents() <= pass.between
    {
      EntriesNext(from, states, pass.state);
      var n := txRing.Write(pass.arrivals);
      ghost var waiting := Iterate(pass.state, pass.late, pass.between, pass.state);
    }

    /** The worker thread: passes of the loop with samples arriving at any time, then shutdown. With one
        state load per pass, every channel sees one message for each transmission the polls enter, properly nested
        and all of them closed at the end, whatever the states polled and whenever the samples arrive; a channel
        that consumes all it is offered has rendered, over all its messages, exactly the samples taken from the
        ring, once each and in order; and a run that shuts down in a transmission has taken all there were. */
    method Run(passes: seq<Pass>, last: ModemState, late: seq<seq<int>>, later: seq<seq<int>>)
      requires Valid() && Conserving() && Complete()
      modifies this`outgoing, this`taken, this`everything, this`lastState, rawBuf, txRing, txRing.buffer
      ensures Valid() && Conserving() && lastState != TX
      ensures Entered(old(outgoing), Entries(old(lastState), Polled(passes) + [last]))
      ensures forall i: nat :: i < |outgoing| ==> Nested(outgoing[i].events) && !Open(outgoing[i].events)
      ensures LastPolled(old(lastState), Polled(passes)) == TX || last == TX ==> txRing.Contents() == []
      ensures Hungry() ==> forall i: nat :: i < |outgoing| ==>
        outgoing[i].residual == [] && History(outgoing[i].events) == Converted(txRing.accepted[start..txRing.readPos], midpoint)
    {
      var i := 0;
      while i < |passes|
        invariant i <= |passes| && Valid() && Conserving() && (Hungry() ==> Complete())
        invariant Polling(old(outgoing), old(lastState), Polled(passes[..i]))
      {
        PolledNext(passes, i);
        PassOnce(passes[i], old(outgoing), old(lastState), Polled(passes[..i]));
        i := i + 1;
      }
      assert passes[..i] == passes;
      EntriesNext(old(lastState), Polled(passes), last);
      Shutdown(last, late, later);
    }
  }
}
