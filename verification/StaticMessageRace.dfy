/** The whole-message theorem under every interleaving: the receiver may read in the middle of a call, of a
    tap loop, of a scatter, and still hears the message. */
module StaticMessageRaces {
  import opened Signals
  import opened Voicings
  import opened Farrow
  import opened PairBufferRace
  import opened StaticMessages

  /** The scatter call for one tap and one batch of resampled output, accepted in full. */
  ghost function TapJob(v: Voicing, origin: nat, y0: seq<real>, more: seq<real>, k: nat): (c: Contribution)
    requires k < |v.taps|
    ensures c.start == origin + |y0| + v.taps[k].delta && c.accepted == |c.samples| == |more|
    ensures forall m :: 0 <= m < |more| ==> c.samples[m] == v.Voice(k, y0 + more, |y0| + m)
  {
    Contribution(origin + |y0| + v.taps[k].delta,
                 seq(|more|, m requires 0 <= m < |more| => v.Voice(k, y0 + more, |y0| + m)), |more|)
  }

  /** The first n calls of the tap loop of a batch. */
  ghost function BatchJobs(v: Voicing, origin: nat, y0: seq<real>, more: seq<real>, n: nat): seq<Contribution>
    requires n <= |v.taps|
  {
    if n == 0 then [] else BatchJobs(v, origin, y0, more, n - 1) + [TapJob(v, origin, y0, more, n - 1)]
  }

  /** All scatter calls of a message that was resampled in these batches. */
  ghost function MessageJobs(v: Voicing, origin: nat, batches: seq<seq<real>>): seq<Contribution> {
    if batches == [] then []
    else
      var front := batches[..|batches| - 1];
      MessageJobs(v, origin, front) + BatchJobs(v, origin, Flatten(front), batches[|batches| - 1], |v.taps|)
  }

  ghost function Totals(log: seq<Contribution>): Signal { (p: int) => Total(log, p) }

  lemma TapJobCarries(log: seq<Contribution>, base: Signal, v: Voicing, origin: nat, y0: seq<real>, more: seq<real>, k: nat)
    requires k < |v.taps| && Carries(Totals(log), base, v, origin, y0, y0 + more, k)
    ensures Carries(Totals(log + [TapJob(v, origin, y0, more, k)]), base, v, origin, y0, y0 + more, k + 1)
  {
    var c := TapJob(v, origin, y0, more, k);
    CarriesNext(Totals(log), base, v, origin, y0, more, k, c.samples);
    assert c.samples[..c.accepted] == c.samples;
    forall p
      ensures Totals(log + [c])(p) == AddBlock(Totals(log), c.start, c.samples)(p)
    {
      ContributionIsAddBlock(log, c, p);
    }
  }

  lemma {:induction false} BatchCarries(log: seq<Contribution>, base: Signal, v: Voicing, origin: nat,
                                        y0: seq<real>, more: seq<real>, n: nat)
    requires n <= |v.taps| && Carries(Totals(log), base, v, origin, y0, y0, |v.taps|)
    ensures Carries(Totals(log + BatchJobs(v, origin, y0, more, n)), base, v, origin, y0, y0 + more, n)
  {
    if n == 0 {
      assert log + [] == log;
      CarriesStart(Totals(log), base, v, origin, y0, y0 + more);
    } else {
      var front := BatchJobs(v, origin, y0, more, n - 1);
      BatchCarries(log, base, v, origin, y0, more, n - 1);
      TapJobCarries(log + front, base, v, origin, y0, more, n - 1);
      assert log + (front + [TapJob(v, origin, y0, more, n - 1)]) == (log + front) + [TapJob(v, origin, y0, more, n - 1)];
    }
  }

  /** What the scatter calls add up to: the message, through every tap, on top of what was there. */
  lemma {:induction false} MessageCarries(before: seq<Contribution>, v: Voicing, origin: nat, batches: seq<seq<real>>)
    ensures var y := Flatten(batches);
      Carries(Totals(before + MessageJobs(v, origin, batches)), Totals(before), v, origin, y, y, |v.taps|)
    decreases |batches|
  {
    if batches == [] {
      assert before + [] == before;
      NothingRendered(Totals(before), v, origin);
    } else {
      var front, more := batches[..|batches| - 1], batches[|batches| - 1];
      var y0 := Flatten(front);
      MessageCarries(before, v, origin, front);
      BatchCarries(before + MessageJobs(v, origin, front), Totals(before), v, origin, y0, more, |v.taps|);
      assert before + (MessageJobs(v, origin, front) + BatchJobs(v, origin, y0, more, |v.taps|))
        == (before + MessageJobs(v, origin, front)) + BatchJobs(v, origin, y0, more, |v.taps|);
      CarriesDone(Totals(before + MessageJobs(v, origin, batches)), Totals(before), v, origin, y0, y0 + more);
    }
  }

  /** However the message was cut into calls and batches, its resampled form is the same. */
  lemma ResampledOnce(x: seq<real>, ratio: real, drain: nat, y: seq<real>, z: seq<real>)
    requires ratio > 0.0 && drain as real + 1.0 <= 256.0 * ratio
    requires ResampledFrom(x, ratio, drain, y) && ResampledFrom(x, ratio, drain, z)
    ensures y == z
  {
    assert x + Zeros(drain) + [] == x + Zeros(drain);
    ChunkIndependence(x + Zeros(drain), [], ratio, y, z);
  }

  /** For every interleaving of the two threads: whatever the receiver has been given of a message by the time
      it likes to look, while the message is still being rendered or long after, is the sum over the taps of
      the message resampled, as soon as the producer's calls turn out to be those of that message; and that sum does
      not depend on the batches it was resampled in, when the drain is short enough for one of them. */
  lemma MessageUnderRace(capacity: nat, steps: seq<Step>, s: State, later: seq<Step>, s': State,
                         before: seq<Contribution>, v: Voicing, origin: nat, x: seq<real>, ratio: real, drain: nat,
                         batches: seq<seq<real>>, y: seq<real>, j: nat)
    requires capacity > 0 && Run(Init(capacity), steps, s) && Run(s, later, s')
    requires s'.log == before + MessageJobs(v, origin, batches) && SilentFrom(Totals(before), origin)
    requires ratio > 0.0 && ResampledFrom(x, ratio, drain, Flatten(batches)) && ResampledFrom(x, ratio, drain, y)
    requires origin + j < |s.delivered|
    ensures s.delivered[origin + j] == v.Mix(Flatten(batches), j, |v.taps|)
    ensures drain as real + 1.0 <= 256.0 * ratio ==> s.delivered[origin + j] == v.Mix(y, j, |v.taps|)
  {
    RingRefinesStream(capacity, steps, s, later, s');
    MessageCarries(before, v, origin, batches);
    assert Totals(s'.log)(origin + j) == Totals(before)(origin + j) + v.Mix(Flatten(batches), origin + j - origin, |v.taps|);
    if drain as real + 1.0 <= 256.0 * ratio {
      ResampledOnce(x, ratio, drain, Flatten(batches), y);
    }
  }

  /** The same from the steps alone: if every scatter of a run ends by the write limit it saw, and the scatters are
      those of the message after whatever came before it, then nothing is dropped and whatever the receiver is given
      of the message is the message. */
  lemma FittingMessageIsHeard(capacity: nat, steps: seq<Step>, s: State, later: seq<Step>, s': State,
                              before: seq<Contribution>, v: Voicing, origin: nat, x: seq<real>, ratio: real, drain: nat,
                              batches: seq<seq<real>>, y: seq<real>, j: nat)
    requires capacity > 0 && Run(Init(capacity), steps, s) && Run(s, later, s') && s'.producer.Idle?
    requires AllFit(Requests(Init(capacity), steps + later))
    requires InFull(Requests(Init(capacity), steps + later)) == before + MessageJobs(v, origin, batches)
    requires SilentFrom(Totals(before), origin)
    requires ratio > 0.0 && ResampledFrom(x, ratio, drain, Flatten(batches)) && ResampledFrom(x, ratio, drain, y)
    requires origin + j < |s.delivered|
    ensures s'.drops == 0 && s.delivered[origin + j] == v.Mix(Flatten(batches), j, |v.taps|)
    ensures drain as real + 1.0 <= 256.0 * ratio ==> s.delivered[origin + j] == v.Mix(y, j, |v.taps|)
  {
    RunsJoin(Init(capacity), steps, s, later, s');
    FittingRunDropsNothing(capacity, steps + later, s');
    MessageUnderRace(capacity, steps, s, later, s', before, v, origin, x, ratio, drain, batches, y, j);
  }
}
