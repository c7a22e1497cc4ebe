/** The receiver's fan-in: sum the incoming buffers, pad with silence, add noise, convert, deliver. */
module ReceiverMixes {
  import opened Basics
  import opened Signals
  import opened PairBuffers
  import opened SpscRings
  import opened SampleConversions

  /** What one incoming buffer has to offer at some moment. */
  datatype Outlook = Outlook(stream: Signal, readPos: nat, watermark: nat) {

    /** The j-th sample from here: silence once the committed part is used up. */
    ghost function Sample(j: nat): real {
      if readPos + j < watermark then stream(readPos + j) else 0.0
    }

    /** The outlook after n samples were asked for. */
    ghost function After(n: nat): Outlook
      requires readPos <= watermark
    {
      Outlook(stream, readPos + Min(n, watermark - readPos), watermark)
    }

    lemma AfterSample(n: nat, j: nat)
      requires readPos <= watermark
      ensures After(n).Sample(j) == Sample(n + j)
    {
    }
  }

  /** The fan-in sum of the first k buffers at sample j. */
  ghost function FanIn(views: seq<Outlook>, j: nat, k: nat): real
    requires k <= |views|
  {
    if k == 0 then 0.0 else FanIn(views, j, k - 1) + views[k - 1].Sample(j)
  }

  class ReceiverMix {
    const incoming: seq<PairBuffer>
    const pairScratch: array<real>
    const sumScratch: array<real>
    const midpoint: int
    const maxCode: int
    var rxRingDrops: nat

    ghost predicate Valid()
      reads this, incoming, set pb | pb in incoming :: pb.buffer
    {
      && pairScratch.Length == sumScratch.Length == BLOCK && pairScratch != sumScratch && maxCode >= 0
      && (forall k: nat :: k < |incoming| ==>
            incoming[k].Valid() && incoming[k].buffer != pairScratch && incoming[k].buffer != sumScratch)
      && (forall j: nat, k: nat :: j < k < |incoming| ==>
            incoming[j] != incoming[k] && incoming[j].buffer != incoming[k].buffer)
    }

    constructor (incoming: seq<PairBuffer>, dacBits: nat)
      requires 0 < dacBits <= 16
      requires forall k: nat :: k < |incoming| ==> incoming[k].Valid()
      requires forall j: nat, k: nat :: j < k < |incoming| ==>
        incoming[j] != incoming[k] && incoming[j].buffer != incoming[k].buffer
      ensures Valid() && this.incoming == incoming && rxRingDrops == 0
      ensures midpoint == HalfScale(dacBits) && maxCode == 2 * HalfScale(dacBits) - 1
    {
      this.incoming := incoming;
      pairScratch := new real[BLOCK](i => 0.0);
      sumScratch := new real[BLOCK](i => 0.0);
      midpoint, maxCode, rxRingDrops := HalfScale(dacBits), 2 * HalfScale(dacBits) - 1, 0;
    }

    ghost function View(pb: PairBuffer): Outlook
      reads pb
    {
      Outlook(pb.stream, pb.readPos, pb.watermark)
    }

    /** The first k buffers have been read `n` samples past the outlooks recorded, the others not at all. */
    ghost predicate ReadTo(views: seq<Outlook>, n: nat, k: nat)
      reads incoming
    {
      && |views| == |incoming|
      && (forall i: nat :: i < k && i < |views| ==> views[i].readPos <= views[i].watermark && View(incoming[i]) == views[i].After(n))
      && (forall i: nat :: k <= i < |views| ==> View(incoming[i]) == views[i])
    }

    /** Read one incoming buffer: what it lacks of the chunk is silence. */
    method ReadOne(pb: PairBuffer, ghost k: nat, chunk: nat, ghost views: seq<Outlook>) returns (got: nat)
      requires Valid() && k < |incoming| && pb == incoming[k] && chunk <= BLOCK && ReadTo(views, chunk, k)
      modifies pb`readPos, pb.buffer, pairScratch
      ensures Valid() && ReadTo(views, chunk, k + 1) && got <= chunk
      ensures forall j: nat :: j < chunk ==> views[k].Sample(j) == if j < got then pairScratch[j] else 0.0
    {
      assert View(pb) == views[k];
      got := pb.ReadAdvance(pairScratch, chunk);
    }

    method ClearSum(chunk: nat)
      requires chunk <= sumScratch.Length
      modifies sumScratch
      ensures forall j :: 0 <= j < chunk ==> sumScratch[j] == 0.0
    {
      forall i | 0 <= i < chunk {
        sumScratch[i] := 0.0;
      }
    }

    method AddScratch(got: nat)
      requires got <= BLOCK == pairScratch.Length == sumScratch.Length && pairScratch != sumScratch
      modifies sumScratch
      ensures forall j :: 0 <= j < BLOCK ==> sumScratch[j] == old(sumScratch[j]) + (if j < got then pairScratch[j] else 0.0)
    {
      var i := 0;
      while i < got
        invariant i <= got
        invariant forall j :: 0 <= j < BLOCK ==> sumScratch[j] == old(sumScratch[j]) + (if j < i then pairScratch[j] else 0.0)
      {
        sumScratch[i] := sumScratch[i] + pairScratch[i];
        i := i + 1;
      }
    }

    /** Sum one incoming buffer into the scratch. */
    method AddOne(pb: PairBuffer, ghost k: nat, chunk: nat, ghost views: seq<Outlook>)
      requires Valid() && k < |incoming| && pb == incoming[k] && chunk <= BLOCK && ReadTo(views, chunk, k)
      requires forall j: nat :: j < chunk ==> sumScratch[j] == FanIn(views, j, k)
      modifies pb`readPos, pb.buffer, pairScratch, sumScratch
      ensures Valid() && ReadTo(views, chunk, k + 1)
      ensures forall j: nat :: j < chunk ==> sumScratch[j] == FanIn(views, j, k + 1)
    {
      var got := ReadOne(pb, k, chunk, views);
      AddScratch(got);
    }

    /** Sum all incoming buffers for one chunk. */
    method SumChunk(chunk: nat, ghost views: seq<Outlook>)
      requires Valid() && chunk <= BLOCK && ReadTo(views, chunk, 0)
      modifies incoming, set pb | pb in incoming :: pb.buffer
      modifies pairScratch, sumScratch
      ensures Valid() && ReadTo(views, chunk, |incoming|)
      ensures forall j: nat :: j < chunk ==> sumScratch[j] == FanIn(views, j, |incoming|)
    {
      ClearSum(chunk);
      var k := 0;
      while k < |incoming|
        invariant k <= |incoming| && Valid() && ReadTo(views, chunk, k)
        invariant forall j: nat :: j < chunk ==> sumScratch[j] == FanIn(views, j, k)
      {
        AddOne(incoming[k], k, chunk, views);
        k := k + 1;
      }
    }

    /** Add noise and convert the summed chunk to DAC codes. */
    method Convert(noise: seq<real>) returns (dac: seq<int>)
      requires |noise| <= BLOCK == sumScratch.Length && maxCode >= 0
      ensures |dac| == |noise|
      ensures forall j :: 0 <= j < |noise| ==> dac[j] == FloatToDac(sumScratch[j] + noise[j], midpoint, maxCode)
    {
      dac := [];
      while |dac| < |noise|
        invariant |dac| <= |noise|
        invariant forall j :: 0 <= j < |dac| ==> dac[j] == FloatToDac(sumScratch[j] + noise[j], midpoint, maxCode)
        decreases |noise| - |dac|
      {
        dac := dac + [FloatToDac(sumScratch[|dac|] + noise[|dac|], midpoint, maxCode)];
      }
    }

    /** The chunk becomes the codes of the fan-in sum plus noise. */
    method MixChunk(noise: seq<real>, ghost views: seq<Outlook>) returns (dac: seq<int>)
      requires Valid() && |noise| <= BLOCK && ReadTo(views, |noise|, 0)
      modifies incoming, set pb | pb in incoming :: pb.buffer
      modifies pairScratch, sumScratch
      ensures Valid() && ReadTo(views, |noise|, |incoming|)
      ensures dac == Codes(views, noise, midpoint, maxCode)
    {
      SumChunk(|noise|, views);
      dac := Convert(noise);
    }

    /** One chunk of a longer pull, starting at sample `done` of it. */
    method MixFrom(noise: seq<real>, done: nat, chunk: nat, ghost views: seq<Outlook>) returns (dac: seq<int>)
      requires Valid() && chunk <= BLOCK && done + chunk <= |noise| && Committed(views) && ReadTo(AllAfter(views, done), 0, 0)
      modifies incoming, set pb | pb in incoming :: pb.buffer
      modifies pairScratch, sumScratch
      ensures Valid() && ReadTo(AllAfter(views, done + chunk), 0, 0)
      ensures dac == Codes(views, noise, midpoint, maxCode)[done..done + chunk]
    {
      assert ReadTo(AllAfter(views, done), chunk, 0);
      dac := MixChunk(noise[done..done + chunk], AllAfter(views, done));
      CodesSlice(views, noise, done, chunk, midpoint, maxCode);
      AllAfterTwice(views, done, chunk);
      assert forall k: nat :: k < |views| ==> AllAfter(views, done)[k].After(chunk) == AllAfter(views, done + chunk)[k];
    }

    /** Offer codes [done, done + |dac|) to the receive ring, of whose predecessors `total` were taken. */
    method Deliver(rxRing: SpscRing<int>, dac: seq<int>, done: nat, total: nat,
                   ghost contents: seq<int>, ghost codes: seq<int>)
      returns (total': nat)
      requires rxRing.Valid() && total == Min(done, rxRing.capacity - |contents|)
      requires done + |dac| <= |codes| && dac == codes[done..done + |dac|]
      requires rxRing.Contents() == contents + codes[..total]
      modifies this`rxRingDrops, rxRing`writePos, rxRing`accepted, rxRing.buffer
      ensures rxRing.Valid() && total' == Min(done + |dac|, rxRing.capacity - |contents|)
      ensures rxRing.Contents() == contents + codes[..total']
      ensures rxRingDrops + total' == old(rxRingDrops) + total + |dac|
    {
      var accepted := rxRing.Write(dac);
      total' := total + accepted;
      if accepted < |dac| {
        rxRingDrops := rxRingDrops + (|dac| - accepted);
      }
      if accepted > 0 {
        assert codes[..total] + dac[..accepted] == codes[..total'];
      }
    }

    /** One pass of the pull loop: mix the next chunk and offer it to the receive ring. */
    method PullChunk(rxRing: SpscRing<int>, noise: seq<real>, done: nat, total: nat, ghost views: seq<Outlook>,
                     ghost contents: seq<int>)
      returns (done': nat, total': nat)
      requires Valid() && rxRing.Valid() && Committed(views) && done < |noise| && ReadTo(AllAfter(views, done), 0, 0)
      requires total == Min(done, rxRing.capacity - |contents|)
      requires rxRing.Contents() == contents + Codes(views, noise, midpoint, maxCode)[..total]
      modifies this`rxRingDrops, incoming, set pb | pb in incoming :: pb.buffer
      modifies pairScratch, sumScratch, rxRing`writePos, rxRing`accepted, rxRing.buffer
      ensures Valid() && rxRing.Valid()
      ensures done < done' <= |noise| && ReadTo(AllAfter(views, done'), 0, 0)
      ensures total' == Min(done', rxRing.capacity - |contents|)
      ensures rxRing.Contents() == contents + Codes(views, noise, midpoint, maxCode)[..total']
      ensures rxRingDrops + total' - done' == old(rxRingDrops) + total - done
    {
      var chunk := Min(BLOCK, |noise| - done);
      var dac := MixFrom(noise, done, chunk, views);
      total' := Deliver(rxRing, dac, done, total, contents, Codes(views, noise, midpoint, maxCode));
      done' := done + chunk;
    }

    /** Pull as many samples as there is noise: the receive ring gains a prefix of the codes of the summed,
        padded and noisy streams, as long as it has room; the rest is counted as dropped. Every buffer
        advances by what it had, not by what was asked. */
    method Pull(rxRing: SpscRing<int>, noise: seq<real>, ghost views: seq<Outlook>) returns (total: nat)
      requires Valid() && rxRing.Valid() && Committed(views) && ReadTo(AllAfter(views, 0), 0, 0)
      modifies this`rxRingDrops, incoming, set pb | pb in incoming :: pb.buffer
      modifies pairScratch, sumScratch, rxRing`writePos, rxRing`accepted, rxRing.buffer
      ensures Valid() && rxRing.Valid()
      ensures total == Min(|noise|, rxRing.capacity - |old(rxRing.Contents())|)
      ensures rxRing.Contents() == old(rxRing.Contents()) + Codes(views, noise, midpoint, maxCode)[..total]
      ensures rxRingDrops + total == old(rxRingDrops) + |noise|
      ensures ReadTo(AllAfter(views, |noise|), 0, 0)
    {
      total := 0;
      var done := 0;
      ghost var contents, drops := rxRing.Contents(), rxRingDrops;
      assert contents + Codes(views, noise, midpoint, maxCode)[..0] == contents;
      while done < |noise|
        invariant done <= |noise| && Valid() && rxRing.Valid() && ReadTo(AllAfter(views, done), 0, 0)
        invariant total == Min(done, rxRing.capacity - |contents|)
        invariant rxRing.Contents() == contents + Codes(views, noise, midpoint, maxCode)[..total]
        invariant rxRingDrops + total == drops + done
        decreases |noise| - done
      {
        done, total := PullChunk(rxRing, noise, done, total, views, contents);
      }
    }
  }

  ghost predicate Committed(views: seq<Outlook>) {
    forall k :: 0 <= k < |views| ==> views[k].readPos <= views[k].watermark
  }

  /** All outlooks after n samples were asked for. */
  ghost function AllAfter(views: seq<Outlook>, n: nat): (r: seq<Outlook>)
    requires Committed(views)
    ensures Committed(r) && |r| == |views|
  {
    seq(|views|, k requires 0 <= k < |views| => views[k].After(n))
  }

  lemma AllAfterTwice(views: seq<Outlook>, a: nat, b: nat)
    requires Committed(views)
    ensures AllAfter(AllAfter(views, a), b) == AllAfter(views, a + b)
  {
  }

  /** The codes a run of samples turns into, from the given outlooks on. */
  ghost function Codes(views: seq<Outlook>, noise: seq<real>, midpoint: int, maxCode: int): (c: seq<int>)
    requires maxCode >= 0
    ensures |c| == |noise|
  {
    seq(|noise|, j requires 0 <= j < |noise| => FloatToDac(FanIn(views, j, |views|) + noise[j], midpoint, maxCode))
  }

  lemma {:induction false} FanInAfter(views: seq<Outlook>, n: nat, j: nat, k: nat)
    requires Committed(views) && k <= |views|
    ensures FanIn(AllAfter(views, n), j, k) == FanIn(views, n + j, k)
  {
    if k > 0 {
      FanInAfter(views, n, j, k - 1);
      views[k - 1].AfterSample(n, j);
    }
  }

  /** Chunking is invisible: the codes of a later chunk are the codes at that offset of the whole run. */
  lemma CodesSlice(views: seq<Outlook>, noise: seq<real>, done: nat, chunk: nat, midpoint: int, maxCode: int)
    requires Committed(views) && maxCode >= 0 && done + chunk <= |noise|
    ensures Codes(AllAfter(views, done), noise[done..done + chunk], midpoint, maxCode)
      == Codes(views, noise, midpoint, maxCode)[done..done + chunk]
  {
    forall j: nat | j < chunk
      ensures FanIn(AllAfter(views, done), j, |views|) == FanIn(views, done + j, |views|)
    {
      FanInAfter(views, done, j, |views|);
    }
  }
}
