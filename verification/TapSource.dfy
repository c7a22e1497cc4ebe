/** The provider of time-varying taps: a record of tap states and the clock that maps message time onto it. */
module TapSources {

  /** One tap at one instant: excess delay in fractional samples, real amplitude. */
  datatype SourcedTap = SourcedTap(delta: real, gain: real)

  function MaxReal(a: real, b: real): real { if a >= b then a else b }

  /** A tap source with a replay clock. `record` gives the taps at a record time; a geometric source is
      the special case that never advances and starts at time zero. */
  class TapSource {
    const record: real -> seq<SourcedTap>
    const maxTapDelta: nat
    const duration: real
    const startOffset: real
    const advancePerMessage: bool
    const wrapIfRemainingLess: real
    var messageOffset: real
    var maxTSeen: real
    var startedOnce: bool

    constructor (record: real -> seq<SourcedTap>, maxTapDelta: nat, duration: real, startOffset: real,
                 advancePerMessage: bool, wrapIfRemainingLess: real)
      ensures this.record == record && this.maxTapDelta == maxTapDelta && this.duration == duration
      ensures this.startOffset == startOffset && this.advancePerMessage == advancePerMessage
      ensures this.wrapIfRemainingLess == wrapIfRemainingLess
      ensures messageOffset == startOffset && maxTSeen == 0.0 && !startedOnce
    {
      this.record, this.maxTapDelta, this.duration, this.startOffset := record, maxTapDelta, duration, startOffset;
      this.advancePerMessage, this.wrapIfRemainingLess := advancePerMessage, wrapIfRemainingLess;
      messageOffset, maxTSeen, startedOnce := startOffset, 0.0, false;
    }

    /** Where the next message would start on the record if it did not wrap. */
    ghost function Continuation(): real
      reads this
    {
      if startedOnce then messageOffset + maxTSeen else startOffset
    }

    ghost predicate InDeadZone(t: real)
    {
      wrapIfRemainingLess > 0.0 && duration - t < wrapIfRemainingLess
    }

    /** Pin or advance the record clock. An advancing source continues where the last message's queries
        ended, and wraps to the start when what remains is shorter than the dead zone. */
    method OnMessageStart()
      modifies this
      ensures startedOnce && maxTSeen == 0.0
      ensures !advancePerMessage ==> messageOffset == startOffset
      ensures advancePerMessage ==>
        messageOffset == if InDeadZone(old(Continuation())) then 0.0 else old(Continuation())
    {
      if !advancePerMessage {
        messageOffset := startOffset;
      } else {
        if startedOnce {
          messageOffset := messageOffset + maxTSeen;
        } else {
          messageOffset := startOffset;
        }
        if wrapIfRemainingLess > 0.0 && duration - messageOffset < wrapIfRemainingLess {
          messageOffset := 0.0;
        }
      }
      startedOnce := true;
      maxTSeen := 0.0;
    }

    method TapsAt(t: real) returns (taps: seq<SourcedTap>)
      modifies this`maxTSeen
      ensures taps == record(messageOffset + t)
      ensures maxTSeen == MaxReal(old(maxTSeen), t)
    {
      maxTSeen := if maxTSeen >= t then maxTSeen else t;
      taps := record(messageOffset + t);
    }
  }
}
