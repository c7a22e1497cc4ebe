/** A whole message through a tap-source channel, and the record clock across messages. */
module TapMessages {
  import opened Basics
  import opened Signals
  import opened TapSources
  import opened TapScenes
  import opened PairBuffers
  import opened TapSourceRenderers
  import opened StaticMessages

  /** For affine taps the rendered run is the closed form at every receiver index, whatever the cuts:
      the output does not depend on how the input was split into calls. */
  lemma AffineRunIsClosed(view: Scene, law: seq<AffineTap>, fed: seq<real>, cuts: seq<nat>, y: seq<real>, m: nat)
    requires view.fs > 0.0 && view.Follows(law) && Matches(view, fed, cuts, y) && m < |y|
    ensures y[m] == view.ClosedMix(law, Interpolated(fed), m, |law|)
  {
    var b := BlockOf(view, fed, cuts, y, m, |cuts| - 1);
    var from, n := cuts[b], cuts[b + 1] - cuts[b];
    assert CutMatches(view, fed, cuts, y, b);
    var i: nat := m - from;
    assert SampleMatches(view, fed, from, n, i, y);
    assert |view.Taps(from)| == |law| && |view.Taps(from + n)| == |law|;
    view.AffineMixIsClosed(law, Interpolated(fed), from, n, i, |law|);
  }

  lemma {:induction false} BlockOf(view: Scene, fed: seq<real>, cuts: seq<nat>, y: seq<real>, m: nat, top: nat) returns (b: nat)
    requires view.fs > 0.0 && Matches(view, fed, cuts, y) && top < |cuts| && m < cuts[top]
    ensures b + 1 < |cuts| && cuts[b] <= m < cuts[b + 1]
  {
    if cuts[top - 1] <= m {
      b := top - 1;
    } else {
      b := BlockOf(view, fed, cuts, y, m, top - 1);
    }
  }

  /** The process calls of one message, the receiver draining in between. */
  method ProcessChunks(renderer: TapSourceRenderer, pb: PairBuffer, chunks: seq<seq<real>>, scratch: array<real>,
                       drains: seq<nat>, ghost base: Signal, ghost drops: nat)
    requires renderer.Valid() && renderer.Apart(pb) && pb.Valid() && renderer.Rendering(pb, base, drops)
    requires scratch != pb.buffer && scratch !in renderer.Footprint()
    requires |drains| == |chunks| && forall i :: 0 <= i < |drains| ==> drains[i] <= scratch.Length
    requires renderer.line.fed == [] && renderer.exact
    modifies renderer.Footprint(), pb`overflowDrops, pb`stream, pb`watermark, pb`readPos, pb.buffer, scratch
    ensures renderer.Valid() && pb.Valid() && renderer.Rendering(pb, base, drops)
    ensures renderer.View() == old(renderer.View()) && renderer.line.fed == Flatten(chunks)
    ensures renderer.source.startedOnce == old(renderer.source.startedOnce)
    ensures renderer.Called(0, Sizes(chunks), true)
    ensures pb.Since(old(pb.Now()), pb.origin + renderer.outCursor)
    ensures renderer.outCursor == 0 ==> pb.watermark == old(pb.watermark)
  {
    ghost var view, was := renderer.View(), pb.Now();
    var i := 0;
    while i < |chunks|
      invariant i <= |chunks|
      invariant renderer.Valid() && pb.Valid() && renderer.Rendering(pb, base, drops)
      invariant renderer.View() == view && renderer.line.fed == Flatten(chunks[..i])
      invariant renderer.Called(0, Sizes(chunks[..i]), true)
      invariant renderer.source.startedOnce == old(renderer.source.startedOnce)
      invariant pb.Since(was, pb.origin + renderer.outCursor)
      invariant renderer.outCursor == 0 ==> pb.watermark == old(pb.watermark)
    {
      SizesNext(chunks, i);
      ProcessChunk(renderer, pb, chunks[i], scratch, drains[i], base, drops, Sizes(chunks[..i]));
      i := i + 1;
    }
    assert chunks[..i] == chunks;
  }

  /** One call, and some reading. */
  method ProcessChunk(renderer: TapSourceRenderer, pb: PairBuffer, chunk: seq<real>, scratch: array<real>, drain: nat,
                      ghost base: Signal, ghost drops: nat, ghost sizes: seq<nat>)
    requires renderer.Valid() && renderer.Apart(pb) && pb.Valid() && renderer.Rendering(pb, base, drops)
    requires scratch != pb.buffer && scratch !in renderer.Footprint() && drain <= scratch.Length
    requires renderer.Called(0, sizes, true)
    modifies renderer.Footprint(), pb`overflowDrops, pb`stream, pb`watermark, pb`readPos, pb.buffer, scratch
    ensures renderer.Valid() && pb.Valid() && renderer.Rendering(pb, base, drops)
    ensures renderer.View() == old(renderer.View()) && renderer.line.fed == old(renderer.line.fed) + chunk
    ensures renderer.source.startedOnce == old(renderer.source.startedOnce)
    ensures renderer.Called(0, sizes + [|chunk|], true)
    ensures pb.Since(old(pb.Now()), pb.origin + renderer.outCursor)
    ensures renderer.outCursor == 0 ==> pb.watermark == old(pb.watermark)
  {
    renderer.ProcessCall(chunk, pb, base, drops, 0, sizes, true);
    var n := pb.ReadAdvance(scratch, drain);
  }

  /** The lengths of the calls. */
  function Sizes(chunks: seq<seq<real>>): (n: seq<nat>)
    ensures |n| == |chunks|
  {
    seq(|chunks|, i requires 0 <= i < |chunks| => |chunks[i]|)
  }

  lemma {:induction false} FlattenSize(chunks: seq<seq<real>>)
    ensures |Flatten(chunks)| == Total(Sizes(chunks))
    decreases |chunks|
  {
    if chunks != [] {
      FlattenSize(chunks[..|chunks| - 1]);
      assert Sizes(chunks)[..|chunks| - 1] == Sizes(chunks[..|chunks| - 1]);
    }
  }

  lemma SizesNext(chunks: seq<seq<real>>, i: nat)
    requires i < |chunks|
    ensures Flatten(chunks[..i + 1]) == Flatten(chunks[..i]) + chunks[i]
    ensures Sizes(chunks[..i + 1]) == Sizes(chunks[..i]) + [|chunks[i]|]
  {
    assert chunks[..i + 1][..i] == chunks[..i];
  }

  /** The calls of a whole message: the worker's, then the blocks of the tail. */
  function MessageCalls(chunks: seq<seq<real>>, tail: nat): seq<nat> {
    Sizes(chunks) + Blocks(tail)
  }

  /** The sizing condition of a message: lags, drift included, stay in [1, w] over all its indices, and
      every call leaves room for w + 1 samples behind it. */
  ghost predicate Sized(renderer: TapSourceRenderer, chunks: seq<seq<real>>, total: nat, w: int)
    reads renderer, renderer.source
  {
    && renderer.View().LagsWithin(0, total, w)
    && (forall i :: 0 <= i < |chunks| ==> |chunks[i]| + w + 1 <= renderer.line.buffer.Length)
  }

  /** With no clock drift, tap delays in [1, w] are lags in [1, w] for messages of any length. */
  lemma DelaysAreLags(view: Scene, total: nat, w: int)
    requires view.fs > 0.0 && view.drift == 0.0
    requires forall m: nat, k: nat :: k < |view.Taps(m)| ==> 1.0 <= view.Taps(m)[k].delta <= w as real
    ensures view.LagsWithin(0, total, w)
  {
  }

  /** Under the sizing condition every read of the message, its tail included, falls in the window. */
  lemma SizedIsInWindow(renderer: TapSourceRenderer, chunks: seq<seq<real>>, tail: nat, w: int)
    requires Sized(renderer, chunks, |Flatten(chunks)| + tail, w) && BLOCK + w + 1 <= renderer.line.buffer.Length
    ensures renderer.View().CallsInWindow(0, MessageCalls(chunks, tail), renderer.line.buffer.Length)
  {
    LaggedIsInWindow(renderer.View(), chunks, tail, w, renderer.line.buffer.Length);
  }

  /** The same for a scene. */
  lemma LaggedIsInWindow(view: Scene, chunks: seq<seq<real>>, tail: nat, w: int, capacity: nat)
    requires view.fs > 0.0 && view.LagsWithin(0, |Flatten(chunks)| + tail, w) && BLOCK + w + 1 <= capacity
    requires forall i :: 0 <= i < |chunks| ==> |chunks[i]| + w + 1 <= capacity
    ensures view.CallsInWindow(0, MessageCalls(chunks, tail), capacity)
  {
    var sizes := MessageCalls(chunks, tail);
    FlattenSize(chunks);
    BlocksTotal(tail);
    TotalConcat(Sizes(chunks), Blocks(tail));
    forall i | 0 <= i < |sizes|
      ensures sizes[i] + w + 1 <= capacity
    {
      if i >= |chunks| {
        assert sizes[i] == Blocks(tail)[i - |chunks|];
      }
    }
    view.LagsKeepCalls(0, sizes, w, capacity);
  }

  /** TX entry for a tap-source channel. */
  method OnMessageStart(renderer: TapSourceRenderer, pb: PairBuffer, gap: nat, absoluteFirstOrigin: bool)
    requires renderer.Valid() && renderer.Apart(pb) && pb.Valid() && Quiescent(pb)
    modifies renderer.Footprint(), pb`origin, pb`firstMessage
    ensures renderer.Valid() && pb.Valid() && !pb.firstMessage
    ensures pb.origin == if old(pb.firstMessage) && !absoluteFirstOrigin then pb.baseDelay else pb.watermark + gap
    ensures pb.watermark <= pb.origin && renderer.line.fed == [] && renderer.exact
    ensures renderer.Rendering(pb, pb.stream, pb.overflowDrops)
    ensures renderer.source.messageOffset == old(NextStart(renderer.source)) && renderer.source.startedOnce
  {
    renderer.OnMessageStart();
    pb.BeginMessage(gap, absoluteFirstOrigin);
    assert CarriesRun(pb.stream, pb.stream, pb.origin, []);
  }

  /** Where the record clock of a source will start its next message. */
  ghost function NextStart(source: TapSource): real
    reads source
  {
    if !source.advancePerMessage then source.startOffset
    else if source.InDeadZone(source.Continuation()) then 0.0
    else source.Continuation()
  }

  /** At position origin + j the receiver hears sample j of the run, and nothing after it. */
  ghost predicate HeardRun(stream: Signal, origin: nat, y: seq<real>) {
    (forall j :: 0 <= j < |y| ==> stream(origin + j) == y[j]) && SilentFrom(stream, origin + |y|)
  }

  lemma RunIsHeard(stream: Signal, base: Signal, origin: nat, y: seq<real>)
    requires CarriesRun(stream, base, origin, y) && SilentFrom(base, origin)
    ensures Kept(base, stream, origin) && HeardRun(stream, origin, y)
  {
    forall j | 0 <= j < |y|
      ensures stream(origin + j) == y[j]
    {
      assert stream(origin + j) == base(origin + j) + At(y, origin + j - origin);
    }
  }

  /** The record clock after a message: it stands where the message's last rendered index fell. */
  ghost predicate Tiled(renderer: TapSourceRenderer, samples: nat)
    reads renderer, renderer.source
  {
    renderer.source.Continuation()
      == renderer.source.messageOffset + (samples + renderer.maxTapDelta) as real / renderer.ReceiverRate()
  }

  /** Everything between TX entry and TX exit, the flush included. */
  method RenderAndFlush(renderer: TapSourceRenderer, pb: PairBuffer, chunks: seq<seq<real>>, scratch: array<real>,
                        drains: seq<nat>, ghost base: Signal, ghost drops: nat)
    requires renderer.Valid() && renderer.Apart(pb) && pb.Valid() && renderer.Rendering(pb, base, drops)
    requires scratch != pb.buffer && scratch !in renderer.Footprint()
    requires |drains| == |chunks| && forall i :: 0 <= i < |drains| ==> drains[i] <= scratch.Length
    requires renderer.line.fed == [] && renderer.exact
    modifies renderer.Footprint(), pb`overflowDrops, pb`stream, pb`watermark, pb`readPos, pb.buffer, scratch
    ensures renderer.Valid() && pb.Valid() && renderer.Rendering(pb, base, drops)
    ensures renderer.View() == old(renderer.View())
    ensures renderer.source.startedOnce == old(renderer.source.startedOnce)
    ensures renderer.line.fed == Flatten(chunks) + Zeros(renderer.maxTapDelta)
    ensures renderer.exact
      == renderer.View().CallsInWindow(0, MessageCalls(chunks, renderer.maxTapDelta), renderer.line.buffer.Length)
    ensures pb.Since(old(pb.Now()), pb.origin + renderer.outCursor)
    ensures renderer.outCursor == 0 ==> pb.watermark == old(pb.watermark)
  {
    ProcessChunks(renderer, pb, chunks, scratch, drains, base, drops);
    renderer.View().CallsConcat(0, Sizes(chunks), Blocks(renderer.maxTapDelta), renderer.line.buffer.Length);
    renderer.OnMessageEnd(pb, base, drops);
  }

  /** The whole-message theorem for tap-source channels. */
  method TransmitMessage(renderer: TapSourceRenderer, pb: PairBuffer, gap: nat, absoluteFirstOrigin: bool,
                         chunks: seq<seq<real>>, scratch: array<real>, drains: seq<nat>)
    requires renderer.Valid() && renderer.Apart(pb) && pb.Valid() && Quiescent(pb)
    requires scratch != pb.buffer && scratch !in renderer.Footprint()
    requires |drains| == |chunks| && forall i :: 0 <= i < |drains| ==> drains[i] <= scratch.Length
    modifies renderer.Footprint(), pb, pb.buffer, scratch
    ensures renderer.Valid() && pb.Valid() && !pb.firstMessage
    ensures pb.origin == if old(pb.firstMessage) && !absoluteFirstOrigin then pb.baseDelay else old(pb.watermark) + gap
    ensures |renderer.y| == |Flatten(chunks)| + renderer.maxTapDelta
    ensures pb.watermark == if renderer.y == [] then old(pb.watermark) else pb.origin + |renderer.y|
    ensures Quiescent(pb)
    // what is heard
    ensures pb.overflowDrops == old(pb.overflowDrops) ==>
      && Kept(old(pb.stream), pb.stream, pb.origin)
      && HeardRun(pb.stream, pb.origin, renderer.y)
    // and what it is, when every read of its calls falls in the delay line's window
    ensures renderer.exact
      == renderer.View().CallsInWindow(0, MessageCalls(chunks, renderer.maxTapDelta), renderer.line.buffer.Length)
    ensures renderer.exact ==>
      Matches(renderer.View(), Flatten(chunks) + Zeros(renderer.maxTapDelta), renderer.cuts, renderer.y)
    ensures pb.Since(old(pb.Now()), pb.origin + |renderer.y|) && pb.Since(old(pb.Now()), pb.watermark)
    // the record clock: this message tiles the record up to its last rendered index
    ensures renderer.source.messageOffset == old(NextStart(renderer.source))
    ensures Tiled(renderer, |Flatten(chunks)|)
  {
    ghost var base, drops := pb.stream, pb.overflowDrops;
    OnMessageStart(renderer, pb, gap, absoluteFirstOrigin);
    assert SilentFrom(base, pb.origin);
    RenderAndFlush(renderer, pb, chunks, scratch, drains, base, drops);
    if pb.overflowDrops == drops {
      RunIsHeard(pb.stream, base, pb.origin, renderer.y);
    }
    if renderer.y == [] {
      assert CarriesRun(pb.stream, base, pb.origin, []);
      assert Beyond(base, pb.stream, pb.watermark);
    }
  }

  /** Where the record clock goes from a point it reached: on, or back to zero from the dead zone. */
  function NextRecordStart(reached: real, duration: real, wrap: real): real {
    if wrap > 0.0 && duration - reached < wrap then 0.0 else reached
  }

  /** One message as it came out: where it went, what was rendered and how it was cut, the record time
      at which it began, and the watermark it left. */
  datatype Performance = Performance(origin: nat, y: seq<real>, cuts: seq<nat>, start: real, mark: nat) {

    function End(): nat { if y == [] then 0 else origin + |y| }

    ghost predicate In(stream: Signal) {
      forall j :: 0 <= j < |y| ==> stream(origin + j) == y[j]
    }

    /** It began where told, and moved the watermark it found to its own end, if it has one. */
    predicate At(begin: nat, found: nat) {
      origin == begin && mark == if y == [] then found else origin + |y|
    }

    /** The rendering is the block formula on the unbounded source, if every read of the message's calls
        falls in the delay line's window. */
    ghost predicate Right(view: Scene, chunks: seq<seq<real>>, tail: nat, capacity: nat)
      requires view.fs > 0.0
    {
      var own := view.(offset := start);
      |y| == |Flatten(chunks)| + tail &&
      (own.CallsInWindow(0, MessageCalls(chunks, tail), capacity) ==> Matches(own, Flatten(chunks) + Zeros(tail), cuts, y))
    }
  }

  /** Performances follow one another without overlap, all of them before `end`. */
  ghost predicate InTurn(played: seq<Performance>, end: nat) {
    && (forall i, j :: 0 <= i < j < |played| && played[j].y != [] ==> played[i].End() <= played[j].origin)
    && (forall i :: 0 <= i < |played| ==> played[i].End() <= end)
  }

  ghost predicate AllOn(played: seq<Performance>, stream: Signal) {
    forall i :: 0 <= i < |played| ==> played[i].In(stream)
  }

  /** Each message begins on the record where the last one's final rendered index fell, tail included, or at
      zero when that point is in the dead zone; so the record is tiled without gap or overlap. */
  ghost predicate RecordTiled(played: seq<Performance>, fs: real, duration: real, wrap: real)
    requires fs > 0.0
  {
    forall i, k :: 0 <= i < |played| && 0 <= k < |played| && k == i + 1 ==>
      played[k].start == NextRecordStart(played[i].start + |played[i].y| as real / fs, duration, wrap)
  }

  /** Where a run has brought the watermark. */
  function LastMark(opening: Opening, played: seq<Performance>): nat {
    if played == [] then opening.mark else played[|played| - 1].mark
  }

  /** Where the next message begins: its own gap past the watermark, unless it opens the buffer. */
  function NextBegin(opening: Opening, played: seq<Performance>, gap: nat): nat {
    if played == [] && opening.structural then opening.baseDelay else LastMark(opening, played) + gap
  }

  /** Every message began in its place and left the watermark at its end. */
  ghost predicate InPlace(opening: Opening, messages: seq<Message>, played: seq<Performance>) {
    && |played| == |messages|
    && (played != [] ==> played[0].At(NextBegin(opening, [], messages[0].gap), opening.mark))
    && (forall i, k :: 0 <= i < |played| && 0 <= k < |played| && k == i + 1 ==>
          played[k].At(played[i].mark + messages[k].gap, played[i].mark))
  }

  lemma InPlaceAppend(opening: Opening, messages: seq<Message>, m: Message, played: seq<Performance>, p: Performance)
    requires InPlace(opening, messages, played)
    requires p.At(NextBegin(opening, played, m.gap), LastMark(opening, played))
    ensures InPlace(opening, messages + [m], played + [p]) && LastMark(opening, played + [p]) == p.mark
  {
  }

  lemma InTurnAppend(played: seq<Performance>, p: Performance, end: nat, end': nat)
    requires InTurn(played, end) && end <= p.origin && end <= end' && p.End() <= end'
    ensures InTurn(played + [p], end')
  {
  }

  /** What was heard stays heard: the next message touches nothing before the watermark. */
  lemma AllOnAppend(played: seq<Performance>, p: Performance, stream: Signal, stream': Signal, end: nat)
    requires InTurn(played, end) && AllOn(played, stream) && Kept(stream, stream', end) && p.In(stream')
    ensures AllOn(played + [p], stream')
  {
    forall i | 0 <= i < |played|
      ensures played[i].In(stream')
    {
      assert played[i].In(stream) && played[i].End() <= end;
    }
  }

  /** What the calls of the messages were made of: the scene but for where on the record it starts. */
  ghost function Setting(renderer: TapSourceRenderer): (view: Scene)
    reads renderer, renderer.source
    ensures view.fs > 0.0
  {
    renderer.View().(offset := 0.0)
  }

  /** Every message of a run was performed right. */
  ghost predicate AllRight(view: Scene, messages: seq<Message>, played: seq<Performance>, tail: nat, capacity: nat)
    requires view.fs > 0.0
  {
    |played| == |messages| &&
    forall k :: 0 <= k < |played| ==> played[k].Right(view, messages[k].chunks, tail, capacity)
  }

  /** Every call of the message is at most a block. */
  predicate ShortCalls(m: Message) {
    forall i :: 0 <= i < |m.chunks| ==> |m.chunks[i]| <= BLOCK
  }

  /** Every message of a run is rendered in full, tail included, and right when sent in short calls. */
  ghost predicate RunMatches(view: Scene, tail: nat, messages: seq<Message>, played: seq<Performance>)
    requires view.fs > 0.0
  {
    && |played| == |messages|
    && (forall k :: 0 <= k < |played| ==> |played[k].y| == |Flatten(messages[k].chunks)| + tail)
    && (forall k :: 0 <= k < |played| && ShortCalls(messages[k]) ==>
          Matches(view.(offset := played[k].start), Flatten(messages[k].chunks) + Zeros(tail), played[k].cuts, played[k].y))
  }

  lemma AllRightAppend(view: Scene, messages: seq<Message>, m: Message, played: seq<Performance>, p: Performance,
                       tail: nat, capacity: nat)
    requires view.fs > 0.0 && AllRight(view, messages, played, tail, capacity) && p.Right(view, m.chunks, tail, capacity)
    ensures AllRight(view, messages + [m], played + [p], tail, capacity)
  {
  }

  /** A run so far: each message right, in its place, and one after another. */
  ghost predicate Performed(view: Scene, opening: Opening, sent: seq<Message>, played: seq<Performance>, mark: nat,
                            tail: nat, capacity: nat)
    requires view.fs > 0.0
  {
    && InPlace(opening, sent, played) && mark == LastMark(opening, played) && InTurn(played, mark)
    && AllRight(view, sent, played, tail, capacity)
  }

  lemma PerformedAppend(view: Scene, opening: Opening, sent: seq<Message>, m: Message, played: seq<Performance>,
                        p: Performance, mark: nat, tail: nat, capacity: nat)
    requires view.fs > 0.0 && Performed(view, opening, sent, played, mark, tail, capacity)
    requires p.At(NextBegin(opening, played, m.gap), mark) && p.Right(view, m.chunks, tail, capacity)
    requires mark <= p.origin && mark <= p.mark && p.End() <= p.mark
    ensures Performed(view, opening, sent + [m], played + [p], p.mark, tail, capacity)
  {
    InPlaceAppend(opening, sent, m, played, p);
    InTurnAppend(played, p, mark, p.mark);
    AllRightAppend(view, sent, m, played, p, tail, capacity);
  }

  /** How a tap source moves along its record from message to message. */
  datatype RecordClock = RecordClock(advance: bool, startOffset: real, duration: real, wrap: real)

  function ClockOf(source: TapSource): RecordClock {
    RecordClock(source.advancePerMessage, source.startOffset, source.duration, source.wrapIfRemainingLess)
  }

  /** The record clock over a run that found it at `first`: pinned, or tiling the record. */
  ghost predicate Clocked(clock: RecordClock, fs: real, first: real, played: seq<Performance>)
    requires fs > 0.0
  {
    if clock.advance then
      && RecordTiled(played, fs, clock.duration, clock.wrap)
      && (played != [] ==> played[0].start == NextRecordStart(first, clock.duration, clock.wrap))
    else forall k :: 0 <= k < |played| ==> played[k].start == clock.startOffset
  }

  /** Where a run has brought the record clock: its last message's final rendered index. */
  function Reached(fs: real, first: real, played: seq<Performance>): real
    requires fs > 0.0
  {
    if played == [] then first else played[|played| - 1].start + |played[|played| - 1].y| as real / fs
  }

  lemma ClockedAppend(clock: RecordClock, fs: real, first: real, played: seq<Performance>, p: Performance)
    requires fs > 0.0 && Clocked(clock, fs, first, played)
    requires p.start == if clock.advance then NextRecordStart(Reached(fs, first, played), clock.duration, clock.wrap)
                        else clock.startOffset
    ensures Clocked(clock, fs, first, played + [p])
  {
  }

  /** One message, as a performance. */
  method Perform(renderer: TapSourceRenderer, pb: PairBuffer, m: Message, absoluteFirstOrigin: bool, scratch: array<real>)
    returns (ghost p: Performance)
    requires renderer.Valid() && renderer.Apart(pb) && pb.Valid() && Quiescent(pb)
    requires scratch != pb.buffer && scratch !in renderer.Footprint() && m.Fits(scratch.Length)
    modifies renderer.Footprint(), pb, pb.buffer, scratch
    ensures renderer.Valid() && pb.Valid() && Quiescent(pb)
    ensures old(pb.watermark) <= p.origin && p.End() <= pb.watermark == p.mark && !pb.firstMessage
    ensures p.At(if old(pb.firstMessage) && !absoluteFirstOrigin then pb.baseDelay else old(pb.watermark) + m.gap,
                 old(pb.watermark))
    ensures Setting(renderer) == old(Setting(renderer))
    ensures p.Right(Setting(renderer), m.chunks, renderer.maxTapDelta, renderer.line.buffer.Length)
    ensures pb.overflowDrops == old(pb.overflowDrops) ==> p.In(pb.stream)
    ensures pb.Since(old(pb.Now()), pb.watermark)
    ensures p.start == old(NextStart(renderer.source))
    ensures renderer.source.Continuation() == p.start + |p.y| as real / renderer.ReceiverRate()
  {
    TransmitMessage(renderer, pb, m.gap, absoluteFirstOrigin, m.chunks, scratch, m.drains);
    p := Performance(pb.origin, renderer.y, renderer.cuts, renderer.source.messageOffset, pb.watermark);
    assert Setting(renderer).(offset := p.start) == renderer.View();
  }

  /** A run under way: the messages sent so far were performed, the channel is between messages, and without drops
      all of them are on the buffer. */
  ghost predicate Going(renderer: TapSourceRenderer, pb: PairBuffer, opening: Opening, absoluteFirstOrigin: bool,
                        first: real, was: Moment, sent: seq<Message>, played: seq<Performance>)
    reads renderer, renderer.source, pb
  {
    && Quiescent(pb) && Opens(pb, opening, absoluteFirstOrigin, played != [])
    && Performed(Setting(renderer), opening, sent, played, pb.watermark, renderer.maxTapDelta, renderer.line.buffer.Length)
    && Clocked(ClockOf(renderer.source), renderer.ReceiverRate(), first, played)
    && renderer.source.Continuation() == Reached(renderer.ReceiverRate(), first, played)
    && pb.Since(was, pb.watermark) && (pb.overflowDrops == was.drops ==> AllOn(played, pb.stream))
  }

  /** One more message of a run. */
  method TransmitNext(renderer: TapSourceRenderer, pb: PairBuffer, m: Message, absoluteFirstOrigin: bool, scratch: array<real>,
                      ghost opening: Opening, ghost sent: seq<Message>, ghost played: seq<Performance>,
                      ghost was: Moment, ghost first: real, ghost sent': seq<Message>)
    returns (ghost played': seq<Performance>)
    requires renderer.Valid() && renderer.Apart(pb) && pb.Valid() && sent' == sent + [m]
    requires scratch != pb.buffer && scratch !in renderer.Footprint() && m.Fits(scratch.Length)
    requires Going(renderer, pb, opening, absoluteFirstOrigin, first, was, sent, played)
    modifies renderer.Footprint(), pb, pb.buffer, scratch
    ensures renderer.Valid() && pb.Valid() && Setting(renderer) == old(Setting(renderer))
    ensures Going(renderer, pb, opening, absoluteFirstOrigin, first, was, sent', played')
  {
    ghost var before, view := pb.Now(), Setting(renderer);
    ghost var p := Perform(renderer, pb, m, absoluteFirstOrigin, scratch);
    played' := played + [p];
    PerformedAppend(view, opening, sent, m, played, p, before.watermark, renderer.maxTapDelta, renderer.line.buffer.Length);
    ClockedAppend(ClockOf(renderer.source), renderer.ReceiverRate(), first, played, p);
    AdvancedTwice(was, before, pb.Now(), before.watermark, pb.watermark, pb.capacity);
    if pb.overflowDrops == was.drops {
      AllOnAppend(played, p, before.stream, pb.stream, before.watermark);
    }
  }

  /** A run of messages through one channel, the receiver reading whenever it likes. Each message's
      performance begins the message's gap past the one before it; without drops all of them are on the buffer at the end;
      each is the block formula on its own stretch of the record when its reads stay in the window; and those
      stretches tile the record. Nothing is dropped if the whole run fits ahead of the reader. */
  method TransmitAll(renderer: TapSourceRenderer, pb: PairBuffer, messages: seq<Message>, absoluteFirstOrigin: bool,
                     scratch: array<real>)
    returns (ghost played: seq<Performance>)
    requires renderer.Valid() && renderer.Apart(pb) && pb.Valid() && Quiescent(pb)
    requires scratch != pb.buffer && scratch !in renderer.Footprint()
    requires forall k :: 0 <= k < |messages| ==> messages[k].Fits(scratch.Length)
    modifies renderer.Footprint(), pb, pb.buffer, scratch
    ensures renderer.Valid() && pb.Valid() && Quiescent(pb) && Setting(renderer) == old(Setting(renderer))
    ensures Performed(Setting(renderer), old(OpeningOf(pb, absoluteFirstOrigin)), messages, played, pb.watermark,
                      renderer.maxTapDelta, renderer.line.buffer.Length)
    ensures pb.overflowDrops == old(pb.overflowDrops) ==> AllOn(played, pb.stream)
    ensures pb.Since(old(pb.Now()), pb.watermark)
    ensures Clocked(ClockOf(renderer.source), renderer.ReceiverRate(), old(renderer.source.Continuation()), played)
    ensures renderer.source.Continuation() == Reached(renderer.ReceiverRate(), old(renderer.source.Continuation()), played)
  {
    played := TransmitEach(renderer, pb, messages, absoluteFirstOrigin, scratch, OpeningOf(pb, absoluteFirstOrigin),
                           pb.Now(), renderer.source.Continuation());
  }

  /** The messages one after another. */
  method TransmitEach(renderer: TapSourceRenderer, pb: PairBuffer, messages: seq<Message>, absoluteFirstOrigin: bool,
                      scratch: array<real>, ghost opening: Opening, ghost was: Moment, ghost first: real)
    returns (ghost played: seq<Performance>)
    requires renderer.Valid() && renderer.Apart(pb) && pb.Valid()
    requires scratch != pb.buffer && scratch !in renderer.Footprint()
    requires forall k :: 0 <= k < |messages| ==> messages[k].Fits(scratch.Length)
    requires Going(renderer, pb, opening, absoluteFirstOrigin, first, was, [], [])
    modifies renderer.Footprint(), pb, pb.buffer, scratch
    ensures renderer.Valid() && pb.Valid() && Setting(renderer) == old(Setting(renderer))
    ensures Going(renderer, pb, opening, absoluteFirstOrigin, first, was, messages, played)
  {
    ghost var view := Setting(renderer);
    played := [];
    for k := 0 to |messages|
      invariant renderer.Valid() && pb.Valid() && Setting(renderer) == view
      invariant Going(renderer, pb, opening, absoluteFirstOrigin, first, was, messages[..k], played)
    {
      assert messages[..k + 1] == messages[..k] + [messages[k]];
      played := TransmitNext(renderer, pb, messages[k], absoluteFirstOrigin, scratch, opening, messages[..k], played,
                             was, first, messages[..k + 1]);
    }
    assert messages[..|messages|] == messages;
  }

  /** With wrapping on, every message of a run begins at zero or leaves at least the dead zone's length. */
  lemma StartsClearOfDeadZone(clock: RecordClock, fs: real, first: real, played: seq<Performance>, k: nat)
    requires fs > 0.0 && clock.advance && clock.wrap > 0.0
    requires Clocked(clock, fs, first, played) && k < |played|
    ensures played[k].start == 0.0 || clock.duration - played[k].start >= clock.wrap
  {
    if k > 0 {
      assert played[k].start == NextRecordStart(played[k - 1].start + |played[k - 1].y| as real / fs, clock.duration, clock.wrap);
    }
  }
}
