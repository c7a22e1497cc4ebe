# Verified model of the acoustic channel emulator's sample path

The emulator carries sound between modems in real time. A source thread takes ADC samples from a
transmit ring, renders them through every outgoing channel and scatters the result into one
`PairBuffer` per (source, receiver) pair; a receiver thread sums its incoming pair buffers, adds noise and feeds
the receiving modem, whose buffer fill sets the pace. This project models that path and proves what it
promises: that rings addressed through a mask refine unbounded streams under every interleaving, that streaming
algorithms equal closed forms however the input is cut, that published samples are final, that the
configured capacity suffices, that messages play when they should, and that the pacers neither flood the
modem nor fall silent.

## How the model is organised

Each component of the source is one module. Objects the source updates in place are classes with the same
fields, their loops are loops, and every method is proved against a specification function whose own
properties are lemmas. The two lock-free rings appear twice: as the class one thread sees, and as a
transition system (`PairBufferRace`, `SpscRace`) in which every slot access and every publication is a step of its own, the steps
of the two threads interleave freely, and each side may act on an arbitrarily old view of the other's
position. `PairBufferCalls` and `SpscCalls` join the two: every call of a class is a run of its machine. A definition that
both the code and its specification go by is pinned by lemmas of its own: what a conversion, a period, a slope or a table
means is stated apart from how it is computed.

A stream is a function from absolute position to sample (`Signals`). A ring shows a stream on a window of
positions (`Masking.Window`); the machine expression `uint64(p) & (capacity - 1)` is computed bit by bit
and proved to be the residue, for negative positions too. Samples, phases and rates are reals, positions
are integers, times are integer nanoseconds.

| Theme | Main results |
|---|---|
| Rings | `PairBufferRace.RingRefinesStream`, `PairBufferRace.RunAnswers`, `PairBufferRace.RunDelivers`, `PairBufferCalls.Scatter`, `SpscRace.RingIsFifo`, `SpscRace.RunTakes` |
| Write-style rendering | `StaticMessages.TransmitMessage`, `StaticMessages.TransmitAll`, `StaticMessages.RealMessageIsEchoes`, `StaticMessages.ComplexUnityWholeIff`, `StaticMessageRaces.MessageUnderRace`, `StaticRenderers.StaticRenderer.OnMessageEnd`, `Farrow.ChunkIndependence` |
| Read-style rendering | `TapMessages.TransmitMessage`, `TapMessages.TransmitAll`, `TapMessages.AffineRunIsClosed` |
| The delay line's window | `DelayLines.SourceReadExactIff`, `ConstantTaps.CallExactIff`, `ConstantTaps.MessageFitsIff`, `ConstantTaps.EqualCallsIff` |
| Capacity and timing | `ArrivalAlignment.TransmitStatic`, `ArrivalAlignment.TransmitTapSource`, `ArrivalAlignment.RequestCoversEnvironment`, `Playout.MessagePlaysOnTime`, `Playout.EverySamplePlays` |
| Pacing | `SendSchedule.SendsInWindow`, `ClockFillTrackers.ClockFillTracker.ShouldSend`, `ClockFillTrackers.ClockFillTracker.FindEntry`, `ClockFillTrackers.ClockFillTracker.OnReports` |
| Threads | `SourceWorkers.SourceWorker.Run`, `ReceiverMixes.ReceiverMix.Pull`, `SampleConversions.DacInvertsAdc` |
| Tap sources | `GeometricScenes.CandidatesAreImages`, `GeometricScenes.TapIdentity`, `GeometricTapSources.GeometricTapSource.TapsAt`, `GeometricChannels.PlayGeometric`, `TapTrajectories.CubicOvershoot`, `ReplayChannels.PlayConverted`, `ReplayChannels.RecordedReplayInWindow` |

## Where the code and its comments disagree

The model follows the code.

- `src/dsp/source_delay_line.hpp:24-31` promises the interpolated source for every position already written. `read_at`
  needs two samples after the integer part, so the newest output of a call reads an unwritten slot
  exactly when the tap delay lies strictly between 0 and 1 sample (`NewestOutputWritten`, `SourceReadExactIff`). Every geometric
  source that covers more than one range emits such a delay somewhere in its envelope (`NearRangeDelay`, `NearRangeReadIsWrong`);
  it is clear of them where the first tap stays a sample behind (`GeometricInWindow`). A replay converted with a guard of at
  least one sample never plays one (`ConvertedReplayInWindow`).
- `src/channel/renderer/tap_source_renderer.cpp:125-126` lets the read cursor drift from the producer
  over the whole message, while the sizing at lines 30-42 covers one block of drift. For a tap of constant delay
  `CallFitsIff` and `MessageFitsIff` say exactly which calls and messages stay in the window, for drift of either sign,
  `EqualCallsIff` gives the closed form for equal calls, and `HundredPpm` a message of 0.8 s that leaves it.
- `src/channel/source_worker.cpp:63-69` can batch more than 256 samples, so the delay line needs room for
  the batch as well as the oldest read: the second half of the same condition. `LongBatch` is an input that fails it.
- The drain of `src/channel/renderer/static_renderer.cpp:122-131` is one `process` call, and its loop ends with its input
  (line 92), so outputs still due are lost when a full batch uses the last input and the next output needs no more.
  `OnMessageEnd` says the message is complete if and only if that does not happen; `SlowRatioIsCut` is the
  ratio 1/65, where it does; `ShortCallNotCut` excludes it for every ratio of at least 1/8 with the default filter.
- The same drain means the last samples of a message to decay cleanly, the Hilbert filter needing its group delay of zeros. On real
  taps the message is whole (`RealMessageIsWhole`). On complex taps the resampler's own three samples come on top of the
  group delay: at ratio 1 the last two samples of every message never reach the aligned delay of the default filter
  (`LastTwoAreLost`), and only filters with a group delay of at most two lose nothing (`ComplexUnityWholeIff`).
- `src/channel/model/geometric/geometric_scene.cpp:51-53` lists the order-2 paths as surface-bottom and bottom-surface. Followed
  from the source, the path behind the first flag meets the bottom first (`CandidatesAreImages`).
- `src/channel/source_worker.cpp:85` and `:89` load the modem state twice. `Iterate` states exactly
  when that breaks message nesting; `Run` assumes one load per pass.
- The largest recorded delay does not bound the delays that are played back: the interpolation overshoots by up to an eighth of the
  local range, and a record reaches it (`RecordPlaysWithin`, `OvershootIsReached`). The header's maximum, from
  which the line is sized, may be a microsecond below the data's. The interpolation margin of four samples absorbs both up to
  the bound `RecordedReplayInWindow` states.
- `src/io/clock_fill_tracker.cpp:61` sets the skip flag on a fallback anchor and line 104 clears it in the same
  call, so the next inference does use the fallback anchor (`OnStatus`).
- `src/channel/receiver_mix.hpp:34-36` says every read head advances by the requested count; the code
  advances each by what it has (`Pull`).
- `src/core/tx_start_estimator.hpp:11-19` calls its estimate a lower bound; only the fact that it is never
  after the arrival time is used (`AlignedOriginNearReader`).

## Model

| member | source | states |
|---|---|---|
| `Masking.MaskIsSlot` | src/dsp/source_delay_line.cpp:50-54 | Masking the 64-bit unsigned image of any position, negative ones included, by a power of two minus one gives its true residue. |
| `Masking.Mask` | src/channel/pair_buffer.cpp:78-78 | The index expression of every ring finds the slot of its position. |
| `Masking.SlotSame` | src/channel/pair_buffer.cpp:106-106 | Two positions share a slot exactly when whole ring lengths separate them. |
| `Masking.SlotDistinct` | src/core/ring_buffer.hpp:79-81 | Positions less than one ring length apart never collide. |
| `Masking.WindowStore` | src/channel/pair_buffer.cpp:77-79 | A masked store changes one position of the window the ring shows and no other. |
| `Masking.WindowSlide` | src/channel/pair_buffer.cpp:105-111 | Recycling the oldest slot slides a full window forward by one position. |
| `Masking.RoundUpPow2` | src/channel/pair_buffer.cpp:9-14 | The doubling search returns the least power of two not below the request. |
| `PairBuffers.Accepted` | src/channel/pair_buffer.cpp:56-74 | The part of a block below the write limit: it never passes the limit and is cut short only by it. |
| `PairBuffers.ScatterStep` | src/channel/pair_buffer.cpp:77-79 | One in-place accumulation turns the stream with i samples added into the stream with i + 1 added. |
| `PairBuffers.PairBuffer.constructor` | src/channel/pair_buffer.cpp:17-30 | A fresh buffer is a window on the silent stream. |
| `PairBuffers.MakePairBuffer` | src/channel/pair_buffer.cpp:17-30 | The capacity is the least power of two that holds the request; exactly the base delays it cannot hold are refused; what is accepted is valid, silent and unpublished. |
| `PairBuffers.PairBuffer.BeginMessage` | src/channel/pair_buffer.cpp:32-49 | The first message without alignment lands at the base delay, every other one at the watermark plus its gap. |
| `PairBuffers.PairBuffer.ScatterAdd` | src/channel/pair_buffer.cpp:51-80 | The infinite stream gains exactly the accepted prefix of the block; the rest is counted as dropped. |
| `PairBuffers.PairBuffer.Accumulate` | src/channel/pair_buffer.cpp:77-79 | A block inside the write window is added to the stream position by position, however it wraps. |
| `PairBuffers.PairBuffer.CommitSourceProgress` | src/channel/pair_buffer.cpp:82-89 | The watermark never moves backwards. |
| `PairBuffers.PairBuffer.CommitExtra` | src/channel/pair_buffer.cpp:91-95 | The tail is exposed past the watermark. |
| `PairBuffers.PairBuffer.Recycle` | src/channel/pair_buffer.cpp:105-111 | Consuming and zeroing a slot hands it to the position one capacity later without changing the stream. |
| `PairBuffers.PairBuffer.ReadAdvance` | src/channel/pair_buffer.cpp:97-117 | The reader gets the stream at its next positions, as many as are both wanted and published. |
| `PairBufferRace.NoSharedSlot` | src/channel/pair_buffer.cpp:77-111 | In every reachable state the slot being accumulated into is not the slot being drained. |
| `PairBufferRace.PendingIsPastWatermark` | src/channel/pair_buffer.cpp:51-89 | A scatter in progress contributes nothing below the watermark. |
| `PairBufferRace.AccumulateKeeps` | src/channel/pair_buffer.cpp:77-79 | A single slot accumulation keeps the invariant while a drain is in progress anywhere else. |
| `PairBufferRace.StepKeeps` | src/channel/pair_buffer.cpp:32-117 | Every enabled step of either thread, with any stale view, keeps the invariant. |
| `PairBufferRace.StepIsFinal` | src/channel/pair_buffer.cpp:82-117 | No step changes the total of a published position or takes back what was delivered. |
| `PairBufferRace.RunKeeps` | src/channel/pair_buffer.cpp:32-117 | The same over whole runs. |
| `PairBufferRace.RingRefinesStream` | src/channel/pair_buffer.cpp:51-117 | For every interleaving, each position read is exactly the sum of the accepted contributions addressed to it, for ever; every other sample is counted as dropped. |
| `PairBufferRace.RunAnswers` | src/channel/pair_buffer.cpp:51-80 | From the steps alone: a run logs exactly the blocks it asked for, in order, each up to the write limit it saw and no shorter. |
| `PairBufferRace.FittingRunDropsNothing` | src/channel/pair_buffer.cpp:51-80 | A run whose blocks all end by the limits they saw drops nothing and logs every block in full. |
| `PairBufferRace.RunReads` | src/channel/pair_buffer.cpp:97-117 | From the steps alone: each read takes the reader as far as it asked and saw published. |
| `PairBufferRace.FinishedReadDelivers` | src/channel/pair_buffer.cpp:97-117 | A finished read that saw as many samples published as it wanted has delivered that many. |
| `PairBufferRace.RunDelivers` | src/channel/pair_buffer.cpp:97-117 | Over a whole run the receiver has been given exactly what its reads asked for and saw. |
| `PairBufferCalls.Begin` | src/channel/pair_buffer.cpp:32-49 | Opening a message is the step of that name: object and machine stay one thing seen twice. |
| `PairBufferCalls.Commit` | src/channel/pair_buffer.cpp:82-89 | So is publishing progress. |
| `PairBufferCalls.Extra` | src/channel/pair_buffer.cpp:91-95 | And publishing the tail. |
| `PairBufferCalls.Scatter` | src/channel/pair_buffer.cpp:51-80 | A scatter of the object is a run of the machine, slot by slot, with the same outcome. |
| `PairBufferCalls.Read` | src/channel/pair_buffer.cpp:97-117 | A read of the object is a run of the machine, and gives its caller what the machine delivers. |
| `PairBufferRace.ContributionIsAddBlock` | src/channel/pair_buffer.cpp:51-80 | The machine's log and the class's stream agree on what one more scatter means. |
| `SpscRings.StoreNext` | src/core/ring_buffer.hpp:79-81 | Storing the next item leaves every unread one in place when there is room. |
| `SpscRings.SpscRing.constructor` | src/core/ring_buffer.hpp:21-27 | The capacity is the least power of two that holds the request. |
| `SpscRings.SpscRing.AvailableWrite` | src/core/ring_buffer.hpp:65-69 | Free space is capacity less the queue's length. |
| `SpscRings.SpscRing.AvailableRead` | src/core/ring_buffer.hpp:92-96 | The reported fill is the queue's length. |
| `SpscRings.SpscRing.Write` | src/core/ring_buffer.hpp:73-85 | The queue gains as long a prefix of the data as fits. |
| `SpscRings.SpscRing.Read` | src/core/ring_buffer.hpp:100-112 | The caller gets, and the queue loses, its oldest items in order. |
| `SpscRings.SpscRing.Reset` | src/core/ring_buffer.hpp:121-124 | Reset empties the queue. |
| `SpscRace.StoreHitsNoUnreadSlot` | src/core/ring_buffer.hpp:73-85 | Under every interleaving a store never hits a slot holding an unread item. |
| `SpscRace.StepKeeps` | src/core/ring_buffer.hpp:73-112 | Every step of either thread keeps the invariant, slot by slot, with stale views. |
| `SpscRace.RunKeeps` | src/core/ring_buffer.hpp:73-112 | Over runs, accepted and delivered items only grow. |
| `SpscRace.RingIsFifo` | src/core/ring_buffer.hpp:65-112 | After every run the items read are a prefix of the items accepted and the fill lies between zero and the capacity. |
| `SpscRace.RunTakes` | src/core/ring_buffer.hpp:73-85 | From the steps alone: the queue has taken of each write the longest prefix that fits the space it saw. |
| `SpscRace.RunGives` | src/core/ring_buffer.hpp:100-112 | From the steps alone: the reader has been given exactly what its reads asked for and saw. |
| `SpscCalls.Write` | src/core/ring_buffer.hpp:73-85 | A write of the object is a run of the machine, slot by slot, with the same outcome. |
| `SpscCalls.Read` | src/core/ring_buffer.hpp:100-112 | A read of the object is a run of the machine, and gives its caller what the machine delivers. |
| `SpscRace.ViewsInRange` | src/core/ring_buffer.hpp:65-96 | With stale views the unsigned differences both sides compute never underflow. |
| `Farrow.FarrowResampler.SetRatio` | src/dsp/farrow_resampler.cpp:10-16 | A ratio that would not advance is refused and the old one kept. |
| `Farrow.FarrowResampler.InterpolateIsClosedForm` | src/dsp/farrow_resampler.cpp:23-33 | With the phase in [0, 1) the four-sample history holds exactly the inputs the closed form at position consumed + mu asks for. |
| `Farrow.FarrowResampler.Refill` | src/dsp/farrow_resampler.cpp:43-52 | Consuming input never changes consumed + mu, and stops early only when the input is used up. |
| `Farrow.FarrowResampler.Process` | src/dsp/farrow_resampler.cpp:35-59 | Output k of a call is the cubic interpolation of the whole input stream k steps past the phase reached so far; a short call has consumed everything. |
| `Farrow.FarrowResampler.Reset` | src/dsp/farrow_resampler.cpp:67-70 | Reset returns to phase zero over an empty history. |
| `Farrow.OutputsStable` | src/dsp/farrow_resampler.cpp:35-59 | Later input never changes an output already produced. |
| `Farrow.OutputsConcat` | src/dsp/farrow_resampler.cpp:35-59 | The outputs of consecutive calls join into one run of the closed form. |
| `Farrow.UnityRatioDelaysByThree` | src/dsp/farrow_resampler.cpp:23-33 | Ratio 1 is a pure three-sample delay. |
| `Farrow.OutOfPadded` | src/channel/renderer/static_renderer.cpp:122-131 | Zeros fed after the input leave every output as it was. |
| `Farrow.ShortCallNotCut` | src/channel/renderer/static_renderer.cpp:92-119 | A call of at most 256 ratios less one input always ends exhausted. |
| `Farrow.SlowRatioIsCut` | src/channel/renderer/static_renderer.cpp:122-131 | At a ratio of 1/65 the four drain zeros after any exhausted run leave outputs due. |
| `Farrow.StallCount` | src/dsp/farrow_resampler.cpp:35-59 | An exhausted run over N inputs has exactly ceil((N + 1) / r) outputs. |
| `Farrow.ChunkIndependence` | src/dsp/farrow_resampler.cpp:35-59 | Two runs over the same input agree wherever both have produced, and are identical once both are exhausted, whatever the chunking. |
| `Hilbert.BackIndex` | src/dsp/hilbert_filter.cpp:69-74 | The modular index expression of the odd-length ring finds the sample k steps back. |
| `Hilbert.ConvolutionStable` | src/dsp/hilbert_filter.cpp:51-79 | Later input never changes a convolution output. |
| `Hilbert.ImpulseResponse` | src/dsp/hilbert_filter.cpp:65-71 | The impulse response is the list of coefficients, first and last included. |
| `Hilbert.ConvolutionIsLinear` | src/dsp/hilbert_filter.cpp:65-71 | The filter is linear. |
| `Hilbert.ConvolutionShifts` | src/dsp/hilbert_filter.cpp:65-71 | And the same at every time. |
| `Hilbert.HilbertFilter.constructor` | src/dsp/hilbert_filter.cpp:38-44 | A fresh filter is a window on the silent past. |
| `Hilbert.HilbertFilter.Reset` | src/dsp/hilbert_filter.cpp:46-49 | Reset forgets the past. |
| `Hilbert.HilbertFilter.Convolve` | src/dsp/hilbert_filter.cpp:65-71 | The inner product over the circular history, zero taps skipped, is the direct-form convolution. |
| `Hilbert.HilbertFilter.Process` | src/dsp/hilbert_filter.cpp:51-79 | Output i of the stream is the direct convolution at i paired with the input delayed by the group delay, whatever the chunking. |
| `Voicings.Voicing.VoiceExtend` | src/channel/renderer/static_renderer.cpp:141-174 | More of the message adds to a tap's contribution exactly the new gained samples. |
| `Voicings.Voicing.VoiceIsRealPart` | src/channel/renderer/static_renderer.cpp:157-172 | A complex tap is heard as the real part of its gain times the analytic signal. |
| `Voicings.TimesMultipliesModulus` | src/channel/renderer/static_renderer.cpp:157-164 | That product is the product of complex numbers: commutative, with unit one, and multiplying moduli. |
| `Voicings.Voicing.MixSilentOutside` | src/channel/renderer/static_renderer.cpp:133-134 | Past the longest tap's tail the message is silent. |
| `Voicings.CarriesNext` | src/channel/renderer/static_renderer.cpp:141-174 | Scattering one tap's block moves the boundary between taps that carry the longer message and taps that carry the shorter one. |
| `StaticRenderers.ResolveTaps` | src/channel/renderer/static_renderer.cpp:31-47 | An empty tap list means the direct path, one complex tap switches on the analytic pair, and the reported tail is the longest delay. |
| `StaticRenderers.StaticRenderer.constructor` | src/channel/renderer/static_renderer.cpp:21-59 | Construction wires filter, resampler and resolved taps consistently. |
| `StaticRenderers.StaticRenderer.OnMessageStart` | src/channel/renderer/static_renderer.cpp:75-80 | A new message starts from an empty resampler and filter. |
| `StaticRenderers.StaticRenderer.ApplyGain` | src/channel/renderer/static_renderer.cpp:144-173 | The gain scratch holds the tap's contribution as the reference definition gives it, real or complex. |
| `StaticRenderers.StaticRenderer.ScatterTaps` | src/channel/renderer/static_renderer.cpp:141-174 | After the tap loop the buffer carries the extended message through all taps, and nothing published has changed. |
| `StaticRenderers.StaticRenderer.Resample` | src/channel/renderer/static_renderer.cpp:92-99 | The outputs of the message extend seamlessly by the batch. |
| `StaticRenderers.StaticRenderer.RenderBatch` | src/channel/renderer/static_renderer.cpp:92-112 | One pass keeps the buffer equal to the message so far and the watermark at its end. |
| `StaticRenderers.StaticRenderer.StalledUnlessCut` | src/channel/renderer/static_renderer.cpp:92-119 | A call leaves outputs due if and only if one of its full batches used the last input and the next output needs no more. |
| `StaticRenderers.StaticRenderer.Process` | src/channel/renderer/static_renderer.cpp:82-120 | The batch loop terminates for every positive ratio, consumes all input, keeps the rendering invariant, and ends exhausted exactly when it is not cut short. |
| `StaticRenderers.StaticRenderer.OnMessageEnd` | src/channel/renderer/static_renderer.cpp:122-135 | The message ends complete if and only if the drain is not cut short, in terms of the outputs, inputs and ratio at entry; the whole tail is published; no scatter reached a published position. |
| `StaticMessages.RenderedMessage` | src/channel/renderer/static_renderer.cpp:82-174 | A buffer carrying a message plays, at origin + j, the sum over taps of gain times the resampled message at j minus the tap's delay, and nothing else. |
| `StaticMessages.ProcessChunks` | src/channel/channel.cpp:39-42 | Any split into calls with the receiver reading in between leaves the same invariant. |
| `StaticMessages.OnMessageStart` | src/channel/channel.cpp:28-33 | A message starts at or past everything written before. |
| `StaticMessages.TransmitMessage` | src/channel/renderer/static_renderer.cpp:75-174 | A whole message: without drops the closed form is heard whatever the chunking and draining; drops or not, nothing published changes and nothing lies past the watermark; no drops when the message fits ahead of the reader. |
| `StaticMessages.RenderedLength` | src/channel/renderer/static_renderer.cpp:122-131 | With the default filter and a ratio of at least 1/8 the rendered length is ceil((N + drain + 1) / r), whatever the chunking. |
| `StaticMessages.RealMessageIsWhole` | src/channel/renderer/static_renderer.cpp:122-131 | A finished message on real taps is the whole resampled stream, silence after it, and ends with the first position five past its last input. |
| `StaticMessages.UnityMessageIsWhole` | src/channel/renderer/static_renderer.cpp:122-131 | At ratio 1 it is every sample of its input, three samples late. |
| `StaticMessages.RealMessageIsEchoes` | src/channel/renderer/static_renderer.cpp:141-155 | What is heard of it is the echoes of its whole input, tap by tap, with no end of message in sight. |
| `StaticMessages.ComplexMessageReach` | src/channel/renderer/static_renderer.cpp:122-131 | On complex taps an output meets a filter coefficient before the message ends exactly under this bound. |
| `StaticMessages.ComplexUnityReach` | src/channel/renderer/static_renderer.cpp:122-131 | At ratio 1 input sample k is heard through the aligned delay if and only if k + G + 2 < N + max(4, G), for group delay G. |
| `StaticMessages.ComplexUnityWholeIff` | src/channel/renderer/static_renderer.cpp:122-131 | So a message on complex taps is whole at ratio 1 exactly for group delays of at most two. |
| `StaticMessages.LastTwoAreLost` | src/channel/renderer/static_renderer.cpp:122-131 | The default filter leaves out exactly the last two samples. |
| `StaticMessages.ComplexMessageIsWhole` | src/channel/renderer/static_renderer.cpp:122-131 | Nothing is lost where the stretched group delay leaves the drain three inputs. |
| `StaticMessages.AllInAppend` | src/channel/pair_buffer.cpp:32-95 | Earlier messages stay heard when a later one is rendered. |
| `StaticMessages.TransmitAll` | src/channel/renderer/static_renderer.cpp:75-174 | Over a run of messages rendition k is message k resampled, the drain included; it begins its gap past the end of rendition k - 1, or at the base delay when it opens the buffer unaligned; and without drops all renditions are on the buffer at the end, through all taps; nothing is dropped if the run fits ahead of the reader. |
| `StaticMessageRaces.MessageCarries` | src/channel/renderer/static_renderer.cpp:141-174 | The scatter calls of a message, batch by batch and tap by tap, add up to the message through all its taps. |
| `StaticMessageRaces.ResampledOnce` | src/dsp/farrow_resampler.cpp:35-59 | A message has one resampled form, however it was cut. |
| `StaticMessageRaces.MessageUnderRace` | src/channel/pair_buffer.cpp:51-117 | Under every interleaving, what the receiver has been given of a message at any moment is the tap sum of its input resampled, whatever the batches it was resampled in. |
| `StaticMessageRaces.FittingMessageIsHeard` | src/channel/pair_buffer.cpp:51-117 | The same from the steps alone: if every scatter of the run ends by the limit it saw, nothing is dropped and whatever is delivered of the message is the message. |
| `DelayLines.CubicAtStable` | src/dsp/source_delay_line.cpp:42-64 | Interpolation at a position whose samples are written does not depend on what follows. |
| `DelayLines.SourceDelayLine.constructor` | src/dsp/source_delay_line.cpp:19-28 | A fresh line is a window on the silent past. |
| `DelayLines.SourceDelayLine.Clear` | src/dsp/source_delay_line.cpp:30-33 | Clearing restores the zero prefix. |
| `DelayLines.SourceDelayLine.Write` | src/dsp/source_delay_line.cpp:35-40 | The ring shows the last capacity samples of everything written. |
| `DelayLines.SourceDelayLine.ReadAt` | src/dsp/source_delay_line.cpp:42-64 | The four masked reads answer the cubic of the four slots around the position. |
| `DelayLines.SourceDelayLine.ReadIsInterpolation` | src/dsp/source_delay_line.cpp:42-64 | Inside its window a read equals interpolation on the unbounded zero-prefixed source, at negative positions too. |
| `DelayLines.SourceDelayLine.ReadExactIff` | src/dsp/source_delay_line.hpp:24-31 | While nothing needed is overwritten, a read is right for every continuation of the source if and only if all it needs is written. |
| `DelayLines.SourceDelayLine.RawReadIsRingRead` | src/dsp/source_delay_line.cpp:42-64 | Any read at all answers from the stream that repeats the last ring length of samples. |
| `DelayLines.SourceReadExactIff` | src/dsp/source_delay_line.hpp:24-31 | A read is right for every source if and only if the ring answers rightly for each sample it gives weight to: nothing unwritten, nothing overwritten. |
| `DelayLines.FullLineWindow` | src/dsp/source_delay_line.cpp:42-64 | On a line that has filled that is the window, but for an integral read of the last kept sample. |
| `DelayLines.NewestOutputWritten` | src/dsp/source_delay_line.hpp:24-31 | For the newest output of a call that holds exactly for delays of at least one sample, or of none. |
| `PerTap.ProduceOne` | src/dsp/per_tap_farrow.cpp:12-27 | One output is the interpolated amplitude times the line's answer at the interpolated position. |
| `PerTap.Produce` | src/dsp/per_tap_farrow.cpp:5-28 | The loop fills a block with those outputs. |
| `TapSources.TapSource.OnMessageStart` | src/channel/model/replay/replay_tap_source.cpp:34-58 | A pinned source restarts at its offset; an advancing one continues where its last queries ended, or at zero when that is in the dead zone. |
| `TapSources.TapSource.TapsAt` | src/channel/model/replay/replay_tap_source.cpp:60-66 | A query answers from the record at offset plus message time and remembers the latest time asked. |
| `TapScenes.Scene.PositionIsLerp` | src/channel/renderer/tap_source_renderer.cpp:100-117 | With drift folded into the end delays, a read position is the receiver index minus a convex combination of the two end lags. |
| `TapScenes.Scene.BoundaryContinuity` | src/channel/renderer/tap_source_renderer.cpp:79-131 | At a block boundary the read position is m(1 + drift) minus the tap's delay, from both sides, for any pure source. |
| `TapScenes.Scene.BlockReadsInWindow` | src/channel/renderer/tap_source_renderer.cpp:30-42 | Lags within [1, w] and room for w + 1 samples keep every read of a block in the window. |
| `TapScenes.Scene.LagsKeepCalls` | src/channel/renderer/tap_source_renderer.cpp:79-131 | So whole messages of calls that fit beside w read only inside the window. |
| `TapScenes.Scene.BlockOutStable` | src/dsp/per_tap_farrow.cpp:12-27 | Source samples that arrive later never change a determined output. |
| `TapScenes.Scene.AffineMixIsClosed` | src/dsp/per_tap_farrow.cpp:12-27 | For affine delay and amplitude the block formula is a closed form of the receiver index alone. |
| `TapSourceRenderers.DriftMargin` | src/channel/renderer/tap_source_renderer.cpp:34-42 | The margin covers one block of clock drift and one sample more. |
| `TapSourceRenderers.CarriesTap` | src/channel/renderer/tap_source_renderer.cpp:100-117 | Scattering one more tap adds it to the block under construction. |
| `TapSourceRenderers.BlockDone` | src/channel/renderer/tap_source_renderer.cpp:79-131 | A finished block whose reads were in the window extends the run that matches the reference. |
| `TapSourceRenderers.TapSourceRenderer.constructor` | src/channel/renderer/tap_source_renderer.cpp:11-45 | The delay line holds the model's worst excess, the interpolation and drift margins, and a block. |
| `TapSourceRenderers.TapSourceRenderer.OnMessageStart` | src/channel/renderer/tap_source_renderer.cpp:49-59 | A message starts with an empty line, cursors at zero and the record clock advanced. |
| `TapSourceRenderers.TapSourceRenderer.SafeRead` | src/channel/renderer/tap_source_renderer.cpp:100-117 | A read inside the window answers as the unbounded source would. |
| `TapSourceRenderers.TapSourceRenderer.ProduceTap` | src/channel/renderer/tap_source_renderer.cpp:100-117 | The scratch holds the tap's term of the block formula on the unbounded source. |
| `TapSourceRenderers.TapSourceRenderer.RenderBlock` | src/channel/renderer/tap_source_renderer.cpp:83-131 | One block extends the run, moves both cursors and publishes it. |
| `TapSourceRenderers.TapSourceRenderer.Process` | src/channel/renderer/tap_source_renderer.cpp:61-135 | Every input is consumed one for one; the run keeps matching the reference as long as every read falls in the window, and the flag records exactly whether every one did. |
| `TapSourceRenderers.TapSourceRenderer.OnMessageEnd` | src/channel/renderer/tap_source_renderer.cpp:137-159 | The tail feeds exactly the longest delay in zeros, block by block, under the same accounting. |
| `TapMessages.AffineRunIsClosed` | src/channel/renderer/tap_source_renderer.cpp:79-131 | For affine taps every sample of a matching run is the closed form at its index, so the output is independent of how the input was cut. |
| `TapMessages.DelaysAreLags` | src/channel/renderer/tap_source_renderer.cpp:125-126 | Without drift, delays in [1, w] keep all reads in the window for messages of any length. |
| `TapMessages.LaggedIsInWindow` | src/channel/renderer/tap_source_renderer.cpp:30-42 | Lags in [1, w] over a message and room for w + 1 samples beside each call and tail block keep all its reads in the window. |
| `ConstantTaps.CallFitsIff` | src/channel/renderer/tap_source_renderer.cpp:79-131 | A call reads a constant tap only inside the window if and only if its newest read is a sample behind (or on the newest sample) and its oldest leaves room for the call. |
| `ConstantTaps.CallExactIff` | src/dsp/source_delay_line.cpp:42-64 | On a filled line every read of the call is right for every source under exactly the same condition, but for one integral read of the last kept sample. |
| `ConstantTaps.MessageFitsIff` | src/channel/renderer/tap_source_renderer.cpp:125-126 | A message, drift accumulating over it, reads only inside the window if and only if each of its calls fits. |
| `ConstantTaps.EqualCallsIff` | src/channel/renderer/tap_source_renderer.cpp:125-126 | For equal calls that is a condition on delay, drift, length, call size and capacity alone, for drift of either sign and none. |
| `ConstantTaps.HundredPpm` | src/channel/renderer/tap_source_renderer.cpp:34-42 | At 100 ppm the line the code sizes for a 40.5-sample tap reads inside the window for 1500 blocks and not for 1600. |
| `ConstantTaps.LongBatch` | src/channel/source_worker.cpp:63-69 | Without drift, a batch longer than the line keeps leaves the window. |
| `TapMessages.TransmitMessage` | src/channel/renderer/tap_source_renderer.cpp:49-159 | A whole message: what is heard is the run, the run matches the unbounded-source formula when its calls read inside the window, published samples are final, the buffer is left quiescent, and the record clock ends (N + tail) / Fs further on. |
| `TapMessages.AllOnAppend` | src/channel/pair_buffer.cpp:32-95 | Earlier performances stay heard when a later message is rendered. |
| `TapMessages.TransmitAll` | src/channel/model/replay/replay_tap_source.cpp:34-58 | Over a run of messages each performance begins its gap past the watermark the last one left, without drops all are on the buffer at the end, each is right on its own stretch of the record, and each stretch begins (N + tail) / Fs after the last one did, or at zero from the dead zone; nothing is dropped if the run fits ahead of the reader. |
| `TapMessages.StartsClearOfDeadZone` | src/channel/model/replay/replay_tap_source.cpp:46-56 | With wrapping on, every message of a run begins at zero or leaves at least the dead zone. |
| `ArrivalAlignment.TicksAtMostBaseDelay` | src/channel/source_worker.cpp:22-50 | Seen from a transmission already started, arrival is at most the base delay away, through all truncations. |
| `ArrivalAlignment.AlignedOriginNearReader` | src/channel/source_worker.cpp:22-50 | A message that is not late starts within one base delay of the reader. |
| `ArrivalAlignment.PairCapacityForExtent` | src/channel/channel_engine.cpp:27-56 | The request covers the longest configured message beside the worst extent and beside the environment's range and multipath allowance, is no larger where the worst extent dominates, and falls back to one second when there is no extent. |
| `ArrivalAlignment.MaxMessageInSeconds` | src/channel/channel_engine.cpp:47-53 | The longest message is the configured duration to within half a sample, ten seconds when none is configured. |
| `ArrivalAlignment.RequestCoversEnvironment` | src/channel/channel_engine.cpp:36-55 | The request covers a longest message beyond the travel time of any range up to the greatest and any excess delay up to a fifth of a second. |
| `ArrivalAlignment.WorstExtent` | src/channel/channel_engine.cpp:102-124 | The first sizing pass finds the largest extent. |
| `ArrivalAlignment.MessageFits` | src/channel/channel_engine.cpp:27-56 | Base delay, longest message and longest tail end inside the ring. |
| `ArrivalAlignment.EntryOriginNearReader` | src/channel/source_worker.cpp:32-49 | The same bound for the first message without alignment. |
| `ArrivalAlignment.EntryOriginArrives` | src/channel/source_worker.cpp:32-49 | An aligned entry on time puts the message where everything in front of it plays out exactly by its arrival. |
| `ArrivalAlignment.TransmitStatic` | src/channel/channel_engine.cpp:27-56 | A static channel's on-time message begins where its entry says and is its input resampled; if it renders to at most the configured duration, half a sample over, it drops nothing even if the receiver never reads and is wholly on the buffer, through all taps and with nothing before it disturbed. |
| `ArrivalAlignment.TransmitTapSource` | src/channel/channel_engine.cpp:27-56 | A tap-source channel's on-time message begins where its entry says and is right while its reads stay in the window; if its input lasts at most the configured duration, half a sample over, it drops nothing and is wholly on the buffer, its tail included. |
| `Playout.TickKeeps` | src/io/modem_io.cpp:379-449 | A tick, starved or not, keeps every sample's place in line. |
| `Playout.PullKeeps` | src/channel/receiver_mix.cpp:23-61 | A pull appends committed samples in order and then zeros. |
| `Playout.RunKeeps` | src/io/modem_io.cpp:379-449 | Order and counts survive every run of commits, pulls, sends and ticks. |
| `Playout.SamplePlaysAt` | src/channel/receiver_mix.cpp:23-61 | A sample plays after exactly as many ticks as there were items in front of it plus underruns met on the way. |
| `Playout.MessagePlaysOnTime` | src/channel/source_worker.cpp:22-50 | A message that is not late starts playing exactly the predicted ticks after alignment plus those underruns. |
| `Playout.LateStartsAtOnce` | src/channel/source_worker.cpp:22-50 | A message reported late goes straight behind everything in front of it and plays after the tick it was meant for. |
| `Playout.EverySamplePlays` | src/io/modem_io.cpp:379-449 | Nothing is forgotten on the way: every sample pulled is in line at its place and is played once so many ticks have passed. |
| `Playout.SecondOfTicks` | src/channel/source_worker.cpp:32-42 | A second is as many ticks as the sample rate says, on a clock of nanoseconds. |
| `Playout.WithinOneSample` | src/channel/source_worker.cpp:22-50 | Without underruns a message that is not late starts within one sample of transmit start plus propagation delay, also when that instant has just passed. |
| `SendSchedule.PeriodAntitone` | src/io/buffer_pacer.cpp:117-117 | A faster rate never has a longer period, truncation included. |
| `SendSchedule.PeriodFillsSecond` | src/io/clock_fill_tracker.cpp:191-195 | The period is the last whole nanosecond count that leaves room for `rate` periods in a second. |
| `SendSchedule.Advance` | src/io/buffer_pacer.cpp:112-121 | For a slot that was due, the next is at least a period on, at most a period away, at most three slots behind, and off the grid only after more than four periods. |
| `SendSchedule.AdvanceBounds` | src/io/buffer_pacer.cpp:117-121 | At most three missed slots are redeemed and the next slot is at most a period away. |
| `SendSchedule.ScheduleGrows` | src/io/buffer_pacer.cpp:103-122 | Between two sends the schedule moves at least one shortest period per send. |
| `SendSchedule.SendsInWindow` | src/io/buffer_pacer.cpp:103-122 | Sends in any window of length W number at most (W + 3 p_max) / p_min + 2. |
| `BufferPacers.BufferPacer.constructor` | src/io/buffer_pacer.cpp:6-21 | The controller starts at the nominal packet rate. |
| `BufferPacers.BufferPacer.UpdateController` | src/io/buffer_pacer.cpp:36-55 | The rate follows the PI law and never leaves 30% of nominal; the integrator stays bounded; the first report integrates nothing. |
| `BufferPacers.BufferPacer.ErrorFallsWithFill` | src/io/buffer_pacer.cpp:37-39 | The error is positive exactly below target and falls as the buffer fills. |
| `BufferPacers.BufferPacer.CommandAnswersError` | src/io/buffer_pacer.cpp:53-53 | Without error the command is the nominal rate, and it moves with the error and its integral in proportion to the gains. |
| `BufferPacers.ContributionIsHeldError` | src/io/buffer_pacer.cpp:44-47 | A held error contributes itself per second, for at most a tenth of a second. |
| `BufferPacers.BufferPacer.PeriodInRange` | src/io/buffer_pacer.cpp:36-55 | So the send period stays between the two extreme periods. |
| `BufferPacers.BufferPacer.PeriodsOfRates` | src/io/buffer_pacer.cpp:15-18 | The extreme periods are those of 30% over and 30% under nominal. |
| `BufferPacers.BufferPacer.Reset` | src/io/buffer_pacer.cpp:57-64 | Reset returns to nominal, forgets the last report and unschedules. |
| `BufferPacers.BufferPacer.ShouldSend` | src/io/buffer_pacer.cpp:103-122 | A call sends exactly when the schedule is due, and the sends form a run to which the window bound applies. |
| `ClockFillTrackers.WindowMapNext` | src/io/clock_fill_tracker.cpp:23-33 | Recording a packet slides the window of the last 64 by one. |
| `ClockFillTrackers.OnlyInWindow` | src/io/clock_fill_tracker.cpp:107-113 | Consecutive ids modulo 65536 are unique among the last 64 packets. |
| `ClockFillTrackers.ClockFillTracker.constructor` | src/io/clock_fill_tracker.cpp:7-21 | A tracker starts without anchor, from the hinted rate or else the nominal one, with the two periods the rates give. |
| `ClockFillTrackers.ClockFillTracker.OnPacketSent` | src/io/clock_fill_tracker.cpp:23-33 | The ring stays the exact window map of all packets sent. |
| `ClockFillTrackers.ClockFillTracker.FindEntry` | src/io/clock_fill_tracker.cpp:107-113 | With consecutive ids a lookup succeeds exactly for the last 64 packets and yields that packet's time and cumulative count. |
| `ClockFillTrackers.ClockFillTracker.MoveAnchor` | src/io/clock_fill_tracker.cpp:46-62 | The anchor is exact for a remembered reference packet, and a counted fallback otherwise. |
| `ClockFillTrackers.SignedDelta` | src/io/clock_fill_tracker.cpp:72-76 | The accepted-packet count is the 16-bit difference read as a signed number. |
| `ClockFillTrackers.EwmaStaysPlausible` | src/io/clock_fill_tracker.cpp:90-98 | Smoothing keeps the rate strictly between half and twice nominal. |
| `ClockFillTrackers.EwmaConverges` | src/io/clock_fill_tracker.cpp:90-98 | Constant observations shrink the rate error by (1 - alpha)^k. |
| `ClockFillTrackers.SteadyConverges` | src/io/clock_fill_tracker.cpp:65-104 | The specified rate of a run of sends and true reports of a modem that drains at one rate converges to that rate geometrically. |
| `ClockFillTrackers.InferredRate` | src/io/clock_fill_tracker.cpp:65-104 | A plausible rate stays plausible whatever a report says. |
| `ClockFillTrackers.ObservedIsDrain` | src/io/clock_fill_tracker.cpp:71-88 | If the fill grew by the accepted samples less those the modem drained, the observed rate is the modem's drain rate. |
| `ClockFillTrackers.ClockFillTracker.OnStatus` | src/io/clock_fill_tracker.cpp:35-105 | A report re-anchors and refines the rate; a fallback suppresses its own inference only. |
| `ClockFillTrackers.ClockFillTracker.OnReports` | src/io/clock_fill_tracker.cpp:23-105 | Over any run of sends and reports in any order the tracker stands where the specification of the whole run says, each report matched against the packets sent up to then; the rate stays between half and twice nominal; and while the modem drains at one such rate and its reports are true, the error against that rate shrinks by 1 - alpha per report after the first, whatever is sent in between. |
| `ClockFillTrackers.ClockFillTracker.EstimateWithinHalfSample` | src/io/clock_fill_tracker.cpp:115-131 | With an exact anchor and the drain at the estimated rate, the unclamped estimate is within half a sample of the true fill. |
| `ClockFillTrackers.ClockFillTracker.FillIsPossible` | src/io/clock_fill_tracker.cpp:115-131 | The extrapolation is the estimate where that is a possible fill, the nearer end of the buffer where not, and the target without an anchor. |
| `ClockFillTrackers.ClockFillTracker.EffectiveFillNearAnchor` | src/io/clock_fill_tracker.cpp:156-164 | The hold decision stays within half the target of the anchor, and goes by the extrapolation whenever that does. |
| `ClockFillTrackers.ClockFillTracker.HoldHasHysteresis` | src/io/clock_fill_tracker.cpp:166-171 | Above target and margin it holds, below target it does not, in between it goes on as it was. |
| `ClockFillTrackers.ClockFillTracker.LowFillBursts` | src/io/clock_fill_tracker.cpp:186-195 | A fill too low by its margin is answered at the burst rate, any other at the nominal one, and a lower fill never more slowly. |
| `ClockFillTrackers.ClockFillTracker.PeriodsInOrder` | src/io/clock_fill_tracker.cpp:186-195 | The extreme periods are the nominal and the burst period, in order. |
| `ClockFillTrackers.Config.ScaledIsFraction` | src/io/clock_fill_tracker.cpp:7-14 | Targets and margins are their fractions of the buffer, in whole samples. |
| `ClockFillTrackers.ClockFillTracker.ShouldSend` | src/io/clock_fill_tracker.cpp:137-204 | Never silent: 50 ms after the last send a call sends whatever the hold state; hold sends are at least 50 ms apart; other sends extend a rate-bounded run. |
| `ClockFillTrackers.ClockFillTracker.Reset` | src/io/clock_fill_tracker.cpp:206-229 | Everything is forgotten except the learned rate. |
| `SourceWorkers.Append` | src/channel/source_worker.cpp:129-243 | What one more event does to openness, nesting and the samples rendered. |
| `SourceWorkers.Outgoing.OfferConserves` | src/channel/source_worker.cpp:282-300 | Offering a batch loses and repeats nothing: rendered plus residual grows by the batch. |
| `SourceWorkers.Outgoing.FinishConserves` | src/channel/source_worker.cpp:210-222 | Nor does the final flush, which closes the message. |
| `SourceWorkers.SourceWorker.constructor` | src/channel/source_worker.cpp:52-74 | A worker starts idle with nothing outstanding on any channel. |
| `SourceWorkers.SourceWorker.ProcessAvailable` | src/channel/source_worker.cpp:245-303 | A batch leaves the ring, is converted once, and is offered to every channel. |
| `SourceWorkers.SourceWorker.OfferedConserves` | src/channel/source_worker.cpp:282-300 | A batch is properly nested exactly inside a message. |
| `SourceWorkers.SourceWorker.DrainRing` | src/channel/source_worker.cpp:203-209 | At TX exit everything in the ring, and everything that still arrives before it is found empty, is taken and rendered in order. |
| `SourceWorkers.SourceWorker.LeaveMessage` | src/channel/source_worker.cpp:203-240 | After TX exit every channel is closed and has rendered, in order, all samples of the message except its residual, which is empty for a channel that takes all it is offered. |
| `SourceWorkers.SourceWorker.EnterMessage` | src/channel/source_worker.cpp:136-202 | TX entry opens a message on every channel. |
| `SourceWorkers.SourceWorker.PollStateEdges` | src/channel/source_worker.cpp:129-243 | Only the two TX edges touch channels or ring; all other changes of state are silent. |
| `SourceWorkers.SourceWorker.Iterate` | src/channel/source_worker.cpp:84-98 | With two state loads, conservation survives the pass if and only if the second does not see a transmission the first missed while samples wait, whenever they arrived; a message begins on every channel exactly at a TX entry; and leaving TX leaves nothing in the ring but what came after the drain. |
| `SourceWorkers.SourceWorker.PassOnce` | src/channel/source_worker.cpp:84-98 | A pass with one load keeps conservation and the count of messages begun, and one that leaves TX empties the ring of all that arrived before its drain ended. |
| `SourceWorkers.SourceWorker.ProcessOutsideMessage` | src/channel/source_worker.cpp:84-98 | A batch taken with no message open breaks the nesting of every channel it reaches. |
| `SourceWorkers.SourceWorker.OfferedCompletes` | src/channel/source_worker.cpp:282-300 | A channel that takes all it is offered has rendered everything taken so far after each batch. |
| `SourceWorkers.SourceWorker.Shutdown` | src/channel/source_worker.cpp:100-122 | Every open message is closed at shutdown, on every channel, with the ring emptied into it. |
| `SourceWorkers.SourceWorker.Run` | src/channel/source_worker.cpp:76-123 | Over any run with one load per pass, samples arriving before, within and after each pass and during a drain, every channel is begun once for each TX entry among the states polled, starts and ends alternate and balance, a channel that takes all it is offered has rendered exactly the samples taken from the ring, once and in order, and a run that stops in TX leaves none there. |
| `SampleConversions.FloatToDac` | src/core/sample_conversion.hpp:15-21 | Codes never leave the converter's range. |
| `SampleConversions.DacInvertsAdc` | src/core/sample_conversion.hpp:9-21 | Every ADC code survives conversion to a sample and back. |
| `SampleConversions.DacIsNearestBelow` | src/core/sample_conversion.hpp:15-21 | The code is the last one whose sample is not above the value; an overload takes the code of the end it leaves the range by. |
| `SampleConversions.AdcInRange` | src/core/sample_conversion.hpp:9-13 | The midpoint is silence, code zero negative full scale, and every code lies in [-1, 1). |
| `SampleConversions.AdcSteps` | src/core/sample_conversion.hpp:9-13 | Codes rise in steps of one part in the midpoint. |
| `SampleConversions.HalfScaleIsShift` | src/core/sample_conversion.hpp:10-17 | The midpoint is a one shifted left by one bit less than the converter has. |
| `ReceiverMixes.ReceiverMix.ReadOne` | src/channel/receiver_mix.cpp:33-36 | What a buffer lacks of the chunk counts as silence, and its head moves by what it had. |
| `ReceiverMixes.ReceiverMix.SumChunk` | src/channel/receiver_mix.cpp:31-40 | The chunk is the sum of all incoming streams. |
| `ReceiverMixes.ReceiverMix.MixChunk` | src/channel/receiver_mix.cpp:31-52 | The codes of a chunk are those of the summed stream plus noise. |
| `ReceiverMixes.ReceiverMix.Deliver` | src/channel/receiver_mix.cpp:54-59 | The ring takes what fits and the rest is counted. |
| `ReceiverMixes.ReceiverMix.Pull` | src/channel/receiver_mix.cpp:23-64 | A pull of any size appends to the receive ring a prefix of the codes of the fan-in sum over the whole run, accounts for every refused sample, and is independent of chunking. |
| `ReceiverMixes.FanInAfter` | src/channel/receiver_mix.cpp:27-61 | The sum of the advanced streams is the sum at the advanced index. |
| `ReceiverMixes.CodesSlice` | src/channel/receiver_mix.cpp:27-61 | A later chunk's codes are those at its offset in the whole run. |
| `GeometricScenes.ComputePaths` | src/channel/model/geometric/geometric_scene.cpp:31-78 | The arrivals are exactly the active candidates, image by image, each with its slant range, shortest first: the specified arrangement. |
| `GeometricScenes.CandidatesAreImages` | src/channel/model/geometric/geometric_scene.cpp:38-63 | The candidate table is the method of images: alternating bounces between surface and bottom, each with the offset of its image and the product of its reflections. |
| `GeometricScenes.ActiveByOrder` | src/channel/model/geometric/geometric_scene.cpp:38-65 | The classic paths hang on their flags, and each order only arrives if that many bounces are allowed. |
| `GeometricScenes.BounceLimit` | src/channel/model/geometric/geometric_scene.cpp:36-36 | The configured bounces, within zero and four. |
| `GeometricScenes.Insert` | src/channel/model/geometric/geometric_scene.cpp:73-76 | Placing one arrival keeps the order and the multiset of images, and puts it past everything no longer. |
| `GeometricScenes.ArrangedKeeps` | src/channel/model/geometric/geometric_scene.cpp:31-78 | Arranging any images keeps each of them, with its slant range, shortest first. |
| `GeometricScenes.SortedUnique` | src/channel/model/geometric/geometric_scene.cpp:73-76 | Two sorted arrangements of the same values are equal. |
| `GeometricScenes.OffsetsRearranged` | src/channel/model/geometric/geometric_scene.cpp:73-76 | Sorting images only rearranges their offsets. |
| `GeometricScenes.LengthOrderIsOffsetOrder` | src/channel/model/geometric/geometric_scene.cpp:73-76 | Sorting by length is sorting by squared image offset, at every range. |
| `GeometricScenes.TapIdentity` | src/channel/model/geometric/geometric_tap_source.cpp:108-127 | At any two ranges there are equally many taps and tap k is the same image up to equal offset magnitude. |
| `GeometricScenes.OrdersSeparateOffsets` | src/config/scenario_loader.cpp:314-324 | Under the loader's depth limits fewer bounces mean a strictly smaller offset. |
| `GeometricScenes.OrdersSeparateLengths` | src/channel/model/geometric/geometric_scene.cpp:45-77 | And so a strictly shorter path at every range. |
| `GeometricTapSources.ExcessMonotone` | src/channel/model/geometric/geometric_tap_source.cpp:116-121 | Longer paths have no smaller excess delay. |
| `GeometricTapSources.LengthMonotone` | src/channel/model/geometric/geometric_tap_source.cpp:44-93 | Length grows with range and with offset. |
| `GeometricTapSources.StructuralDelayIsTravel` | src/channel/model/geometric/geometric_tap_source.cpp:44-58 | The base delay is the travel time along the anchor path, to within half a sample. |
| `GeometricTapSources.GeometricTapSource.RangeMoves` | src/channel/model/geometric/geometric_tap_source.cpp:99-106 | The motion starts at the initial range and covers any stretch of time at the speed it has half way through. |
| `GeometricTapSources.Envelope` | src/channel/model/geometric/geometric_tap_source.cpp:44-93 | The two ends of the range envelope agree on the number and offsets of paths and give anchor and worst length. |
| `GeometricTapSources.GeometricTapSource.constructor` | src/channel/model/geometric/geometric_tap_source.cpp:26-93 | The sizes reported cover the worst excess over the whole envelope. |
| `GeometricTapSources.MakeGeometricTapSource` | src/channel/model/geometric/geometric_tap_source.cpp:26-93 | A scene is refused exactly when no path is enabled; an accepted source describes the given scene, envelope and motion. |
| `GeometricTapSources.GeometricTapSource.TapBounds` | src/channel/model/geometric/geometric_tap_source.cpp:108-127 | Anywhere in the envelope a tap's length lies between anchor and worst, so the zero clamp never bites and the delay stays within the margin. |
| `GeometricTapSources.GeometricTapSource.TapsForIsTrue` | src/channel/model/geometric/geometric_tap_source.cpp:108-127 | The taps resolved at any range of the envelope are as many as the source reports, and their delays are the true excesses. |
| `GeometricTapSources.GeometricTapSource.TapsAt` | src/channel/model/geometric/geometric_tap_source.cpp:108-127 | Whatever the motion, the taps are exactly the active images with their gains, tap k always has the same offset magnitude, every delay is the true excess within the delay line's margin, and after a message start the answers are the record the renderer plays. |
| `GeometricChannels.NearRangeDelay` | src/channel/model/geometric/geometric_tap_source.cpp:108-127 | Every source that covers more than one range emits a first-tap delay strictly between 0 and 1 sample at some range. |
| `GeometricChannels.NearRangeReadIsWrong` | src/dsp/source_delay_line.hpp:24-31 | With such a delay the newest read of a call is wrong for some source. |
| `GeometricChannels.ExcessGrows` | src/channel/model/geometric/geometric_tap_source.cpp:108-127 | Delays only grow with range and from tap to tap, up to the margin. |
| `GeometricChannels.GeometricLags` | src/channel/model/geometric/geometric_model.cpp:13-53 | If the first tap is a sample behind at the least range visited, all lags of a drift-free channel stay between one sample and the margin. |
| `GeometricChannels.GeometricInWindow` | src/channel/model/geometric/geometric_model.cpp:13-53 | Then every read of every message in calls of up to a block falls in the window of the line built from that margin. |
| `GeometricChannels.MakeGeometricRenderer` | src/channel/model/geometric/geometric_model.cpp:13-53 | The channel as built plays the source's scene, with delays, tail and line sized by the source. |
| `GeometricChannels.PlayGeometric` | src/channel/model/geometric/geometric_model.cpp:13-53 | From source to receiver: channel construction and a run of messages, each in its place and from the start of the motion, right while its reads stay in the window, hence right in short calls when the range stays behind and the clock does not drift, and on the buffer without drops. |
| `TapTrajectories.Trajectory.SampleHitsFrames` | src/channel/model/replay/tap_trajectory.cpp:144-178 | Every frame is hit exactly, the last included. |
| `TapTrajectories.Trajectory.ClampedOnRecord` | src/channel/model/replay/tap_trajectory.cpp:144-160 | On the record the position interpolated at is the time itself. |
| `TapTrajectories.Trajectory.SampleHoldsEnds` | src/channel/model/replay/tap_trajectory.cpp:144-178 | Before the record its first frame plays, and after it its last. |
| `TapTrajectories.Trajectory.AmplitudeHitsFrames` | src/channel/model/replay/tap_trajectory.cpp:144-178 | Amplitudes hit their frames too, negative ones as silence. |
| `TapTrajectories.Trajectory.AmplitudeInterior` | src/channel/model/replay/tap_trajectory.cpp:144-178 | An amplitude that rises or falls evenly plays so. |
| `TapTrajectories.Trajectory.AmplitudeOvershoot` | src/channel/model/replay/tap_trajectory.cpp:144-178 | And none leaves the range of its frames by more than an eighth of it. |
| `TapTrajectories.Trajectory.SampleOvershoot` | src/channel/model/replay/tap_trajectory.cpp:144-178 | A played delay leaves the range of its four frames by at most an eighth of it. |
| `TapTrajectories.CubicOvershoot` | src/channel/model/replay/tap_trajectory.cpp:144-178 | The eighth bounds the interpolation on both sides for all data. |
| `TapTrajectories.Trajectory.LinearInterior` | src/channel/model/replay/tap_trajectory.cpp:144-178 | Straight tracks are reproduced exactly on interior segments. |
| `TapTrajectories.Trajectory.LinearStaysInRange` | src/channel/model/replay/tap_trajectory.cpp:144-178 | Everywhere else they stay between their least and greatest frame. |
| `QuasiStatics.AnchoringShiftsMinimum` | experiments/lib/quasi_static.py:232-233 | Anchoring puts the least delay exactly on the guard. |
| `QuasiStatics.OverlongIff` | experiments/lib/quasi_static.py:235-239 | The limit check fires exactly when the anchored drift passes the channel limit. |
| `QuasiStatics.SlopeIsDoppler` | experiments/lib/quasi_static.py:221-223 | The slope of a tap shifts a tone at the measured carrier by exactly the measured Doppler, less the shift of receding at the reinstalled speed. |
| `QuasiStatics.QuasiStaticToTrajectories` | experiments/lib/quasi_static.py:205-250 | The conversion yields straight ramps with the guard attained and nothing above the limit, and is refused exactly for a record too short or a span too long. |
| `QuasiStatics.ConvertedStaysInRange` | experiments/lib/quasi_static.py:215-219 | A converted record plays delays between the guard and its own greatest frame delay at every record time, end segments included. |
| `ReplayChannels.PastEndRamp` | src/channel/model/replay/replay_tap_source.cpp:68-84 | The amplitude factor is one on the record and zero from one frame past its end. |
| `ReplayChannels.ReplayTaps` | src/channel/model/replay/replay_tap_source.cpp:60-89 | On the record the taps are its delays in samples and its amplitudes; from one frame past its end they are silent. |
| `ReplayChannels.MaxTapDelta` | src/channel/model/replay/replay_tap_source.cpp:22-23 | The reported extent is the least integer not below the header's maximum in samples. |
| `ReplayChannels.RecordPlaysWithin` | src/channel/model/replay/tap_trajectory.cpp:144-178 | Any record plays within an eighth of its range beyond its extremes. |
| `ReplayChannels.OvershootIsReached` | src/channel/model/replay/replay_tap_source.cpp:60-89 | A four-frame record the loader accepts plays 112.5 samples where its source reports an extent of 100. |
| `ReplayChannels.ReplayLags` | src/channel/model/replay/replay_tap_source.cpp:60-89 | A record that plays within [lo, hi] keeps all lags between one sample and the extent of hi, from any record time. |
| `ReplayChannels.MakeReplayRenderer` | src/channel/model/replay/replay_model.cpp:14-60 | The channel as built plays the record with the given gain and record clock, and has a line sized from the header's maximum. |
| `ReplayChannels.BuiltReplayInWindow` | src/channel/renderer/tap_source_renderer.cpp:30-42 | That sizing serves calls of up to a block and delays up to the interpolation margin beyond the header's maximum. |
| `ReplayChannels.RecordedReplayInWindow` | src/channel/renderer/tap_source_renderer.cpp:30-42 | So it serves any record whose overshoot stays within that margin above and clear of one sample below. |
| `ReplayChannels.ConvertedReplayInWindow` | src/channel/model/replay/replay_model.cpp:14-60 | A converted record, loaded and built as the code does, keeps every read of every message in the window of its own line. |
| `ReplayChannels.ConvertedRunMatches` | src/channel/model/replay/replay_model.cpp:14-60 | So every message of a run through a converted, drift-free replay channel is the block formula on the unbounded source over its own stretch of the record. |
| `ReplayChannels.PlayConverted` | experiments/lib/quasi_static.py:205-250 | From tap set to receiver: the conversion is refused exactly for a record too short or a drift too long, and then nothing is sent; otherwise a drift-free channel plays the anchored ramps, every message of a run begins in its place and on its own stretch of the record, is rendered with its tail, is right while its reads stay in the window, hence when sent in short calls under a guard of at least one sample, and, without drops, is on the buffer. |

## Left out

- USB transport, device discovery, YAML, file and log I/O, metrics, and the modem event log: plumbing around libraries.
- Floating-point rounding: samples, phases and times are reals, so nothing is claimed bit for bit.
- The 64-bit wrap of the pair buffer's positions, which are unbounded here.
- Gains, filter taps and reflection losses enter as arbitrary reals and the square root as a function with its defining property; the acoustics behind them are not modelled.
- The noise generator: noise is an arbitrary sequence added per sample.
- Radial acceleration in the static renderer: the ratio is constant during a message.
- Memory-order details: steps are sequentially consistent, with monotone stale views.
- The transmit-start estimator's accuracy.
- The pacer's fill extrapolation for diagnostics, and the wire format of packets: neither feeds a result here.
- Extraction of quasi-static taps from impulse responses: peak picking and plotting.
- The renderer and tap-source interfaces: one class stands for every tap source; the worker sees a channel as the events it is told and how much it consumes.
- Input blocks are passed as sequences, so a caller's buffer aliasing a scratch buffer is not modelled.
- The library sort is an insertion per arrival, which keeps images of equal length in table order; the source leaves their order open.
- The modem firmware appears in the playout theorem only as a FIFO that plays one sample a tick, with no refused ring write and no lost send; the fill used at alignment is taken to be the modem's true fill.
- TapMessages.TransmitMessage: the match with the unbounded source is conditional on the window, because the constructor's sizing covers neither accumulated drift nor long batches; the condition is given exactly for taps of constant delay and as a bound on lags otherwise.
- PairBuffers.PairBuffer.ScatterAdd: for blocks that do not start behind the read position; the source would fold such a block into slots of later positions, but no renderer writes there.
- ReceiverMixes.ReceiverMix.Pull: the sources commit between pulls, not between the chunks of one pull of more than 256 samples.
- SourceWorkers.SourceWorker.Run: samples that arrive after a drain found the ring empty stay in the ring for the next message, as in the source.
- StaticMessages.TransmitAll: that a rendition has all its outputs is stated for a drain that fits one batch, drain + 1 <= 256 r; `OnMessageEnd` says exactly when a longer one is cut.
- ClockFillTrackers.ClockFillTracker.OnReports: convergence is stated for reports about remembered packets; send decisions in between do not touch what it speaks of.
- StaticMessageRaces.MessageUnderRace: for messages without overflow drops, and with nothing earlier reaching past the message's origin.
- TapTrajectories.Trajectory.SampleOvershoot: bounds delays only; amplitudes are additionally clamped at zero.
- ClockFillTrackers.ClockFillTracker.ShouldSend: the 50 ms guarantee is stated for periods of at most 50 ms, the burst period included.
