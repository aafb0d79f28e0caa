# Speech segmentation in the GStreamer DeepSpeech element

This project models the segmentation core of the `deepspeech` GStreamer
element. The element takes mono 16 kHz S16LE audio and measures the energy of
each incoming buffer. A hysteresis gate decides which buffers belong to a
speech segment. After a run of quiet buffers, the pending segment is handed to
a thread pool that runs the DeepSpeech model on it. Each non-empty transcription
is posted as a `deepspeech` element message. Every incoming buffer is passed
downstream unchanged.

The model has five modules:

- `Buffers` (buffers.dfy): bytes, clock times, buffers, and the little-endian
  decoding of samples with its inverse.
- `Energy` (energy.dfy): the energy loop of the chain function (`Analyze`).
  It is specified by `SumSquares` and `PeakSquare` and the normalised values
  `Ncs` and `Nps`, with lemmas on their bounds.
- `Silence` (silence.dfy): the gate and accumulator as a pure reference state
  machine. `Step` is one chain call, `Run` a stream of calls and `Drain` the
  end-of-stream flush. Lemmas state the append, count and flush rules, the
  invariant, conservation of buffers and the quiet-run behaviour.
- `Element` (controller.dfy): the class `Controller` with the element's
  fields (`quiet_bufs`, the accumulated buffer, the pool, the source pad).
  `Decide` makes the chain function's decisions on the current values;
  `Chain` and `Eos` update the fields in place. Each is proved to make
  exactly the reference machine's move (`Step`, `Drain`). The class
  invariant says that the submitted segments, followed by the pending one
  while the pool is live, are the appended input buffers in arrival order.
- `Recognition` (recognition.dfy): the pool task. It covers the deep copy of
  the segment, the non-empty-text guard, and the fields of the message.

The chain function tests `gst_buffer_get_size(deepspeech->buf) > 0`, which is
a byte count, not a test for "segment non-empty". The model keeps the byte
test (`Silence.Size`). `Silence.SizeIffNonEmpty` proves the two tests agree
under the invariant: a segment always opens with a buffer strictly above a
non-negative threshold, and such a buffer holds at least one sample.

Three behaviours of the code shape the model:

- The threshold may be 0: its range is [0, 1] (`src/gstdeepspeech.cc:187`).
  With a threshold of 0, nothing is flushed before end of stream
  (`Silence.ZeroThresholdNeverFlushes`).
- The message takes its timestamp and duration from the buffer that was
  dispatched to the pool (`src/gstdeepspeech.cc:327-330`). That buffer's
  metadata comes from how `gst_buffer_append` merges buffers, which is library
  code. The model therefore takes it as a parameter of `Recognition.Dispatch`.
- End of stream pushes the pending segment but does not clear `buf`, and then
  frees the pool (`src/gstdeepspeech.cc:358-361`). In the model, `Eos` leaves
  the segment in place and clears `poolLive`. Calling `Chain` or `Eos` again
  would use the freed pool, so both require `poolLive`.

Integers are exact. The energy sums are compared with the threshold as exact
rationals; `Energy.LoudIffScaled` states the comparison as
`squaresum > threshold * 2^30`.

## Model

| member | source | states |
|---|---|---|
| `Buffers.SampleAt` | src/gstdeepspeech.cc:391-394 | the sample read at index j is the two's-complement value of bytes 2j and 2j+1, little-endian; it is negative iff the high byte's top bit is set |
| `Buffers.Samples` | src/gstdeepspeech.cc:393 | a buffer of `size` bytes holds `size / 2` samples |
| `Buffers.DecodeEncode` | src/gstdeepspeech.cc:107 | decoding S16LE bytes inverts encoding: every sample sequence round-trips |
| `Buffers.TrailingByteIgnored` | src/gstdeepspeech.cc:393 | a trailing odd byte adds no sample |
| `Energy.SumSquares` | src/gstdeepspeech.cc:393-397 | the sum of the squared samples that the loop accumulates is never negative |
| `Energy.PeakSquare` | src/gstdeepspeech.cc:393-397 | the largest squared sample, starting from 0, is non-negative and never exceeds the sum of squares |
| `Energy.Analyze` | src/gstdeepspeech.cc:393-401 | the loop's `ncs` and `nps` equal the normalised sum of squares and peak square of the buffer's samples |
| `Energy.SquareBound` | src/gstdeepspeech.cc:394 | a squared 16-bit sample lies in [0, 2^30] |
| `Energy.EnergyBounds` | src/gstdeepspeech.cc:393-397 | `0 <= peaksquare <= squaresum <= n * 2^30` and `peaksquare <= 2^30` |
| `Energy.PeakIsMaximum` | src/gstdeepspeech.cc:394-395 | `peaksquare` bounds every square and, for a non-empty buffer, equals one of them |
| `Energy.SilentIffAllZero` | src/gstdeepspeech.cc:393-397 | the sum of squares is 0 iff every sample is 0, and then the peak is 0 too |
| `Energy.NormalisedBounds` | src/gstdeepspeech.cc:399-401 | `0 <= nps <= ncs <= size / 2` and `nps <= 1` |
| `Energy.LoudIffScaled` | src/gstdeepspeech.cc:400-408 | `ncs > t` iff `squaresum > t * 2^30`, and the same for `<` |
| `Silence.Step` | src/gstdeepspeech.cc:403-418 | one chain call from any state submits at most one segment, and only one holding bytes; a submission resets the state to counter 0 and an empty buffer; afterwards the counter is within `silence_length` |
| `Silence.Drain` | src/gstdeepspeech.cc:358-360 | end of stream submits at most one segment, the pending one, exactly when it holds bytes |
| `Silence.Run` | src/gstdeepspeech.cc:393-418 | over a stream of chain calls, one append decision per buffer, at most one submission per buffer, every submitted segment holds bytes, and after a non-empty stream the counter is within `silence_length` |
| `Silence.LoudHasSamples` | src/gstdeepspeech.cc:403 | a buffer strictly above a threshold in [0, 1] holds at least two bytes |
| `Silence.SizeIffNonEmpty` | src/gstdeepspeech.cc:403-414 | under the invariant, the accumulated buffer has a positive byte size iff the segment is non-empty |
| `Silence.StepSpec` | src/gstdeepspeech.cc:403-418 | one chain call: append iff strictly loud or a segment is pending; the counter becomes old+1 iff strictly quiet with a segment pending, else 0; submit and reset iff that counter exceeds `silence_length`; no buffer is lost or duplicated; the invariant is kept |
| `Silence.StepConserves` | src/gstdeepspeech.cc:403-418 | after one call, the submitted segment (at most one) followed by the new pending segment equals the old pending segment plus the buffer if it was appended; a submitted segment is non-empty and opens strictly loud |
| `Silence.FlushIff` | src/gstdeepspeech.cc:408-418 | a flush happens iff the buffer is strictly quiet, a segment is pending and the counter already equals `silence_length` |
| `Silence.AtThresholdResets` | src/gstdeepspeech.cc:403-412 | a buffer exactly at the threshold is not appended to an empty segment, never flushes, and resets the counter to 0 |
| `Silence.DrainSpec` | src/gstdeepspeech.cc:358-360 | end of stream submits the pending segment iff it is non-empty |
| `Silence.RunConserves` | src/gstdeepspeech.cc:403-418 | over any stream, the submitted segments followed by the pending one equal the old pending segment followed by the appended buffers, in order, each once; every submitted segment is non-empty and opens strictly loud; the invariant holds at the end |
| `Silence.StepKeepsLog` | src/gstdeepspeech.cc:403-418 | one chain call keeps a log of submitted segments that, followed by the pending segment, is the appended inputs in order; logged segments open strictly loud; the invariant is kept |
| `Silence.RunFromInitial` | src/gstdeepspeech.cc:235-237 | from the initial state (counter 0, empty buffer), the submitted and pending segments are exactly the appended inputs in order |
| `Silence.DrainConserves` | src/gstdeepspeech.cc:358-360 | appending the end-of-stream submission to the log adds exactly the pending segment, and it opens strictly loud |
| `Silence.StreamConserves` | src/gstdeepspeech.cc:357-418 | over a whole stream and its end, the submitted segments concatenate to exactly the appended buffers in arrival order, each segment non-empty and opening strictly loud |
| `Silence.ZeroThresholdNeverFlushes` | src/gstdeepspeech.cc:408-418 | with threshold 0 no buffer is strictly quiet, so nothing is submitted before end of stream |
| `Silence.QuietRunFlushes` | src/gstdeepspeech.cc:408-418 | with a segment pending, strictly quiet buffers that keep the counter within `silence_length` submit nothing and stay pending; the one that takes it past submits the whole segment and resets the state |
| `Silence.ExactQuietRun` | src/gstdeepspeech.cc:408-418 | from a freshly opened segment, `silence_length + 1` strictly quiet buffers flush it on the last one, and one fewer do not |
| `Element.Decide` | src/gstdeepspeech.cc:387-418 | measuring the buffer, then the append, count and flush decisions, compute exactly the reference step `Silence.Step` |
| `Element.Controller.constructor` | src/gstdeepspeech.cc:233-238 | a new element has counter 0, an empty accumulated buffer, a live pool and properties in the ranges of their specifications |
| `Element.Controller.Chain` | src/gstdeepspeech.cc:375-422 | the fields change exactly as one reference step; the buffer is forwarded unchanged and in order; the counter stays within `silence_length` and is positive only while a segment is pending; the class invariant (submitted log plus pending segment = appended inputs in order) is kept |
| `Element.Controller.Eos` | src/gstdeepspeech.cc:357-363 | submits the pending segment iff it is non-empty, leaves it and every other field in place, and frees the pool; the log stays exactly the appended buffers in order |
| `Recognition.BytesSize` | src/gstdeepspeech.cc:358 | the bytes of a segment number exactly its byte size |
| `Recognition.Dispatch` | src/gstdeepspeech.cc:415 | the buffer pushed to the pool holds the segment's bytes, so its size is the segment's byte size |
| `Recognition.DispatchedSamples` | src/gstdeepspeech.cc:140-142 | when every buffer holds whole samples, the dispatched bytes decode to the segment's samples in order |
| `Recognition.AsUint` | src/gstdeepspeech.cc:142 | the `(unsigned int)` cast of the byte count passed with the mapped data is below 2^32, equals the count when it fits, and is congruent to it modulo 2^32 |
| `Recognition.MessageNew` | src/gstdeepspeech.cc:314-334 | the message carries the buffer's timestamp and duration, the running and stream times of that timestamp, and the text |
| `Recognition.RunModelAsync` | src/gstdeepspeech.cc:140-149 | the text is recognised from the buffer's bytes with their byte count as the length argument; a message is posted iff that text is non-empty; it carries the dispatched buffer's timestamp and duration, the running and stream times of that timestamp, and the text |
| `Recognition.PostedSpec` | src/gstdeepspeech.cc:146-149 | no posted message has empty text; each is the message of some dispatched buffer; every buffer with non-empty text gets its message posted |

## Left out

- GObject and GStreamer registration, pad creation and caps handling (`src/gstdeepspeech.cc:161-239`, `:429-453`): host-framework wiring with no segmentation behaviour.
- Property get and set, and model reloading (`src/gstdeepspeech.cc:241-312`): the threshold and silence length are fixed constructor parameters. A change to either in mid-stream is not modelled.
- DeepSpeech feature extraction and inference (`getInputVector`, `infer`): a foreign library, modelled as a function from bytes to text passed to `Recognition.RunModelAsync`.
- The thread pool, the global mutex and pool shutdown: their purpose is concurrency. Submission is modelled as appending to `submitted`. The order in which workers finish, and so the order of posted messages, is not modelled; `Recognition.Posted` lists messages in submission order.
- `Recognition.Dispatch`: takes the dispatched buffer's timestamp and duration as parameters, because how `gst_buffer_append` merges metadata is library behaviour.
- `Recognition.MessageNew`: the running time and stream time are free conversions (`Recognition.ClockMapping`), not the element's real ones. The element converts against `trans->segment`, where `trans` is the element cast to `GstBaseTransform` (`src/gstdeepspeech.cc:215-217`, `:317-324`). But the element derives from `GstElement` (`src/gstdeepspeech.cc:117`). So the segment it initialises and reads is whatever memory lies at that offset of its own instance. The model does not represent that memory.
- `Recognition.DispatchedSamples`: proves only what the dispatched bytes decode to. At `src/gstdeepspeech.cc:142` the element passes `info.size`, a byte count, as the length argument. The model passes that same count to the recogniser (`Recognition.Recognised`), but what the speech library does with it is not modelled. The library's header is not part of this model. If the library reads the length as a number of samples, the call reads twice the mapped bytes (an observation from the code; nothing was executed).
- Buffer reference counting, deep copies and freeing: memory ownership, not behaviour. Buffers are values.
- Double-precision rounding in the energy computation: the model uses exact arithmetic.
- The flow return of `gst_pad_push` and the return of the event handler: results of downstream elements, outside this element.
- Big-endian hosts: the source reads samples in host order; the model decodes little-endian, the pad's declared format.
- Events other than end of stream: they are forwarded by the default handler and do not touch the segmentation state.
- `Silence.Step`: assumes the increment of `quiet_bufs` at `src/gstdeepspeech.cc:409` does not wrap. During a call the counter reaches `silence_length + 1` before the test at `:414`. The counter's declared type is in a header that is not part of this model. If it is a 32-bit `gint` and `silence_length` is `G_MAXINT` (allowed by `:190`), that increment overflows. Signed overflow is undefined in C; in practice the counter wraps negative and no flush happens, where `Step` flushes. The model's counter is an unbounded `nat`. Between calls it is proved to stay within `silence_length`.
- `examples/python/print_speech.py`: a demo that prints bus messages; I/O only.
