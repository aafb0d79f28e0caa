/** What happens to a submitted segment on a pool worker: the segment is
    copied into one buffer, recognised by the speech model (a foreign
    library, passed in as a function from bytes to text), and an element
    message is posted only when the recognised text is non-empty. */
module Recognition {
  import opened Buffers
  import opened Silence

  datatype Option<T> = None | Some(value: T)

  /** The running-time and stream-time conversions applied to a timestamp.
      The element converts against the segment it reads through a cast of
      itself to a base transform, which it is not derived from; the model
      does not represent that memory, so the conversions are free. */
  datatype ClockMapping = ClockMapping(toRunningTime: ClockTime -> ClockTime, toStreamTime: ClockTime -> ClockTime)

  /** The fields of the "deepspeech" element message. */
  datatype Event = Event(timestamp: ClockTime, streamTime: ClockTime, runningTime: ClockTime,
                         duration: ClockTime, text: string)

  /** Feature extraction and inference in the speech library: from the mapped
      bytes and the length argument the element passes with them, to text. */
  type Recogniser = (seq<Byte>, nat) -> string

  /** The `(unsigned int)` cast of a byte count: reduction modulo 2^32. */
  function AsUint(n: nat): (r: nat)
    ensures r < 0x1_0000_0000
    ensures n < 0x1_0000_0000 ==> r == n
    ensures (r - n) % 0x1_0000_0000 == 0
  {
    n % 0x1_0000_0000
  }

  /** The text for a dispatched buffer: the library gets the buffer's bytes
      with their byte count (not a sample count), cast to `unsigned int`. */
  function Recognised(buf: Buffer, recognise: Recogniser): string
  {
    recognise(buf.data, AsUint(|buf.data|))
  }

  /** The bytes of a segment, buffer after buffer. */
  function Bytes(segment: seq<Buffer>): seq<Byte>
  {
    if segment == [] then [] else Bytes(segment[..|segment| - 1]) + segment[|segment| - 1].data
  }

  /** The samples of a segment, buffer after buffer, each buffer decoded on its own. */
  function SegmentSamples(segment: seq<Buffer>): seq<Sample>
  {
    if segment == [] then [] else SegmentSamples(segment[..|segment| - 1]) + Samples(segment[|segment| - 1].data)
  }

  /** The deep copy of the accumulated buffer that is pushed to the pool: the
      segment's bytes in order. Its timestamp and duration are whatever the
      accumulated buffer carries, which the model takes as given. */
  function Dispatch(segment: seq<Buffer>, timestamp: ClockTime, duration: ClockTime): (d: Buffer)
    ensures |d.data| == Size(segment)
    ensures d.timestamp == timestamp && d.duration == duration
  {
    BytesSize(segment);
    Buffer(Bytes(segment), timestamp, duration)
  }

  lemma {:induction false} BytesSize(segment: seq<Buffer>)
    ensures |Bytes(segment)| == Size(segment)
  {
    if segment != [] {
      BytesSize(segment[..|segment| - 1]);
    }
  }

  /** Decoding distributes over a concatenation whose first part has an even length. */
  lemma SamplesAppend(a: seq<Byte>, b: seq<Byte>)
    requires |a| % 2 == 0
    ensures Samples(a + b) == Samples(a) + Samples(b)
  {
    var n := |a| / 2;
    forall j | 0 <= j < |Samples(a + b)|
      ensures Samples(a + b)[j] == (Samples(a) + Samples(b))[j]
    {
      if j < n {
        assert (a + b)[2 * j] == a[2 * j] && (a + b)[2 * j + 1] == a[2 * j + 1];
      } else {
        assert (a + b)[2 * j] == b[2 * (j - n)] && (a + b)[2 * j + 1] == b[2 * (j - n) + 1];
      }
    }
  }

  /** When every buffer holds whole samples, the model receives exactly the
      samples of the segment's buffers, in order. */
  lemma {:induction false} DispatchedSamples(segment: seq<Buffer>)
    requires forall k :: 0 <= k < |segment| ==> |segment[k].data| % 2 == 0
    ensures Samples(Bytes(segment)) == SegmentSamples(segment)
  {
    if segment != [] {
      var init := segment[..|segment| - 1];
      DispatchedSamples(init);
      EvenBytes(init);
      SamplesAppend(Bytes(init), segment[|segment| - 1].data);
    }
  }

  lemma {:induction false} EvenBytes(segment: seq<Buffer>)
    requires forall k :: 0 <= k < |segment| ==> |segment[k].data| % 2 == 0
    ensures |Bytes(segment)| % 2 == 0
  {
    if segment != [] {
      EvenBytes(segment[..|segment| - 1]);
    }
  }

  /** The element message for a recognised text: the buffer's timestamp
      and duration, the two conversions of that timestamp, and the text. */
  function MessageNew(buf: Buffer, text: string, clock: ClockMapping): (e: Event)
    ensures e.timestamp == buf.timestamp && e.duration == buf.duration && e.text == text
    ensures e.runningTime == clock.toRunningTime(buf.timestamp)
    ensures e.streamTime == clock.toStreamTime(buf.timestamp)
  {
    Event(buf.timestamp, clock.toStreamTime(buf.timestamp), clock.toRunningTime(buf.timestamp), buf.duration, text)
  }

  /** One pool task: recognise the dispatched buffer and post a message iff
      the text is non-empty. The message carries the dispatched buffer's
      timestamp and duration, the two clock mappings of that timestamp, and
      the text. */
  function RunModelAsync(buf: Buffer, recognise: Recogniser, clock: ClockMapping): (posted: Option<Event>)
    ensures posted.Some? <==> |Recognised(buf, recognise)| > 0
    ensures posted.Some? ==>
      && posted.value.timestamp == buf.timestamp
      && posted.value.duration == buf.duration
      && posted.value.text == Recognised(buf, recognise)
      && posted.value.runningTime == clock.toRunningTime(buf.timestamp)
      && posted.value.streamTime == clock.toStreamTime(buf.timestamp)
  {
    var text := Recognised(buf, recognise);
    if |text| > 0 then Some(MessageNew(buf, text, clock)) else None
  }

  /** The messages posted for a sequence of dispatched buffers, listed in
      submission order. */
  function Posted(dispatched: seq<Buffer>, recognise: Recogniser, clock: ClockMapping): seq<Event>
  {
    if dispatched == [] then []
    else
      var rest := Posted(dispatched[1..], recognise, clock);
      match RunModelAsync(dispatched[0], recognise, clock)
      case Some(e) => [e] + rest
      case None => rest
  }

  /** No posted message has empty text, every posted message is the message
      of some dispatched buffer, and every dispatched buffer whose text is
      non-empty has its message posted. */
  lemma {:induction false} PostedSpec(dispatched: seq<Buffer>, recognise: Recogniser, clock: ClockMapping)
    ensures |Posted(dispatched, recognise, clock)| <= |dispatched|
    ensures forall e :: e in Posted(dispatched, recognise, clock) ==>
      && |e.text| > 0
      && exists i :: 0 <= i < |dispatched| && e == MessageNew(dispatched[i], Recognised(dispatched[i], recognise), clock)
    ensures forall i :: 0 <= i < |dispatched| && |Recognised(dispatched[i], recognise)| > 0 ==>
      MessageNew(dispatched[i], Recognised(dispatched[i], recognise), clock) in Posted(dispatched, recognise, clock)
  {
    if dispatched != [] {
      var tail := dispatched[1..];
      PostedSpec(tail, recognise, clock);
      forall i | 1 <= i < |dispatched|
        ensures dispatched[i] == tail[i - 1]
      {
      }
    }
  }
}
