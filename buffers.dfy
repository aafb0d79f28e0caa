/** Audio buffers as the element receives them: raw bytes in the sink pad's
    fixed format (S16LE, 16 kHz, mono) plus the presentation timestamp and
    duration the transport attaches. */
module Buffers {

  type Byte = x: int | 0 <= x < 0x100

  /** A GstClockTime: an unsigned 64-bit count of nanoseconds. */
  type ClockTime = x: int | 0 <= x < 0x1_0000_0000_0000_0000

  /** A signed 16-bit sample value. */
  type Sample = x: int | -0x8000 <= x < 0x8000

  datatype Buffer = Buffer(data: seq<Byte>, timestamp: ClockTime, duration: ClockTime)

  /** The sample at index j of a little-endian byte stream (what `in[j]` reads). */
  function SampleAt(data: seq<Byte>, j: nat): (s: Sample)
    requires 2 * j + 1 < |data|
    ensures s >= 0 <==> data[2 * j + 1] < 0x80
    ensures (s + 0x1_0000) % 0x1_0000 == data[2 * j] as int + 0x100 * data[2 * j + 1] as int
  {
    var u := data[2 * j] as int + 0x100 * data[2 * j + 1] as int;
    if u < 0x8000 then u else u - 0x1_0000
  }

  /** The samples a buffer holds: `size / 2` of them; a trailing odd byte is not a sample. */
  function Samples(data: seq<Byte>): (r: seq<Sample>)
    ensures |r| == |data| / 2
  {
    seq(|data| / 2, j requires 0 <= j < |data| / 2 => SampleAt(data, j))
  }

  /** The two little-endian bytes of one sample. */
  function EncodeSample(s: Sample): (r: seq<Byte>)
    ensures |r| == 2
  {
    var u := if s < 0 then s + 0x1_0000 else s;
    [u % 0x100, u / 0x100]
  }

  /** The byte stream that holds the given samples, in order. */
  function Encode(samples: seq<Sample>): (r: seq<Byte>)
    ensures |r| == 2 * |samples|
  {
    if samples == [] then [] else Encode(samples[..|samples| - 1]) + EncodeSample(samples[|samples| - 1])
  }

  lemma {:induction false} EncodeAt(samples: seq<Sample>, j: nat)
    requires j < |samples|
    ensures Encode(samples)[2 * j .. 2 * j + 2] == EncodeSample(samples[j])
  {
    var n := |samples|;
    var init := samples[..n - 1];
    assert Encode(samples) == Encode(init) + EncodeSample(samples[n - 1]);
    if j < n - 1 {
      EncodeAt(init, j);
      assert Encode(samples)[2 * j .. 2 * j + 2] == Encode(init)[2 * j .. 2 * j + 2];
    } else {
      assert Encode(samples)[2 * j .. 2 * j + 2] == EncodeSample(samples[n - 1]);
    }
  }

  /** Decoding is the inverse of encoding: every sample comes back unchanged. */
  lemma {:induction false} DecodeEncode(samples: seq<Sample>)
    ensures Samples(Encode(samples)) == samples
  {
    var data := Encode(samples);
    forall j | 0 <= j < |samples|
      ensures Samples(data)[j] == samples[j]
    {
      EncodeAt(samples, j);
      assert data[2 * j] == EncodeSample(samples[j])[0];
      assert data[2 * j + 1] == EncodeSample(samples[j])[1];
    }
  }

  /** A trailing odd byte contributes nothing: the samples of `data + [b]` are
      those of `data` whenever `data` has an even length. */
  lemma TrailingByteIgnored(data: seq<Byte>, b: Byte)
    requires |data| % 2 == 0
    ensures Samples(data + [b]) == Samples(data)
  {
    forall j | 0 <= j < |data| / 2
      ensures Samples(data + [b])[j] == Samples(data)[j]
    {
      assert (data + [b])[2 * j] == data[2 * j];
      assert (data + [b])[2 * j + 1] == data[2 * j + 1];
    }
  }
}
