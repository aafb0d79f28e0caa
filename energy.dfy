/** Per-buffer loudness: the sum of the squared samples and the largest
    squared sample, both divided by the normaliser 2^30. Arithmetic is exact;
    the source's double-precision rounding is not modelled. */
module Energy {
  import opened Buffers

  /** 1 << 30, the normaliser; also the square of the most negative sample. */
  const NORMALIZER: int := 0x4000_0000

  function Sq(x: int): int { x * x }

  /** The sum of s[j] * s[j]; specified from the back, as the loop accumulates it. */
  function SumSquares(s: seq<int>): (r: int)
    ensures r >= 0
  {
    if s == [] then 0 else SumSquares(s[..|s| - 1]) + Sq(s[|s| - 1])
  }

  /** The largest s[j] * s[j], starting from 0 as the loop does; it never
      exceeds the sum of all the squares. */
  function PeakSquare(s: seq<int>): (r: int)
    ensures 0 <= r <= SumSquares(s)
  {
    if s == [] then 0
    else
      var p := PeakSquare(s[..|s| - 1]);
      var sq := Sq(s[|s| - 1]);
      if sq > p then sq else p
  }

  /** The normalised sum of squares of a buffer (`ncs`). */
  function Ncs(data: seq<Byte>): real
  {
    SumSquares(Samples(data)) as real / NORMALIZER as real
  }

  /** The normalised peak square of a buffer (`nps`). */
  function Nps(data: seq<Byte>): real
  {
    PeakSquare(Samples(data)) as real / NORMALIZER as real
  }

  datatype Metrics = Metrics(ncs: real, nps: real)

  /** The energy loop over the `size / 2` samples of one buffer, then the
      normalisation. */
  method Analyze(data: seq<Byte>) returns (m: Metrics)
    ensures m.ncs == Ncs(data) && m.nps == Nps(data)
  {
    var squaresum := 0;
    var peaksquare := 0;
    var n := |data| / 2;
    var j := 0;
    while j < n
      invariant 0 <= j <= n
      invariant squaresum == SumSquares(Samples(data)[..j])
      invariant peaksquare == PeakSquare(Samples(data)[..j])
    {
      var sample := SampleAt(data, j);
      var square := Sq(sample);
      if square > peaksquare {
        peaksquare := square;
      }
      squaresum := squaresum + square;
      ghost var done := Samples(data)[..j + 1];
      assert done[..j] == Samples(data)[..j] && done[j] == sample;
      j := j + 1;
    }
    assert Samples(data)[..n] == Samples(data);
    m := Metrics(squaresum as real / NORMALIZER as real, peaksquare as real / NORMALIZER as real);
  }

  /** A 16-bit sample squared never exceeds 2^30 (reached only by -32768). */
  lemma SquareBound(x: Sample)
    ensures 0 <= Sq(x) <= NORMALIZER
  {
    var y: int := if x >= 0 then x as int else -(x as int);
    assert 0 <= y <= 0x8000;
    assert Sq(x) == y * y;
    MulMonotone(y, 0x8000, y);
    MulMonotone(y, 0x8000, 0x8000);
  }

  lemma MulMonotone(a: int, b: int, c: int)
    requires 0 <= a <= b && 0 <= c
    ensures 0 <= a * c <= b * c
  {
  }

  /** The peak is a square of some sample and bounds every square; the sum
      dominates the peak and is bounded by one full-scale square per sample. */
  lemma {:induction false} EnergyBounds(s: seq<Sample>)
    ensures 0 <= PeakSquare(s) <= SumSquares(s) <= |s| * NORMALIZER
    ensures PeakSquare(s) <= NORMALIZER
  {
    if s != [] {
      EnergyBounds(s[..|s| - 1]);
      SquareBound(s[|s| - 1]);
    }
  }

  /** PeakSquare is the maximum of the squares: no square exceeds it, and on a
      non-empty input it is one of them. */
  lemma {:induction false} PeakIsMaximum(s: seq<int>)
    ensures forall i :: 0 <= i < |s| ==> Sq(s[i]) <= PeakSquare(s)
    ensures s != [] ==> exists i :: 0 <= i < |s| && PeakSquare(s) == Sq(s[i])
  {
    if s != [] {
      var init := s[..|s| - 1];
      PeakIsMaximum(init);
      assert forall i :: 0 <= i < |init| ==> s[i] == init[i];
      if init != [] && PeakSquare(s) == PeakSquare(init) {
        var i :| 0 <= i < |init| && PeakSquare(init) == Sq(init[i]);
        assert PeakSquare(s) == Sq(s[i]);
      } else {
        assert PeakSquare(s) == Sq(s[|s| - 1]);
      }
    }
  }

  /** The sum of squares is zero exactly when every sample is zero; the peak
      is then zero too. */
  lemma {:induction false} SilentIffAllZero(s: seq<int>)
    ensures SumSquares(s) == 0 <==> forall i :: 0 <= i < |s| ==> s[i] == 0
    ensures SumSquares(s) == 0 ==> PeakSquare(s) == 0
  {
    if s != [] {
      var init := s[..|s| - 1];
      SilentIffAllZero(init);
      assert forall i :: 0 <= i < |init| ==> s[i] == init[i];
      var x := s[|s| - 1];
      if x != 0 {
        var y: int := if x >= 0 then x as int else -(x as int);
        assert Sq(x) == y * y;
      }
    }
  }

  /** The normalised metrics of a buffer: the peak is at most full scale,
      `0 <= nps <= ncs`, and `ncs` is at most the number of samples. */
  lemma NormalisedBounds(data: seq<Byte>)
    ensures 0.0 <= Nps(data) <= Ncs(data) <= (|data| / 2) as real
    ensures Nps(data) <= 1.0
  {
    var s := Samples(data);
    EnergyBounds(s);
    var n := NORMALIZER as real;
    assert Ncs(data) * n == SumSquares(s) as real;
    assert Nps(data) * n == PeakSquare(s) as real;
    assert SumSquares(s) as real <= (|s| * NORMALIZER) as real;
  }

  /** Comparing `ncs` with a threshold is comparing the integer sum of squares
      with the threshold scaled by 2^30. */
  lemma LoudIffScaled(data: seq<Byte>, threshold: real)
    ensures Ncs(data) > threshold <==> SumSquares(Samples(data)) as real > threshold * NORMALIZER as real
    ensures Ncs(data) < threshold <==> SumSquares(Samples(data)) as real < threshold * NORMALIZER as real
  {
    assert Ncs(data) * NORMALIZER as real == SumSquares(Samples(data)) as real;
  }
}
