/** The saturating mixer of citcaudio: one sample as a fold over the streams that contribute to it. */
module Mixer {

  type Byte = b: int | 0 <= b < 256

  const MAX_SAMPLE := 32767
  const MIN_SAMPLE := -32768

  predicate IsSample(v: int)
  {
    MIN_SAMPLE <= v <= MAX_SAMPLE
  }

  function Clamp(v: int): int
  {
    if v > MAX_SAMPLE then MAX_SAMPLE else if v < MIN_SAMPLE then MIN_SAMPLE else v
  }

  /** The mix of one sample position: saturating additions in slot order, starting from silence. */
  function Mixed(xs: seq<int>): int
  {
    if xs == [] then 0 else Clamp(Mixed(xs[..|xs| - 1]) + xs[|xs| - 1])
  }

  function Sum(xs: seq<int>): int
  {
    if xs == [] then 0 else Sum(xs[..|xs| - 1]) + xs[|xs| - 1]
  }

  /** What the clamps of all additions together took away. */
  function Clipped(xs: seq<int>): int
  {
    if xs == [] then 0 else
    var v := Mixed(xs[..|xs| - 1]) + xs[|xs| - 1];
    Clipped(xs[..|xs| - 1]) + (v - Clamp(v))
  }

  /** A mixed sample fits 16 bits and misses the exact sum by exactly what was clipped. */
  lemma {:induction false} MixedIsSumMinusClipped(xs: seq<int>)
    ensures IsSample(Mixed(xs)) && Mixed(xs) == Sum(xs) - Clipped(xs)
  {
    if xs != [] {
      MixedIsSumMinusClipped(xs[..|xs| - 1]);
    }
  }

  /** The same contributions added to a channel that starts at `rail` instead of silence. */
  function MixedFrom(rail: int, xs: seq<int>): int
  {
    if xs == [] then rail else Clamp(MixedFrom(rail, xs[..|xs| - 1]) + xs[|xs| - 1])
  }

  /** The mix is the exact sum confined between the mixes that start at the lowest and the highest sample. */
  lemma {:induction false} MixedIsConfinedSum(xs: seq<int>)
    ensures
      var low, high, sum := MixedFrom(MIN_SAMPLE, xs), MixedFrom(MAX_SAMPLE, xs), Sum(xs);
      && MIN_SAMPLE <= low <= high <= MAX_SAMPLE
      && Mixed(xs) == if sum < low then low else if sum > high then high else sum
  {
    if xs != [] {
      MixedIsConfinedSum(xs[..|xs| - 1]);
    }
  }

  /** Clamping after every addition gives the documented clamped sum exactly when that sum lies between the two. */
  lemma MixesAsDocumentedExactly(xs: seq<int>)
    ensures Mixed(xs) == Clamp(Sum(xs)) <==> MixedFrom(MIN_SAMPLE, xs) <= Clamp(Sum(xs)) <= MixedFrom(MAX_SAMPLE, xs)
  {
    MixedIsConfinedSum(xs);
  }

  /** With contributions of one sign, saturating step by step is saturating once. */
  lemma {:induction false} OneSignMixesExactly(xs: seq<int>)
    requires (forall x | x in xs :: x >= 0) || (forall x | x in xs :: x <= 0)
    ensures Mixed(xs) == Clamp(Sum(xs))
    ensures (forall x | x in xs :: x >= 0) ==> Sum(xs) >= 0
    ensures (forall x | x in xs :: x <= 0) ==> Sum(xs) <= 0
  {
    if xs != [] {
      var init := xs[..|xs| - 1];
      assert forall x | x in init :: x in xs;
      OneSignMixesExactly(init);
      assert xs[|xs| - 1] in xs;
    }
  }

  /** Two streams always mix as one clamped sum. */
  lemma TwoMixExactly(a: int, b: int)
    requires IsSample(a) && IsSample(b)
    ensures Mixed([a, b]) == Clamp(Sum([a, b]))
  {
    MixedTwo(a, b);
  }

  lemma MixedTwo(a: int, b: int)
    ensures Mixed([a, b]) == Clamp(Clamp(a) + b) && Sum([a, b]) == a + b
  {
    assert [a, b][..1] == [a] && [a][..0] == [];
    assert Mixed([a]) == Clamp(Mixed([]) + a);
    assert Sum([a]) == Sum([]) + a;
  }

  /** With three streams of both signs, the order of clamping shows. */
  lemma ThreeMayDiffer()
    ensures Mixed([MAX_SAMPLE, MAX_SAMPLE, MIN_SAMPLE]) == -1 && Clamp(Sum([MAX_SAMPLE, MAX_SAMPLE, MIN_SAMPLE])) == 32766
  {
    var xs := [MAX_SAMPLE, MAX_SAMPLE, MIN_SAMPLE];
    assert xs[..2] == [MAX_SAMPLE, MAX_SAMPLE];
    MixedTwo(MAX_SAMPLE, MAX_SAMPLE);
  }

  // ---------------------------------------------------------------- samples

  /** A little-endian signed 16-bit sample. */
  function Sample(lo: Byte, hi: Byte): (v: int)
    ensures IsSample(v)
  {
    var u := lo + 256 * hi;
    if u < 32768 then u else u - 65536
  }

  /** Sample `j` of a stretch of bytes, silence behind its end. */
  function SampleAt(bytes: seq<Byte>, j: nat): (v: int)
    ensures IsSample(v)
  {
    if 2 * j + 1 < |bytes| then Sample(bytes[2 * j], bytes[2 * j + 1]) else 0
  }

  /** Signed 16-bit samples as the bytes a client writes: two's complement, low byte first. */
  function Pcm(xs: seq<int>): (r: seq<Byte>)
    requires forall x | x in xs :: IsSample(x)
    ensures |r| == 2 * |xs|
  {
    if xs == [] then [] else
    assert xs[|xs| - 1] in xs && forall x | x in xs[..|xs| - 1] :: x in xs;
    var x := xs[|xs| - 1];
    Pcm(xs[..|xs| - 1]) + [x % 256, x / 256 % 256]
  }

  /** Written samples are read back; behind the last one there is silence. */
  lemma {:induction false} SampleRoundTrip(xs: seq<int>, j: nat)
    requires forall x | x in xs :: IsSample(x)
    ensures SampleAt(Pcm(xs), j) == if j < |xs| then xs[j] else 0
  {
    if xs != [] {
      var n := |xs| - 1;
      assert xs[n] in xs && forall x | x in xs[..n] :: x in xs;
      SampleRoundTrip(xs[..n], j);
      if j == n {
        BytesOfSample(xs[n]);
      }
    }
  }

  lemma BytesOfSample(x: int)
    requires IsSample(x)
    ensures Sample(x % 256, x / 256 % 256) == x
  {
    assert x == x % 256 + 256 * (x / 256) && -128 <= x / 256 < 128;
  }

  /** Position `j` of every contributing period, in slot order. */
  function Column(periods: seq<seq<Byte>>, j: nat): seq<int>
  {
    if periods == [] then [] else
    Column(periods[..|periods| - 1], j) + [SampleAt(periods[|periods| - 1], j)]
  }

  /** The mix of a position depends only on the samples that the clients wrote there. */
  lemma {:induction false} ColumnOfSamples(streams: seq<seq<int>>, periods: seq<seq<Byte>>, j: nat)
    requires |streams| == |periods|
    requires forall i | 0 <= i < |streams| :: (forall x | x in streams[i] :: IsSample(x)) && periods[i] == Pcm(streams[i])
    requires forall i | 0 <= i < |streams| :: j < |streams[i]|
    ensures |Column(periods, j)| == |streams| && forall i | 0 <= i < |streams| :: Column(periods, j)[i] == streams[i][j]
  {
    if periods != [] {
      var n := |periods| - 1;
      ColumnOfSamples(streams[..n], periods[..n], j);
      SampleRoundTrip(streams[n], j);
    }
  }

  lemma MixedNext(ps: seq<seq<Byte>>, tmp: seq<Byte>, j: nat)
    ensures Mixed(Column(ps + [tmp], j)) == Clamp(Mixed(Column(ps, j)) + SampleAt(tmp, j))
  {
    assert (ps + [tmp])[..|ps|] == ps;
    MixedAppend(Column(ps, j), SampleAt(tmp, j));
  }

  lemma MixedAppend(xs: seq<int>, x: int)
    ensures Mixed(xs + [x]) == Clamp(Mixed(xs) + x)
  {
    assert (xs + [x])[..|xs|] == xs;
  }
}
