/**
  The peak envelope `generate_waveform_data` computes for the static
  waveform view: optional stereo mixdown, a chunk size of
  n div 300 (at least 1), and per chunk the largest magnitude divided by
  32768.  The decoder itself is an input: `None` stands for a file pydub
  could not decode.
 */
module Waveform {
  import opened Wrappers

  /** The divisor that maps a 16-bit sample magnitude into [0, 1]. */
  const FullScale: real := 32768.0
  /** The divisor of the chunk size. */
  const TargetPoints: nat := 300
  /** The length of the all-zero envelope used after an error. */
  const ErrorPoints: nat := 100

  /** A signed 16-bit sample value. */
  predicate InInt16(x: int) {
    -32768 <= x <= 32767
  }

  /** Decoded audio as pydub's `get_array_of_samples` hands it over:
      interleaved integer samples and a channel count. */
  datatype Audio = Audio(channels: nat, samples: seq<int>)

  /** The sample array after the optional mixdown: still the integer array
      (any channel count but two), or the per-frame float means of a stereo file. */
  datatype Signal = Ints(xs: seq<int>) | Means(ys: seq<real>)

  function Abs(x: real): (r: real)
    ensures r >= 0.0 && (r == x || r == -x)
  {
    if x < 0.0 then -x else x
  }

  function MaxReal(a: real, b: real): (r: real)
    ensures r >= a && r >= b && (r == a || r == b)
  {
    if a >= b then a else b
  }

  /** The stereo mixdown on an even-length array: the samples taken two at a
      time as frames, each replaced by the mean of its pair. */
  function PairMeans(s: seq<int>): (r: seq<real>)
    requires |s| % 2 == 0
    ensures |r| == |s| / 2
    ensures forall k :: 0 <= k < |r| ==> r[k] == (s[2 * k] + s[2 * k + 1]) as real / 2.0
  {
    seq(|s| / 2, k requires 0 <= k < |s| / 2 => (s[2 * k] + s[2 * k + 1]) as real / 2.0)
  }

  /** Stereo input is averaged per frame; an odd-length stereo array cannot be
      reshaped and fails; other channel counts are left as they are. */
  function Mixdown(a: Audio): (r: Option<Signal>)
    ensures a.channels != 2 ==> r == Some(Ints(a.samples))
    ensures a.channels == 2 ==> (r.Some? <==> |a.samples| % 2 == 0)
    ensures a.channels == 2 && r.Some? ==>
      r.value.Means? && |r.value.ys| == |a.samples| / 2 &&
      forall k :: 0 <= k < |r.value.ys| ==>
        r.value.ys[k] == (a.samples[2 * k] + a.samples[2 * k + 1]) as real / 2.0
  {
    if a.channels != 2 then Some(Ints(a.samples))
    else if |a.samples| % 2 == 1 then None
    else Some(Means(PairMeans(a.samples)))
  }

  /** The exact magnitude of every value of the signal. */
  function Magnitudes(sig: Signal): (m: seq<real>)
    ensures sig.Ints? ==> |m| == |sig.xs| && forall j :: 0 <= j < |m| ==> m[j] == Abs(sig.xs[j] as real)
    ensures sig.Means? ==> |m| == |sig.ys| && forall j :: 0 <= j < |m| ==> m[j] == Abs(sig.ys[j])
  {
    match sig
    case Ints(xs) => seq(|xs|, j requires 0 <= j < |xs| => Abs(xs[j] as real))
    case Means(ys) => seq(|ys|, j requires 0 <= j < |ys| => Abs(ys[j]))
  }

  /** The chunk size: n divided by 300, rounded down, but at least 1. */
  function ChunkSize(n: nat): (c: nat)
    ensures c >= 1
    ensures n < TargetPoints ==> c == 1
    ensures n >= TargetPoints ==> c * TargetPoints <= n < (c + 1) * TargetPoints
  {
    if n / TargetPoints >= 1 then n / TargetPoints else 1
  }

  /** The number of chunk starts 0, d, 2d, ... below n: the chunks of size d
      that cover n items, the last one possibly shorter. */
  function ChunkCount(n: nat, d: nat): nat
    requires d >= 1
    decreases n
  {
    if n == 0 then 0 else if n <= d then 1 else 1 + ChunkCount(n - d, d)
  }

  function Min(a: int, b: int): int {
    if a <= b then a else b
  }

  /** The k-th chunk of the loop: the first `cs` values of what is left
      after dropping k chunks, cut at the end of the input. */
  function Chunk(m: seq<real>, cs: nat, k: nat): seq<real>
    decreases k
  {
    if k == 0 then m[..Min(cs, |m|)]
    else if |m| <= cs then []
    else Chunk(m[cs..], cs, k - 1)
  }

  /** The largest value of a non-empty sequence (0.0 for an empty one, a
      case the envelope never asks for). */
  function Max(s: seq<real>): (r: real)
    ensures |s| > 0 ==> r in s && forall j :: 0 <= j < |s| ==> s[j] <= r
  {
    if |s| == 0 then 0.0
    else if |s| == 1 then s[0]
    else MaxReal(s[0], Max(s[1..]))
  }

  /** A product with a factor of at least one is at least the other factor. */
  lemma MulAtLeast(a: int, d: int)
    requires a >= 1 && d > 0
    ensures a * d >= d
  {
    assert a * d == (a - 1) * d + d;
  }

  /** Euclidean division is determined by any quotient/remainder pair. */
  lemma DivUnique(n: int, d: int, q: int, r: int)
    requires d > 0 && 0 <= r < d && n == q * d + r
    ensures n / d == q
  {
    var q0, r0 := n / d, n % d;
    assert n == q0 * d + r0;
    assert (q - q0) * d == r0 - r;
    if q > q0 {
      MulAtLeast(q - q0, d);
    } else if q < q0 {
      MulAtLeast(q0 - q, d);
    }
  }

  lemma DivStep(n: nat, d: nat)
    requires d >= 1
    ensures (n + d) / d == n / d + 1
  {
    var q, r := n / d, n % d;
    assert n == q * d + r;
    assert n + d == (q + 1) * d + r;
    DivUnique(n + d, d, q + 1, r);
  }

  /** The peak envelope of a magnitude array: one value per contiguous chunk of
      `cs` values (the last one possibly shorter), each the chunk's maximum
      divided by 32768. */
  function Envelope(m: seq<real>, cs: nat): (r: seq<real>)
    requires cs >= 1
    ensures |r| == ChunkCount(|m|, cs)
    ensures forall k :: 0 <= k < |r| ==> r[k] == Max(Chunk(m, cs, k)) / FullScale
    ensures IsPeakEnvelope(r, m, cs)
  {
    var r := seq(ChunkCount(|m|, cs), k requires 0 <= k => Max(Chunk(m, cs, k)) / FullScale);
    ChunkMaximaScaled(m, cs, r);
    r
  }

  /** `r` holds one value per chunk of `cs` values of `m`, and each value,
      scaled back by 32768, is the largest value of its chunk. */
  ghost predicate IsPeakEnvelope(r: seq<real>, m: seq<real>, cs: nat) {
    && cs >= 1
    && |r| == ChunkCount(|m|, cs)
    && forall k :: 0 <= k < |r| ==> IsSliceMax(r[k] * FullScale, m, k * cs, Min(k * cs + cs, |m|))
  }

  /** `v` is the largest value of the non-empty slice `m[lo..hi]`: it occurs
      there and nothing there exceeds it. */
  ghost predicate IsSliceMax(v: real, m: seq<real>, lo: int, hi: int) {
    0 <= lo < hi <= |m| && v in m[lo..hi] && forall j :: lo <= j < hi ==> m[j] <= v
  }

  /** The maximum of every chunk the loop visits is the maximum of the
      source's slice for that chunk. */
  lemma ChunkMaxima(m: seq<real>, cs: nat)
    requires cs >= 1
    ensures forall k :: 0 <= k < ChunkCount(|m|, cs) ==>
      IsSliceMax(Max(Chunk(m, cs, k)), m, k * cs, Min(k * cs + cs, |m|))
  {
    forall k | 0 <= k < ChunkCount(|m|, cs)
      ensures IsSliceMax(Max(Chunk(m, cs, k)), m, k * cs, Min(k * cs + cs, |m|))
    {
      ChunkMax(m, cs, k);
    }
  }

  /** Chunk maxima over 32768 form a peak envelope. */
  lemma ChunkMaximaScaled(m: seq<real>, cs: nat, r: seq<real>)
    requires cs >= 1 && |r| == ChunkCount(|m|, cs)
    requires forall k :: 0 <= k < |r| ==> r[k] == Max(Chunk(m, cs, k)) / FullScale
    ensures IsPeakEnvelope(r, m, cs)
  {
    ChunkMaxima(m, cs);
    assert forall k :: 0 <= k < |r| ==> r[k] * FullScale == Max(Chunk(m, cs, k));
  }

  /** One chunk of `ChunkMaxima`. */
  lemma ChunkMax(m: seq<real>, cs: nat, k: nat)
    requires cs >= 1 && k < ChunkCount(|m|, cs)
    ensures IsSliceMax(Max(Chunk(m, cs, k)), m, k * cs, Min(k * cs + cs, |m|))
  {
    ChunksNonEmpty(m, cs, k);
    ChunkIsSlice(m, cs, k);
    var lo, hi := k * cs, Min(k * cs + cs, |m|);
    var c := Chunk(m, cs, k);
    assert lo < |m| && c == m[lo..hi];
    forall j | lo <= j < hi
      ensures m[j] <= Max(c)
    {
      assert m[j] == c[j - lo];
    }
  }

  /** The loop's non-empty-chunk guard never skips: exactly the chunks
      the loop visits are non-empty. */
  lemma {:induction false} ChunksNonEmpty(m: seq<real>, cs: nat, k: nat)
    requires cs >= 1
    ensures |Chunk(m, cs, k)| > 0 <==> k < ChunkCount(|m|, cs)
    decreases k
  {
    if k > 0 && |m| > cs {
      ChunksNonEmpty(m[cs..], cs, k - 1);
    }
  }

  /** The loop's count is the ceiling of n / d. */
  lemma {:induction false} ChunkCountIsCeil(n: nat, d: nat)
    requires d >= 1
    ensures ChunkCount(n, d) == (n + d - 1) / d
    decreases n
  {
    if n == 0 {
      DivUnique(d - 1, d, 0, d - 1);
    } else if n <= d {
      DivUnique(n + d - 1, d, 1, n - 1);
    } else {
      ChunkCountIsCeil(n - d, d);
      DivStep(n - d + d - 1, d);
    }
  }

  /** The k-th chunk is the source's slice `samples[k*cs : k*cs + cs]`. */
  lemma ChunkIsSlice(m: seq<real>, cs: nat, k: nat)
    requires cs >= 1
    ensures Chunk(m, cs, k) == m[Min(k * cs, |m|)..Min(k * cs + cs, |m|)]
  {
    ChunkAt(m, cs, k, k * cs);
  }

  /** Every value of a chunk is a value of the input. */
  lemma {:induction false} ChunkValuesFromInput(m: seq<real>, cs: nat, k: nat)
    ensures forall x :: x in Chunk(m, cs, k) ==> x in m
    decreases k
  {
    if k == 0 {
      assert forall x :: x in m[..Min(cs, |m|)] ==> x in m;
    } else if |m| > cs {
      ChunkValuesFromInput(m[cs..], cs, k - 1);
      assert forall x :: x in m[cs..] ==> x in m;
    }
  }

  /** `ChunkIsSlice` with the start `p = k * cs` named, so that the
      induction only moves `p` back by `cs`. */
  lemma {:induction false} ChunkAt(m: seq<real>, cs: nat, k: nat, p: int)
    requires cs >= 1 && p == k * cs
    ensures 0 <= p
    ensures Chunk(m, cs, k) == m[Min(p, |m|)..Min(p + cs, |m|)]
    decreases k
  {
    if k > 0 {
      MulAtLeast(k, cs);
      if |m| > cs {
        var t := m[cs..];
        assert (k - 1) * cs == p - cs;
        ChunkAt(t, cs, k - 1, p - cs);
        var i, j := Min(p - cs, |t|), Min(p, |t|);
        assert cs + i == Min(p, |m|) && cs + j == Min(p + cs, |m|);
        SliceOfDrop(m, cs, i, j);
      } else {
        assert Min(p, |m|) == |m| == Min(p + cs, |m|);
      }
    }
  }

  /** A slice of a drop is a slice of the original sequence. */
  lemma SliceOfDrop(m: seq<real>, d: nat, i: nat, j: nat)
    requires d <= |m| && i <= j <= |m| - d
    ensures m[d..][i..j] == m[d + i..d + j]
  {
  }

  /** The k-th peak, scaled back by 32768, is the largest magnitude of the
      source's slice `samples[k*cs : k*cs + cs]`: it occurs there and nothing
      there exceeds it. */
  lemma EnvelopeIsSliceMaxima(m: seq<real>, cs: nat, k: nat)
    requires cs >= 1 && k < |Envelope(m, cs)|
    ensures k * cs < |m|
    ensures Envelope(m, cs)[k] * FullScale in m[k * cs..Min(k * cs + cs, |m|)]
    ensures forall j :: k * cs <= j < Min(k * cs + cs, |m|) ==> m[j] <= Envelope(m, cs)[k] * FullScale
  {
    ChunksNonEmpty(m, cs, k);
    ChunkIsSlice(m, cs, k);
  }

  /** The envelope of a signal: chunk size from its length, then `Envelope`. */
  function PeaksOf(m: seq<real>): (r: seq<real>)
    ensures |r| == ChunkCount(|m|, ChunkSize(|m|))
    ensures IsPeakEnvelope(r, m, ChunkSize(|m|))
  {
    Envelope(m, ChunkSize(|m|))
  }

  /** The all-zero envelope of 100 points stored when decoding or mixing fails. */
  function ErrorEnvelope(): (r: seq<real>)
    ensures |r| == ErrorPoints && forall k :: 0 <= k < |r| ==> r[k] == 0.0
  {
    seq(ErrorPoints, _ => 0.0)
  }

  /** `generate_waveform_data` with the magnitude taken exactly (see
      `GenerateAsWritten` for the integer wrap-around of the source). */
  function Generate(decoded: Option<Audio>): (r: seq<real>)
    ensures decoded.None? ==> r == ErrorEnvelope()
    ensures decoded.Some? && Mixdown(decoded.value).None? ==> r == ErrorEnvelope()
    ensures decoded.Some? && Mixdown(decoded.value).Some? ==>
      r == PeaksOf(Magnitudes(Mixdown(decoded.value).value))
  {
    match decoded
    case None => ErrorEnvelope()
    case Some(a) =>
      match Mixdown(a)
      case None => ErrorEnvelope()
      case Some(sig) => PeaksOf(Magnitudes(sig))
  }

  // ---------------------------------------------------------------------
  // Properties of the envelope

  /** Magnitudes within full scale give peaks within [0, 1]. */
  lemma EnvelopeInUnitRange(m: seq<real>, cs: nat)
    requires cs >= 1
    requires forall j :: 0 <= j < |m| ==> 0.0 <= m[j] <= FullScale
    ensures forall k :: 0 <= k < |Envelope(m, cs)| ==> 0.0 <= Envelope(m, cs)[k] <= 1.0
  {
    var r := Envelope(m, cs);
    forall k | 0 <= k < |r|
      ensures 0.0 <= r[k] <= 1.0
    {
      var c := Chunk(m, cs, k);
      ChunksNonEmpty(m, cs, k);
      ChunkValuesFromInput(m, cs, k);
      assert Max(c) in c;
    }
  }

  /** Every 16-bit sample, and every mean of two, has magnitude at most 32768. */
  lemma MagnitudesWithinFullScale(a: Audio, sig: Signal)
    requires forall j :: 0 <= j < |a.samples| ==> InInt16(a.samples[j])
    requires Mixdown(a) == Some(sig)
    ensures forall j :: 0 <= j < |Magnitudes(sig)| ==> 0.0 <= Magnitudes(sig)[j] <= FullScale
  {
    if a.channels == 2 {
      var m := Magnitudes(sig);
      forall j | 0 <= j < |m|
        ensures m[j] <= FullScale
      {
        assert InInt16(a.samples[2 * j]) && InInt16(a.samples[2 * j + 1]);
      }
    }
  }

  /** For 16-bit input every stored peak lies in [0, 1], on success and on error. */
  lemma GenerateInUnitRange(decoded: Option<Audio>)
    requires decoded.Some? ==> forall j :: 0 <= j < |decoded.value.samples| ==> InInt16(decoded.value.samples[j])
    ensures forall k :: 0 <= k < |Generate(decoded)| ==> 0.0 <= Generate(decoded)[k] <= 1.0
  {
    if decoded.Some? && Mixdown(decoded.value).Some? {
      var sig := Mixdown(decoded.value).value;
      MagnitudesWithinFullScale(decoded.value, sig);
      var m := Magnitudes(sig);
      EnvelopeInUnitRange(m, ChunkSize(|m|));
    }
  }

  /** Fewer than 300 values give one peak per value; otherwise between 300
      and 599 peaks. */
  lemma PeakCountBounds(n: nat)
    ensures n < TargetPoints ==> ChunkCount(n, ChunkSize(n)) == n
    ensures n >= TargetPoints ==> TargetPoints <= ChunkCount(n, ChunkSize(n)) < 2 * TargetPoints
  {
    var c := ChunkSize(n);
    ChunkCountIsCeil(n, c);
    if n < TargetPoints {
      DivUnique(n + c - 1, c, n, 0);
    } else {
      QuotientBetween(n + c - 1, c, TargetPoints, 2 * TargetPoints);
    }
  }

  /** A value between a * c and b * c (exclusive) has quotient in [a, b). */
  lemma QuotientBetween(x: int, c: int, a: int, b: int)
    requires c >= 1 && a * c <= x < b * c
    ensures a <= x / c < b
  {
    var q, r := x / c, x % c;
    assert x == q * c + r;
    if q < a {
      MulAtLeast(a - q, c);
      assert false;
    } else if q > b {
      MulAtLeast(q - b, c);
      assert false;
    } else if q == b {
      assert false;
    }
  }

  // ---------------------------------------------------------------------
  // The source as written: numpy's abs on a 16-bit integer array

  /** numpy's absolute value on an int16 value: -32768 has no 16-bit
      negation and wraps around to itself. */
  function Int16Abs(x: int): (r: int)
    requires InInt16(x)
    ensures InInt16(r)
    ensures x != -32768 ==> r >= 0 && (r == x || r == -x)
    ensures x == -32768 ==> r == -32768
    ensures r as real == Abs(x as real) <==> x != -32768
  {
    if x == -32768 then x else if x < 0 then -x else x
  }

  /** Magnitudes as the source computes them: the integer array keeps its
      16-bit type under `np.abs`, the float means do not. */
  function MagnitudesAsWritten(sig: Signal): (m: seq<real>)
    requires sig.Ints? ==> forall j :: 0 <= j < |sig.xs| ==> InInt16(sig.xs[j])
    ensures sig.Ints? ==> |m| == |sig.xs| && forall j :: 0 <= j < |m| ==> m[j] == Int16Abs(sig.xs[j]) as real
    ensures sig.Means? ==> m == Magnitudes(sig)
  {
    match sig
    case Ints(xs) => seq(|xs|, j requires 0 <= j < |xs| => Int16Abs(xs[j]) as real)
    case Means(ys) => Magnitudes(sig)
  }

  /** `generate_waveform_data` as written, on 16-bit input. */
  function GenerateAsWritten(decoded: Option<Audio>): (r: seq<real>)
    requires decoded.Some? ==> forall j :: 0 <= j < |decoded.value.samples| ==> InInt16(decoded.value.samples[j])
    ensures decoded.Some? && decoded.value.channels != 2 ==>
      r == PeaksOf(MagnitudesAsWritten(Ints(decoded.value.samples)))
    ensures decoded.Some? && decoded.value.channels == 2 ==> r == Generate(decoded)
    ensures decoded.None? ==> r == ErrorEnvelope()
  {
    match decoded
    case None => ErrorEnvelope()
    case Some(a) =>
      match Mixdown(a)
      case None => ErrorEnvelope()
      case Some(sig) => PeaksOf(MagnitudesAsWritten(sig))
  }

  /** A mono file whose only sample is -32768 gets the peak -1.0 as written,
      outside [0, 1], where the exact magnitude gives 1.0. */
  lemma Int16WrapCounterexample()
    ensures GenerateAsWritten(Some(Audio(1, [-32768]))) == [-1.0]
    ensures Generate(Some(Audio(1, [-32768]))) == [1.0]
  {
    var m := MagnitudesAsWritten(Ints([-32768]));
    assert m == [-32768.0];
    SingleValuePeaks(m);
    var e := Magnitudes(Ints([-32768]));
    assert e == [32768.0];
    SingleValuePeaks(e);
  }

  /** A single value gives a single peak: that value over 32768. */
  lemma SingleValuePeaks(m: seq<real>)
    requires |m| == 1
    ensures PeaksOf(m) == [m[0] / FullScale]
  {
    assert ChunkSize(1) == 1 && ChunkCount(1, 1) == 1;
    assert Chunk(m, 1, 0) == m;
    var r := PeaksOf(m);
    assert |r| == 1 && r[0] == Max(m) / FullScale;
  }

  /** As written, a chunk holding -32768 and smaller positive samples reports
      the largest of those instead of full scale. */
  lemma Int16WrapUnderReports()
    ensures Envelope(MagnitudesAsWritten(Ints([-32768, 100])), 2) == [100.0 / FullScale]
    ensures Envelope(Magnitudes(Ints([-32768, 100])), 2) == [1.0]
  {
    var m := MagnitudesAsWritten(Ints([-32768, 100]));
    assert m == [-32768.0, 100.0];
    assert Chunk(m, 2, 0) == m;
    assert Max(m) == 100.0 by { assert Max(m[1..]) == 100.0; }
    var e := Magnitudes(Ints([-32768, 100]));
    assert e == [32768.0, 100.0];
    assert Chunk(e, 2, 0) == e;
    assert Max(e) == 32768.0 by { assert Max(e[1..]) == 100.0; }
  }

  /** Without a -32768 sample the source's envelope is the exact one. */
  lemma AsWrittenAgreesWithoutMinimum(decoded: Option<Audio>)
    requires decoded.Some? ==> forall j :: 0 <= j < |decoded.value.samples| ==> InInt16(decoded.value.samples[j])
    requires decoded.Some? ==> -32768 !in decoded.value.samples
    ensures GenerateAsWritten(decoded) == Generate(decoded)
  {
    if decoded.Some? && decoded.value.channels != 2 {
      var xs := decoded.value.samples;
      var m, e := MagnitudesAsWritten(Ints(xs)), Magnitudes(Ints(xs));
      forall j | 0 <= j < |xs|
        ensures m[j] == e[j]
      {
        assert xs[j] in xs;
      }
      assert m == e;
    }
  }
}
