/** AudioSample: one chunk of normalised samples with content-based equality,
    a content hash, and a lazily cached mean. */
module AudioSampleModel {
  import opened Common

  /** Kotlin's `Iterable<Double>.average()`: the sum divided by the count,
      NaN for an empty sequence. */
  function Mean(s: seq<real>): (m: Double)
    ensures m.NaN? <==> |s| == 0
    ensures |s| > 0 ==> m.Finite? && m.value * |s| as real == Sum(s)
  {
    if |s| == 0 then NaN else Finite(Sum(s) / |s| as real)
  }

  lemma {:induction false} SumBounded(s: seq<real>)
    requires forall i :: 0 <= i < |s| ==> -1.0 <= s[i] <= 1.0
    ensures -(|s| as real) <= Sum(s) <= |s| as real
    decreases |s|
  {
    if |s| > 0 {
      SumBounded(s[..|s| - 1]);
    }
  }

  /** The mean of samples in [-1, 1] lies in [-1, 1]. */
  lemma MeanBounded(s: seq<real>)
    requires |s| > 0
    requires forall i :: 0 <= i < |s| ==> -1.0 <= s[i] <= 1.0
    ensures Mean(s).Finite? && -1.0 <= Mean(s).value <= 1.0
  {
    SumBounded(s);
    QuotientBounded(Sum(s), |s| as real);
  }

  lemma QuotientBounded(x: real, n: real)
    requires n > 0.0 && -n <= x <= n
    ensures -1.0 <= x / n <= 1.0
  {
  }

  /** A chunk whose samples are all the same value has that value as mean. */
  lemma {:induction false} MeanOfConstant(s: seq<real>, v: real)
    requires |s| > 0
    requires forall i :: 0 <= i < |s| ==> s[i] == v
    ensures Mean(s) == Finite(v)
  {
    SumOfConstant(s, v);
  }

  lemma {:induction false} SumOfConstant(s: seq<real>, v: real)
    requires forall i :: 0 <= i < |s| ==> s[i] == v
    ensures Sum(s) == |s| as real * v
    decreases |s|
  {
    if |s| > 0 {
      SumOfConstant(s[..|s| - 1], v);
    }
  }

  /** `FloatArray.contentHashCode()` (java.util.Arrays.hashCode): start at 1
      and fold `31 * h + floatToIntBits(e)` in `Int` arithmetic.
      `floatBits` stands for Float.floatToIntBits. */
  function ContentHash(s: seq<real>, floatBits: real -> int): (h: int)
    ensures -TWO_31 <= h < TWO_31
  {
    if |s| == 0 then 1 else Wrap32(31 * ContentHash(s[..|s| - 1], floatBits) + floatBits(s[|s| - 1]))
  }

  /** The same fold over unbounded integers: 31^n plus each element's bits
      weighted by a power of 31. */
  function HashPolynomial(s: seq<real>, floatBits: real -> int): int
  {
    if |s| == 0 then 1 else 31 * HashPolynomial(s[..|s| - 1], floatBits) + floatBits(s[|s| - 1])
  }

  /** Wrapping at every step gives the exact polynomial reduced to 32 bits. */
  lemma {:induction false} ContentHashIsPolynomialMod32(s: seq<real>, floatBits: real -> int)
    ensures ContentHash(s, floatBits) == Wrap32(HashPolynomial(s, floatBits))
    decreases |s|
  {
    if |s| > 0 {
      var p := s[..|s| - 1];
      ContentHashIsPolynomialMod32(p, floatBits);
      WrapStep(HashPolynomial(p, floatBits), floatBits(s[|s| - 1]));
    }
  }

  class AudioSample {
    const samples: seq<real>
    /** The cached average; 0.0 means "not computed yet". */
    var avg: Double

    /** The cache holds either its initial 0.0 or the mean of the samples. */
    ghost predicate Valid()
      reads this
    {
      avg == Finite(0.0) || avg == Mean(samples)
    }

    constructor (samples: seq<real>)
      ensures this.samples == samples && avg == Finite(0.0)
      ensures Valid()
    {
      this.samples := samples;
      avg := Finite(0.0);
    }

    /** getAvg: recomputes the mean whenever the cache compares equal to 0.0
        (so a zero mean is recomputed on every call, and a NaN mean of an
        empty chunk stays cached), and returns the cache. */
    method GetAvg() returns (r: Double)
      requires Valid()
      modifies this
      ensures Valid()
      ensures r == Mean(samples)
      ensures avg == (if DoubleEq(old(avg), Finite(0.0)) then Mean(samples) else old(avg))
    {
      if DoubleEq(avg, Finite(0.0)) {
        avg := Mean(samples);
      }
      r := avg;
    }

    /** equals: the same object, or another AudioSample with the same
        contents. */
    function Equals(other: AudioSample?): (r: bool)
      ensures r <==> other != null && other.samples == samples
    {
      if this == other then true
      else if other == null then false
      else samples == other.samples
    }

    /** hashCode: the content hash of the samples. */
    function HashCode(floatBits: real -> int): (h: int)
      ensures -TWO_31 <= h < TWO_31
    {
      ContentHash(samples, floatBits)
    }
  }

  lemma EqualsReflexive(a: AudioSample)
    ensures a.Equals(a)
  {
  }

  lemma EqualsSymmetric(a: AudioSample, b: AudioSample)
    ensures a.Equals(b) <==> b.Equals(a)
  {
  }

  lemma EqualsTransitive(a: AudioSample, b: AudioSample, c: AudioSample)
    requires a.Equals(b) && b.Equals(c)
    ensures a.Equals(c)
  {
  }

  /** Equal samples hash alike, as the equals/hashCode contract demands. */
  lemma EqualSamplesHashAlike(a: AudioSample, b: AudioSample, floatBits: real -> int)
    requires a.Equals(b)
    ensures a.HashCode(floatBits) == b.HashCode(floatBits)
  {
  }
}
