/** The spectrum computation of SoundWaveformScreen: padding the window to a
    power of two, handing it to a real-input FFT, and reading the packed
    result back as bin magnitudes. The transform itself (JTransforms'
    realForward) and the square root are parameters. */
module SoundWaveform {

  /** The largest padded length the padding rule can produce without
      overflowing a 32-bit `Int` (2^30). */
  const MAX_WINDOW: nat := 0x4000_0000

  predicate IsPowerOfTwo(p: nat)
    decreases p
  {
    p == 1 || (p >= 2 && p % 2 == 0 && IsPowerOfTwo(p / 2))
  }

  /** Integer.highestOneBit for a positive argument: the largest power of two
      not above n. */
  function HighestOneBit(n: nat): (h: nat)
    requires n >= 1
    ensures IsPowerOfTwo(h) && h <= n < 2 * h
    decreases n
  {
    if n == 1 then 1 else 2 * HighestOneBit(n / 2)
  }

  /** Between two powers of two there is a factor of at least two. */
  lemma {:induction false} PowerOfTwoGap(p: nat, q: nat)
    requires IsPowerOfTwo(p) && IsPowerOfTwo(q) && p < q
    ensures 2 * p <= q
    decreases p
  {
    if p > 1 {
      PowerOfTwoGap(p / 2, q / 2);
    }
  }

  /** The first power of two reached by doubling p that is at least n. */
  function DoubleUntil(n: nat, p: nat): (r: nat)
    requires IsPowerOfTwo(p)
    ensures IsPowerOfTwo(r) && r >= n && r >= p
    decreases n - p
  {
    if p >= n then p else DoubleUntil(n, 2 * p)
  }

  /** The padded length of a window of n >= 1 samples: the next power of two,
      at least 2. */
  function PaddedLength(n: nat): nat
  {
    DoubleUntil(n, 2)
  }

  lemma {:induction false} DoubleUntilIsLeast(n: nat, p: nat, q: nat)
    requires IsPowerOfTwo(p) && IsPowerOfTwo(q) && q >= n && q >= p
    ensures DoubleUntil(n, p) <= q
    decreases n - p
  {
    if p < n {
      PowerOfTwoGap(p, q);
      DoubleUntilIsLeast(n, 2 * p, q);
    }
  }

  /** The padded length is the least power of two that is at least n and at
      least 2. */
  lemma PaddedLengthIsLeast(n: nat)
    ensures IsPowerOfTwo(PaddedLength(n)) && PaddedLength(n) >= n && PaddedLength(n) >= 2
    ensures forall q: nat :: IsPowerOfTwo(q) && q >= n && q >= 2 ==> PaddedLength(n) <= q
  {
    forall q: nat | IsPowerOfTwo(q) && q >= n && q >= 2
      ensures PaddedLength(n) <= q
    {
      DoubleUntilIsLeast(n, 2, q);
    }
  }

  /** A power of two that is at least n and 2 and below every other such
      power is the padded length. */
  lemma PaddedLengthUnique(n: nat, p: nat)
    requires IsPowerOfTwo(p) && p >= n && p >= 2
    requires forall q: nat :: IsPowerOfTwo(q) && q >= n && q >= 2 ==> p <= q
    ensures p == PaddedLength(n)
  {
    PaddedLengthIsLeast(n);
  }

  /** A window whose length is already a power of two (and at least 2) is
      not padded. */
  lemma NoPaddingForPowersOfTwo(n: nat)
    requires n >= 2 && IsPowerOfTwo(n)
    ensures PaddedLength(n) == n
  {
    PaddedLengthIsLeast(n);
  }

  /** The length calculateFFT computes with highestOneBit: unchanged for a
      power of two, the next power of two otherwise, and 2 for one sample.
      It agrees with the padding rule. */
  lemma PaddingRule(n: nat)
    requires n >= 1
    ensures var h := HighestOneBit(n);
      PaddedLength(n) == if n == 1 then 2 else if h == n then n else 2 * h
  {
    var h := HighestOneBit(n);
    var p := if n == 1 then 2 else if h == n then n else 2 * h;
    assert IsPowerOfTwo(p) && p >= n && p >= 2;
    forall q: nat | IsPowerOfTwo(q) && q >= n && q >= 2
      ensures p <= q
    {
      if n > 1 && h != n {
        PowerOfTwoGap(h, q);
      }
    }
    PaddedLengthUnique(n, p);
  }

  /** The array handed to the FFT: the samples followed by zeros up to length p. */
  function ZeroPadded(a: seq<real>, p: nat): (d: seq<real>)
    requires |a| <= p
    ensures |d| == p
    ensures d[..|a|] == a
    ensures forall i :: |a| <= i < p ==> d[i] == 0.0
  {
    a + seq(p - |a|, i => 0.0)
  }

  function Abs(x: real): real { if x < 0.0 then -x else x }

  /** The modulus of the complex number re + i·im. */
  function Modulus(re: real, im: real, sqrt: real -> real): real
  {
    sqrt(re * re + im * im)
  }

  /** The magnitude of bin k of a packed real FFT: for k = 0 the absolute
      value of the DC term t[0]; for k >= 1 the modulus of the real and
      imaginary parts t[2k] and t[2k+1]. The Nyquist term t[1] is not read. */
  function Bin(t: seq<real>, k: nat, sqrt: real -> real): real
    requires 2 * k + 1 < |t|
  {
    if k == 0 then Abs(t[0]) else Modulus(t[2 * k], t[2 * k + 1], sqrt)
  }

  /** The magnitudes read from a packed real FFT of even length: one per bin. */
  function Magnitudes(t: seq<real>, sqrt: real -> real): (m: seq<real>)
    requires |t| >= 2 && |t| % 2 == 0
    ensures |m| == |t| / 2
    ensures forall k :: 0 <= k < |t| / 2 ==> m[k] == Bin(t, k, sqrt)
  {
    seq(|t| / 2, k requires 0 <= k < |t| / 2 => Bin(t, k, sqrt))
  }

  /** Every magnitude is non-negative when the square root is. */
  lemma MagnitudesNonNegative(t: seq<real>, sqrt: real -> real)
    requires |t| >= 2 && |t| % 2 == 0
    requires forall x :: x >= 0.0 ==> sqrt(x) >= 0.0
    ensures Magnitudes(t, sqrt)[0] == Abs(t[0])
    ensures forall k :: 0 <= k < |t| / 2 ==> Magnitudes(t, sqrt)[k] >= 0.0
  {
    forall k | 1 <= k < |t| / 2
      ensures Magnitudes(t, sqrt)[k] >= 0.0
    {
      assert t[2 * k] * t[2 * k] >= 0.0 && t[2 * k + 1] * t[2 * k + 1] >= 0.0;
      assert Magnitudes(t, sqrt)[k] == Bin(t, k, sqrt) == Modulus(t[2 * k], t[2 * k + 1], sqrt);
    }
  }

  /** The packed spectrum JTransforms' realForward leaves in an array that
      held the samples x: t[0] is Re[0], t[1] is Re[P/2], and t[2k], t[2k+1]
      are Re[k], Im[k] for 1 <= k < P/2. Naming it keeps the transform's
      application a plain value that the method and Magnitudes share. */
  function PackedSpectrum(realForward: seq<real> -> seq<real>, x: seq<real>): seq<real>
  {
    realForward(x)
  }

  /** The padding half of calculateFFT: a fresh array of the padded length
      holding the samples followed by zeros (a copy when no padding is needed). */
  method PadForTransform(audioData: array<real>) returns (dataToTransform: array<real>)
    requires 1 <= audioData.Length <= MAX_WINDOW
    ensures fresh(dataToTransform)
    ensures dataToTransform[..] == ZeroPadded(audioData[..], PaddedLength(audioData.Length))
  {
    var n := audioData.Length;
    PaddingRule(n);
    PaddedLengthIsLeast(n);
    var effectiveN := n;
    if HighestOneBit(effectiveN) != effectiveN && effectiveN > 1 {
      // `shl 1` stays within Int: n <= 2^30 and n is not a power of two
      assert HighestOneBit(effectiveN) < MAX_WINDOW;
      effectiveN := HighestOneBit(effectiveN) * 2;
    }
    if effectiveN != n || n == 1 {
      if n == 1 && effectiveN < 2 {
        effectiveN := 2;
      }
      dataToTransform := new real[effectiveN](_ => 0.0);
      for i := 0 to audioData.Length
        invariant forall k :: 0 <= k < i ==> dataToTransform[k] == audioData[k]
        invariant forall k :: i <= k < effectiveN ==> dataToTransform[k] == 0.0
      {
        if i < effectiveN {
          dataToTransform[i] := audioData[i];
        }
      }
    } else {
      dataToTransform := new real[n](i requires 0 <= i < n reads audioData => audioData[i]);
    }
    assert dataToTransform.Length == PaddedLength(n);
    assert dataToTransform[..] == ZeroPadded(audioData[..], PaddedLength(n));
  }

  /** The read-out half of calculateFFT: one magnitude per bin of the packed
      spectrum held in the array. */
  method ReadMagnitudes(spectrum: array<real>, sqrt: real -> real) returns (magnitudes: seq<real>)
    requires spectrum.Length >= 2 && spectrum.Length % 2 == 0
    ensures magnitudes == Magnitudes(spectrum[..], sqrt)
  {
    var n := spectrum.Length;
    var mags := new real[n / 2];
    ghost var t := spectrum[..];
    mags[0] := Abs(spectrum[0]);
    for i := 1 to n / 2
      invariant forall k :: 0 <= k < i ==> mags[k] == Bin(t, k, sqrt)
    {
      var re := spectrum[2 * i];
      var im := spectrum[2 * i + 1];
      assert re == t[2 * i] && im == t[2 * i + 1];
      mags[i] := Modulus(re, im, sqrt);
    }
    magnitudes := mags[..];
  }

  /** calculateFFT: pads the samples, transforms them in place and returns
      one magnitude per bin, P/2 of them for a padded length P. */
  method CalculateFFT(audioData: array<real>, realForward: seq<real> -> seq<real>, sqrt: real -> real)
    returns (magnitudes: seq<real>)
    requires audioData.Length <= MAX_WINDOW
    requires forall x :: |realForward(x)| == |x|
    ensures audioData.Length == 0 ==> magnitudes == []
    ensures audioData.Length > 0 ==>
      |magnitudes| == PaddedLength(audioData.Length) / 2 &&
      magnitudes == Magnitudes(PackedSpectrum(realForward, ZeroPadded(audioData[..], PaddedLength(audioData.Length))), sqrt)
  {
    if audioData.Length == 0 {
      return [];
    }
    PaddedLengthIsLeast(audioData.Length);
    var dataToTransform := PadForTransform(audioData);
    ghost var samples := audioData[..];
    ghost var padded := dataToTransform[..];
    assert padded == ZeroPadded(samples, PaddedLength(audioData.Length));
    // realForward overwrites the array with its packed spectrum
    var spectrum := PackedSpectrum(realForward, dataToTransform[..]);
    assert |spectrum| == dataToTransform.Length;
    forall k | 0 <= k < dataToTransform.Length {
      dataToTransform[k] := spectrum[k];
    }
    assert dataToTransform[..] == spectrum == PackedSpectrum(realForward, padded);
    assert dataToTransform.Length % 2 == 0 by {
      assert IsPowerOfTwo(dataToTransform.Length) && dataToTransform.Length >= 2;
    }
    magnitudes := ReadMagnitudes(dataToTransform, sqrt);
    assert audioData[..] == samples;
  }
}
