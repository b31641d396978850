/** The Android pieces both recorders drive: the microphone (android.media.
    AudioRecord), the outcome of opening it, the background read job, and
    the conversion of 16-bit PCM to normalised samples. */
module AudioHardware {

  /** A Kotlin `Short`: a 16-bit PCM sample. */
  type Short = x: int | -32768 <= x <= 32767

  /** Short.MAX_VALUE, the divisor of the normalisation. */
  const SHORT_MAX: int := 32767

  /** How constructing and starting an AudioRecord ends: it opens, or the
      constructor throws IllegalArgumentException (bad parameters) or
      SecurityException (no microphone permission). */
  datatype Construction = Opened | IllegalArgument | SecurityDenied

  /** The coroutine that runs the read loop. */
  datatype JobState = Active | Cancelled

  /** The microphone: whether it is capturing (RECORDSTATE_RECORDING) and
      whether its native resources have been released. */
  class AudioRecord {
    var recording: bool
    var released: bool

    /** `AudioRecord(...).apply { startRecording() }` once construction
        succeeded. */
    constructor Start()
      ensures recording && !released
    {
      recording := true;
      released := false;
    }

    method Stop()
      modifies this
      ensures !recording && released == old(released)
    {
      recording := false;
    }

    method Release()
      modifies this
      ensures released && !recording
    {
      released := true;
      recording := false;
    }
  }

  /** `short / Short.MAX_VALUE.toFloat()`. */
  function Normalize(x: Short): (r: real)
    ensures r * SHORT_MAX as real == x as real
  {
    x as real / SHORT_MAX as real
  }

  /** Every sample except -32768 maps into [-1, 1]; -32768 maps just below
      -1, so the "[-1f,1f]" range the conversion promises has one exception. */
  lemma NormalizeRange(x: Short)
    ensures x != -32768 ==> -1.0 <= Normalize(x) <= 1.0
    ensures x == -32768 ==> Normalize(x) < -1.0
    ensures Normalize(x) == 1.0 <==> x == SHORT_MAX
  {
  }

  /** Distinct PCM values stay distinct after normalisation. */
  lemma NormalizeInjective(x: Short, y: Short)
    ensures Normalize(x) == Normalize(y) ==> x == y
  {
    assert Normalize(x) * SHORT_MAX as real == x as real;
    assert Normalize(y) * SHORT_MAX as real == y as real;
  }

  /** `FloatArray(read) { i -> shortBuffer[i] / Short.MAX_VALUE.toFloat() }`:
      the first `read` shorts of the buffer, normalised one by one. */
  function Normalized(shortBuffer: seq<Short>, read: nat): (f: seq<real>)
    requires read <= |shortBuffer|
    ensures |f| == read
    ensures forall i :: 0 <= i < read ==> f[i] * SHORT_MAX as real == shortBuffer[i] as real
  {
    seq(read, i requires 0 <= i < read => Normalize(shortBuffer[i]))
  }

  /** A chunk read without the value -32768 lies in [-1, 1]. */
  lemma NormalizedInRange(shortBuffer: seq<Short>, read: nat)
    requires read <= |shortBuffer|
    requires forall i :: 0 <= i < read ==> shortBuffer[i] != -32768
    ensures forall i :: 0 <= i < read ==> -1.0 <= Normalized(shortBuffer, read)[i] <= 1.0
  {
    forall i | 0 <= i < read
      ensures -1.0 <= Normalized(shortBuffer, read)[i] <= 1.0
    {
      NormalizeRange(shortBuffer[i]);
    }
  }
}
