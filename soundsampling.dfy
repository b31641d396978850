/** SoundSamplingActivity's recorder: a start guard, a read loop keeping the
    latest chunk, a stop that always ends idle and always posts a fixed
    message, and an integer duration estimate. */
module SoundSampling {
  import opened Common
  import opened AudioHardware

  const UPLOAD_URL: string := "http://192.168.117.250:5000/upload"

  /** The body stopRecording always posts: {"message": "ciao"}. */
  function StopMessage(): (p: Post)
    ensures p.url == UPLOAD_URL
    ensures Member(p.body, "message") == Some(JStr("ciao"))
  {
    Post(UPLOAD_URL, JObj(map["message" := JStr("ciao")]))
  }

  class SoundSamplingActivity {
    var audioRecord: AudioRecord?
    var recordingJob: Option<JobState>
    /** The latest chunk read; each read replaces it. */
    var audioSample: Option<seq<real>>

    constructor ()
      ensures audioRecord == null && recordingJob.None? && audioSample.None?
    {
      audioRecord := null;
      recordingJob := None;
      audioSample := None;
    }

    function IsRecording(): (r: bool)
      reads this, audioRecord
      ensures r ==> audioRecord != null
    {
      audioRecord != null && audioRecord.recording
    }

    /** startRecording: a no-op when a microphone is already held; a
        construction failure leaves the activity idle with no read job;
        otherwise the microphone is open and the read job runs. */
    method StartRecording(outcome: Construction)
      modifies this
      ensures old(audioRecord) != null ==> unchanged(this)
      ensures old(audioRecord) == null && !outcome.Opened? ==> unchanged(this) && audioRecord == null
      ensures old(audioRecord) == null && outcome.Opened? ==>
        fresh(audioRecord) && IsRecording() && !audioRecord.released &&
        recordingJob == Some(Active) && audioSample == old(audioSample)
    {
      if audioRecord != null {
        return;
      }
      if !outcome.Opened? {
        // IllegalArgumentException or SecurityException: a toast, then return
        return;
      }
      audioRecord := new AudioRecord.Start();
      recordingJob := Some(Active);
    }

    /** One turn of the read loop: a positive count of shorts replaces the
        latest chunk by their normalised values. */
    method ReadChunk(shortBuffer: seq<Short>, read: int)
      requires IsRecording()
      requires read <= |shortBuffer|
      modifies this
      ensures read > 0 ==> audioSample == Some(Normalized(shortBuffer, read))
      ensures read <= 0 ==> audioSample == old(audioSample)
      ensures audioRecord == old(audioRecord) && recordingJob == old(recordingJob)
    {
      if read > 0 {
        var floatBuffer := Normalized(shortBuffer, read);
        audioSample := Some(floatBuffer);
      }
    }

    /** stopRecording: cancels the job, stops and releases any microphone,
        ends idle whatever the prior state, and posts {"message": "ciao"}
        every time, even when nothing was recording. */
    method StopRecording() returns (request: Post)
      modifies this, audioRecord
      ensures audioRecord == null
      ensures old(audioRecord) != null ==> old(audioRecord).released && !old(audioRecord).recording
      ensures recordingJob == (if old(recordingJob).Some? then Some(Cancelled) else None)
      ensures audioSample == old(audioSample)
      ensures request == StopMessage()
    {
      if recordingJob.Some? {
        recordingJob := Some(Cancelled);
      }
      if audioRecord != null {
        audioRecord.Stop();
        audioRecord.Release();
      }
      audioRecord := null;
      request := StopMessage();
    }

    /** onDestroy stops the recording. */
    method OnDestroy() returns (request: Post)
      modifies this, audioRecord
      ensures audioRecord == null
      ensures old(audioRecord) != null ==> old(audioRecord).released && !old(audioRecord).recording
      ensures recordingJob == (if old(recordingJob).Some? then Some(Cancelled) else None)
      ensures audioSample == old(audioSample)
      ensures request == StopMessage()
    {
      request := StopRecording();
    }
  }

  /** A second stop changes nothing in the state a first stop left, and
      posts the same message again. */
  method StopTwice(activity: SoundSamplingActivity) returns (first: Post, second: Post)
    modifies activity, activity.audioRecord
    ensures activity.audioRecord == null
    ensures activity.recordingJob == (if old(activity.recordingJob).Some? then Some(Cancelled) else None)
    ensures activity.audioSample == old(activity.audioSample)
    ensures first == second == StopMessage()
  {
    first := activity.StopRecording();
    ghost var afterFirst := (activity.audioRecord, activity.recordingJob, activity.audioSample);
    second := activity.StopRecording();
    assert (activity.audioRecord, activity.recordingJob, activity.audioSample) == afterFirst;
  }

  /** Kotlin `Int` division: truncates toward zero. */
  function TDiv(a: int, b: int): (q: int)
    requires b != 0
    ensures a >= 0 && b > 0 ==> q == a / b
    ensures Abs(q) == Abs(a) / Abs(b)
    ensures q != 0 ==> (q < 0 <==> (a < 0) != (b < 0))
  {
    var m := Abs(a) / Abs(b);
    assert m >= 0 by {
      assert Abs(a) == Abs(b) * m + Abs(a) % Abs(b);
      if m < 0 {
        MulMonotone(Abs(b), m, -1);
      }
    }
    if (a < 0) != (b < 0) then -m else m
  }

  function Abs(x: int): nat { if x < 0 then -x else x }

  predicate IsInt(x: int) { -TWO_31 <= x < TWO_31 }

  /** calculateAudioDuration: `size / (2 * channelCount) / sampleRate` in
      `Int` arithmetic (the product wraps, the divisions truncate). None
      stands for the ArithmeticException of a division by zero, which
      happens exactly when the rate is 0 or the wrapped product 2 *
      channelCount is 0 (a channel count of 0 or Int.MIN_VALUE). */
  function CalculateAudioDuration(audioData: seq<real>, sampleRate: int, channelCount: int): (r: Option<int>)
    requires |audioData| < TWO_31 && IsInt(sampleRate) && IsInt(channelCount)
    ensures r.None? <==> sampleRate == 0 || channelCount == 0 || channelCount == -TWO_31
  {
    var bytesTimesChannels := Wrap32(2 * channelCount);
    assert bytesTimesChannels == 0 <==> channelCount == 0 || channelCount == -TWO_31 by {
      if channelCount >= TWO_31 / 2 {
        assert bytesTimesChannels == 2 * channelCount - TWO_32;
      } else if channelCount < -TWO_31 / 2 {
        assert bytesTimesChannels == 2 * channelCount + TWO_32;
      } else {
        assert bytesTimesChannels == 2 * channelCount;
      }
    }
    if bytesTimesChannels == 0 then None
    else
      var totalSamples := TDiv(|audioData|, bytesTimesChannels);
      if sampleRate == 0 then None else Some(TDiv(totalSamples, sampleRate))
  }

  lemma MulMonotone(m: int, a: int, b: int)
    requires m >= 0 && a <= b
    ensures m * a <= m * b
  {
  }

  /** The quotient is the only q with n == m * q + rem and 0 <= rem < m. */
  lemma DivUnique(n: int, m: int, q: int, rem: int)
    requires m > 0 && n == m * q + rem && 0 <= rem < m
    ensures n / m == q
  {
    var q' := n / m;
    assert n == m * q' + n % m;
    if q' > q {
      MulMonotone(m, q + 1, q');
      assert false;
    } else if q' < q {
      MulMonotone(m, q' + 1, q);
      assert false;
    }
  }

  /** Dividing by d and then by r is dividing by d * r. */
  lemma DivDiv(n: nat, d: nat, r: nat)
    requires d > 0 && r > 0
    ensures n / d / r == n / (d * r)
  {
    var q1 := n / d;
    var r1 := n % d;
    var q2 := q1 / r;
    var r2 := q1 % r;
    assert n == d * q1 + r1;
    assert q1 == r * q2 + r2;
    assert n == (d * r) * q2 + (d * r2 + r1) by {
      assert d * q1 == d * (r * q2) + d * r2;
    }
    MulMonotone(d, r2, r - 1);
    assert d * (r - 1) == d * r - d;
    DivUnique(n, d * r, q2, d * r2 + r1);
  }

  /** For positive arguments without overflow the duration is the number of
      whole seconds in |a| / (2 * channelCount) frames at the given rate. */
  lemma DurationWholeSeconds(audioData: seq<real>, sampleRate: int, channelCount: int)
    requires |audioData| < TWO_31
    requires 0 < sampleRate < TWO_31 && 0 < channelCount < TWO_31 / 2
    ensures CalculateAudioDuration(audioData, sampleRate, channelCount)
      == Some(|audioData| / (2 * channelCount * sampleRate))
  {
    assert Wrap32(2 * channelCount) == 2 * channelCount;
    DivDiv(|audioData|, 2 * channelCount, sampleRate);
  }

  /** The duration is 0 exactly for arrays shorter than 2 * channelCount *
      sampleRate elements (88200 with the defaults). */
  lemma DurationZeroBelowTwoSeconds(audioData: seq<real>, sampleRate: int, channelCount: int)
    requires |audioData| < TWO_31
    requires 0 < sampleRate < TWO_31 && 0 < channelCount < TWO_31 / 2
    ensures CalculateAudioDuration(audioData, sampleRate, channelCount) == Some(0)
      <==> |audioData| < 2 * channelCount * sampleRate
  {
    DurationWholeSeconds(audioData, sampleRate, channelCount);
    var n := |audioData|;
    var m := 2 * channelCount * sampleRate;
    assert m > 0 by { MulMonotone(2 * channelCount, 1, sampleRate); }
    if n < m {
      DivUnique(n, m, 0, n);
    } else {
      assert n == m * (n / m) + n % m;
      assert n / m != 0;
    }
  }
}
