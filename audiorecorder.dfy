/** AudioRecorder: starts the microphone, keeps the latest chunk and its
    mean, and on stop uploads one record for the latest chunk and releases
    the microphone. */
module AudioRecorderModel {
  import opened Common
  import opened AudioHardware
  import opened AudioSampleModel

  const SAMPLE_RATE: int := 44100
  const UPLOAD_URL: string := "http://192.168.117.250:5000/upload"

  /** `audioData.size.toDouble() / sampleRate`: a Double division, so a zero
      rate gives +Infinity, or NaN for an empty chunk. */
  function CalculateAudioDuration(audioData: seq<real>, sampleRate: int): (d: Double)
    ensures sampleRate != 0 ==> d.Finite? && d.value * sampleRate as real == |audioData| as real
    ensures sampleRate == 0 ==> (d.NaN? <==> |audioData| == 0) && (d.PosInfinity? <==> |audioData| > 0)
  {
    if sampleRate == 0 then (if |audioData| == 0 then NaN else PosInfinity)
    else Finite(|audioData| as real / sampleRate as real)
  }

  /** With the default rate a chunk of 44100 samples lasts one second, and a
      longer chunk lasts longer. */
  lemma DurationAtDefaultRate(a: seq<real>, b: seq<real>)
    requires |a| <= |b|
    ensures |a| == SAMPLE_RATE ==> CalculateAudioDuration(a, SAMPLE_RATE) == Finite(1.0)
    ensures CalculateAudioDuration(a, SAMPLE_RATE).value <= CalculateAudioDuration(b, SAMPLE_RATE).value
  {
  }

  /** The fields of the record uploaded on stop. */
  datatype UploadRecord = UploadRecord(
    location: Location, username: string, audio: real,
    timestamp: int, formattedDate: string, duration: real)

  /** The JSON object stopRecording builds. */
  function UploadBody(u: UploadRecord): Json
  {
    JObj(map[
      "latitude" := JNum(u.location.latitude),
      "longitude" := JNum(u.location.longitude),
      "username" := JStr(u.username),
      "audio" := JNum(u.audio),
      "timestamp" := JNum(u.timestamp as real),
      "formattedDate" := JStr(u.formattedDate),
      "duration" := JNum(u.duration)
    ])
  }

  /** Reads an upload body back, as the server's /upload handler does. The
      timestamp must be a whole number of milliseconds. */
  function ParseUpload(j: Json): Option<UploadRecord>
  {
    match (Member(j, "latitude"), Member(j, "longitude"), Member(j, "username"), Member(j, "audio"))
    case (Some(JNum(lat)), Some(JNum(lon)), Some(JStr(user)), Some(JNum(audio))) =>
      (match (Member(j, "timestamp"), Member(j, "formattedDate"), Member(j, "duration"))
       case (Some(JNum(t)), Some(JStr(date)), Some(JNum(dur))) =>
         if t == t.Floor as real
         then Some(UploadRecord(Location(lat, lon), user, audio, t.Floor, date, dur))
         else None
       case _ => None)
    case _ => None
  }

  /** Every field stopRecording puts in the body is read back unchanged. */
  lemma UploadRoundTrip(u: UploadRecord)
    ensures ParseUpload(UploadBody(u)) == Some(u)
  {
  }

  class AudioRecorder {
    /** null while idle; the open microphone while recording. */
    var audioRecord: AudioRecord?
    var recordingJob: Option<JobState>
    /** The mean of the latest chunk (0.0 before the first one). */
    var avg: Double
    /** The latest chunk read; each read replaces it. */
    var audioSamples: Option<seq<real>>

    /** `avg` is always the mean of `audioSamples`, which is never empty:
        so the value uploaded as "audio" is finite (org.json rejects NaN). */
    ghost predicate Valid()
      reads this
    {
      match audioSamples
      case None => avg == Finite(0.0)
      case Some(s) => |s| > 0 && avg == Mean(s)
    }

    constructor ()
      ensures Valid()
      ensures audioRecord == null && recordingJob.None? && audioSamples.None? && avg == Finite(0.0)
    {
      audioRecord := null;
      recordingJob := None;
      avg := Finite(0.0);
      audioSamples := None;
    }

    /** isRecording: the microphone exists and is capturing. */
    function IsRecording(): (r: bool)
      reads this, audioRecord
      ensures r ==> audioRecord != null
    {
      audioRecord != null && audioRecord.recording
    }

    /** startRecording: refuses when a microphone is already held; otherwise
        opens one and launches the read job, or reports failure and stays
        idle when construction throws. */
    method StartRecording(outcome: Construction) returns (started: bool)
      requires Valid()
      modifies this
      ensures Valid()
      ensures old(audioRecord) != null ==> !started && unchanged(this)
      ensures old(audioRecord) == null ==> (started <==> outcome.Opened?)
      ensures started ==> fresh(audioRecord) && IsRecording() && !audioRecord.released && recordingJob == Some(Active)
      ensures old(audioRecord) == null && !started ==> unchanged(this)
      ensures audioSamples == old(audioSamples) && avg == old(avg)
    {
      if audioRecord != null {
        return false;
      }
      if !outcome.Opened? {
        // IllegalArgumentException or SecurityException while constructing
        return false;
      }
      audioRecord := new AudioRecord.Start();
      recordingJob := Some(Active);
      return true;
    }

    /** One turn of the read loop (which runs while the microphone is
        capturing): `read` shorts came back; a positive count replaces the
        latest chunk by their normalised values and recomputes its mean. */
    method ReadChunk(shortBuffer: seq<Short>, read: int)
      requires Valid() && IsRecording()
      requires read <= |shortBuffer|
      modifies this
      ensures Valid()
      ensures read > 0 ==> audioSamples == Some(Normalized(shortBuffer, read)) && avg == Mean(Normalized(shortBuffer, read))
      ensures read <= 0 ==> audioSamples == old(audioSamples) && avg == old(avg)
      ensures audioRecord == old(audioRecord) && recordingJob == old(recordingJob)
    {
      if read > 0 {
        var floatBuffer := Normalized(shortBuffer, read);
        audioSamples := Some(floatBuffer);
        var sample := new AudioSample(floatBuffer);
        avg := sample.GetAvg();
      }
    }

    /** stopRecording: nothing to do when idle; returns early, still holding
        the microphone, when no chunk was ever read; otherwise uploads one
        record for the latest chunk (only when a location is known), cancels
        the job, stops and releases the microphone and becomes idle. */
    method StopRecording(location: Option<Location>, username: string, timestamp: int, formattedDate: string)
      returns (upload: Option<Post>)
      requires Valid()
      modifies this, audioRecord
      ensures Valid()
      ensures old(audioRecord) == null ==> upload.None? && unchanged(this)
      ensures old(audioRecord) != null && old(audioSamples).None? ==>
        upload.None? && unchanged(this) && unchanged(old(audioRecord))
      ensures old(audioRecord) != null && old(audioSamples).Some? ==>
        audioRecord == null && old(audioRecord).released && !old(audioRecord).recording &&
        recordingJob == (if old(recordingJob).Some? then Some(Cancelled) else None) &&
        audioSamples == old(audioSamples) && avg == old(avg) &&
        (upload.Some? <==> location.Some?) &&
        (upload.Some? ==> upload.value == Post(UPLOAD_URL, UploadBody(UploadRecord(
          location.value, username, old(avg).value, timestamp, formattedDate,
          |old(audioSamples).value| as real / SAMPLE_RATE as real))))
    {
      if audioRecord == null {
        return None;
      }
      if audioSamples.None? {
        return None;
      }
      var duration := CalculateAudioDuration(audioSamples.value, SAMPLE_RATE);
      upload := None;
      if location.Some? {
        var record := UploadRecord(location.value, username, avg.value, timestamp, formattedDate, duration.value);
        upload := Some(Post(UPLOAD_URL, UploadBody(record)));
      }
      if recordingJob.Some? {
        recordingJob := Some(Cancelled);
      }
      audioRecord.Stop();
      audioRecord.Release();
      audioRecord := null;
    }
  }

  /** Stopping before any chunk was read keeps the microphone, so a
      following start is refused and nothing is uploaded. */
  method StopBeforeFirstChunk(
    recorder: AudioRecorder, location: Option<Location>, username: string, timestamp: int,
    formattedDate: string, outcome: Construction)
    returns (upload: Option<Post>, restarted: bool)
    requires recorder.Valid() && recorder.audioRecord != null && recorder.audioSamples.None?
    modifies recorder, recorder.audioRecord
    ensures upload.None? && !restarted
    ensures recorder.audioRecord == old(recorder.audioRecord)
    ensures recorder.audioRecord.recording == old(recorder.audioRecord.recording)
    ensures recorder.audioRecord.released == old(recorder.audioRecord.released)
  {
    upload := recorder.StopRecording(location, username, timestamp, formattedDate);
    restarted := recorder.StartRecording(outcome);
  }
}
