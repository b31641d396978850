# NoiseCity core, modelled in Dafny

NoiseCity is an Android client that samples the microphone and posts
noise measurements, plus a Flask server that keeps user accounts. This
project models the parts of both that carry logic, and proves what they
promise:

- **DataSender** (client). A one-second windowing accumulator feeds on chunks
  of normalised samples and emits one measurement per 44100 samples. Around
  it sit the measurement request (a GeoJSON Point, longitude first) and the
  mapping from the server's answer to the achievement toasts. The
  accumulator is a class whose `ProcessBuffer` loop is proved against the
  stream functions `Windows`/`Leftover`. Chunk independence and the window
  count are lemmas about those functions.
- **SoundWaveformScreen.calculateFFT** (client). Pads a window to the next
  power of two (at least 2), hands it to a real FFT and reads the packed
  result back as `P/2` magnitudes. It is written over arrays. The padding
  rule, computed with `highestOneBit` as the source does, is proved equal
  to "the least power of two that is at least N and at least 2".
- **AudioRecorder and SoundSamplingActivity** (client). Two recorder state
  machines over a microphone object. They have a start guard and a
  construction that may fail. One turn of the read loop converts PCM shorts
  to `s / 32767`. There are two stop routines (one uploads the latest
  chunk's mean and duration, one always posts a fixed message) and two
  duration functions (a `Double` one and an `Int` one).
- **AudioSample** (client). Content equality, the content hash (a 32-bit
  polynomial fold) and the lazily cached mean.
- **Server** (`repository.py`, `models.py`, `routes.py`).
  - The Mongo `users` collection is a sequence of documents in insertion
    order. `_id`s are unique. Username uniqueness is shown to be
    preserved by `create_user` and `register`.
  - ObjectIds are 12 bytes, with their hex printing and parsing.
  - bcrypt is a stand-in that accepts exactly the password a hash was
    made from.
  - The routes are methods of an `App` class that holds the logged-in
    user's session.

Library functions the code calls but whose internals are not modelled
become parameters:

| Function | Library source |
|---|---|
| `sqrt` | kotlin.math |
| `log10` | kotlin.math |
| the real FFT | JTransforms `realForward` |
| `Float.floatToIntBits` | Kotlin |
| org.json's rendering of a non-string value | org.json |
| the HTTP exchange | OkHttp |

The microphone's construction outcome is a parameter (it opens, or the
constructor throws). So are a freshly generated ObjectId and a bcrypt salt.

Files: `common.dfy` (Option, JSON values, `Double` with NaN and infinity,
sums, 32-bit wrap-around), `datasender.dfy`, `soundwaveform.dfy`,
`audiohardware.dfy`, `audiorecorder.dfy`, `soundsampling.dfy`,
`audiosample.dfy`, `store.dfy`, `models.dfy`, `repository.dfy`, `routes.dfy`.

## Model

| member | source | states |
|---|---|---|
| DataSender.WindowCount | MyApplication/app/src/main/java/it/dii/unipi/myapplication/model/DataSender.kt:48-67 | a stream of n samples completes exactly n div 44100 windows and leaves n mod 44100 samples pending |
| DataSender.LeftoverIsSuffix | MyApplication/app/src/main/java/it/dii/unipi/myapplication/model/DataSender.kt:50-66 | the pending samples are exactly the last n mod 44100 samples of the stream |
| DataSender.WindowAt | MyApplication/app/src/main/java/it/dii/unipi/myapplication/model/DataSender.kt:59-63 | window k carries the sum of squares of samples k·44100 .. (k+1)·44100 and a duration of exactly 1.0 s |
| DataSender.WindowsSplit | MyApplication/app/src/main/java/it/dii/unipi/myapplication/model/DataSender.kt:48-67 | the windows of x ++ y are those of x followed by those of (x's pending samples ++ y); the pending samples agree too |
| DataSender.AbsorbChunk | MyApplication/app/src/main/java/it/dii/unipi/myapplication/model/DataSender.kt:51-66 | a chunk capped by `remain` completes at most one window, exactly when it fills the window, and otherwise extends the pending samples |
| DataSender.WindowsOfShortBlock | MyApplication/app/src/main/java/it/dii/unipi/myapplication/model/DataSender.kt:59-65 | a block of at most 44100 samples emits one window iff it is full, and otherwise stays pending whole |
| DataSender.ChunkIndependence | MyApplication/app/src/main/java/it/dii/unipi/myapplication/model/DataSender.kt:48-67 | processing a then b emits the same windows and leaves the same pending samples as processing a ++ b once |
| DataSender.SilentSecond | MyApplication/app/src/main/java/it/dii/unipi/myapplication/model/DataSender.kt:53-63 | one second of silence emits exactly one window, with sum of squares 0 |
| DataSender.SilenceReportsFloor | MyApplication/app/src/main/java/it/dii/unipi/myapplication/model/DataSender.kt:60-61 | a silent window reports 20·log10(MIN_RMS), the floor, never log10(0) |
| Common.SumSquaresNonNegative | MyApplication/app/src/main/java/it/dii/unipi/myapplication/model/DataSender.kt:53-60 | the running sum of squares is never negative, so the RMS square root is taken of a non-negative value |
| DataSender.Sender.constructor | MyApplication/app/src/main/java/it/dii/unipi/myapplication/model/DataSender.kt:45-46 | both accumulators start at zero, with nothing pending and nothing sent |
| DataSender.Sender.AbsorbSample | MyApplication/app/src/main/java/it/dii/unipi/myapplication/model/DataSender.kt:54-56 | one sample is added: the count is the number of pending samples and the sum is their sum of squares |
| DataSender.Sender.Absorb | MyApplication/app/src/main/java/it/dii/unipi/myapplication/model/DataSender.kt:53-57 | the inner loop appends buffer[from .. from+count] to the pending samples and keeps the sum equal to their sum of squares |
| DataSender.Sender.EmitWindow | MyApplication/app/src/main/java/it/dii/unipi/myapplication/model/DataSender.kt:59-65 | a full window sends its sum of squares with duration 1.0, then both accumulators are zero |
| DataSender.Sender.ProcessBuffer | MyApplication/app/src/main/java/it/dii/unipi/myapplication/model/DataSender.kt:48-68 | appends to the sent log exactly Windows(pending ++ buffer), leaves Leftover(pending ++ buffer) pending, emits (c0+L) div 44100 windows, ends with count (c0+L) mod 44100 < 44100 |
| DataSender.PointRoundTrip | MyApplication/app/src/main/java/it/dii/unipi/myapplication/model/DataSender.kt:85-91 | the location is a GeoJSON Point whose coordinates are [longitude, latitude], and reading it back recovers the location |
| DataSender.MeasurementRoundTrip | MyApplication/app/src/main/java/it/dii/unipi/myapplication/model/DataSender.kt:80-92 | every field put in the measurement body is read back unchanged |
| DataSender.BuildRequest | MyApplication/app/src/main/java/it/dii/unipi/myapplication/model/DataSender.kt:72-98 | no request iff the location is null; otherwise a POST to BASE_URL/measurements with the session cookie, whose body decodes to the measurement and whose location is the Point |
| DataSender.ToastsArePrefix | MyApplication/app/src/main/java/it/dii/unipi/myapplication/model/DataSender.kt:106-113 | toast i is the message of entry i, and the entry after the last toast (if any) is malformed: the exception ends the loop |
| DataSender.OneToastPerAchievement | MyApplication/app/src/main/java/it/dii/unipi/myapplication/model/DataSender.kt:106-114 | with well-formed entries, one "You achieved title: description" toast per entry, in array order; none for an empty array |
| DataSender.ToastsUnique | MyApplication/app/src/main/java/it/dii/unipi/myapplication/model/DataSender.kt:108-113 | the prefix description above determines the toasts uniquely |
| DataSender.ShowAchievements | MyApplication/app/src/main/java/it/dii/unipi/myapplication/model/DataSender.kt:99-121 | the loop shows exactly Notifications(response): nothing for a failed response, a network failure or a body without an achievements array |
| DataSender.SendToServer | MyApplication/app/src/main/java/it/dii/unipi/myapplication/model/DataSender.kt:70-150 | no request and no toast without a location; otherwise the request above and the toasts of the server's answer |
| SoundWaveform.HighestOneBit | MyApplication/app/src/main/java/it/dii/unipi/myapplication/ui/screens/sound/SoundWaveformScreen.kt:126-127 | Integer.highestOneBit(n) is a power of two h with h <= n < 2h |
| SoundWaveform.PaddedLengthIsLeast | MyApplication/app/src/main/java/it/dii/unipi/myapplication/ui/screens/sound/SoundWaveformScreen.kt:125-133 | the padded length is a power of two, at least N and at least 2, and no larger than any other such power |
| SoundWaveform.PaddedLengthUnique | MyApplication/app/src/main/java/it/dii/unipi/myapplication/ui/screens/sound/SoundWaveformScreen.kt:125-133 | any least power of two that is at least N and 2 is the padded length |
| SoundWaveform.NoPaddingForPowersOfTwo | MyApplication/app/src/main/java/it/dii/unipi/myapplication/ui/screens/sound/SoundWaveformScreen.kt:125-142 | a window of N >= 2 samples, N a power of two, is not padded |
| SoundWaveform.PaddingRule | MyApplication/app/src/main/java/it/dii/unipi/myapplication/ui/screens/sound/SoundWaveformScreen.kt:125-132 | the highestOneBit computation (N unchanged for a power of two, 2·highestOneBit(N) otherwise, 2 for N = 1) equals the padding rule |
| SoundWaveform.ZeroPadded | MyApplication/app/src/main/java/it/dii/unipi/myapplication/ui/screens/sound/SoundWaveformScreen.kt:133-139 | the array has length P, begins with the input, and is 0.0 from N to P-1 |
| SoundWaveform.Magnitudes | MyApplication/app/src/main/java/it/dii/unipi/myapplication/ui/screens/sound/SoundWaveformScreen.kt:146-154 | P/2 magnitudes: bin 0 is abs(t[0]), bin i is sqrt(t[2i]^2 + t[2i+1]^2), every read index < P |
| SoundWaveform.MagnitudesNonNegative | MyApplication/app/src/main/java/it/dii/unipi/myapplication/ui/screens/sound/SoundWaveformScreen.kt:148-153 | every magnitude is >= 0 when sqrt returns non-negative values |
| SoundWaveform.PadForTransform | MyApplication/app/src/main/java/it/dii/unipi/myapplication/ui/screens/sound/SoundWaveformScreen.kt:125-143 | the new array is ZeroPadded(input, PaddedLength(N)) |
| SoundWaveform.ReadMagnitudes | MyApplication/app/src/main/java/it/dii/unipi/myapplication/ui/screens/sound/SoundWaveformScreen.kt:146-156 | the loop returns exactly Magnitudes of the transformed array |
| SoundWaveform.CalculateFFT | MyApplication/app/src/main/java/it/dii/unipi/myapplication/ui/screens/sound/SoundWaveformScreen.kt:121-157 | empty input gives an empty result; otherwise PaddedLength(N)/2 magnitudes of the FFT of the zero-padded input |
| AudioHardware.AudioRecord.Start | MyApplication/app/src/main/java/it/dii/unipi/myapplication/model/AudioRecorder.kt:52-58 | a constructed and started microphone is capturing and not released |
| AudioHardware.AudioRecord.Stop | MyApplication/app/src/main/java/it/dii/unipi/myapplication/model/AudioRecorder.kt:162 | stop ends capturing |
| AudioHardware.AudioRecord.Release | MyApplication/app/src/main/java/it/dii/unipi/myapplication/model/AudioRecorder.kt:163 | release frees the microphone, which no longer captures |
| AudioHardware.Normalize | MyApplication/app/src/main/java/it/dii/unipi/myapplication/model/AudioRecorder.kt:69-71 | the normalised value times 32767 is the short |
| AudioHardware.NormalizeRange | MyApplication/app/src/main/java/it/dii/unipi/myapplication/model/AudioRecorder.kt:68-71 | every short but -32768 maps into [-1, 1]; -32768 maps below -1; the value is 1 iff the short is Short.MAX_VALUE |
| AudioHardware.NormalizeInjective | MyApplication/app/src/main/java/it/dii/unipi/myapplication/model/AudioRecorder.kt:69-71 | distinct shorts give distinct samples |
| AudioHardware.Normalized | MyApplication/app/src/main/java/it/dii/unipi/myapplication/controller/SoundSamplingActivity.kt:149-151 | a read of n shorts gives n samples, sample i being short[i] / 32767 |
| AudioHardware.NormalizedInRange | MyApplication/app/src/main/java/it/dii/unipi/myapplication/controller/SoundSamplingActivity.kt:148-151 | a chunk without -32768 lies in [-1, 1] |
| AudioRecorderModel.CalculateAudioDuration | MyApplication/app/src/main/java/it/dii/unipi/myapplication/model/AudioRecorder.kt:176-178 | a non-zero rate gives a finite duration d with d·rate = size; rate 0 gives NaN for an empty array and +infinity otherwise |
| AudioRecorderModel.DurationAtDefaultRate | MyApplication/app/src/main/java/it/dii/unipi/myapplication/model/AudioRecorder.kt:176-178 | 44100 samples last 1.0 s at the default rate, and the duration grows with the length |
| AudioRecorderModel.UploadRoundTrip | MyApplication/app/src/main/java/it/dii/unipi/myapplication/model/AudioRecorder.kt:125-133 | every field put in the upload body is read back unchanged |
| AudioRecorderModel.AudioRecorder.constructor | MyApplication/app/src/main/java/it/dii/unipi/myapplication/model/AudioRecorder.kt:28-34 | starts idle: no microphone, no job, no samples, avg 0.0 |
| AudioRecorderModel.AudioRecorder.IsRecording | MyApplication/app/src/main/java/it/dii/unipi/myapplication/model/AudioRecorder.kt:172-174 | recording implies a microphone is held |
| AudioRecorderModel.AudioRecorder.StartRecording | MyApplication/app/src/main/java/it/dii/unipi/myapplication/model/AudioRecorder.kt:43-94 | false and no change while a microphone is held; otherwise true iff construction succeeds, with a fresh capturing microphone and an active job; a thrown construction leaves everything unchanged |
| AudioRecorderModel.AudioRecorder.ReadChunk | MyApplication/app/src/main/java/it/dii/unipi/myapplication/model/AudioRecorder.kt:66-74 | a positive read replaces (never appends to) the samples by the normalised chunk, and avg becomes its mean; other reads change nothing |
| AudioRecorderModel.AudioRecorder.StopRecording | MyApplication/app/src/main/java/it/dii/unipi/myapplication/model/AudioRecorder.kt:96-170 | no-op when idle; returns early keeping the microphone before the first chunk; otherwise one upload iff a location is known, carrying the latest chunk's mean and length/44100, then the job is cancelled and the microphone stopped, released and dropped |
| AudioRecorderModel.StopBeforeFirstChunk | MyApplication/app/src/main/java/it/dii/unipi/myapplication/model/AudioRecorder.kt:112-117 | stopping before any chunk uploads nothing and keeps the same microphone, so the following start returns false |
| AudioSampleModel.Mean | MyApplication/app/src/main/java/it/dii/unipi/myapplication/model/AudioSample.kt:14 | average() is NaN iff the chunk is empty; otherwise a finite mean with mean·size = sum |
| AudioSampleModel.MeanBounded | MyApplication/app/src/main/java/it/dii/unipi/myapplication/model/AudioSample.kt:12-16 | the mean of samples in [-1, 1] lies in [-1, 1] |
| AudioSampleModel.MeanOfConstant | MyApplication/app/src/main/java/it/dii/unipi/myapplication/model/AudioSample.kt:12-16 | a chunk of equal samples has that value as mean |
| AudioSampleModel.ContentHash | MyApplication/app/src/main/java/it/dii/unipi/myapplication/model/AudioSample.kt:26-28 | contentHashCode is a 32-bit Int |
| AudioSampleModel.ContentHashIsPolynomialMod32 | MyApplication/app/src/main/java/it/dii/unipi/myapplication/model/AudioSample.kt:26-28 | wrapping at every step equals the exact polynomial 31^n + Σ bits·31^k reduced to 32 bits |
| Common.Wrap32 | MyApplication/app/src/main/java/it/dii/unipi/myapplication/model/AudioSample.kt:27 | Int arithmetic wraps into [-2^31, 2^31) |
| Common.WrapStep | MyApplication/app/src/main/java/it/dii/unipi/myapplication/model/AudioSample.kt:27 | wrapping the accumulator before 31·h + e gives the same Int as wrapping after |
| AudioSampleModel.AudioSample.constructor | MyApplication/app/src/main/java/it/dii/unipi/myapplication/model/AudioSample.kt:6-10 | holds the samples, with the cache at 0.0 |
| AudioSampleModel.AudioSample.GetAvg | MyApplication/app/src/main/java/it/dii/unipi/myapplication/model/AudioSample.kt:12-16 | always returns the mean, so repeated calls agree; the cache is rewritten only while it equals 0.0, so a zero mean is recomputed each call |
| AudioSampleModel.AudioSample.Equals | MyApplication/app/src/main/java/it/dii/unipi/myapplication/model/AudioSample.kt:19-23 | true iff the other is an AudioSample with the same sample contents |
| AudioSampleModel.AudioSample.HashCode | MyApplication/app/src/main/java/it/dii/unipi/myapplication/model/AudioSample.kt:26-28 | hashCode is the content hash of the samples |
| AudioSampleModel.EqualsReflexive | MyApplication/app/src/main/java/it/dii/unipi/myapplication/model/AudioSample.kt:20-22 | equals is reflexive |
| AudioSampleModel.EqualsSymmetric | MyApplication/app/src/main/java/it/dii/unipi/myapplication/model/AudioSample.kt:19-23 | equals is symmetric |
| AudioSampleModel.EqualsTransitive | MyApplication/app/src/main/java/it/dii/unipi/myapplication/model/AudioSample.kt:19-23 | equals is transitive |
| AudioSampleModel.EqualSamplesHashAlike | MyApplication/app/src/main/java/it/dii/unipi/myapplication/model/AudioSample.kt:22-28 | equal samples have equal hash codes |
| SoundSampling.StopMessage | MyApplication/app/src/main/java/it/dii/unipi/myapplication/controller/SoundSamplingActivity.kt:216-225 | the stop POST goes to the upload URL with message "ciao" |
| SoundSampling.SoundSamplingActivity.constructor | MyApplication/app/src/main/java/it/dii/unipi/myapplication/controller/SoundSamplingActivity.kt:46-48 | starts with no microphone, job or sample |
| SoundSampling.SoundSamplingActivity.IsRecording | MyApplication/app/src/main/java/it/dii/unipi/myapplication/controller/SoundSamplingActivity.kt:144 | the read loop's condition implies a microphone is held |
| SoundSampling.SoundSamplingActivity.StartRecording | MyApplication/app/src/main/java/it/dii/unipi/myapplication/controller/SoundSamplingActivity.kt:108-169 | no-op while a microphone is held; a failed construction leaves it null with no job; otherwise a fresh capturing microphone and an active job |
| SoundSampling.SoundSamplingActivity.ReadChunk | MyApplication/app/src/main/java/it/dii/unipi/myapplication/controller/SoundSamplingActivity.kt:146-153 | a positive read replaces the latest sample by the normalised chunk; other reads change nothing |
| SoundSampling.SoundSamplingActivity.StopRecording | MyApplication/app/src/main/java/it/dii/unipi/myapplication/controller/SoundSamplingActivity.kt:171-247 | always ends with no microphone (any held one stopped and released), the job cancelled, and the "ciao" message posted, even when idle |
| SoundSampling.SoundSamplingActivity.OnDestroy | MyApplication/app/src/main/java/it/dii/unipi/myapplication/controller/SoundSamplingActivity.kt:249-253 | destruction stops the recording as stop does: any held microphone is stopped and released, the job cancelled and "ciao" posted |
| SoundSampling.StopTwice | MyApplication/app/src/main/java/it/dii/unipi/myapplication/controller/SoundSamplingActivity.kt:203-213 | a second stop leaves the state of the first and posts the same message |
| SoundSampling.TDiv | MyApplication/app/src/main/java/it/dii/unipi/myapplication/controller/SoundSamplingActivity.kt:257-258 | Int division truncates toward zero: abs(q) = abs(a) div abs(b), and a nonzero q is negative exactly when the operands' signs differ (e.g. -7 / 2 = -3) |
| SoundSampling.CalculateAudioDuration | MyApplication/app/src/main/java/it/dii/unipi/myapplication/controller/SoundSamplingActivity.kt:255-259 | throws (None) exactly when the rate is 0 or the wrapped 2·channelCount is 0 (channelCount 0 or Int.MIN_VALUE) |
| SoundSampling.DivDiv | MyApplication/app/src/main/java/it/dii/unipi/myapplication/controller/SoundSamplingActivity.kt:257-258 | dividing by d then by r is dividing by d·r |
| SoundSampling.DurationWholeSeconds | MyApplication/app/src/main/java/it/dii/unipi/myapplication/controller/SoundSamplingActivity.kt:255-259 | for positive arguments without overflow the result is size div (2·channelCount·sampleRate) |
| SoundSampling.DurationZeroBelowTwoSeconds | MyApplication/app/src/main/java/it/dii/unipi/myapplication/controller/SoundSamplingActivity.kt:256-258 | the result is 0 iff the array has fewer than 2·channelCount·sampleRate elements (88200 with the defaults) |
| Store.Hex | MyApplication/server/app/repository.py:25 | str(ObjectId) is two lower-case hex digits per byte |
| Store.Unhex | MyApplication/server/app/repository.py:15 | an even-length hex string of 2n digits gives n bytes |
| Store.UnhexHex | MyApplication/server/app/repository.py:15-25 | parsing the printed bytes gives the bytes back |
| Store.HexUnhex | MyApplication/server/app/repository.py:13-18 | printing parsed bytes gives the input in lower case |
| Store.ParseObjectId | MyApplication/server/app/repository.py:15-18 | the model's ObjectId(s) succeeds iff s is 24 hex digits, otherwise InvalidId (see Left out for bson's looser test) |
| Store.ObjectIdRoundTrip | MyApplication/server/app/repository.py:32-34 | the id string create_user returns parses back to the inserted id |
| Store.ParsedIdPrintsLowerCase | MyApplication/server/app/repository.py:13-18 | a parsed id prints as the requested string in lower case |
| Store.CheckAcceptsHash | MyApplication/server/app/repository.py:41 | a bcrypt hash accepts the password it was generated from, whatever the salt |
| Store.FindByUsername | MyApplication/server/app/repository.py:9 | find_one by username gives None iff no document has the name, otherwise a stored document with that name |
| Store.FindById | MyApplication/server/app/repository.py:15 | find_one by _id gives None iff no document has the id, otherwise the stored document with it |
| Store.FindInsertedById | MyApplication/server/app/repository.py:24 | after inserting under a new id, that id finds the new document and every other id finds what it found before |
| Store.FindAppendedByUsername | MyApplication/server/app/repository.py:22-24 | after inserting, a name already present finds its old document, the new name finds the new document |
| Store.AppendKeepsUsernamesUnique | MyApplication/server/app/repository.py:22-24 | inserting a name not present keeps usernames unique |
| Store.FindMemberById | MyApplication/server/app/repository.py:15 | with unique ids, a stored document's id finds that document |
| Store.UsersCollection.InsertOne | MyApplication/server/app/repository.py:24 | appends one document with the username and hash under the new id, keeping ids unique, and returns the id |
| Models.NewUser | MyApplication/server/app/models.py:6-11 | id is str(_id) (parsing back to _id), username and password hash copied, count defaults to 0 and achievements to [] |
| Models.FromMongo | MyApplication/server/app/models.py:14-17 | no user iff no document; otherwise the user's id string parses back to the document's _id, and its username and password hash are the document's |
| Models.CheckPassword | MyApplication/server/app/models.py:34-35 | the password is accepted iff hashing it with the stored hash's salt reproduces the stored hash |
| Models.CreatedUserDefaults | MyApplication/server/app/models.py:27-32 | a created user has count 0 and achievements [], stores the hash rather than the password, and accepts its password |
| Models.CreateUser | MyApplication/server/app/models.py:27-32 | a taken name gives None and no insert; otherwise one document with the hash is inserted and its User returned; usernames stay unique |
| Repository.GetByUsername | MyApplication/server/app/repository.py:8-10 | a user iff the name is stored, and then with that name |
| Repository.GetById | MyApplication/server/app/repository.py:13-18 | a user iff the id is well formed and stored (a malformed id gives None, never an error), with the id in lower case |
| Repository.GetByIdOfStoredUser | MyApplication/server/app/repository.py:33-34 | with unique ids, a stored user's id string loads that same user |
| Repository.CreateUser | MyApplication/server/app/repository.py:21-25 | a taken name gives None and no insert; otherwise exactly one document is appended and its id string returned; usernames stay unique |
| Repository.Register | MyApplication/server/app/repository.py:28-36 | a taken name gives (None, 'Username already exists') and no change; otherwise exactly one document with the password's hash is added and (its user, None) returned; the 'User creation error' branch is unreachable |
| Repository.Authenticate | MyApplication/server/app/repository.py:39-43 | the user iff the name is stored and the password checks against its hash; a missing password for a stored name raises |
| Repository.RegisteredUserAuthenticates | MyApplication/server/app/repository.py:28-43 | after registering, the same credentials authenticate as the new user |
| Routes.App.LoadUser | MyApplication/server/app/routes.py:8-10 | the loaded user has the session's id (in lower case) |
| Routes.App.CurrentUser | MyApplication/server/app/routes.py:8-10 | a current user only when the session holds an id, and then the user load_user gives |
| Routes.App.Register | MyApplication/server/app/routes.py:12-23 | 400 without a truthy username and password, touching nothing; 409 with the repository's error; otherwise 200, one user added and that user logged in |
| Routes.App.Login | MyApplication/server/app/routes.py:25-34 | 200 and logged in iff authenticate returns a user; otherwise 401 "Invalid credentials" (500 for a missing password of a stored name) with the session unchanged |
| Routes.App.Logout | MyApplication/server/app/routes.py:36-40 | with a user logged in, clears it and answers 200; otherwise the login-required rejection |
| Routes.App.Profile | MyApplication/server/app/routes.py:42-45 | the rejection iff nobody is logged in; otherwise 200 with the current user's username |
| Routes.LoginThenProfile | MyApplication/server/app/routes.py:25-45 | after a successful login the profile shows the name that logged in |

## Left out

- Floating point: samples, sums and means are `real`. Float rounding and the Float/Double conversions are not modelled. The `Double` type keeps only what the code can reach: finite values, NaN and +infinity.
- `sqrt`, `log10`, JTransforms' `realForward`, `Float.floatToIntBits` and org.json's rendering of non-string values are function parameters. Nothing is assumed of them beyond what each lemma states in its `requires`.
- DataSender.Sender.ProcessBuffer: records each window's sum of squares and duration rather than the dB value. `NoiseLevelDb` gives the dB value from the sum of squares. The `db.toFloat()` narrowing is not modelled.
- DataSender.SendToServer: starts from the location the asynchronous lookup answered. The lookup itself, the coroutine and the order in which callbacks run are not modelled. The timestamp string from `SimpleDateFormat` is a parameter.
- SoundWaveform.CalculateFFT: requires at most 2^30 samples. Above that, `highestOneBit(n) shl 1` overflows `Int` and the source fails.
- SoundWaveform.CalculateFFT: requires the transform to keep the array's length, as an in-place transform does.
- SoundWaveform.CalculateFFT: the dialog, drawing and view code around it is not modelled.
- Coroutines and concurrency: each read loop is modelled one turn at a time (`ReadChunk`), sequentially. Cancellation races between the job and stop are not modelled.
- The read count's error codes are treated like a zero read; a thrown read that ends the loop is not modelled.
- The `sampleCallback` and waveform view updates are UI and are not modelled.
- Networking: requests are values (`Request`, `Post`), and the answer is the parameter `exchange`. OkHttp, timeouts and the response codes beyond success are not modelled.
- The upload's response is ignored by the source and is not modelled.
- Location services, permissions, `SessionManager` and the session cookie are inputs.
- AudioRecorderModel.AudioRecorder.StopRecording: the location is passed in rather than delivered by a callback. The upload is therefore returned directly, while in the source it is issued later from the callback.
- SoundSampling.CalculateAudioDuration: requires Int-range arguments and an array shorter than 2^31, which every Kotlin array is.
- bcrypt: a stand-in that accepts exactly the password a hash was made from. Its 72-byte truncation, cost factor and collision behaviour are not modelled.
- Repository.Register: requires a fresh ObjectId as a parameter (the driver generates a unique one). The same applies to Repository.CreateUser, Models.CreateUser and Store.UsersCollection.InsertOne.
- Store.ParseObjectId: accepts exactly 24 hex digits, while bson's `ObjectId(str)` only checks that the string has length 24 and that `bytes.fromhex` accepts it, so a 24-character string containing whitespace between hex pairs would also parse; ids reaching `get_by_id` through the routes are always `str(ObjectId)` written into the session, so such strings do not arise.
- Flask request parsing: a missing or non-JSON body and non-string `username`/`password` values (which raise or compare differently in Python) are not modelled. Fields are `Option<string>`.
- Routes.App.Logout: the reply for an anonymous user is the abstract `Unauthorized`. It depends on Flask-Login configuration outside these files (`login_view`), so the same holds for Routes.App.Profile.
- Models.FromMongo: falsy but present documents (an empty dict) cannot come from `find_one` on this collection, so "absent or falsy" is modelled as absent.
- `models.py`'s `User.get_by_username` (lines 20-24) duplicates `UserRepository.get_by_username` and is covered by Repository.GetByUsername.
- The Mongo collection is a sequence in insertion order rather than a map keyed by username. Mongo does not enforce unique usernames, so uniqueness is an invariant the code preserves, not a property of the store.
- `utils.py`, `app.py`, `extensions.py`, the map and heatmap screens, and the other activities are not part of this model.
