/** The one-second windowing accumulator of the client's DataSender, the
    measurement request it builds for each window, and the mapping from the
    server's answer to the notifications shown to the user. */
module DataSender {
  import opened Common

  /** Samples per second of audio, and so per window. */
  const SAMPLE_RATE: nat := 44100
  /** Floor applied to the RMS before taking the logarithm. */
  const MIN_RMS: real := 0.00000001

  /** One call of sendToServer: the completed window's sum of squares, from
      which the noise level is derived (NoiseLevelDb), and its duration. */
  datatype Emission = Emission(sumSquares: real, durationSec: real)

  // ---------------------------------------------------------------------
  // Specification of the windowing: a stream cut into 1-second blocks
  // ---------------------------------------------------------------------

  /** The windows a stream of samples completes: one per full block of
      SAMPLE_RATE consecutive samples, each lasting one second. */
  function Windows(s: seq<real>): seq<Emission>
    decreases |s|
  {
    if |s| < SAMPLE_RATE then []
    else [Emission(SumSquares(s[..SAMPLE_RATE]), 1.0)] + Windows(s[SAMPLE_RATE..])
  }

  /** The samples of a stream that no completed window has absorbed yet. */
  function Leftover(s: seq<real>): (r: seq<real>)
    decreases |s|
    ensures |r| < SAMPLE_RATE
  {
    if |s| < SAMPLE_RATE then s else Leftover(s[SAMPLE_RATE..])
  }

  /** A stream of n samples completes n div SAMPLE_RATE windows and leaves
      n mod SAMPLE_RATE samples pending. */
  lemma {:induction false} WindowCount(s: seq<real>)
    ensures |Windows(s)| == |s| / SAMPLE_RATE
    ensures |Leftover(s)| == |s| % SAMPLE_RATE
    decreases |s|
  {
    if |s| >= SAMPLE_RATE {
      WindowCount(s[SAMPLE_RATE..]);
    }
  }

  /** The pending samples are exactly the most recent ones: the suffix of the
      stream after the last completed window. */
  lemma {:induction false} LeftoverIsSuffix(s: seq<real>)
    ensures Leftover(s) == s[|s| - |s| % SAMPLE_RATE..]
  {
    LeftoverIsTail(s);
    WindowCount(s);
  }

  lemma {:induction false} LeftoverIsTail(s: seq<real>)
    ensures |Leftover(s)| <= |s| && Leftover(s) == s[|s| - |Leftover(s)|..]
    decreases |s|
  {
    if |s| >= SAMPLE_RATE {
      var t := s[SAMPLE_RATE..];
      LeftoverIsTail(t);
      assert t[|t| - |Leftover(t)|..] == s[|s| - |Leftover(t)|..];
    }
  }

  /** Window k is the k-th block of SAMPLE_RATE samples of the stream, and
      reports a duration of exactly one second. */
  lemma {:induction false} WindowAt(s: seq<real>, k: nat)
    requires (k + 1) * SAMPLE_RATE <= |s|
    ensures k < |Windows(s)|
    ensures Windows(s)[k] == Emission(SumSquares(s[k * SAMPLE_RATE..(k + 1) * SAMPLE_RATE]), 1.0)
    decreases k
  {
    if k > 0 {
      var t := s[SAMPLE_RATE..];
      WindowAt(t, k - 1);
      assert t[(k - 1) * SAMPLE_RATE..k * SAMPLE_RATE] == s[k * SAMPLE_RATE..(k + 1) * SAMPLE_RATE];
    }
  }

  /** Feeding a stream in two parts is the same as feeding it at once: the
      windows of x ++ y are those of x followed by those of what x left
      pending plus y, and the samples left pending agree. */
  lemma {:induction false} WindowsSplit(x: seq<real>, y: seq<real>)
    ensures Windows(x + y) == Windows(x) + Windows(Leftover(x) + y)
    ensures Leftover(x + y) == Leftover(Leftover(x) + y)
    decreases |x|
  {
    if |x| >= SAMPLE_RATE {
      var x' := x[SAMPLE_RATE..];
      assert (x + y)[..SAMPLE_RATE] == x[..SAMPLE_RATE];
      assert (x + y)[SAMPLE_RATE..] == x' + y;
      WindowsSplit(x', y);
    }
  }

  /** A block no longer than one window completes a window exactly when it
      is full, and is otherwise kept whole. */
  lemma WindowsOfShortBlock(z: seq<real>)
    requires |z| <= SAMPLE_RATE
    ensures Windows(z) == if |z| == SAMPLE_RATE then [Emission(SumSquares(z), 1.0)] else []
    ensures Leftover(z) == if |z| == SAMPLE_RATE then [] else z
  {
    if |z| == SAMPLE_RATE {
      assert z[..SAMPLE_RATE] == z;
      assert z[SAMPLE_RATE..] == [];
    }
  }

  /** One step of the accumulator: a chunk c that does not overflow the
      pending samples of `stream` completes at most one window. */
  lemma AbsorbChunk(stream: seq<real>, c: seq<real>)
    requires |Leftover(stream)| + |c| <= SAMPLE_RATE
    ensures var z := Leftover(stream) + c;
      && Windows(stream + c) == Windows(stream) + (if |z| == SAMPLE_RATE then [Emission(SumSquares(z), 1.0)] else [])
      && Leftover(stream + c) == (if |z| == SAMPLE_RATE then [] else z)
  {
    WindowsSplit(stream, c);
    WindowsOfShortBlock(Leftover(stream) + c);
  }

  /** Chunk independence of the accumulator: processing a then b from the
      pending samples p emits the same windows and leaves the same pending
      samples as processing a ++ b in one call. */
  lemma ChunkIndependence(p: seq<real>, a: seq<real>, b: seq<real>)
    ensures Windows(p + a) + Windows(Leftover(p + a) + b) == Windows(p + (a + b))
    ensures Leftover(Leftover(p + a) + b) == Leftover(p + (a + b))
  {
    WindowsSplit(p + a, b);
    assert (p + a) + b == p + (a + b);
  }

  /** The sequence of n zero samples. */
  function Zeros(n: nat): (z: seq<real>)
    ensures |z| == n && forall i :: 0 <= i < n ==> z[i] == 0.0
  {
    seq(n, i => 0.0)
  }

  lemma {:induction false} SumSquaresZeros(n: nat)
    ensures SumSquares(Zeros(n)) == 0.0
  {
    if n > 0 {
      assert Zeros(n)[..n - 1] == Zeros(n - 1);
      SumSquaresZeros(n - 1);
    }
  }

  /** One second of silence, however it is chunked, completes exactly one
      window, whose sum of squares is zero. */
  lemma SilentSecond()
    ensures Windows(Zeros(SAMPLE_RATE)) == [Emission(0.0, 1.0)]
    ensures Leftover(Zeros(SAMPLE_RATE)) == []
  {
    WindowsOfShortBlock(Zeros(SAMPLE_RATE));
    SumSquaresZeros(SAMPLE_RATE);
  }

  // ---------------------------------------------------------------------
  // Noise level of a window
  // ---------------------------------------------------------------------

  function Max(a: real, b: real): real { if a >= b then a else b }

  /** 20 log10(max(rms, MIN_RMS)) for a completed window; `sqrt` and
      `log10` stand for the library functions. */
  function NoiseLevelDb(sumSquares: real, sqrt: real -> real, log10: real -> real): (db: real)
  {
    20.0 * log10(Max(sqrt(sumSquares / SAMPLE_RATE as real), MIN_RMS))
  }

  /** A silent window reports the floor value, never minus infinity. */
  lemma SilenceReportsFloor(sqrt: real -> real, log10: real -> real)
    requires sqrt(0.0) == 0.0
    ensures NoiseLevelDb(SumSquares(Zeros(SAMPLE_RATE)), sqrt, log10) == 20.0 * log10(MIN_RMS)
  {
    SumSquaresZeros(SAMPLE_RATE);
  }

  // ---------------------------------------------------------------------
  // The accumulator itself
  // ---------------------------------------------------------------------

  lemma SumSquaresSnoc(p: seq<real>, v: real)
    ensures SumSquares(p + [v]) == SumSquares(p) + v * v
  {
    assert (p + [v])[..|p|] == p;
  }

  class Sender {
    var sumSquares: real
    var sampleCount: int
    /** The sendToServer calls made so far, in order. */
    var sent: seq<Emission>
    /** The samples absorbed since the last emission. */
    ghost var pending: seq<real>

    /** Between calls the counter is below one window, and the two
        accumulators describe exactly the samples since the last emission. */
    ghost predicate Valid()
      reads this
    {
      && 0 <= sampleCount < SAMPLE_RATE
      && sampleCount == |pending|
      && sumSquares == SumSquares(pending)
    }

    constructor ()
      ensures Valid()
      ensures pending == [] && sent == []
      ensures sumSquares == 0.0 && sampleCount == 0
    {
      sumSquares := 0.0;
      sampleCount := 0;
      sent := [];
      pending := [];
    }

    /** One turn of processBuffer's inner loop: one more sample squared into
        the running sum and counted. */
    method AbsorbSample(v: real)
      requires sumSquares == SumSquares(pending) && sampleCount == |pending|
      modifies this
      ensures sent == old(sent)
      ensures pending == old(pending) + [v]
      ensures sampleCount == |pending| && sumSquares == SumSquares(pending)
    {
      SumSquaresSnoc(pending, v);
      sumSquares := sumSquares + v * v;
      sampleCount := sampleCount + 1;
      pending := pending + [v];
    }

    /** The inner loop of processBuffer: adds `count` samples starting at
        `from` to the running sum of squares and to the counter. */
    method Absorb(buffer: seq<real>, from: nat, count: nat)
      requires from + count <= |buffer|
      requires sumSquares == SumSquares(pending) && sampleCount == |pending|
      modifies this
      ensures sent == old(sent)
      ensures pending == old(pending) + buffer[from..from + count]
      ensures sampleCount == |pending| && sumSquares == SumSquares(pending)
    {
      for i := 0 to count
        invariant pending == old(pending) + buffer[from..from + i]
        invariant sampleCount == |pending| && sumSquares == SumSquares(pending)
        invariant sent == old(sent)
      {
        AbsorbSample(buffer[from + i]);
        assert buffer[from..from + i + 1] == buffer[from..from + i] + [buffer[from + i]];
      }
    }

    /** The emission at the end of a window: one sendToServer call for the
        full window, lasting one second, then both accumulators reset. */
    method EmitWindow()
      requires sampleCount == SAMPLE_RATE
      requires sumSquares == SumSquares(pending) && sampleCount == |pending|
      modifies this
      ensures sent == old(sent) + [Emission(SumSquares(old(pending)), 1.0)]
      ensures Valid() && pending == []
    {
      var durationSec := sampleCount as real / SAMPLE_RATE as real;
      sent := sent + [Emission(sumSquares, durationSec)];
      sumSquares := 0.0;
      sampleCount := 0;
      pending := [];
    }

    /** Absorbs a chunk of samples of any length, emitting one window each
        time SAMPLE_RATE samples have been accumulated. */
    method ProcessBuffer(buffer: seq<real>)
      requires Valid()
      modifies this
      ensures Valid()
      ensures sent == old(sent) + Windows(old(pending) + buffer)
      ensures pending == Leftover(old(pending) + buffer)
      ensures |sent| == |old(sent)| + (old(sampleCount) + |buffer|) / SAMPLE_RATE
      ensures sampleCount == (old(sampleCount) + |buffer|) % SAMPLE_RATE
    {
      var offset := 0;
      while offset < |buffer|
        invariant 0 <= offset <= |buffer|
        invariant Valid()
        invariant sent == old(sent) + Windows(old(pending) + buffer[..offset])
        invariant pending == Leftover(old(pending) + buffer[..offset])
      {
        var remain := SAMPLE_RATE - sampleCount;
        var chunk := if |buffer| - offset < remain then |buffer| - offset else remain;
        ghost var stream := old(pending) + buffer[..offset];
        ghost var c := buffer[offset..offset + chunk];
        assert old(pending) + buffer[..offset + chunk] == stream + c;
        AbsorbChunk(stream, c);
        Absorb(buffer, offset, chunk);
        offset := offset + chunk;
        if sampleCount >= SAMPLE_RATE {
          EmitWindow();
          assert sent == old(sent) + Windows(stream + c) && pending == Leftover(stream + c);
        } else {
          assert sent == old(sent) + Windows(stream + c) && pending == Leftover(stream + c);
        }
      }
      assert buffer[..offset] == buffer;
      WindowCount(old(pending) + buffer);
    }
  }

  // ---------------------------------------------------------------------
  // The measurement request
  // ---------------------------------------------------------------------

  /** An HTTP POST: the URL, the Cookie header and the JSON body. */
  datatype Request = Request(url: string, cookie: string, body: Json)

  /** A GeoJSON Point geometry (RFC 7946, sections 3.1.1 and 3.1.2): a
      position is written longitude first, then latitude. */
  function GeoJsonPoint(loc: Location): Json
  {
    JObj(map["type" := JStr("Point"), "coordinates" := JArr([JNum(loc.longitude), JNum(loc.latitude)])])
  }

  /** Reads a GeoJSON Point back into a location, as a consumer of the
      measurement (the server) does. */
  function ParsePoint(j: Json): Option<Location>
  {
    match Member(j, "coordinates")
    case Some(JArr(c)) =>
      if Member(j, "type") == Some(JStr("Point")) && |c| == 2 && c[0].JNum? && c[1].JNum?
      then Some(Location(c[1].n, c[0].n))
      else None
    case _ => None
  }

  /** The decoded fields of a measurement body. */
  datatype Measurement = Measurement(
    userId: string, noiseLevel: real, durationSec: real, timestamp: string, location: Location)

  /** The JSON body DataSender posts for one window. */
  function MeasurementBody(m: Measurement): Json
  {
    JObj(map[
      "user_id" := JStr(m.userId),
      "noise_level" := JNum(m.noiseLevel),
      "duration" := JNum(m.durationSec),
      "timestamp" := JStr(m.timestamp),
      "location" := GeoJsonPoint(m.location)
    ])
  }

  /** Reads a measurement body back. */
  function ParseMeasurement(j: Json): Option<Measurement>
  {
    match (Member(j, "user_id"), Member(j, "noise_level"), Member(j, "duration"), Member(j, "timestamp"), Member(j, "location"))
    case (Some(JStr(u)), Some(JNum(db)), Some(JNum(d)), Some(JStr(t)), Some(l)) =>
      (match ParsePoint(l)
       case Some(loc) => Some(Measurement(u, db, d, t, loc))
       case None => None)
    case _ => None
  }

  /** The position in the body is [longitude, latitude], and reading it back
      recovers the location. */
  lemma PointRoundTrip(loc: Location)
    ensures Member(GeoJsonPoint(loc), "coordinates") == Some(JArr([JNum(loc.longitude), JNum(loc.latitude)]))
    ensures ParsePoint(GeoJsonPoint(loc)) == Some(loc)
  {
  }

  /** Every field DataSender puts in the body is read back unchanged. */
  lemma MeasurementRoundTrip(m: Measurement)
    ensures ParseMeasurement(MeasurementBody(m)) == Some(m)
  {
    PointRoundTrip(m.location);
  }

  /** The request sendToServer issues once the location lookup has answered:
      none without a fix, otherwise a POST to <base>/measurements carrying
      the session cookie and the measurement. */
  function BuildRequest(
    location: Option<Location>, baseUrl: string, cookie: string,
    username: string, noiseLevel: real, durationSec: real, timestamp: string): (r: Option<Request>)
    ensures r.None? <==> location.None?
    ensures r.Some? ==> r.value.url == baseUrl + "/measurements" && r.value.cookie == cookie
    ensures r.Some? ==>
      ParseMeasurement(r.value.body) == Some(Measurement(username, noiseLevel, durationSec, timestamp, location.value))
    ensures r.Some? ==> Member(r.value.body, "location") == Some(GeoJsonPoint(location.value))
  {
    match location
    case None => None
    case Some(loc) =>
      var m := Measurement(username, noiseLevel, durationSec, timestamp, loc);
      MeasurementRoundTrip(m);
      Some(Request(baseUrl + "/measurements", cookie, MeasurementBody(m)))
  }

  // ---------------------------------------------------------------------
  // Achievements in the server's answer
  // ---------------------------------------------------------------------

  /** What the HTTP exchange gave back: a response (its success flag and its
      body, None when the body is absent or not JSON), or a network failure. */
  datatype HttpResponse =
    | Response(successful: bool, body: Option<Json>)
    | NetworkFailure

  /** org.json's getString: a string member as it is, any other present
      value rendered as text by `render`; a missing member throws. */
  function GetString(obj: Json, key: string, render: Json -> string): Option<string>
  {
    match Member(obj, key)
    case None => None
    case Some(JStr(s)) => Some(s)
    case Some(v) => Some(render(v))
  }

  /** The toast text for one achievement entry, or None when reading the
      entry throws (it is not an object, or lacks a title or description). */
  function EntryMessage(entry: Json, render: Json -> string): Option<string>
  {
    if !entry.JObj? then None
    else match (GetString(entry, "title", render), GetString(entry, "description", render))
      case (Some(t), Some(d)) => Some("You achieved " + t + ": " + d)
      case _ => None
  }

  /** The toasts shown for a list of achievement entries: one per entry, in
      order, until the first entry whose reading throws (the exception ends
      the loop; the toasts already shown stay). */
  function Toasts(entries: seq<Json>, render: Json -> string): seq<string>
    decreases |entries|
  {
    if |entries| == 0 then []
    else match EntryMessage(entries[0], render)
      case None => []
      case Some(m) => [m] + Toasts(entries[1..], render)
  }

  /** The achievement entries of a response, or None when reading them
      throws or the response is not a success. */
  function AchievementEntries(resp: HttpResponse): Option<seq<Json>>
  {
    if resp.NetworkFailure? || !resp.successful || resp.body.None? || !resp.body.value.JObj? then None
    else match Member(resp.body.value, "achievements")
      case Some(JArr(entries)) => Some(entries)
      case _ => None
  }

  /** The notifications a response triggers. */
  function Notifications(resp: HttpResponse, render: Json -> string): seq<string>
  {
    match AchievementEntries(resp)
    case None => []
    case Some(entries) => Toasts(entries, render)
  }

  /** Toasts are the messages of the longest prefix of well-formed entries:
      message i is entry i's, and the entry after the last one shown (if
      any) is malformed. */
  lemma {:induction false} ToastsArePrefix(entries: seq<Json>, render: Json -> string)
    ensures |Toasts(entries, render)| <= |entries|
    ensures forall i :: 0 <= i < |Toasts(entries, render)| ==>
      EntryMessage(entries[i], render) == Some(Toasts(entries, render)[i])
    ensures |Toasts(entries, render)| < |entries| ==>
      EntryMessage(entries[|Toasts(entries, render)|], render).None?
    decreases |entries|
  {
    if |entries| > 0 && EntryMessage(entries[0], render).Some? {
      ToastsArePrefix(entries[1..], render);
    }
  }

  /** When every entry is well formed, there is one toast per achievement,
      in array order; an empty array shows none. */
  lemma {:induction false} OneToastPerAchievement(entries: seq<Json>, render: Json -> string)
    requires forall i :: 0 <= i < |entries| ==> EntryMessage(entries[i], render).Some?
    ensures |Toasts(entries, render)| == |entries|
    ensures forall i :: 0 <= i < |entries| ==>
      Toasts(entries, render)[i] == EntryMessage(entries[i], render).value
  {
    ToastsArePrefix(entries, render);
  }

  /** The achievement loop of sendToServer: reads the response and shows one
      toast per achievement until an entry cannot be read. */
  method ShowAchievements(resp: HttpResponse, render: Json -> string) returns (shown: seq<string>)
    ensures shown == Notifications(resp, render)
    ensures resp.NetworkFailure? || !resp.successful ==> shown == []
  {
    shown := [];
    var achievements := AchievementEntries(resp);
    if achievements.None? {
      return;
    }
    var entries := achievements.value;
    ToastsArePrefix(entries, render);
    var i := 0;
    while i < |entries|
      invariant 0 <= i <= |entries|
      invariant |shown| == i
      invariant forall k :: 0 <= k < i ==> EntryMessage(entries[k], render) == Some(shown[k])
    {
      var msg := EntryMessage(entries[i], render);
      if msg.None? {
        break;
      }
      shown := shown + [msg.value];
      i := i + 1;
    }
    ToastsUnique(entries, render, shown);
  }

  /** The prefix characterisation determines Toasts. */
  lemma {:induction false} ToastsUnique(entries: seq<Json>, render: Json -> string, shown: seq<string>)
    requires |shown| <= |entries|
    requires forall k :: 0 <= k < |shown| ==> EntryMessage(entries[k], render) == Some(shown[k])
    requires |shown| < |entries| ==> EntryMessage(entries[|shown|], render).None?
    ensures shown == Toasts(entries, render)
    decreases |entries|
  {
    if |entries| > 0 && |shown| > 0 {
      ToastsUnique(entries[1..], render, shown[1..]);
    }
  }

  /** The whole of sendToServer once the location lookup has answered: no
      request and no toast without a fix; otherwise the request above, and
      the toasts of whatever `exchange` answers. */
  method SendToServer(
    location: Option<Location>, baseUrl: string, cookie: string, username: string,
    noiseLevel: real, durationSec: real, timestamp: string,
    exchange: Request -> HttpResponse, render: Json -> string)
    returns (request: Option<Request>, shown: seq<string>)
    ensures request == BuildRequest(location, baseUrl, cookie, username, noiseLevel, durationSec, timestamp)
    ensures location.None? ==> request.None? && shown == []
    ensures request.Some? ==> shown == Notifications(exchange(request.value), render)
  {
    request := BuildRequest(location, baseUrl, cookie, username, noiseLevel, durationSec, timestamp);
    shown := [];
    if request.Some? {
      shown := ShowAchievements(exchange(request.value), render);
    }
  }
}
