/** The speech half of the pipeline (`TTSPipeline` in tts_pipeline.py): a
    chapter script is wrapped in `<speak>`, cut into chunks, each chunk is
    sent to the speech service, and the chunk-local mark timepoints are
    rebased onto one chapter-wide timeline by a running offset. `ProcessAll`
    runs every script of a folder in sorted order and keeps a summary of each
    chapter that succeeds.

    The speech service is a parameter `service` from the request's SSML to
    the service's reply, and pydub's length of the decoded audio is a
    parameter `durationMs`. */
module TtsPipeline {
  import opened Wrappers
  import opened PyText
  import opened Sorting
  import opened SsmlChunker

  type Bytes = seq<bv8>

  /** One timeline entry, `{"markName": ..., "timeSeconds": ...}`. */
  datatype Timepoint = Timepoint(markName: string, timeSeconds: real)

  /** The service's answer to one request: a failing HTTP status (which
      `raise_for_status` raises) or the JSON body, with its optional
      `audioContent` (already base64-decoded) and `timepoints` members. */
  datatype TtsReply =
    | HttpError(status: int)
    | Body(audioContent: Option<Bytes>, timepoints: Option<seq<Timepoint>>)

  /** What `_synthesize_chunk` hands back: the chunk's audio, its duration in
      seconds and its chunk-local timepoints. */
  datatype Synthesis = Synthesis(audio: Bytes, duration: real, timepoints: seq<Timepoint>)

  /** The two ways `_synthesize_chunk` raises. */
  datatype TtsError = RequestFailed(status: int) | NoAudioContent

  /** A synthesized chapter: the chunk audio in order (concatenated into the
      chapter's MP3), the global timepoints, and the final offset. */
  datatype ChapterAudio = ChapterAudio(segments: seq<Bytes>, timepoints: seq<Timepoint>, duration: real)

  /** One entry of `process_all`'s results. */
  datatype ChapterSummary = ChapterSummary(chapter: nat, audio: string, timepoints: nat)

  /** `len(AudioSegment) / 1000.0`: pydub measures whole milliseconds. */
  function Seconds(ms: nat): (r: real)
    ensures r >= 0.0 && r * 1000.0 == ms as real
  {
    ms as real / 1000.0
  }

  // ---------------------------------------------------------------------
  // One chunk
  // ---------------------------------------------------------------------

  /** `_synthesize_chunk` on the service's reply. It fails on an HTTP error
      and on a body without `audioContent`; a body without `timepoints`
      gives no timepoints. */
  function SynthesizeChunk(reply: TtsReply, durationMs: Bytes -> nat): (r: Result<Synthesis, TtsError>)
    ensures reply.HttpError? ==> r == Err(RequestFailed(reply.status))
    ensures reply.Body? && reply.audioContent.None? ==> r == Err(NoAudioContent)
    ensures r.Ok? <==> reply.Body? && reply.audioContent.Some?
    ensures r.Ok? ==> (r.value.audio == reply.audioContent.value
      && r.value.duration == Seconds(durationMs(reply.audioContent.value)) && r.value.duration >= 0.0
      && (reply.timepoints.Some? ==> r.value.timepoints == reply.timepoints.value)
      && (reply.timepoints.None? ==> r.value.timepoints == []))
  {
    match reply
    case HttpError(status) => Err(RequestFailed(status))
    case Body(audio, tps) =>
      if audio.None? then Err(NoAudioContent)
      else Ok(Synthesis(audio.value, Seconds(durationMs(audio.value)), tps.GetOr([])))
  }

  /** Synthesis of every chunk in order; the first failure ends the chapter. */
  function SynthesizeAll(chunks: seq<string>, service: string -> TtsReply, durationMs: Bytes -> nat)
    : Result<seq<Synthesis>, TtsError>
    decreases |chunks|
  {
    if chunks == [] then Ok([])
    else
      match SynthesizeAll(chunks[..|chunks| - 1], service, durationMs)
      case Err(e) => Err(e)
      case Ok(rs) =>
        match SynthesizeChunk(service(chunks[|chunks| - 1]), durationMs)
        case Err(e) => Err(e)
        case Ok(s) => Ok(rs + [s])
  }

  /** Synthesis succeeds exactly when every chunk does, and then gives each
      chunk's own result in chunk order; otherwise its error is that of the
      first chunk that fails. */
  lemma {:induction false} SynthesizeAllChunkwise(chunks: seq<string>, service: string -> TtsReply, durationMs: Bytes -> nat)
    ensures var r := SynthesizeAll(chunks, service, durationMs);
      && (r.Ok? <==> forall k :: 0 <= k < |chunks| ==> SynthesizeChunk(service(chunks[k]), durationMs).Ok?)
      && (r.Ok? ==> (|r.value| == |chunks|
          && forall k :: 0 <= k < |chunks| ==> r.value[k] == SynthesizeChunk(service(chunks[k]), durationMs).value))
      && (r.Err? ==> exists k :: (0 <= k < |chunks| && SynthesizeChunk(service(chunks[k]), durationMs) == Err(r.error)
          && forall j :: 0 <= j < k ==> SynthesizeChunk(service(chunks[j]), durationMs).Ok?))
    decreases |chunks|
  {
    if chunks != [] {
      var init := chunks[..|chunks| - 1];
      SynthesizeAllChunkwise(init, service, durationMs);
      assert forall k :: 0 <= k < |init| ==> init[k] == chunks[k];
    }
  }

  /** Once a prefix of the chunks fails, the whole chapter fails the same way. */
  lemma {:induction false} SynthesizeAllErrPrefix(chunks: seq<string>, i: nat, service: string -> TtsReply, durationMs: Bytes -> nat)
    requires i <= |chunks|
    requires SynthesizeAll(chunks[..i], service, durationMs).Err?
    ensures SynthesizeAll(chunks, service, durationMs) == SynthesizeAll(chunks[..i], service, durationMs)
    decreases |chunks|
  {
    if i < |chunks| {
      var init := chunks[..|chunks| - 1];
      assert init[..i] == chunks[..i];
      SynthesizeAllErrPrefix(init, i, service, durationMs);
    } else {
      assert chunks[..i] == chunks;
    }
  }

  // ---------------------------------------------------------------------
  // The timeline
  // ---------------------------------------------------------------------

  /** The chunk's timepoints moved by `offset`, names unchanged. */
  function Shift(tps: seq<Timepoint>, offset: real): (r: seq<Timepoint>)
    ensures |r| == |tps|
    ensures forall j :: 0 <= j < |tps| ==> r[j] == Timepoint(tps[j].markName, offset + tps[j].timeSeconds)
  {
    seq(|tps|, j requires 0 <= j < |tps| => Timepoint(tps[j].markName, offset + tps[j].timeSeconds))
  }

  /** The sum of the chunks' durations. */
  function TotalDuration(rs: seq<Synthesis>): real
    decreases |rs|
  {
    if rs == [] then 0.0 else TotalDuration(rs[..|rs| - 1]) + rs[|rs| - 1].duration
  }

  /** The sum of the chunks' timepoint counts. */
  function Counts(rs: seq<Synthesis>): nat
    decreases |rs|
  {
    if rs == [] then 0 else Counts(rs[..|rs| - 1]) + |rs[|rs| - 1].timepoints|
  }

  /** The global timepoints: every chunk's timepoints in chunk order, each
      shifted by the total duration of the chunks before it. */
  function Timeline(rs: seq<Synthesis>): (r: seq<Timepoint>)
    ensures |r| == Counts(rs)
    decreases |rs|
  {
    if rs == [] then []
    else
      var init := rs[..|rs| - 1];
      Timeline(init) + Shift(rs[|rs| - 1].timepoints, TotalDuration(init))
  }

  /** The chunk audio in chunk order. */
  function Segments(rs: seq<Synthesis>): (r: seq<Bytes>)
    ensures |r| == |rs| && forall k :: 0 <= k < |rs| ==> r[k] == rs[k].audio
  {
    seq(|rs|, k requires 0 <= k < |rs| => rs[k].audio)
  }

  /** Appending one chunk's results. */
  lemma AccumulateOne(rs: seq<Synthesis>, s: Synthesis)
    ensures Timeline(rs + [s]) == Timeline(rs) + Shift(s.timepoints, TotalDuration(rs))
    ensures TotalDuration(rs + [s]) == TotalDuration(rs) + s.duration
    ensures Segments(rs + [s]) == Segments(rs) + [s.audio]
  {
    assert (rs + [s])[..|rs|] == rs;
  }

  /** The timeline of the first `n` chunks is a prefix of the whole timeline. */
  lemma {:induction false} TimelinePrefix(rs: seq<Synthesis>, n: nat)
    requires n <= |rs|
    ensures Counts(rs[..n]) <= Counts(rs)
    ensures Timeline(rs)[..Counts(rs[..n])] == Timeline(rs[..n])
    decreases |rs|
  {
    if n == |rs| {
      assert rs[..n] == rs;
    } else {
      var init := rs[..|rs| - 1];
      assert init[..n] == rs[..n];
      TimelinePrefix(init, n);
      var t := Timeline(rs);
      assert t == Timeline(init) + Shift(rs[|rs| - 1].timepoints, TotalDuration(init));
      assert t[..|Timeline(init)|] == Timeline(init);
    }
  }

  /** The rebasing formula: timepoint `j` of chunk `i` stands at position
      `Counts(rs[..i]) + j` of the timeline, with its name unchanged and its
      time moved by the total duration of chunks `0..i-1`. */
  lemma TimelineAt(rs: seq<Synthesis>, i: nat, j: nat)
    requires i < |rs| && j < |rs[i].timepoints|
    ensures Counts(rs[..i]) + j < |Timeline(rs)|
    ensures Timeline(rs)[Counts(rs[..i]) + j]
      == Timepoint(rs[i].timepoints[j].markName, TotalDuration(rs[..i]) + rs[i].timepoints[j].timeSeconds)
  {
    var pre := rs[..i + 1];
    assert pre[..i] == rs[..i];
    assert pre[i] == rs[i];
    TimelinePrefix(rs, i + 1);
    var t := Timeline(pre);
    assert t == Timeline(rs[..i]) + Shift(rs[i].timepoints, TotalDuration(rs[..i]));
    assert t[Counts(rs[..i]) + j] == Shift(rs[i].timepoints, TotalDuration(rs[..i]))[j];
    assert Timeline(rs)[Counts(rs[..i]) + j] == t[Counts(rs[..i]) + j];
  }

  /** A chunk whose timepoints are in time order, within its own audio. */
  predicate WellTimed(s: Synthesis) {
    && s.duration >= 0.0
    && (forall j :: 0 <= j < |s.timepoints| ==> 0.0 <= s.timepoints[j].timeSeconds <= s.duration)
    && (forall j :: 0 < j < |s.timepoints| ==> s.timepoints[j - 1].timeSeconds <= s.timepoints[j].timeSeconds)
  }

  predicate TimesSorted(t: seq<Timepoint>) {
    forall k :: 0 < k < |t| ==> t[k - 1].timeSeconds <= t[k].timeSeconds
  }

  /** When every chunk is well timed, the chapter timeline never goes back in
      time and lies within [0, total duration]. The code does not check this
      itself: a chunk with out-of-order timepoints passes through as it is. */
  lemma {:induction false} TimelineSorted(rs: seq<Synthesis>)
    requires forall k :: 0 <= k < |rs| ==> WellTimed(rs[k])
    ensures TimesSorted(Timeline(rs))
    ensures TotalDuration(rs) >= 0.0
    ensures forall k :: 0 <= k < |Timeline(rs)| ==> 0.0 <= Timeline(rs)[k].timeSeconds <= TotalDuration(rs)
    decreases |rs|
  {
    if rs != [] {
      var init := rs[..|rs| - 1];
      var last := rs[|rs| - 1];
      assert WellTimed(last);
      assert forall k :: 0 <= k < |init| ==> init[k] == rs[k];
      TimelineSorted(init);
      var a := Timeline(init);
      var off := TotalDuration(init);
      var b := Shift(last.timepoints, off);
      var t := a + b;
      assert Timeline(rs) == t;
      forall k | 0 < k < |t| ensures t[k - 1].timeSeconds <= t[k].timeSeconds {
        if k < |a| {
          assert t[k - 1] == a[k - 1] && t[k] == a[k];
        } else if k == |a| {
          assert t[k] == b[0];
        } else {
          assert t[k - 1] == b[k - 1 - |a|] && t[k] == b[k - |a|];
        }
      }
      forall k | 0 <= k < |t| ensures 0.0 <= t[k].timeSeconds <= TotalDuration(rs) {
        if k < |a| {
          assert t[k] == a[k];
        } else {
          assert t[k] == b[k - |a|];
        }
      }
    }
  }

  // ---------------------------------------------------------------------
  // The temp folder
  // ---------------------------------------------------------------------

  /** The temp-folder file of chunk `i` (counted from 1) of chapter `n`,
      `chapter{n}_chunk{i}.mp3`. */
  function ChunkFile(n: nat, i: nat): string {
    "chapter" + Decimal(n) + "_chunk" + Decimal(i) + ".mp3"
  }

  /** The chunk files of chunks 1 to `k` of chapter `n`. */
  function ChunkFiles(n: nat, k: nat): (r: set<string>)
    ensures forall i :: 1 <= i <= k ==> ChunkFile(n, i) in r
    decreases k
  {
    if k == 0 then {} else ChunkFiles(n, k - 1) + {ChunkFile(n, k)}
  }

  /** A chunk file names its chapter: two chapters never share one. */
  lemma ChunkFileNumber(n: nat, i: nat, m: nat, j: nat)
    requires ChunkFile(n, i) == ChunkFile(m, j)
    ensures n == m
  {
    ChunkFileDigits(n, i);
    ChunkFileDigits(m, j);
    DecimalValue(n);
    DecimalValue(m);
  }

  lemma ChunkFileDigits(n: nat, i: nat)
    ensures |ChunkFile(n, i)| >= 7 && DigitPrefix(ChunkFile(n, i)[7..]) == Decimal(n)
  {
    var q := "_chunk" + Decimal(i) + ".mp3";
    assert ChunkFile(n, i) == "chapter" + (Decimal(n) + q);
    assert ChunkFile(n, i)[7..] == Decimal(n) + q;
    DigitPrefixOf(Decimal(n), q);
  }

  /** No chunk file of chapter `m` is among those of another chapter. */
  lemma {:induction false} ChunkFilesOfOthers(n: nat, k: nat, m: nat, i: nat)
    requires m != n
    ensures ChunkFile(m, i) !in ChunkFiles(n, k)
    decreases k
  {
    if k > 0 {
      ChunkFilesOfOthers(n, k - 1, m, i);
      if ChunkFile(m, i) == ChunkFile(n, k) {
        ChunkFileNumber(m, i, n, k);
      }
    }
  }

  /** The chunk files of the first `j` chunks are among those of the first `k`. */
  lemma {:induction false} ChunkFilesGrow(n: nat, j: nat, k: nat)
    requires j <= k
    ensures ChunkFiles(n, j) <= ChunkFiles(n, k)
    decreases k
  {
    if j < k {
      ChunkFilesGrow(n, j, k - 1);
    }
  }

  /** How many chunks, from the first, `_synthesize_chunk` completes before
      one raises (all of them when none does); each of these has written its
      audio to its chunk file. */
  function Synthesized(chunks: seq<string>, service: string -> TtsReply, durationMs: Bytes -> nat): (k: nat)
    ensures k <= |chunks|
    ensures k == |chunks| <==> SynthesizeAll(chunks, service, durationMs).Ok?
    ensures forall j :: 0 <= j < k ==> SynthesizeChunk(service(chunks[j]), durationMs).Ok?
    ensures k < |chunks| ==> SynthesizeChunk(service(chunks[k]), durationMs).Err?
    decreases |chunks|
  {
    if chunks == [] then 0
    else
      var init := chunks[..|chunks| - 1];
      var k := Synthesized(init, service, durationMs);
      assert forall j :: 0 <= j < |init| ==> init[j] == chunks[j];
      if SynthesizeAll(init, service, durationMs).Err? then k
      else if SynthesizeChunk(service(chunks[|chunks| - 1]), durationMs).Err? then |chunks| - 1
      else |chunks|
  }

  /** The chunks before the first one that fails: when the first `i` succeed
      and chunk `i` fails, exactly `i` chunk files are written. */
  lemma SynthesizedFirstFailure(chunks: seq<string>, i: nat, service: string -> TtsReply, durationMs: Bytes -> nat)
    requires i < |chunks|
    requires SynthesizeAll(chunks[..i], service, durationMs).Ok?
    requires SynthesizeChunk(service(chunks[i]), durationMs).Err?
    ensures Synthesized(chunks, service, durationMs) == i
  {
    var pre := chunks[..i];
    SynthesizeAllChunkwise(pre, service, durationMs);
    assert forall j :: 0 <= j < i ==> pre[j] == chunks[j];
  }

  /** Why `process_chapter` raises: a chunk's synthesis fails, or
      `temp_dir.rmdir()` finds the temp folder not empty. */
  datatype ChapterFailure = SynthesisFailed(error: TtsError) | TempNotEmpty(left: set<string>)

  /** What `process_chapter` gives, and the temp folder's contents after it. */
  datatype ChapterRun = ChapterRun(result: Result<ChapterAudio, ChapterFailure>, temp: set<string>)

  /** `process_chapter` for chapter `n` from a temp folder holding `temp`:
      when a chunk fails, the chunk files written before it stay behind; on
      success the chapter's own chunk files are removed, and `rmdir` raises
      when anything else is left. */
  function ChapterInFolder(rawText: string, n: nat, temp: set<string>, maxLen: nat,
                           service: string -> TtsReply, durationMs: Bytes -> nat): ChapterRun
  {
    var chunks := ChapterChunks(rawText, maxLen);
    var files := temp + ChunkFiles(n, Synthesized(chunks, service, durationMs));
    match Chapter(rawText, maxLen, service, durationMs)
    case Err(e) => ChapterRun(Err(SynthesisFailed(e)), files)
    case Ok(c) =>
      var left := files - ChunkFiles(n, |chunks|);
      if left == {} then ChapterRun(Ok(c), {}) else ChapterRun(Err(TempNotEmpty(left)), left)
  }

  /** A chapter succeeds exactly when its synthesis does and the temp folder
      held nothing but its own chunk files, and then leaves the folder empty;
      a file that is not one of its chunk files makes it raise and stays; and
      a chapter whose synthesis fails after its first chunk leaves that
      chunk's file behind. */
  lemma ChapterInFolderEffect(rawText: string, n: nat, temp: set<string>, maxLen: nat,
                              service: string -> TtsReply, durationMs: Bytes -> nat)
    ensures var run := ChapterInFolder(rawText, n, temp, maxLen, service, durationMs);
      var chunks := ChapterChunks(rawText, maxLen);
      var c := Chapter(rawText, maxLen, service, durationMs);
      && (run.result.Ok? <==> c.Ok? && temp <= ChunkFiles(n, |chunks|))
      && (run.result.Ok? ==> run.result.value == c.value && run.temp == {})
      && (c.Err? ==> run.result == Err(SynthesisFailed(c.error)) && temp <= run.temp)
      && (forall f :: f in temp && f !in ChunkFiles(n, |chunks|) ==> run.result.Err? && f in run.temp)
      && (c.Err? && Synthesized(chunks, service, durationMs) > 0 ==> ChunkFile(n, 1) in run.temp)
  {
    var chunks := ChapterChunks(rawText, maxLen);
    var k := Synthesized(chunks, service, durationMs);
    ChunkFilesGrow(n, k, |chunks|);
    if k > 0 {
      ChunkFilesGrow(n, 1, k);
    }
    var files := temp + ChunkFiles(n, k);
    assert files - ChunkFiles(n, |chunks|) == temp - ChunkFiles(n, |chunks|);
  }

  // ---------------------------------------------------------------------
  // One chapter
  // ---------------------------------------------------------------------

  /** The chunks `process_chapter` sends: the stripped script, wrapped in
      `<speak>`, split by `_split_ssml`. */
  function ChapterChunks(rawText: string, maxLen: nat): seq<string> {
    WrapAll(ChunkInners(Wrap(Strip(rawText)), maxLen))
  }

  /** The outcome of synthesizing `chunks` in order and accumulating their
      timepoints, or the error of the first chunk that fails. */
  function Accumulated(chunks: seq<string>, service: string -> TtsReply, durationMs: Bytes -> nat)
    : Result<ChapterAudio, TtsError>
  {
    match SynthesizeAll(chunks, service, durationMs)
    case Err(e) => Err(e)
    case Ok(rs) => Ok(ChapterAudio(Segments(rs), Timeline(rs), TotalDuration(rs)))
  }

  /** What `process_chapter` produces for the script text, or why it raises. */
  function Chapter(rawText: string, maxLen: nat, service: string -> TtsReply, durationMs: Bytes -> nat)
    : Result<ChapterAudio, TtsError>
  {
    Accumulated(ChapterChunks(rawText, maxLen), service, durationMs)
  }

  /** `process_chapter` for chapter `n` after the script is read, from a
      temp folder holding `temp`: the stripped text is wrapped, split into
      chunks and synthesized; on success the chunk files are unlinked and the
      temp folder removed, which raises when anything is left in it. */
  method ProcessChapter(rawText: string, n: nat, temp: set<string>, maxLen: nat,
                        service: string -> TtsReply, durationMs: Bytes -> nat)
    returns (run: ChapterRun)
    ensures run == ChapterInFolder(rawText, n, temp, maxLen, service, durationMs)
  {
    var raw := Strip(rawText);
    var ssml := Wrap(raw);
    var chunks := SplitSsml(ssml, maxLen);
    var audio, files := SynthesizeChapter(chunks, n, temp, service, durationMs);
    if audio.Err? {
      return ChapterRun(Err(SynthesisFailed(audio.error)), files);
    }
    // `chunk_files` holds one file per chunk here.
    files := UnlinkChunkFiles(files, n, |chunks|);
    if files != {} {
      return ChapterRun(Err(TempNotEmpty(files)), files);
    }
    return ChapterRun(Ok(audio.value), {});
  }

  /** The unlink loop of `process_chapter`: the files of chunks `1..k` of
      chapter `n` are removed from the temp folder, and nothing else. */
  method UnlinkChunkFiles(files: set<string>, n: nat, k: nat) returns (left: set<string>)
    ensures left == files - ChunkFiles(n, k)
  {
    left := files;
    var j := 0;
    while j < k
      invariant 0 <= j <= k
      invariant left == files - ChunkFiles(n, j)
    {
      left := left - {ChunkFile(n, j + 1)};
      j := j + 1;
    }
  }

  /** The loop of `process_chapter`: each chunk is synthesized in turn, its
      audio written to its chunk file and kept, its timepoints appended with
      the running `offset` added, and its duration added to `offset`. */
  method SynthesizeChapter(chunks: seq<string>, n: nat, temp: set<string>,
                           service: string -> TtsReply, durationMs: Bytes -> nat)
    returns (r: Result<ChapterAudio, TtsError>, files: set<string>)
    ensures r == Accumulated(chunks, service, durationMs)
    ensures files == temp + ChunkFiles(n, Synthesized(chunks, service, durationMs))
  {
    var segments: seq<Bytes> := [];
    var timeline: seq<Timepoint> := [];
    var offset: real := 0.0;
    ghost var done: seq<Synthesis> := [];
    files := temp;
    var i := 0;
    while i < |chunks|
      invariant 0 <= i <= |chunks|
      invariant SynthesizeAll(chunks[..i], service, durationMs) == Ok(done)
      invariant segments == Segments(done)
      invariant timeline == Timeline(done)
      invariant offset == TotalDuration(done)
      invariant files == temp + ChunkFiles(n, i)
    {
      var result := SynthesizeChunk(service(chunks[i]), durationMs);
      assert chunks[..i + 1][..i] == chunks[..i];
      if result.Err? {
        SynthesizeAllErrPrefix(chunks, i + 1, service, durationMs);
        SynthesizedFirstFailure(chunks, i, service, durationMs);
        return Err(result.error), files;
      }
      var s := result.value;
      files := files + {ChunkFile(n, i + 1)};
      segments := segments + [s.audio];
      timeline := AppendShifted(timeline, s.timepoints, offset);
      AccumulateOne(done, s);
      offset := offset + s.duration;
      done := done + [s];
      i := i + 1;
    }
    assert chunks[..i] == chunks;
    r := Ok(ChapterAudio(segments, timeline, offset));
  }

  /** The inner loop of the offset accumulation: every timepoint of one
      chunk, appended in order with `offset` added to its time. */
  method AppendShifted(timeline: seq<Timepoint>, tps: seq<Timepoint>, offset: real) returns (t: seq<Timepoint>)
    ensures t == timeline + Shift(tps, offset)
  {
    t := timeline;
    var j := 0;
    while j < |tps|
      invariant 0 <= j <= |tps|
      invariant t == timeline + Shift(tps[..j], offset)
    {
      var tp := tps[j];
      assert Shift(tps[..j + 1], offset) == Shift(tps[..j], offset) + [Timepoint(tp.markName, offset + tp.timeSeconds)];
      t := t + [Timepoint(tp.markName, offset + tp.timeSeconds)];
      j := j + 1;
    }
    assert tps[..j] == tps;
  }

  /** The chunks of a chapter, unwrapped and concatenated, are exactly the
      stripped script. */
  lemma ChapterChunksRoundTrip(rawText: string, maxLen: nat)
    ensures Concat(ChunkInners(Wrap(Strip(rawText)), maxLen)) == Strip(rawText)
  {
    ChunksRoundTrip(Wrap(Strip(rawText)), maxLen);
    UnwrapWrap(Strip(rawText));
  }

  /** A synthesized chapter has one audio segment per chunk, as many
      timepoints as the service reported over all chunks, and its final
      offset is the sum of the chunk durations. */
  lemma ChapterShape(rawText: string, maxLen: nat, service: string -> TtsReply, durationMs: Bytes -> nat)
    requires Chapter(rawText, maxLen, service, durationMs).Ok?
    ensures var c := Chapter(rawText, maxLen, service, durationMs).value;
      var rs := SynthesizeAll(ChapterChunks(rawText, maxLen), service, durationMs).value;
      && |c.segments| == |ChapterChunks(rawText, maxLen)|
      && |c.timepoints| == Counts(rs)
      && c.duration == TotalDuration(rs) >= 0.0
  {
    var rs := SynthesizeAll(ChapterChunks(rawText, maxLen), service, durationMs).value;
    SynthesizeAllChunkwise(ChapterChunks(rawText, maxLen), service, durationMs);
    DurationsNonNegative(rs);
  }

  lemma {:induction false} DurationsNonNegative(rs: seq<Synthesis>)
    requires forall k :: 0 <= k < |rs| ==> rs[k].duration >= 0.0
    ensures TotalDuration(rs) >= 0.0
    decreases |rs|
  {
    if rs != [] {
      var init := rs[..|rs| - 1];
      assert forall k :: 0 <= k < |init| ==> init[k] == rs[k];
      DurationsNonNegative(init);
    }
  }

  /** One chunk, local timepoints p1 at 1.0 s and p2 at 2.5 s, 4.0 s of audio:
      the chapter timeline is the local one and the total is 4.0 s. */
  lemma OneChunkScenario(a: Bytes)
    ensures var rs := [Synthesis(a, 4.0, [Timepoint("p1", 1.0), Timepoint("p2", 2.5)])];
      Timeline(rs) == [Timepoint("p1", 1.0), Timepoint("p2", 2.5)] && TotalDuration(rs) == 4.0
  {
    var rs := [Synthesis(a, 4.0, [Timepoint("p1", 1.0), Timepoint("p2", 2.5)])];
    assert rs[..0] == [];
  }

  /** Two chunks of 4.0 s and 3.0 s with p1 at 1.0 s and p2 at 0.5 s locally:
      p2 lands at 4.5 s and the total is 7.0 s. */
  lemma TwoChunkScenario(a: Bytes, b: Bytes)
    ensures var rs := [Synthesis(a, 4.0, [Timepoint("p1", 1.0)]), Synthesis(b, 3.0, [Timepoint("p2", 0.5)])];
      Timeline(rs) == [Timepoint("p1", 1.0), Timepoint("p2", 4.5)] && TotalDuration(rs) == 7.0
  {
    var s1 := Synthesis(a, 4.0, [Timepoint("p1", 1.0)]);
    var s2 := Synthesis(b, 3.0, [Timepoint("p2", 0.5)]);
    AccumulateOne([], s1);
    assert [] + [s1] == [s1];
    AccumulateOne([s1], s2);
    assert [s1] + [s2] == [s1, s2];
  }

  // ---------------------------------------------------------------------
  // All chapters
  // ---------------------------------------------------------------------

  /** `sorted(Path(scripts_folder).glob("*.txt"))` on the folder's file
      names: the names ending in `.txt`, in `str` order. */
  function ScriptFiles(entries: seq<string>): seq<string> {
    SortBy(Filter(entries, (name: string) => EndsWith(name, ".txt")), LexLe)
  }

  /** The chapter number: the first digit run of the file's stem, read as an
      integer; `None` where `re.search` finds nothing and `.group()` raises. */
  function ChapterNumber(file: string): (r: Option<nat>)
    ensures r.None? <==> forall k :: 0 <= k < |Stem(file)| ==> !IsDigit(Stem(file)[k])
  {
    match FirstDigitRun(Stem(file))
    case None => None
    case Some(d) => Some(DigitsValue(d))
  }

  /** `str(audio_out)` without the output folder. */
  function AudioName(n: nat): string {
    "chapter" + Decimal(n) + ".mp3"
  }

  /** The summaries one chapter contributes when it runs in a temp folder of
      its own: one on success, none when its file cannot be read or its
      synthesis raises. */
  function Outcome(file: string, n: nat, read: string -> Option<string>, maxLen: nat,
                   service: string -> TtsReply, durationMs: Bytes -> nat): seq<ChapterSummary>
  {
    match read(file)
    case None => []
    case Some(text) =>
      match Chapter(text, maxLen, service, durationMs)
      case Err(_) => []
      case Ok(c) => [ChapterSummary(n, AudioName(n), |c.timepoints|)]
  }

  /** The isolated run of `process_all` over `files` in order, each chapter
      starting from an empty temp folder, as one chapter's failure not
      stopping the others calls for: the summaries, or the first file whose
      stem has no digit, which aborts the run. */
  function Summaries(files: seq<string>, read: string -> Option<string>, maxLen: nat,
                     service: string -> TtsReply, durationMs: Bytes -> nat): Result<seq<ChapterSummary>, string>
    decreases |files|
  {
    if files == [] then Ok([])
    else
      match Summaries(files[..|files| - 1], read, maxLen, service, durationMs)
      case Err(f) => Err(f)
      case Ok(rs) =>
        var file := files[|files| - 1];
        match ChapterNumber(file)
        case None => Err(file)
        case Some(n) => Ok(rs + Outcome(file, n, read, maxLen, service, durationMs))
  }

  /** What `process_all` has built after some of the files: the summaries
      so far, and the contents of the temp folder that the chapters share. */
  datatype Progress = Progress(summaries: seq<ChapterSummary>, temp: set<string>)

  /** One turn of `process_all` for a file with chapter number `n`, from a
      temp folder holding `temp`: a summary when the chapter is read and
      processed, none when that raises; the temp folder as the chapter
      leaves it. */
  function Attempt(file: string, n: nat, temp: set<string>, read: string -> Option<string>, maxLen: nat,
                   service: string -> TtsReply, durationMs: Bytes -> nat): Progress
  {
    match read(file)
    case None => Progress([], temp)
    case Some(text) =>
      var run := ChapterInFolder(text, n, temp, maxLen, service, durationMs);
      match run.result
      case Err(_) => Progress([], run.temp)
      case Ok(c) => Progress([ChapterSummary(n, AudioName(n), |c.timepoints|)], run.temp)
  }

  /** `Attempt` as a value, for the run over the files. */
  function Turn(read: string -> Option<string>, maxLen: nat, service: string -> TtsReply, durationMs: Bytes -> nat)
    : (string, nat, set<string>) -> Progress
  {
    (file: string, n: nat, temp: set<string>) => Attempt(file, n, temp, read, maxLen, service, durationMs)
  }

  /** The loop of `process_all` over `files` in order, from a temp folder
      holding `temp`, with `turn` giving each file's turn from its chapter
      number and the temp folder's contents: the folder one turn leaves is
      the folder the next one starts from. The run stops at the first file
      whose stem has no digit. */
  function Run(files: seq<string>, temp: set<string>, turn: (string, nat, set<string>) -> Progress)
    : Result<Progress, string>
    decreases |files|
  {
    if files == [] then Ok(Progress([], temp))
    else
      match Run(files[..|files| - 1], temp, turn)
      case Err(f) => Err(f)
      case Ok(p) =>
        var file := files[|files| - 1];
        match ChapterNumber(file)
        case None => Err(file)
        case Some(n) =>
          var a := turn(file, n, p.temp);
          Ok(Progress(p.summaries + a.summaries, a.temp))
  }

  /** `process_all` as written over `files` in order, from a temp folder
      holding `temp`: every chapter works in the same temp folder, so what
      one chapter leaves there is seen by the next. */
  function Processed(files: seq<string>, temp: set<string>, read: string -> Option<string>, maxLen: nat,
                     service: string -> TtsReply, durationMs: Bytes -> nat): Result<Progress, string>
  {
    Run(files, temp, Turn(read, maxLen, service, durationMs))
  }

  /** `process_all`, with the folder listing `entries`, the temp folder's
      contents `temp` at the start and the file reader `read` as parameters. */
  method ProcessAll(entries: seq<string>, temp: set<string>, read: string -> Option<string>, maxLen: nat,
                    service: string -> TtsReply, durationMs: Bytes -> nat)
    returns (r: Result<Progress, string>)
    ensures r == Processed(ScriptFiles(entries), temp, read, maxLen, service, durationMs)
  {
    var files := ScriptFiles(entries);
    ghost var turn := Turn(read, maxLen, service, durationMs);
    var progress := Progress([], temp);
    var i := 0;
    while i < |files|
      invariant 0 <= i <= |files|
      invariant Run(files[..i], temp, turn) == Ok(progress)
    {
      var step := FileTurn(files, i, progress, temp, read, maxLen, service, durationMs);
      if step.Err? {
        return step;
      }
      progress := step.value;
      i := i + 1;
    }
    assert files[..i] == files;
    r := Ok(progress);
  }

  /** One turn of the loop of `process_all`, on `files[i]` after the turns
      before it left `p`: a stem without a digit raises and ends the whole
      run, otherwise the chapter is tried. */
  method FileTurn(files: seq<string>, i: nat, p: Progress, temp: set<string>, read: string -> Option<string>,
                  maxLen: nat, service: string -> TtsReply, durationMs: Bytes -> nat)
    returns (r: Result<Progress, string>)
    requires i < |files|
    requires Run(files[..i], temp, Turn(read, maxLen, service, durationMs)) == Ok(p)
    ensures r.Ok? ==> Run(files[..i + 1], temp, Turn(read, maxLen, service, durationMs)) == r
    ensures r.Err? ==> Run(files, temp, Turn(read, maxLen, service, durationMs)) == r
  {
    var path := files[i];
    var digits := FirstDigitRun(Stem(path));
    if digits.None? {
      assert files[..i + 1][..i] == files[..i];
      RunErrPrefix(files, i + 1, temp, Turn(read, maxLen, service, durationMs));
      return Err(path);
    }
    var outcome := TryChapter(path, DigitsValue(digits.value), p.temp, read, maxLen, service, durationMs);
    RunTurn(files, i, digits.value, p, outcome, temp, read, maxLen, service, durationMs);
    r := Ok(Progress(p.summaries + outcome.summaries, outcome.temp));
  }

  /** The `try` block of `process_all`: a summary of the chapter, or none
      when reading or processing it raises. */
  method TryChapter(path: string, chapNum: nat, temp: set<string>, read: string -> Option<string>, maxLen: nat,
                    service: string -> TtsReply, durationMs: Bytes -> nat)
    returns (outcome: Progress)
    ensures outcome == Attempt(path, chapNum, temp, read, maxLen, service, durationMs)
  {
    var text := read(path);
    if text.None? {
      return Progress([], temp);
    }
    var run := ProcessChapter(text.value, chapNum, temp, maxLen, service, durationMs);
    if run.result.Err? {
      return Progress([], run.temp);
    }
    return Progress([ChapterSummary(chapNum, AudioName(chapNum), |run.result.value.timepoints|)], run.temp);
  }

  /** One turn of the loop of `process_all`, with the file's stem holding
      the digit run `d`. */
  lemma RunTurn(files: seq<string>, i: nat, d: string, p: Progress, outcome: Progress, temp: set<string>,
                read: string -> Option<string>, maxLen: nat, service: string -> TtsReply, durationMs: Bytes -> nat)
    requires i < |files| && FirstDigitRun(Stem(files[i])) == Some(d)
    requires Run(files[..i], temp, Turn(read, maxLen, service, durationMs)) == Ok(p)
    requires outcome == Attempt(files[i], DigitsValue(d), p.temp, read, maxLen, service, durationMs)
    ensures Run(files[..i + 1], temp, Turn(read, maxLen, service, durationMs))
      == Ok(Progress(p.summaries + outcome.summaries, outcome.temp))
  {
    var turn := Turn(read, maxLen, service, durationMs);
    assert turn(files[i], DigitsValue(d), p.temp) == outcome;
    RunStep(files, i, DigitsValue(d), p, temp, turn);
  }

  lemma RunStep(files: seq<string>, i: nat, n: nat, p: Progress, temp: set<string>,
                turn: (string, nat, set<string>) -> Progress)
    requires i < |files|
    requires Run(files[..i], temp, turn) == Ok(p)
    requires ChapterNumber(files[i]) == Some(n)
    ensures var a := turn(files[i], n, p.temp);
      Run(files[..i + 1], temp, turn) == Ok(Progress(p.summaries + a.summaries, a.temp))
  {
    assert files[..i + 1][..i] == files[..i];
  }

  /** A file without a digit in its stem ends the whole run. */
  lemma {:induction false} RunErrPrefix(files: seq<string>, i: nat, temp: set<string>,
                                        turn: (string, nat, set<string>) -> Progress)
    requires i <= |files|
    requires Run(files[..i], temp, turn).Err?
    ensures Run(files, temp, turn) == Run(files[..i], temp, turn)
    decreases |files|
  {
    if i < |files| {
      var init := files[..|files| - 1];
      assert init[..i] == files[..i];
      RunErrPrefix(init, i, temp, turn);
    } else {
      assert files[..i] == files;
    }
  }

  /** The run over `b` after a run that gave `r`. */
  function RunThen(r: Result<Progress, string>, b: seq<string>, turn: (string, nat, set<string>) -> Progress)
    : Result<Progress, string>
  {
    match r
    case Err(f) => Err(f)
    case Ok(x) =>
      match Run(b, x.temp, turn)
      case Err(f) => Err(f)
      case Ok(y) => Ok(Progress(x.summaries + y.summaries, y.temp))
  }

  /** The run over `a + b` is the run over `a` followed by the run over `b`
      from the temp folder that `a` leaves. */
  lemma {:induction false} RunAppend(a: seq<string>, b: seq<string>, temp: set<string>,
                                     turn: (string, nat, set<string>) -> Progress)
    ensures Run(a + b, temp, turn) == RunThen(Run(a, temp, turn), b, turn)
    decreases |b|
  {
    if b == [] {
      assert a + b == a;
      match Run(a, temp, turn)
      case Err(f) =>
      case Ok(x) => assert x.summaries + [] == x.summaries;
    } else {
      var binit, file := b[..|b| - 1], b[|b| - 1];
      assert a + b == (a + binit) + [file];
      assert b == binit + [file];
      RunAppend(a, binit, temp, turn);
      RunSnoc(a + binit, file, temp, turn);
      ThenSnoc(Run(a, temp, turn), binit, file, turn);
    }
  }

  /** One more file after a run that gave `r`. */
  function Snoc(r: Result<Progress, string>, file: string, turn: (string, nat, set<string>) -> Progress)
    : Result<Progress, string>
  {
    match r
    case Err(f) => Err(f)
    case Ok(p) =>
      match ChapterNumber(file)
      case None => Err(file)
      case Some(n) =>
        var a := turn(file, n, p.temp);
        Ok(Progress(p.summaries + a.summaries, a.temp))
  }

  lemma RunSnoc(files: seq<string>, file: string, temp: set<string>, turn: (string, nat, set<string>) -> Progress)
    ensures Run(files + [file], temp, turn) == Snoc(Run(files, temp, turn), file, turn)
  {
    assert (files + [file])[..|files|] == files;
  }

  lemma ThenSnoc(r: Result<Progress, string>, b: seq<string>, file: string,
                 turn: (string, nat, set<string>) -> Progress)
    ensures RunThen(r, b + [file], turn) == Snoc(RunThen(r, b, turn), file, turn)
  {
    if r.Ok? {
      var x := r.value;
      RunSnoc(b, file, x.temp, turn);
      var y := Run(b, x.temp, turn);
      if y.Ok? && ChapterNumber(file).Some? {
        var t := turn(file, ChapterNumber(file).value, y.value.temp);
        assert x.summaries + (y.value.summaries + t.summaries) == (x.summaries + y.value.summaries) + t.summaries;
      }
    }
  }

  /** The run as written and the isolated run stop at the same file: the
      first whose stem has no digit. */
  lemma {:induction false} ProcessedAbortsAlike(files: seq<string>, temp: set<string>,
                                                read: string -> Option<string>, maxLen: nat,
                                                service: string -> TtsReply, durationMs: Bytes -> nat)
    ensures var p := Processed(files, temp, read, maxLen, service, durationMs);
      var s := Summaries(files, read, maxLen, service, durationMs);
      && (p.Err? <==> s.Err?)
      && (p.Err? ==> p.error == s.error)
    decreases |files|
  {
    if files != [] {
      ProcessedAbortsAlike(files[..|files| - 1], temp, read, maxLen, service, durationMs);
    }
  }

  /** The chapter leaves no chunk file behind when it raises: its file is
      unreadable, it succeeds, or its first chunk already fails. */
  predicate LeavesNoChunks(file: string, read: string -> Option<string>, maxLen: nat,
                           service: string -> TtsReply, durationMs: Bytes -> nat)
  {
    match read(file)
    case None => true
    case Some(text) =>
      Chapter(text, maxLen, service, durationMs).Ok?
      || Synthesized(ChapterChunks(text, maxLen), service, durationMs) == 0
  }

  /** From an empty temp folder, a chapter that leaves no chunk file behind
      contributes what the isolated run gives it, and the folder stays empty. */
  lemma AttemptClean(file: string, n: nat, read: string -> Option<string>, maxLen: nat,
                     service: string -> TtsReply, durationMs: Bytes -> nat)
    requires LeavesNoChunks(file, read, maxLen, service, durationMs)
    ensures Attempt(file, n, {}, read, maxLen, service, durationMs)
      == Progress(Outcome(file, n, read, maxLen, service, durationMs), {})
  {
    if read(file).Some? {
      var text := read(file).value;
      var chunks := ChapterChunks(text, maxLen);
      var k := Synthesized(chunks, service, durationMs);
      assert {} + ChunkFiles(n, k) - ChunkFiles(n, |chunks|) == {} by {
        ChunkFilesGrow(n, k, |chunks|);
      }
    }
  }

  /** When the temp folder starts empty and no chapter raises after writing
      a chunk file, `process_all` as written is the isolated run, and it
      leaves the temp folder empty. */
  lemma {:induction false} ProcessedClean(files: seq<string>, read: string -> Option<string>, maxLen: nat,
                                          service: string -> TtsReply, durationMs: Bytes -> nat)
    requires forall k :: 0 <= k < |files| ==> LeavesNoChunks(files[k], read, maxLen, service, durationMs)
    ensures Processed(files, {}, read, maxLen, service, durationMs) ==
      match Summaries(files, read, maxLen, service, durationMs)
      case Err(f) => Err(f)
      case Ok(rs) => Ok(Progress(rs, {}))
    decreases |files|
  {
    if files != [] {
      var init := files[..|files| - 1];
      assert forall k :: 0 <= k < |init| ==> init[k] == files[k];
      ProcessedClean(init, read, maxLen, service, durationMs);
      var file := files[|files| - 1];
      if Summaries(init, read, maxLen, service, durationMs).Ok? && ChapterNumber(file).Some? {
        AttemptClean(file, ChapterNumber(file).value, read, maxLen, service, durationMs);
      }
    }
  }

  /** A chunk file of chapter `m` left in the temp folder stays there while
      no file of chapter `m` comes, and every chapter in between raises at
      `rmdir`: the run adds no summary. */
  lemma {:induction false} LeftoverStays(files: seq<string>, temp: set<string>, m: nat, i: nat,
                                         read: string -> Option<string>, maxLen: nat,
                                         service: string -> TtsReply, durationMs: Bytes -> nat)
    requires ChunkFile(m, i) in temp
    requires forall k :: 0 <= k < |files| ==> ChapterNumber(files[k]) != Some(m)
    ensures var p := Processed(files, temp, read, maxLen, service, durationMs);
      p.Ok? ==> p.value.summaries == [] && ChunkFile(m, i) in p.value.temp
    decreases |files|
  {
    if files != [] {
      var init := files[..|files| - 1];
      assert forall k :: 0 <= k < |init| ==> init[k] == files[k];
      LeftoverStays(init, temp, m, i, read, maxLen, service, durationMs);
      var file := files[|files| - 1];
      var p := Processed(init, temp, read, maxLen, service, durationMs);
      if p.Ok? && ChapterNumber(file).Some? && read(file).Some? {
        var n := ChapterNumber(file).value;
        var text := read(file).value;
        ChunkFilesOfOthers(n, |ChapterChunks(text, maxLen)|, m, i);
        ChapterInFolderEffect(text, n, p.value.temp, maxLen, service, durationMs);
      }
    }
  }

  /** As written, a chapter that raises after its first chunk was synthesized
      leaves that chunk's file in the temp folder, and every later chapter of
      another number then raises at `rmdir`: the run keeps no later summary,
      where the isolated run keeps every later chapter that succeeds. */
  lemma StaleChunkDropsLaterChapters(first: string, m: nat, later: seq<string>,
                                     read: string -> Option<string>, maxLen: nat,
                                     service: string -> TtsReply, durationMs: Bytes -> nat)
    requires ChapterNumber(first) == Some(m) && read(first).Some?
    requires Chapter(read(first).value, maxLen, service, durationMs).Err?
    requires Synthesized(ChapterChunks(read(first).value, maxLen), service, durationMs) > 0
    requires forall k :: 0 <= k < |later| ==> ChapterNumber(later[k]) != Some(m)
    ensures var p := Processed([first] + later, {}, read, maxLen, service, durationMs);
      var s := Summaries([first] + later, read, maxLen, service, durationMs);
      && s == Summaries(later, read, maxLen, service, durationMs)
      && (p.Ok? <==> s.Ok?)
      && (p.Ok? ==> p.value.summaries == [])
  {
    var text := read(first).value;
    SummariesOne(first, read, maxLen, service, durationMs);
    SummariesAppend([first], later, read, maxLen, service, durationMs);
    RunAppend([first], later, {}, Turn(read, maxLen, service, durationMs));
    ChapterInFolderEffect(text, m, {}, maxLen, service, durationMs);
    assert [first][..0] == [];
    var t := Processed([first], {}, read, maxLen, service, durationMs).value.temp;
    LeftoverStays(later, t, m, 1, read, maxLen, service, durationMs);
    ProcessedAbortsAlike(later, t, read, maxLen, service, durationMs);
    match Summaries(later, read, maxLen, service, durationMs)
    case Err(f) =>
    case Ok(y) => assert [] + y == y;
  }

  lemma {:induction false} SummariesErrPrefix(files: seq<string>, i: nat, read: string -> Option<string>, maxLen: nat,
                                              service: string -> TtsReply, durationMs: Bytes -> nat)
    requires i <= |files|
    requires Summaries(files[..i], read, maxLen, service, durationMs).Err?
    ensures Summaries(files, read, maxLen, service, durationMs) == Summaries(files[..i], read, maxLen, service, durationMs)
    decreases |files|
  {
    if i < |files| {
      var init := files[..|files| - 1];
      assert init[..i] == files[..i];
      SummariesErrPrefix(init, i, read, maxLen, service, durationMs);
    } else {
      assert files[..i] == files;
    }
  }

  /** Failure isolation: the run over `a + b` is the run over `a` followed by
      the run over `b`, so what happens to one chapter changes nothing for
      the others; only a file without a chapter number ends the run. */
  lemma {:induction false} SummariesAppend(a: seq<string>, b: seq<string>, read: string -> Option<string>, maxLen: nat,
                                           service: string -> TtsReply, durationMs: Bytes -> nat)
    ensures Summaries(a + b, read, maxLen, service, durationMs) ==
      match Summaries(a, read, maxLen, service, durationMs)
      case Err(f) => Err(f)
      case Ok(x) =>
        match Summaries(b, read, maxLen, service, durationMs)
        case Err(f) => Err(f)
        case Ok(y) => Ok(x + y)
    decreases |b|
  {
    if b == [] {
      assert a + b == a;
      match Summaries(a, read, maxLen, service, durationMs)
      case Err(f) =>
      case Ok(x) => assert x + [] == x;
    } else {
      var binit := b[..|b| - 1];
      assert (a + b)[..|a + b| - 1] == a + binit;
      assert (a + b)[|a + b| - 1] == b[|b| - 1];
      SummariesAppend(a, binit, read, maxLen, service, durationMs);
      match Summaries(a, read, maxLen, service, durationMs)
      case Err(f) =>
      case Ok(x) =>
        match Summaries(binit, read, maxLen, service, durationMs)
        case Err(f) =>
        case Ok(y) =>
          var file := b[|b| - 1];
          match ChapterNumber(file)
          case None =>
          case Some(n) =>
            assert x + (y + Outcome(file, n, read, maxLen, service, durationMs))
              == (x + y) + Outcome(file, n, read, maxLen, service, durationMs);
    }
  }

  /** A single file: aborts without a chapter number; otherwise contributes
      a summary exactly when its chapter processes without raising, and that
      summary reports the chapter number, the audio file and the number of
      timepoints. */
  lemma SummariesOne(file: string, read: string -> Option<string>, maxLen: nat,
                     service: string -> TtsReply, durationMs: Bytes -> nat)
    ensures ChapterNumber(file).None? ==> Summaries([file], read, maxLen, service, durationMs) == Err(file)
    ensures ChapterNumber(file).Some? ==>
      var n := ChapterNumber(file).value;
      var r := Summaries([file], read, maxLen, service, durationMs);
      && r.Ok?
      && (|r.value| == 1 <==> read(file).Some? && Chapter(read(file).value, maxLen, service, durationMs).Ok?)
      && (|r.value| == 1 ==> r.value[0] == ChapterSummary(n, AudioName(n),
            |Chapter(read(file).value, maxLen, service, durationMs).value.timepoints|))
      && (|r.value| != 1 ==> r.value == [])
  {
    assert [file][..0] == [];
  }

  /** The scripts are visited in `str` order, and they are exactly the
      folder's `.txt` names. */
  lemma ScriptFilesSorted(entries: seq<string>)
    ensures SortedBy(ScriptFiles(entries), LexLe)
    ensures multiset(ScriptFiles(entries)) == multiset(Filter(entries, (name: string) => EndsWith(name, ".txt")))
  {
    forall a: string, b: string ensures LexLe(a, b) || LexLe(b, a) {
      LexLeTotal(a, b);
    }
    var txt := Filter(entries, (name: string) => EndsWith(name, ".txt"));
    SortByCorrect(txt, LexLe, (x: string) => x);
    SortByPermutes(txt, LexLe);
  }

  /** A file whose stem is a digit-free prefix, a run of digits and then
      nothing or a non-digit has that run's value as its chapter number. */
  lemma ChapterNumberOfStem(file: string, p: string, d: string, q: string)
    requires Stem(file) == p + d + q
    requires forall k :: 0 <= k < |p| ==> !IsDigit(p[k])
    requires |d| > 0 && forall k :: 0 <= k < |d| ==> IsDigit(d[k])
    requires q == [] || !IsDigit(q[0])
    ensures ChapterNumber(file) == Some(DigitsValue(d))
  {
    FirstDigitRunAfter(p, d, q);
  }

  /** A name made of a digit-free prefix, a run of digits and a suffix such
      as `.txt` has that run's value as its chapter number. */
  lemma NumberedFile(p: string, d: string, suffix: string)
    requires forall k :: 0 <= k < |p| ==> !IsDigit(p[k])
    requires |d| > 0 && forall k :: 0 <= k < |d| ==> IsDigit(d[k])
    requires |suffix| > 1 && suffix[0] == '.' && '.' !in suffix[1..]
    ensures ChapterNumber(p + d + suffix) == Some(DigitsValue(d))
  {
    StemOfNumbered(p, d, suffix);
    ChapterNumberOfStem(p + d + suffix, p, d, []);
  }

  lemma StemOfNumbered(p: string, d: string, suffix: string)
    requires |d| > 0
    requires |suffix| > 1 && suffix[0] == '.' && '.' !in suffix[1..]
    ensures Stem(p + d + suffix) == p + d + []
  {
    var base, ext := p + d, suffix[1..];
    assert p + d + suffix == base + "." + ext;
    StemOfSuffixed(base, ext);
    assert base + [] == base;
  }

  /** "chapter12.txt" is chapter 12. */
  lemma ChapterNumberOfName(n: nat)
    ensures ChapterNumber("chapter" + Decimal(n) + ".txt") == Some(n)
  {
    var p := "chapter";
    assert forall k :: 0 <= k < |p| ==> !IsDigit(p[k]);
    NumberedFile(p, Decimal(n), ".txt");
    DecimalValue(n);
  }

  /** Leading zeros are read away: "chapter007.txt" is chapter 7. */
  lemma LeadingZeros()
    ensures ChapterNumber("chapter007.txt") == Some(7)
  {
    var p, d := "chapter", "007";
    assert forall k :: 0 <= k < |p| ==> !IsDigit(p[k]);
    assert p + d + ".txt" == "chapter007.txt";
    NumberedFile(p, d, ".txt");
    ZerosThenSeven();
  }

  lemma ZerosThenSeven()
    ensures DigitsValue("007") == 7
  {
    var d := "007";
    assert d[..2] == "00" && d[2] == '7';
    assert "00"[..1] == "0" && "00"[1] == '0';
    assert "0"[..0] == "" && "0"[0] == '0';
    assert DigitsValue("0") == 0;
    assert DigitsValue("00") == 0;
  }}
