/**
 * The shared state of the app.py service and the operations that change it:
 * the task registry (`conversion_progress`), the registered process handles
 * (`active_processes`), the two working folders, the thumbnail cache, and
 * the admission semaphore (`active_downloads`). Each route or background job
 * that changes this state is a method; the locks of the source become the
 * atomicity of a method call.
 */
module Service {
  import opened Text
  import opened Wrappers
  import Tasks
  import Files
  import Filenames
  import Commands
  import MediaInfo
  import Timeouts
  import Supervision
  import Storage

  type TaskId = Tasks.TaskId

  const MaxConcurrentDownloads: int := 5
  const MinOutputSize: int := 1000
  const ErrorTextLimit: nat := 300

  const BusyMessage: string := "Server busy. Too many concurrent downloads, try again."
  const InfoMissingMessage: string := "Failed to get video info from yt-dlp"
  const DownloadMissingMessage: string := "Downloaded file not found"
  const FinalMissingMessage: string := "Final output file not found"
  const TooSmallMessage: string := "Output file too small"

  /** The message of the failure record: `Error: ` and at most 300 characters of the exception text. */
  function ErrorText(msg: string): (r: string)
    ensures StartsWith(r, "Error: ") && |r| <= 7 + ErrorTextLimit
  {
    var r := "Error: " + Prefix(msg, ErrorTextLimit);
    assert r[..7] == "Error: ";
    r
  }

  /** The record the exception handler stores: a terminal `error`/0 with the `Error: ` message and no completion. */
  function ErrorRecord(msg: string, now: real): (r: Tasks.TaskRecord)
    ensures r.status == Tasks.Error && Tasks.Terminal(r.status) && r.percent == 0.0 && r.lastUpdate == now
    ensures StartsWith(r.message, "Error: ") && r.completion.None?
  {
    Tasks.TaskRecord(Tasks.Error, 0.0, ErrorText(msg), now, None)
  }

  /** `str(KeyError(tid))`, raised by an update of a missing entry. */
  function KeyErrorText(tid: TaskId): string {
    "'" + tid + "'"
  }

  /**
   * Only the task's own files changed: deleting every name that starts with
   * the task id leaves the same listing before and after.
   */
  ghost predicate OwnFilesOnly(before: Storage.Folder, after: Storage.Folder, tid: TaskId) {
    Storage.KeepUnprefixed(after, {tid}) == Storage.KeepUnprefixed(before, {tid})
  }

  /** The run changed only its own progress entry, which it keeps, and its own files. */
  ghost predicate OwnChanges(tid: TaskId, p0: map<TaskId, Tasks.TaskRecord>, p1: map<TaskId, Tasks.TaskRecord>,
                             d0: Storage.Folder, d1: Storage.Folder, t0: Storage.Folder, t1: Storage.Folder)
  {
    tid in p1 && p1 == p0[tid := p1[tid]] && OwnFilesOnly(d0, d1, tid) && OwnFilesOnly(t0, t1, tid)
  }

  /** So no file of another task appears or disappears. */
  lemma OwnFilesOnlyMembers(before: Storage.Folder, after: Storage.Folder, tid: TaskId)
    requires OwnFilesOnly(before, after, tid)
    ensures forall e: Storage.FileEntry :: !StartsWith(e.name, tid) ==> (e in after <==> e in before)
  {
    Storage.KeepUnprefixedMembers(before, {tid});
    Storage.KeepUnprefixedMembers(after, {tid});
    forall e: Storage.FileEntry | !StartsWith(e.name, tid)
      ensures e in after <==> e in before
    {
      assert Storage.Unprefixed(e.name, {tid});
      assert e in after <==> e in Storage.KeepUnprefixed(after, {tid});
    }
  }

  /** A second update at the same key overrides the first. */
  lemma UpdateTwice(m: map<TaskId, Tasks.TaskRecord>, k: TaskId, a: Tasks.TaskRecord, b: Tasks.TaskRecord)
    ensures m[k := a][k := b] == m[k := b]
  {
  }

  /** A map that agrees with `a` away from `k` is `a` updated at `k`. */
  lemma UpdatedAt(a: map<TaskId, Tasks.TaskRecord>, b: map<TaskId, Tasks.TaskRecord>, k: TaskId)
    requires k in b
    requires forall t :: t != k ==> (t in b <==> t in a)
    requires forall t :: t != k && t in b ==> b[t] == a[t]
    ensures b == a[k := b[k]]
  {
  }

  // ---------------------------------------------------------------- the conversion pipeline

  /** What the client asked for; `audioFormat` is the table entry the convert route settled on. */
  datatype Request = Request(formatType: string, quality: string, audioFormat: Commands.AudioFormat)

  predicate IsAudio(req: Request) { req.formatType == "audio" }

  /** The metadata pre-fetch: it raised, or it gave a duration (0 when missing) and the descriptive fields. */
  datatype PreInfo = PreInfoFailed | PreInfoFetched(duration: int, fields: MediaInfo.InfoFields)

  /** The duration the timeouts are computed from: one hour when the pre-fetch raised. */
  function DurationOf(pre: PreInfo): (r: int)
    ensures pre.PreInfoFailed? ==> Timeouts.DownloadTimeout(r) == 1320 && Timeouts.FfmpegTimeout(r) == 2100
  {
    if pre.PreInfoFailed? then 3600 else pre.duration
  }

  function TitleOf(pre: PreInfo, clean: string -> string): (r: string)
    ensures |r| >= 3
  {
    if pre.PreInfoFailed? then MediaInfo.TitleFallback else MediaInfo.ExtractCleanTitle(pre.fields, clean)
  }

  /** The parts of the fetcher's final info dictionary the pipeline reads. */
  datatype FetchedInfo = FetchedInfo(thumbnails: seq<MediaInfo.Thumb>, thumbnail: string)

  /** How the download thread ended: not within the timeout, with an exception text, or with an info dictionary (possibly empty). */
  datatype FetchOutcome = FetchTimedOut | FetchFailed(error: string) | Fetched(info: Option<FetchedInfo>)

  /**
   * Everything outside the service that one run depends on: the pre-fetch,
   * the hook calls and the files the fetcher makes, whether the encoder
   * starts, its poll trace and the size of what it writes, and whether the
   * cover art is saved.
   */
  datatype World = World(
    pre: PreInfo,
    hooks: seq<Tasks.TimedEvent>,
    fetch: FetchOutcome,
    written: Storage.Folder,
    launch: Option<string>,
    trace: seq<Supervision.FfmpegPoll>,
    encodeStart: real,
    encoded: Option<int>,
    thumbSaved: bool,
    thumbSize: int)

  /** The encoder of this run can be supervised to its end. */
  predicate EncoderEnds(w: World) {
    w.launch.Some? || Supervision.Terminates(w.trace, w.encodeStart, Timeouts.FfmpegTimeout(DurationOf(w.pre)))
  }

  /** The supervised encoder exits with code 0 before its timeout. */
  predicate EncoderSucceeds(w: World)
    requires EncoderEnds(w) && w.launch.None?
  {
    Supervision.Verdict(w.trace[Supervision.FirstEnd(w.trace, w.encodeStart, Timeouts.FfmpegTimeout(DurationOf(w.pre)))]).0
  }

  const ConnectingMessage: string := "Connecting..."
  const StartingMessage: string := "Starting download..."
  const LocatingMessage: string := "Download complete. Locating file..."
  const VideoConvertMessage: string := "Converting to QuickTime-compatible MP4..."
  const ArtworkMessage: string := "Downloading artwork..."
  const EmbeddingMessage: string := "Embedding metadata..."
  const AudioFailedPrefix: string := "Audio conversion failed: "
  const VideoFailedPrefix: string := "Video conversion failed: "

  function AudioConvertMessage(f: Commands.AudioFormat): string {
    "Converting to " + Commands.Name(f) + "..."
  }

  /** The exception the download wait raises, if any; `timeout` is the fetch timeout in seconds. */
  function FetchError(fetch: FetchOutcome, timeout: int): (r: Option<string>)
    ensures r.None? <==> fetch.Fetched? && fetch.info.Some?
  {
    match fetch
    case FetchTimedOut => Some("Download timed out after " + IntToString(timeout / 60) + " minutes.")
    case FetchFailed(e) => if e != "" then Some(e) else Some(InfoMissingMessage)
    case Fetched(info) => if info.Some? then None else Some(InfoMissingMessage)
  }

  /** The encoder failure text: the error output cut to `limit`, or `unknown error` when there is none. */
  function ConversionError(prefix: string, err: string, limit: nat): (r: string)
    ensures StartsWith(r, prefix)
  {
    var r := prefix + (if err != "" then Prefix(err, limit) else "unknown error");
    assert r[..|prefix|] == prefix;
    r
  }

  /** `int(t//60)` and `int(t%60)` for an elapsed time of at least a minute. */
  function MinutesSeconds(e: real): (r: (int, int))
    requires e >= 60.0
    ensures r.0 >= 1 && 0 <= r.1 < 60
    ensures 60 * r.0 + r.1 == e.Floor
  {
    var m := (e / 60.0).Floor;
    var rest := e - 60.0 * m as real;
    assert 0.0 <= rest < 60.0;
    assert e == (60 * m) as real + rest;
    (m, rest.Floor)
  }

  /** The duration text of the final message: `<m>m <s>s` from one minute on, else `<s>s`. */
  function TimeText(e: real): string {
    if e >= 60.0 then
      var ms := MinutesSeconds(e);
      IntToString(ms.0) + "m " + IntToString(ms.1) + "s"
    else IntToString(Tasks.Trunc(e)) + "s"
  }

  function ReadyMessage(elapsed: real): string {
    "Ready! (took " + TimeText(elapsed) + ")"
  }

  /** The duration text ends in `s`; from one minute on it is minutes and seconds that recombine to the whole seconds. */
  lemma TimeTextShape(e: real)
    ensures var r := TimeText(e); |r| >= 2 && r[|r| - 1] == 's'
    ensures e >= 60.0 ==>
      exists m: int, s: int :: m >= 1 && 0 <= s < 60 && 60 * m + s == e.Floor && TimeText(e) == IntToString(m) + "m " + IntToString(s) + "s"
  {
    if e >= 60.0 {
      var ms := MinutesSeconds(e);
      assert TimeText(e) == IntToString(ms.0) + "m " + IntToString(ms.1) + "s";
    }
  }

  /** The final message wraps the duration text in `Ready! (took ` and `)`. */
  lemma ReadyMessageShape(elapsed: real)
    ensures StartsWith(ReadyMessage(elapsed), "Ready! (took ") && EndsWith(ReadyMessage(elapsed), "s)")
  {
    TimeTextShape(elapsed);
    var t := TimeText(elapsed);
    var r := ReadyMessage(elapsed);
    assert r[..13] == "Ready! (took ";
    assert r[|r| - 2..] == [t[|t| - 1], ')'];
  }

  /** `os.path.splitext(name)[1][1:]` */
  function ExtensionOf(name: string): string {
    var x := Files.Ext(name);
    if x == "" then "" else x[1..]
  }

  /** The extension is the dot-free tail of the name after its last dot, or empty when the name has no extension. */
  lemma ExtensionOfSpec(name: string)
    ensures Files.Ext(name) == "" ==> ExtensionOf(name) == ""
    ensures Files.Ext(name) != "" ==> Files.Ext(name) == "." + ExtensionOf(name) && '.' !in ExtensionOf(name) && EndsWith(name, ExtensionOf(name))
  {
    var x := Files.Ext(name);
    if x != "" {
      var r := x[1..];
      assert x == "." + r;
      assert name[|name| - |r|..] == x[1..];
    }
  }

  /** The record that replaces the entry of a completed run. */
  function CompletedRecord(req: Request, output: string, size: int, title: string, thumbOk: bool, elapsed: real, now: real): (r: Tasks.TaskRecord)
    ensures r.status == Tasks.Completed && r.percent == 100.0 && r.lastUpdate == now && r.completion.Some?
    ensures r.completion.value.filename == output && r.completion.value.fileSize == size
    ensures Filenames.SafeName(r.completion.value.title)
  {
    var audio := IsAudio(req);
    Filenames.SanitizeSafe(title, Filenames.DefaultMaxLength);
    Tasks.TaskRecord(Tasks.Completed, 100.0, ReadyMessage(elapsed), now, Some(Tasks.Completion(
      Filenames.Sanitize(title, Filenames.DefaultMaxLength), output, size, audio && thumbOk, req.formatType,
      if audio then Some(Commands.Key(req.audioFormat)) else None,
      if audio then Commands.QualityLabel(req.audioFormat) else req.quality,
      ExtensionOf(output))))
  }

  /** The completion record of a present output of the task with at least 1000 bytes completes the task. */
  lemma CompletedRecordCompletes(tid: TaskId, req: Request, output: string, size: int, title: string, thumbOk: bool, elapsed: real, now: real,
                                 d: Storage.Folder)
    requires Storage.SizeOf(d, output) == Some(size) && size >= MinOutputSize
    ensures StartsWith(output, tid) ==> Completes(CompletedRecord(req, output, size, title, thumbOk, elapsed, now), tid, d)
  {
  }

  /** A name of the task is not kept by the deletion of the task's files. */
  lemma OwnedName(n: string, tid: TaskId)
    requires StartsWith(n, tid)
    ensures !Storage.Unprefixed(n, {tid})
  {
    assert tid in {tid};
  }

  /** Writing, removing or renaming files of the task keeps every other file. */
  lemma OwnPut(f: Storage.Folder, e: Storage.FileEntry, tid: TaskId)
    requires StartsWith(e.name, tid)
    ensures OwnFilesOnly(f, Storage.Put(f, e), tid)
  {
    OwnedName(e.name, tid);
    Storage.KeepUnprefixedPut(f, e, {tid});
  }

  lemma OwnWithout(f: Storage.Folder, n: string, tid: TaskId)
    requires StartsWith(n, tid)
    ensures OwnFilesOnly(f, Storage.Without(f, n), tid)
  {
    OwnedName(n, tid);
    Storage.KeepUnprefixedWithout(f, n, {tid});
  }

  lemma OwnRename(f: Storage.Folder, source: string, target: string, tid: TaskId)
    requires StartsWith(source, tid) && StartsWith(target, tid)
    ensures OwnFilesOnly(f, Storage.Rename(f, source, target), tid)
  {
    OwnedName(source, tid);
    OwnedName(target, tid);
    Storage.KeepUnprefixedRename(f, source, target, {tid});
  }

  lemma OwnKeepUnprefixed(f: Storage.Folder, tid: TaskId)
    ensures OwnFilesOnly(f, Storage.KeepUnprefixed(f, {tid}), tid)
  {
    Storage.KeepUnprefixedIdempotent(f, {tid});
  }

  /** Writing files of the task keeps every other file. */
  lemma OwnPutAll(f: Storage.Folder, es: seq<Storage.FileEntry>, tid: TaskId)
    requires forall e :: e in es ==> StartsWith(e.name, tid)
    ensures OwnFilesOnly(f, Storage.PutAll(f, es), tid)
  {
    forall e | e in es
      ensures !Storage.Unprefixed(e.name, {tid})
    {
      OwnedName(e.name, tid);
    }
    Storage.KeepUnprefixedPutAll(f, es, {tid});
  }

  /**
   * The downloads folder after the audio branch's file steps: the converted
   * file copied to the final name, then the temporary file and the original
   * download (unless it already is the final name) removed.
   */
  function AudioOutputFiles(d: Storage.Folder, tid: TaskId, tempName: string, output: string, found: string, size: int, now: real): (r: Storage.Folder)
    requires StartsWith(tempName, tid) && StartsWith(output, tid) && StartsWith(found, tid) && tempName != output
    ensures OwnFilesOnly(d, r, tid)
    ensures Storage.SizeOf(r, output) == Some(size)
    ensures !Storage.HasName(r, tempName) && (found != output ==> !Storage.HasName(r, found))
  {
    var d1 := Storage.Put(d, Storage.FileEntry(output, now, size));
    var d2 := Storage.Without(d1, tempName);
    OwnPut(d, Storage.FileEntry(output, now, size), tid);
    OwnWithout(d1, tempName, tid);
    Storage.SizeOfWithout(d1, tempName, output);
    if found != output then
      Storage.SizeOfWithout(d2, found, output);
      OwnWithout(d2, found, tid);
      Storage.Without(d2, found)
    else d2
  }

  function AudioTempName(tid: TaskId, f: Commands.AudioFormat): string { tid + "_temp." + Commands.Extension(f) }
  function AudioOutputName(tid: TaskId, f: Commands.AudioFormat): string { tid + "." + Commands.Extension(f) }
  function ThumbName(tid: TaskId): string { tid + "_thumb.jpg" }
  function VideoOutputName(tid: TaskId): string { tid + ".mp4" }

  /** The base name of the video encoder's output path. */
  function VideoTargetName(found: string, tid: TaskId): (r: string)
    ensures Files.InDownloads(r) == Files.TempTarget(Files.InDownloads(found), tid)
    ensures r != found
  {
    if Files.TempTarget(Files.InDownloads(found), tid) == Files.EncodePath(tid) then tid + "__enc.mp4" else VideoOutputName(tid)
  }

  /** The audio branch's names belong to the task, and the temporary file is not the final one. */
  lemma AudioNames(tid: TaskId, f: Commands.AudioFormat)
    ensures StartsWith(AudioTempName(tid, f), tid) && StartsWith(AudioOutputName(tid, f), tid) && StartsWith(ThumbName(tid), tid)
    ensures AudioTempName(tid, f) != AudioOutputName(tid, f)
  {
    OwnName(tid, "_temp." + Commands.Extension(f));
    OwnName(tid, "." + Commands.Extension(f));
    OwnName(tid, "_thumb.jpg");
    assert AudioTempName(tid, f)[|tid|] != AudioOutputName(tid, f)[|tid|];
  }

  /** The video branch's names belong to the task. */
  lemma VideoNames(tid: TaskId, found: string)
    ensures StartsWith(VideoOutputName(tid), tid) && StartsWith(VideoTargetName(found, tid), tid)
  {
    OwnName(tid, ".mp4");
    OwnName(tid, "__enc.mp4");
  }

  /** A completion record naming a file of the task that is present with the recorded size of at least `MinOutputSize`. */
  predicate Completes(r: Tasks.TaskRecord, tid: TaskId, d: Storage.Folder) {
    && r.status == Tasks.Completed && r.completion.Some?
    && StartsWith(r.completion.value.filename, tid)
    && r.completion.value.fileSize >= MinOutputSize
    && Storage.SizeOf(d, r.completion.value.filename) == Some(r.completion.value.fileSize)
  }

  /** An encoder command whose input and output paths differ. */
  predicate SeparateInOut(cmd: seq<string>) {
    |cmd| >= 5 && cmd[3] != cmd[|cmd| - 1]
  }
  /** `after` is `before` followed by a prefix of `steps`: the writes of a stretch that stopped part-way. */
  ghost predicate WrotePrefix(before: seq<Tasks.Write>, after: seq<Tasks.Write>, steps: seq<Tasks.Write>) {
    |before| <= |after| <= |before| + |steps| && after == before + steps[..|after| - |before|]
  }

  /** A stretch that stopped within `steps` also stopped within any continuation of them. */
  lemma WrotePrefixWithin(before: seq<Tasks.Write>, after: seq<Tasks.Write>, steps: seq<Tasks.Write>, more: seq<Tasks.Write>)
    requires WrotePrefix(before, after, steps)
    ensures WrotePrefix(before, after, steps + more)
  {
    assert (steps + more)[..|after| - |before|] == steps[..|after| - |before|];
  }

  /** A stretch that wrote `done` and then stopped within `steps` stopped within `done + steps`. */
  lemma WrotePrefixAfter(before: seq<Tasks.Write>, mid: seq<Tasks.Write>, after: seq<Tasks.Write>, done: seq<Tasks.Write>, steps: seq<Tasks.Write>)
    requires mid == before + done && WrotePrefix(mid, after, steps)
    ensures WrotePrefix(before, after, done + steps)
  {
    var k := |after| - |mid|;
    assert (done + steps)[..|done| + k] == done + steps[..k];
  }

  /**
   * How a stretch of the pipeline that writes `steps` and then the
   * completion ends, the write log going from `log0` to `log1`: with all of
   * them written, a completion record for a present file of the task and,
   * for a video, an encoder command that does not write over its input; or
   * with a failure after a prefix of `steps`.
   */
  ghost predicate Ending(tid: TaskId, audio: bool, fail: Option<string>, log0: seq<Tasks.Write>, log1: seq<Tasks.Write>, steps: seq<Tasks.Write>,
                         progress: map<TaskId, Tasks.TaskRecord>, downloads: Storage.Folder, commands: seq<seq<string>>)
  {
    && (fail.None? ==>
        && log1 == log0 + steps + [Tasks.Write(Tasks.Completed, 100.0)]
        && tid in progress && Completes(progress[tid], tid, downloads)
        && (!audio ==> |commands| > 0 && SeparateInOut(commands[|commands| - 1])))
    && (fail.Some? ==> WrotePrefix(log0, log1, steps))
  }

  /**
   * How a run ends, the write log going from `log0` to `log1`: completed,
   * with the whole script appended, a completion record for a present file
   * of the task and, for a video, an encoder command that does not write
   * over its input; or failed, with a prefix of the script and the error
   * appended, an `Error: ` message and no file of the task left behind.
   */
  ghost predicate Outcome(tid: TaskId, audio: bool, log0: seq<Tasks.Write>, log1: seq<Tasks.Write>, rec: Tasks.TaskRecord,
                          downloads: Storage.Folder, temp: Storage.Folder, commands: seq<seq<string>>)
  {
    && |log0| <= |log1| && log1[..|log0|] == log0
    && (rec.status == Tasks.Completed || rec.status == Tasks.Error)
    && (rec.status == Tasks.Completed <==> log1[|log0|..] == Tasks.Script(audio))
    && (rec.status == Tasks.Completed ==> Completes(rec, tid, downloads))
    && (rec.status == Tasks.Completed && !audio ==> |commands| > 0 && SeparateInOut(commands[|commands| - 1]))
    && (rec.status == Tasks.Error ==>
        && Tasks.FailedRun(log1[|log0|..], audio)
        && rec.percent == 0.0 && StartsWith(rec.message, "Error: ")
        && downloads == Storage.KeepUnprefixed(downloads, {tid}) && temp == Storage.KeepUnprefixed(temp, {tid}))
  }

  /** The download lookup over the downloads folder's listing. */
  function Located(tid: TaskId, d: Storage.Folder): Option<string> {
    Storage.NamesList(d);
    Files.FindDownloaded(tid, Storage.NameSet(d), Storage.Names(d))
  }

  /** The video encoder never writes over the file it reads. */
  lemma VideoCommandSeparate(found: string, tid: TaskId, quality: string)
    ensures SeparateInOut(Commands.VideoCommand(Files.InDownloads(found), Commands.SettingsFor(quality), Files.InDownloads(VideoTargetName(found, tid))))
  {
    Commands.VideoCommandSpec(Files.InDownloads(found), quality, Files.InDownloads(VideoTargetName(found, tid)));
  }

  /** The downloads folder after an encoder run: plus its output file, when it starts and writes one. */
  function Encoded(d: Storage.Folder, outName: string, w: World, now: real): (r: Storage.Folder)
    ensures w.launch.None? && w.encoded.Some? ==> Storage.SizeOf(r, outName) == Some(w.encoded.value)
    ensures !(w.launch.None? && w.encoded.Some?) ==> r == d
  {
    if w.launch.None? && w.encoded.Some? then Storage.Put(d, Storage.FileEntry(outName, now, w.encoded.value)) else d
  }

  lemma EncodedOwn(d: Storage.Folder, outName: string, w: World, now: real, tid: TaskId)
    requires StartsWith(outName, tid)
    ensures OwnFilesOnly(d, Encoded(d, outName, w, now), tid)
  {
    if w.launch.None? && w.encoded.Some? {
      OwnPut(d, Storage.FileEntry(outName, now, w.encoded.value), tid);
    }
  }

  /** The temp folder after the cover art is saved (when it is) and removed again. */
  function CoverArt(t: Storage.Folder, thumbName: string, thumbOk: bool, size: int, now: real): (r: Storage.Folder)
    ensures !Storage.HasName(r, thumbName)
  {
    Storage.Without(if thumbOk then Storage.Put(t, Storage.FileEntry(thumbName, now, size)) else t, thumbName)
  }

  lemma CoverArtOwn(t: Storage.Folder, thumbName: string, thumbOk: bool, size: int, now: real, tid: TaskId)
    requires StartsWith(thumbName, tid)
    ensures OwnFilesOnly(t, CoverArt(t, thumbName, thumbOk, size, now), tid)
  {
    var t1 := if thumbOk then Storage.Put(t, Storage.FileEntry(thumbName, now, size)) else t;
    if thumbOk {
      OwnPut(t, Storage.FileEntry(thumbName, now, size), tid);
    }
    OwnWithout(t1, thumbName, tid);
  }

  /**
   * The downloads folder after the video branch's file steps: a side-file
   * output replaces `<id>.mp4`, then the original download is removed
   * unless it is `<id>.mp4`.
   */
  function VideoOutputFiles(d: Storage.Folder, tid: TaskId, targetName: string, found: string): (r: Storage.Folder)
    requires StartsWith(targetName, tid) && StartsWith(found, tid) && found != targetName
    ensures OwnFilesOnly(d, r, tid)
    ensures Storage.SizeOf(r, VideoOutputName(tid)) == Storage.SizeOf(d, targetName)
    ensures targetName != VideoOutputName(tid) ==> !Storage.HasName(r, targetName)
    ensures found != VideoOutputName(tid) ==> !Storage.HasName(r, found)
  {
    var output := VideoOutputName(tid);
    OwnName(tid, ".mp4");
    var cleared := Storage.Without(d, output);
    OwnWithout(d, output, tid);
    var d1 :=
      if targetName != output then
        Storage.SizeOfRename(cleared, targetName, output);
        Storage.SizeOfWithout(d, output, targetName);
        OwnRename(cleared, targetName, output, tid);
        Storage.Rename(cleared, targetName, output)
      else d;
    if found != output then
      Storage.SizeOfWithout(d1, found, output);
      OwnWithout(d1, found, tid);
      Storage.Without(d1, found)
    else d1
  }

  /** A name built from the task id and a suffix belongs to the task. */
  lemma OwnName(tid: TaskId, suffix: string)
    ensures StartsWith(tid + suffix, tid)
  {
    assert (tid + suffix)[..|tid|] == tid;
  }

  /**
   * How the audio branch ends, the downloads folder going from `d0` to `d1`,
   * the temporary folder from `t0` to `t1`, the log from `l0` to `l1`, with
   * `rec` the entry at the end:
   * - it succeeds exactly when the encoder started, exited with code 0 and
   *   left the temporary file;
   * - on failure the folder holds what the encoder wrote, the message is the
   *   audio-failure text and only `processing`/88 was written;
   * - on success the output replaces the temporary file and the download,
   *   the cover art is gone from the temporary folder, both audio stages
   *   were written and the entry is `embedding`/95; the cover art was saved
   *   exactly when a thumbnail link exists and the save succeeded.
   */
  ghost predicate AudioConverted(tid: TaskId, f: Commands.AudioFormat, found: string, w: World, info: FetchedInfo, now: real,
                                 fail: Option<string>, thumbOk: bool, d0: Storage.Folder, d1: Storage.Folder,
                                 t0: Storage.Folder, t1: Storage.Folder, l0: seq<Tasks.Write>, l1: seq<Tasks.Write>,
                                 rec: Tasks.TaskRecord)
    requires StartsWith(found, tid) && EncoderEnds(w)
  {
    AudioNames(tid, f);
    var encoded := Encoded(d0, AudioTempName(tid, f), w, now);
    && (fail.None? <==> w.launch.None? && EncoderSucceeds(w) && Storage.HasName(encoded, AudioTempName(tid, f)))
    && (fail.Some? ==>
         && d1 == encoded && t1 == t0
         && StartsWith(fail.value, AudioFailedPrefix) && l1 == l0 + Tasks.ConvertSteps(true)[..1])
    && (fail.None? ==>
         && d1 == AudioOutputFiles(encoded, tid, AudioTempName(tid, f), AudioOutputName(tid, f), found,
                                   Storage.SizeOf(encoded, AudioTempName(tid, f)).value, now)
         && t1 == CoverArt(t0, ThumbName(tid), thumbOk, w.thumbSize, now)
         && l1 == l0 + Tasks.ConvertSteps(true)
         && rec.status == Tasks.Embedding && rec.percent == 95.0
         && (thumbOk <==> MediaInfo.BestThumbnail(info.thumbnails, info.thumbnail) != "" && w.thumbSaved))
  }

  /** The audio branch's failure ends as `AudioConverted` says. */
  lemma AudioFails(tid: TaskId, f: Commands.AudioFormat, found: string, w: World, info: FetchedInfo, now: real,
                          success: bool, err: string, d0: Storage.Folder, d1: Storage.Folder,
                          t0: Storage.Folder, l0: seq<Tasks.Write>, l1: seq<Tasks.Write>, rec: Tasks.TaskRecord)
    requires StartsWith(found, tid) && EncoderEnds(w)
    requires d1 == Encoded(d0, AudioTempName(tid, f), w, now)
    requires success <==> w.launch.None? && EncoderSucceeds(w)
    requires !success || Storage.SizeOf(d1, AudioTempName(tid, f)).None?
    requires l1 == l0 + [Tasks.Write(Tasks.Processing, 88.0)]
    ensures AudioConverted(tid, f, found, w, info, now, Some(ConversionError(AudioFailedPrefix, err, 150)), false, d0, d1, t0, t0, l0, l1, rec)
  {
    assert l1 == l0 + Tasks.ConvertSteps(true)[..1];
  }

  /** The audio branch's success ends as `AudioConverted` says. */
  lemma AudioSucceeds(tid: TaskId, f: Commands.AudioFormat, found: string, w: World, info: FetchedInfo, now: real,
                             size: int, thumbOk: bool, d0: Storage.Folder, d1: Storage.Folder, d2: Storage.Folder,
                             t0: Storage.Folder, t1: Storage.Folder, l0: seq<Tasks.Write>, l1: seq<Tasks.Write>, l2: seq<Tasks.Write>,
                             rec: Tasks.TaskRecord)
    requires StartsWith(found, tid) && EncoderEnds(w)
    requires d1 == Encoded(d0, AudioTempName(tid, f), w, now)
    requires w.launch.None? && EncoderSucceeds(w) && Storage.SizeOf(d1, AudioTempName(tid, f)) == Some(size)
    requires StartsWith(AudioTempName(tid, f), tid) && StartsWith(AudioOutputName(tid, f), tid) && AudioTempName(tid, f) != AudioOutputName(tid, f)
    requires d2 == AudioOutputFiles(d1, tid, AudioTempName(tid, f), AudioOutputName(tid, f), found, size, now)
    requires t1 == CoverArt(t0, ThumbName(tid), thumbOk, w.thumbSize, now)
    requires thumbOk <==> MediaInfo.BestThumbnail(info.thumbnails, info.thumbnail) != "" && w.thumbSaved
    requires l1 == l0 + [Tasks.Write(Tasks.Processing, 88.0)]
    requires l2 == l1 + [Tasks.Write(Tasks.Processing, 92.0), Tasks.Write(Tasks.Embedding, 95.0)]
    requires rec.status == Tasks.Embedding && rec.percent == 95.0
    ensures AudioConverted(tid, f, found, w, info, now, None, thumbOk, d0, d2, t0, t1, l0, l2, rec)
  {
    assert l2 == l0 + Tasks.ConvertSteps(true);
  }

  /**
   * How the download part ends, the registry going from `p0` to `p1`, the
   * log from `l0` to `l1`, with the downloads folder `d` at the end:
   * - a missing entry raises `KeyError` before any write;
   * - a fetch error stops after `connecting`/3 and `starting`/5;
   * - otherwise `processing`/86 follows, and the lookup over the folder
   *   decides: no file of the task is the download-missing failure;
   * - on success the entry is `processing`/86 and the located file is a
   *   present file of the task; every failure stops after a prefix of the
   *   three writes.
   */
  ghost predicate Prepared(tid: TaskId, w: World, found: Option<string>, fail: Option<string>,
                           p0: map<TaskId, Tasks.TaskRecord>, p1: map<TaskId, Tasks.TaskRecord>,
                           l0: seq<Tasks.Write>, l1: seq<Tasks.Write>, d: Storage.Folder)
  {
    var fetchError := FetchError(w.fetch, Timeouts.DownloadTimeout(DurationOf(w.pre)));
    && (found.Some? <==> fail.None?)
    && (tid in p0 ==> tid in p1 && p1 == p0[tid := p1[tid]])
    && (tid !in p0 ==> p1 == p0 && fail == Some(KeyErrorText(tid)) && l1 == l0)
    && (tid in p0 && fetchError.Some? ==> fail == fetchError && l1 == l0 + Tasks.DownloadSteps()[..2])
    && (tid in p0 && fetchError.None? ==>
        && l1 == l0 + Tasks.DownloadSteps()
        && found == Located(tid, d)
        && (fail.Some? <==> forall e :: e in d ==> !StartsWith(e.name, tid))
        && (fail.Some? ==> fail.value == DownloadMissingMessage))
    && (fail.None? ==>
        && w.fetch.Fetched? && w.fetch.info.Some?
        && tid in p1 && p1[tid].status == Tasks.Processing && p1[tid].percent == 86.0
        && Storage.HasName(d, found.value) && StartsWith(found.value, tid))
    && (fail.Some? ==> WrotePrefix(l0, l1, Tasks.DownloadSteps()))
  }

/** A missing entry ends the download part as `Prepared` says. */
  lemma PreparedMissing(tid: TaskId, w: World, p: map<TaskId, Tasks.TaskRecord>, l: seq<Tasks.Write>, d: Storage.Folder)
    requires tid !in p
    ensures Prepared(tid, w, None, Some(KeyErrorText(tid)), p, p, l, l, d)
  {
    assert l == l + Tasks.DownloadSteps()[..0];
  }

  /** A fetch error ends the download part as `Prepared` says. */
  lemma PreparedFetchFailed(tid: TaskId, w: World, p0: map<TaskId, Tasks.TaskRecord>, p1: map<TaskId, Tasks.TaskRecord>,
                            l0: seq<Tasks.Write>, l1: seq<Tasks.Write>, l2: seq<Tasks.Write>, d: Storage.Folder)
    requires tid in p0 && tid in p1 && p1 == p0[tid := p1[tid]]
    requires FetchError(w.fetch, Timeouts.DownloadTimeout(DurationOf(w.pre))).Some?
    requires l1 == l0 + [Tasks.Write(Tasks.Connecting, 3.0)] && l2 == l1 + [Tasks.Write(Tasks.Starting, 5.0)]
    ensures Prepared(tid, w, None, FetchError(w.fetch, Timeouts.DownloadTimeout(DurationOf(w.pre))), p0, p1, l0, l2, d)
  {
    assert l2 == l0 + Tasks.DownloadSteps()[..2];
  }

  /** A clean fetch ends the download part with the lookup's answer, as `Prepared` says. */
  lemma PreparedLocated(tid: TaskId, w: World, p0: map<TaskId, Tasks.TaskRecord>, p1: map<TaskId, Tasks.TaskRecord>,
                        l0: seq<Tasks.Write>, l1: seq<Tasks.Write>, l2: seq<Tasks.Write>, l3: seq<Tasks.Write>, d: Storage.Folder)
    requires tid in p0 && tid in p1 && p1 == p0[tid := p1[tid]]
    requires p1[tid].status == Tasks.Processing && p1[tid].percent == 86.0
    requires FetchError(w.fetch, Timeouts.DownloadTimeout(DurationOf(w.pre))).None?
    requires l1 == l0 + [Tasks.Write(Tasks.Connecting, 3.0)] && l2 == l1 + [Tasks.Write(Tasks.Starting, 5.0)]
    requires l3 == l2 + [Tasks.Write(Tasks.Processing, 86.0)]
    ensures var found := Located(tid, d);
      Prepared(tid, w, found, if found.None? then Some(DownloadMissingMessage) else None, p0, p1, l0, l3, d)
  {
    assert l3 == l0 + Tasks.DownloadSteps();
    var found := Located(tid, d);
    if found.Some? {
      assert Storage.HasName(d, found.value) && StartsWith(found.value, tid);
    } else {
      assert Tasks.DownloadSteps()[..3] == Tasks.DownloadSteps();
    }
  }

    class Server {
    var progress: map<TaskId, Tasks.TaskRecord>
    /** Ids with a registered process handle. */
    var processes: set<TaskId>
    var downloads: Storage.Folder
    var temp: Storage.Folder
    /** Thumbnail cache: key and the time the entry was stored. */
    var thumbnails: map<string, real>
    /** Free slots of the admission semaphore. */
    var permits: int
    /** Tasks holding a slot. */
    ghost var holders: set<TaskId>
    /** Encoder command lines, in the order they were started. */
    ghost var commands: seq<seq<string>>
    /** The pipeline's own status writes (the stage updates, the completion and the error record), in order. */
    ghost var log: seq<Tasks.Write>

    ghost predicate Valid()
      reads this
    {
      0 <= permits <= MaxConcurrentDownloads && permits + |holders| == MaxConcurrentDownloads
    }

    constructor()
      ensures Valid() && permits == MaxConcurrentDownloads && holders == {}
      ensures progress == map[] && processes == {} && downloads == [] && temp == [] && thumbnails == map[] && commands == [] && log == []
    {
      progress := map[];
      processes := {};
      downloads := [];
      temp := [];
      thumbnails := map[];
      permits := MaxConcurrentDownloads;
      holders := {};
      commands := [];
      log := [];
    }

    /** The `/api/convert` route's registration of a new task. */
    method CreateTask(tid: TaskId, now: real)
      modifies this
      ensures progress == old(progress)[tid := Tasks.CreatedRecord(now)]
      ensures processes == old(processes) && downloads == old(downloads) && temp == old(temp)
      ensures thumbnails == old(thumbnails) && permits == old(permits) && holders == old(holders) && commands == old(commands) && log == old(log)
    {
      progress := progress[tid := Tasks.CreatedRecord(now)];
    }

    /** `progress_hook`: an update of a present entry; a missing entry is left missing. */
    method ProgressHook(tid: TaskId, ev: Tasks.HookEvent, now: real)
      modifies this`progress
      ensures tid in old(progress) ==> progress == old(progress)[tid := Tasks.HookUpdate(old(progress)[tid], ev, now)]
      ensures tid !in old(progress) ==> progress == old(progress)
    {
      if tid in progress {
        progress := progress[tid := Tasks.HookUpdate(progress[tid], ev, now)];
      }
    }

    /** The fetcher's hook calls during one download, in order. */
    method ReplayHooks(tid: TaskId, events: seq<Tasks.TimedEvent>)
      modifies this`progress
      ensures tid in old(progress) ==> progress == old(progress)[tid := Tasks.ApplyHooks(old(progress)[tid], events)]
      ensures tid !in old(progress) ==> progress == old(progress)
    {
      if tid !in progress {
        return;
      }
      ghost var start := progress[tid];
      var i := 0;
      while i < |events|
        invariant 0 <= i <= |events|
        invariant progress == old(progress)[tid := Tasks.ApplyHooks(start, events[..i])]
      {
        assert Tasks.ApplyHooks(start, events[..i + 1]) == Tasks.HookUpdate(Tasks.ApplyHooks(start, events[..i]), events[i].event, events[i].at) by {
          assert events[..i + 1][..i] == events[..i];
        }
        ProgressHook(tid, events[i].event, events[i].at);
        i := i + 1;
      }
      assert events[..i] == events;
    }

    /**
     * One pass of `check_stalled_downloads` at `now`: every stalled entry
     * becomes an error, its process handle is dropped unless killing it
     * raised (`killFails`), and its files are deleted from both folders.
     */
    method StallScan(now: real, killFails: set<TaskId>)
      modifies this`progress, this`processes, this`downloads, this`temp
      ensures progress == Tasks.StallScanSpec(old(progress), now)
      ensures processes == old(processes) - (Tasks.StalledIds(old(progress), now) - killFails)
      ensures downloads == Storage.KeepUnprefixed(old(downloads), Tasks.StalledIds(old(progress), now))
      ensures temp == Storage.KeepUnprefixed(old(temp), Tasks.StalledIds(old(progress), now))
    {
      var pending := progress.Keys;
      ghost var seen: set<TaskId> := {};
      ghost var stalled := Tasks.StalledIds(old(progress), now);
      Tasks.ScanPartStart(progress, now);
      Storage.KeepUnprefixedNone(downloads);
      Storage.KeepUnprefixedNone(temp);
      assert stalled * seen == {};
      while pending != {}
        invariant pending !! seen && pending + seen == old(progress).Keys
        invariant progress == Tasks.ScanPart(old(progress), seen, now)
        invariant processes == old(processes) - (stalled * seen - killFails)
        invariant downloads == Storage.KeepUnprefixed(old(downloads), stalled * seen)
        invariant temp == Storage.KeepUnprefixed(old(temp), stalled * seen)
        decreases pending
      {
        var t :| t in pending;
        Tasks.ScanPartStep(old(progress), seen, t, now);
        var info := progress[t];
        if Tasks.Stalled(info, now) {
          Expire(t, now, killFails);
          Storage.KeepUnprefixedCompose(old(downloads), stalled * seen, {t});
          Storage.KeepUnprefixedCompose(old(temp), stalled * seen, {t});
          assert stalled * (seen + {t}) == stalled * seen + {t};
        } else {
          assert stalled * (seen + {t}) == stalled * seen;
        }
        pending := pending - {t};
        seen := seen + {t};
      }
      assert stalled * seen == stalled;
      Tasks.ScanPartEnd(old(progress), now);
    }

    /**
     * The stall scan's handling of one stalled entry: drop its process handle
     * unless killing it raised, mark it stalled, delete its files.
     */
    method Expire(t: TaskId, now: real, killFails: set<TaskId>)
      requires t in progress
      modifies this`progress, this`processes, this`downloads, this`temp
      ensures processes == old(processes) - ({t} - killFails)
      ensures progress == old(progress)[t := Tasks.StalledRecord(old(progress)[t], now)]
      ensures downloads == Storage.KeepUnprefixed(old(downloads), {t})
      ensures temp == Storage.KeepUnprefixed(old(temp), {t})
    {
      if t in processes && t !in killFails {
        processes := processes - {t};
      }
      progress := progress[t := Tasks.StalledRecord(progress[t], now)];
      downloads := Storage.RemovePrefixed(downloads, t);
      temp := Storage.RemovePrefixed(temp, t);
    }

    /** The `/api/cancel/<id>` route. */
    method Cancel(tid: TaskId, now: real)
      modifies this
      ensures processes == old(processes) - {tid}
      ensures progress == Tasks.CancelSpec(old(progress), tid, now)
      ensures downloads == Storage.KeepUnprefixed(old(downloads), {tid})
      ensures temp == Storage.KeepUnprefixed(old(temp), {tid})
      ensures thumbnails == old(thumbnails) && permits == old(permits) && holders == old(holders) && commands == old(commands) && log == old(log)
    {
      processes := processes - {tid};
      progress := Tasks.CancelSpec(progress, tid, now);
      downloads := Storage.RemovePrefixed(downloads, tid);
      temp := Storage.RemovePrefixed(temp, tid);
    }

    /** The `/api/admin/kill-all` route: every handle dropped, every unfinished task failed, both folders emptied. */
    method KillAll()
      modifies this
      ensures processes == {}
      ensures progress == Tasks.KillAllSpec(old(progress))
      ensures downloads == [] && temp == []
      ensures thumbnails == old(thumbnails) && permits == old(permits) && holders == old(holders) && commands == old(commands) && log == old(log)
    {
      processes := {};
      progress := Tasks.KillAllSpec(progress);
      Storage.KeepUnprefixedEmpty(downloads);
      Storage.KeepUnprefixedEmpty(temp);
      downloads := Storage.RemovePrefixed(downloads, "");
      temp := Storage.RemovePrefixed(temp, "");
    }

    /** One pass of `cleanup_old_files` at `now`. */
    method Cleanup(now: real)
      modifies this
      ensures downloads == Storage.KeepSwept(old(downloads), old(progress), now)
      ensures temp == Storage.KeepSwept(old(temp), old(progress), now)
      ensures thumbnails == map k | k in old(thumbnails) && !Tasks.ThumbnailExpired(old(thumbnails)[k], now) :: old(thumbnails)[k]
      ensures progress == old(progress) && processes == old(processes)
      ensures permits == old(permits) && holders == old(holders) && commands == old(commands) && log == old(log)
    {
      downloads := Storage.Sweep(downloads, progress, now);
      temp := Storage.Sweep(temp, progress, now);
      thumbnails := map k | k in thumbnails && !Tasks.ThumbnailExpired(thumbnails[k], now) :: thumbnails[k];
    }

    /** `active_downloads.acquire`: succeeds exactly when a slot is free; the wait is not modelled. */
    method Admit(tid: TaskId) returns (acquired: bool)
      requires Valid() && tid !in holders
      modifies this`permits, this`holders
      ensures Valid()
      ensures acquired <==> old(permits) > 0
      ensures acquired ==> permits == old(permits) - 1 && holders == old(holders) + {tid}
      ensures !acquired ==> permits == old(permits) && holders == old(holders)
    {
      acquired := permits > 0;
      if acquired {
        permits := permits - 1;
        holders := holders + {tid};
      }
    }

    /** `active_downloads.release` by a task holding a slot. */
    method Release(tid: TaskId)
      requires Valid() && tid in holders
      modifies this`permits, this`holders
      ensures Valid()
      ensures permits == old(permits) + 1 && holders == old(holders) - {tid}
    {
      assert |holders - {tid}| == |holders| - 1;
      permits := permits + 1;
      holders := holders - {tid};
    }

    /**
     * `run_ffmpeg_with_progress`: start the encoder (or fail to), register
     * its handle, poll until it exits or overruns `timeout`, keep the task
     * alive meanwhile, and drop the handle on every way out.
     */
    method RunFfmpeg(tid: TaskId, cmd: seq<string>, stage: Tasks.Status, timeout: int,
                     launch: Option<string>, trace: seq<Supervision.FfmpegPoll>, start: real)
      returns (success: bool, err: string)
      requires launch.Some? || Supervision.Terminates(trace, start, timeout)
      modifies this`commands, this`processes, this`progress
      ensures commands == old(commands) + [cmd]
      ensures processes == old(processes) - {tid}
      ensures launch.Some? ==> !success && err == launch.value && progress == old(progress)
      ensures launch.None? ==> (success, err) == Supervision.Verdict(trace[Supervision.FirstEnd(trace, start, timeout)])
      ensures launch.None? && tid in old(progress) ==>
        progress == old(progress)[tid := Supervision.KeepAlives(old(progress)[tid], trace, start, timeout, stage, start)]
      ensures tid !in old(progress) ==> progress == old(progress)
    {
      commands := commands + [cmd];
      if launch.Some? {
        processes := processes - {tid};
        success, err := false, launch.value;
        return;
      }
      processes := processes + {tid};
      success, err := Supervise(tid, stage, timeout, trace, start);
      processes := processes - {tid};
    }

    /** The polling loop of `run_ffmpeg_with_progress`, once the encoder is running. */
    method Supervise(tid: TaskId, stage: Tasks.Status, timeout: int, trace: seq<Supervision.FfmpegPoll>, start: real)
      returns (success: bool, err: string)
      requires Supervision.Terminates(trace, start, timeout)
      modifies this`progress
      ensures (success, err) == Supervision.Verdict(trace[Supervision.FirstEnd(trace, start, timeout)])
      ensures tid in old(progress) ==>
        progress == old(progress)[tid := Supervision.KeepAlives(old(progress)[tid], trace, start, timeout, stage, start)]
      ensures tid !in old(progress) ==> progress == old(progress)
    {
      var lastKeep := start;
      var i := 0;
      ghost var last := Supervision.FirstEnd(trace, start, timeout);
      ghost var rec := if tid in progress then progress[tid] else Tasks.CreatedRecord(start);
      ghost var goal := Supervision.KeepAlives(rec, trace, start, timeout, stage, start);
      assert trace[0..] == trace;
      while !Supervision.Ends(trace[i], start, timeout)
        invariant 0 <= i <= last
        invariant Supervision.Terminates(trace[i..], start, timeout)
        invariant tid in old(progress) ==> progress == old(progress)[tid := rec]
        invariant tid !in old(progress) ==> progress == old(progress)
        invariant Supervision.KeepAlives(rec, trace[i..], start, timeout, stage, lastKeep) == goal
        decreases last - i
      {
        var p := trace[i];
        Supervision.KeepAlivesUnfold(rec, trace, i, start, timeout, stage, lastKeep);
        if p.at - lastKeep > Supervision.KeepAliveInterval {
          Touch(tid, p.at, start, stage);
          if tid in old(progress) {
            UpdateTwice(old(progress), tid, rec, Supervision.KeepAlive(rec, p.at, start, stage));
          }
          rec := Supervision.KeepAlive(rec, p.at, start, stage);
          lastKeep := p.at;
        }
        assert Supervision.KeepAlives(rec, trace[i + 1..], start, timeout, stage, lastKeep) == goal;
        i := i + 1;
      }
      Supervision.KeepAlivesUnfold(rec, trace, i, start, timeout, stage, lastKeep);
      success, err := Supervision.Verdict(trace[i]).0, Supervision.Verdict(trace[i]).1;
    }

    /** One keep-alive under `progress_lock`: an entry still present is refreshed as `KeepAlive` says, nothing else changes. */
    method Touch(tid: TaskId, at: real, start: real, stage: Tasks.Status)
      modifies this`progress
      ensures tid in old(progress) ==> progress == old(progress)[tid := Supervision.KeepAlive(old(progress)[tid], at, start, stage)]
      ensures tid !in old(progress) ==> progress == old(progress)
    {
      if tid in progress {
        progress := progress[tid := Supervision.KeepAlive(progress[tid], at, start, stage)];
      }
    }

    /** One `conversion_progress[tid].update(...)` of the pipeline; a missing entry raises `KeyError`. */
    method Stage(tid: TaskId, status: Tasks.Status, percent: real, msg: string, now: real) returns (fail: Option<string>)
      modifies this`progress, this`log
      ensures tid in old(progress) ==>
        && fail.None? && log == old(log) + [Tasks.Write(status, percent)]
        && progress == old(progress)[tid := old(progress)[tid].(status := status, percent := percent, message := msg, lastUpdate := now)]
      ensures tid !in old(progress) ==> fail == Some(KeyErrorText(tid)) && progress == old(progress) && log == old(log)
    {
      if tid !in progress {
        return Some(KeyErrorText(tid));
      }
      progress := progress[tid := progress[tid].(status := status, percent := percent, message := msg, lastUpdate := now)];
      log := log + [Tasks.Write(status, percent)];
      fail := None;
    }

    /**
     * The part of `run_conversion` up to the located download: `connecting`,
     * the pre-fetch, `starting`, the fetch with its hook calls and files, the
     * wait verdict, `processing`/86 and the file lookup.
     */
    method Prepare(tid: TaskId, w: World, now: real) returns (found: Option<string>, fail: Option<string>)
      requires forall e :: e in w.written ==> StartsWith(e.name, tid)
      modifies this`progress, this`downloads, this`log
      ensures OwnFilesOnly(old(downloads), downloads, tid)
      ensures Prepared(tid, w, found, fail, old(progress), progress, old(log), log, downloads)
    {
      found := None;
      fail := Stage(tid, Tasks.Connecting, 3.0, ConnectingMessage, now);
      if fail.Some? {
        PreparedMissing(tid, w, progress, log, downloads);
        return;
      }
      var timeout := Timeouts.DownloadTimeout(DurationOf(w.pre));
      ghost var p1, l1 := progress, log;
      fail := Stage(tid, Tasks.Starting, 5.0, StartingMessage, now);
      UpdateTwice(old(progress), tid, p1[tid], progress[tid]);
      ghost var p2, l2 := progress, log;
      ReplayHooks(tid, w.hooks);
      UpdateTwice(old(progress), tid, p2[tid], progress[tid]);
      OwnPutAll(downloads, w.written, tid);
      downloads := Storage.PutAll(downloads, w.written);
      fail := FetchError(w.fetch, timeout);
      if fail.Some? {
        PreparedFetchFailed(tid, w, old(progress), progress, old(log), l1, log, downloads);
        return;
      }
      ghost var p3 := progress;
      fail := Stage(tid, Tasks.Processing, 86.0, LocatingMessage, now);
      UpdateTwice(old(progress), tid, p3[tid], progress[tid]);
      Storage.NamesList(downloads);
      var located := Files.FindDownloaded(tid, Storage.NameSet(downloads), Storage.Names(downloads));
      PreparedLocated(tid, w, old(progress), progress, old(log), l1, l2, log, downloads);
      if located.None? {
        fail := Some(DownloadMissingMessage);
        return;
      }
      found := Some(located.value);
    }

    /**
     * The encoder run of either branch: the command line, the supervised run
     * and the file the encoder leaves under `outName` when it starts and
     * writes one.
     */
    method Encode(tid: TaskId, cmd: seq<string>, outName: string, w: World, now: real) returns (success: bool, err: string)
      requires EncoderEnds(w)
      modifies this`commands, this`processes, this`progress, this`downloads
      ensures commands == old(commands) + [cmd]
      ensures processes == old(processes) - {tid}
      ensures success <==> w.launch.None? && EncoderSucceeds(w)
      ensures downloads == Encoded(old(downloads), outName, w, now)
      ensures w.launch.None? && tid in old(progress) ==>
        progress == old(progress)[tid := Supervision.KeepAlives(old(progress)[tid], w.trace, w.encodeStart,
                                                               Timeouts.FfmpegTimeout(DurationOf(w.pre)), Tasks.Processing, w.encodeStart)]
      ensures w.launch.Some? || tid !in old(progress) ==> progress == old(progress)
    {
      success, err := RunFfmpeg(tid, cmd, Tasks.Processing, Timeouts.FfmpegTimeout(DurationOf(w.pre)), w.launch, w.trace, w.encodeStart);
      if w.launch.None? && w.encoded.Some? {
        downloads := Storage.Put(downloads, Storage.FileEntry(outName, now, w.encoded.value));
      }
    }

    /**
     * The audio branch: `processing`/88, the encoder writing `<id>_temp.<ext>`,
     * `processing`/92 and the cover art, `embedding`/95, the copy to
     * `<id>.<ext>` and the removal of the temporary file, the original
     * download and the cover art.
     */
    method ConvertAudio(tid: TaskId, f: Commands.AudioFormat, found: string, w: World, info: FetchedInfo, now: real)
      returns (fail: Option<string>, thumbOk: bool)
      requires tid in progress && StartsWith(found, tid) && EncoderEnds(w)
      modifies this`progress, this`downloads, this`temp, this`processes, this`commands, this`log
      ensures tid in progress && progress == old(progress)[tid := progress[tid]]
      ensures processes == old(processes) - {tid}
      ensures commands == old(commands) + [Commands.AudioCommand(Files.InDownloads(found), f, Files.InDownloads(AudioTempName(tid, f)))]
      ensures AudioConverted(tid, f, found, w, info, now, fail, thumbOk, old(downloads), downloads, old(temp), temp, old(log), log, progress[tid])
    {
      AudioNames(tid, f);
      var tempName := AudioTempName(tid, f);
      thumbOk := false;
      ghost var p0, d0, t0, l0 := progress, downloads, temp, log;
      var success, err := EncodeAudio(tid, f, found, tempName, w, now);
      var encodedSize := Storage.SizeOf(downloads, tempName);
      if !success || encodedSize.None? {
        fail := Some(ConversionError(AudioFailedPrefix, err, 150));
        AudioFails(tid, f, found, w, info, now, success, err, d0, downloads, t0, l0, log, progress[tid]);
        return;
      }
      fail := None;
      ghost var p1, d1, l1 := progress, downloads, log;
      thumbOk := PlaceAudio(tid, tempName, AudioOutputName(tid, f), found, encodedSize.value,
                            MediaInfo.BestThumbnail(info.thumbnails, info.thumbnail), w, now);
      UpdateTwice(p0, tid, p1[tid], progress[tid]);
      AudioSucceeds(tid, f, found, w, info, now, encodedSize.value, thumbOk, d0, d1, downloads, t0, temp, l0, l1, log, progress[tid]);
    }

    /** `processing`/88 and the audio encoder writing `tempName`. */
    method EncodeAudio(tid: TaskId, f: Commands.AudioFormat, found: string, tempName: string, w: World, now: real) returns (success: bool, err: string)
      requires tid in progress && EncoderEnds(w)
      modifies this`progress, this`downloads, this`processes, this`commands, this`log
      ensures tid in progress && progress == old(progress)[tid := progress[tid]]
      ensures log == old(log) + [Tasks.Write(Tasks.Processing, 88.0)]
      ensures processes == old(processes) - {tid}
      ensures commands == old(commands) + [Commands.AudioCommand(Files.InDownloads(found), f, Files.InDownloads(tempName))]
      ensures downloads == Encoded(old(downloads), tempName, w, now)
      ensures success <==> w.launch.None? && EncoderSucceeds(w)
    {
      var _ := Stage(tid, Tasks.Processing, 88.0, AudioConvertMessage(f), now);
      success, err := Encode(tid, Commands.AudioCommand(Files.InDownloads(found), f, Files.InDownloads(tempName)), tempName, w, now);
    }

    /**
     * After a successful encode: `processing`/92 and the cover art fetch
     * (`thumbUrl` is the chosen thumbnail), `embedding`/95, the copy to the
     * final name and the clean-up of both folders.
     */
    method PlaceAudio(tid: TaskId, tempName: string, output: string, found: string, size: int, thumbUrl: string, w: World, now: real)
      returns (thumbOk: bool)
      requires tid in progress
      requires StartsWith(tempName, tid) && StartsWith(output, tid) && StartsWith(found, tid) && tempName != output
      modifies this`progress, this`downloads, this`temp, this`log
      ensures tid in progress && progress == old(progress)[tid := progress[tid]]
      ensures progress[tid].status == Tasks.Embedding && progress[tid].percent == 95.0
      ensures log == old(log) + [Tasks.Write(Tasks.Processing, 92.0), Tasks.Write(Tasks.Embedding, 95.0)]
      ensures thumbOk <==> thumbUrl != "" && w.thumbSaved
      ensures downloads == AudioOutputFiles(old(downloads), tid, tempName, output, found, size, now)
      ensures temp == CoverArt(old(temp), ThumbName(tid), thumbOk, w.thumbSize, now)
    {
      var thumbName := ThumbName(tid);
      ghost var p0 := progress;
      var _ := Stage(tid, Tasks.Processing, 92.0, ArtworkMessage, now);
      thumbOk := thumbUrl != "" && w.thumbSaved;
      if thumbOk {
        temp := Storage.Put(temp, Storage.FileEntry(thumbName, now, w.thumbSize));
      }
      ghost var p1 := progress;
      var _ := Stage(tid, Tasks.Embedding, 95.0, EmbeddingMessage, now);
      UpdateTwice(p0, tid, p1[tid], progress[tid]);
      downloads := AudioOutputFiles(downloads, tid, tempName, output, found, size, now);
      temp := Storage.Without(temp, thumbName);
    }

    /**
     * The video branch: `processing`/88, the encoder writing the target
     * chosen by `VideoTargetName`, the move to `<id>.mp4` and the removal of
     * the original download.
     */
    method ConvertVideo(tid: TaskId, quality: string, found: string, w: World, now: real) returns (fail: Option<string>)
      requires tid in progress && StartsWith(found, tid) && EncoderEnds(w)
      modifies this`progress, this`downloads, this`processes, this`commands, this`log
      ensures tid in progress && progress == old(progress)[tid := progress[tid]]
      ensures log == old(log) + Tasks.ConvertSteps(false)
      ensures processes == old(processes) - {tid}
      ensures commands == old(commands) + [Commands.VideoCommand(Files.InDownloads(found), Commands.SettingsFor(quality), Files.InDownloads(VideoTargetName(found, tid)))]
      ensures var target := VideoTargetName(found, tid); var encoded := Encoded(old(downloads), target, w, now);
        && (fail.None? <==> w.launch.None? && EncoderSucceeds(w) && Storage.HasName(encoded, target))
        && (fail.Some? ==> downloads == encoded && StartsWith(fail.value, VideoFailedPrefix))
        && (fail.None? ==> downloads == VideoOutputFiles(encoded, tid, target, found))
    {
      VideoNames(tid, found);
      ghost var p0 := progress;
      var _ := Stage(tid, Tasks.Processing, 88.0, VideoConvertMessage, now);
      ghost var p1 := progress;
      var target := VideoTargetName(found, tid);
      var success, err := Encode(tid, Commands.VideoCommand(Files.InDownloads(found), Commands.SettingsFor(quality), Files.InDownloads(target)), target, w, now);
      UpdateTwice(p0, tid, p1[tid], progress[tid]);
      if !success || !Storage.HasName(downloads, target) {
        fail := Some(ConversionError(VideoFailedPrefix, err, 200));
        return;
      }
      fail := None;
      downloads := VideoOutputFiles(downloads, tid, target, found);
    }

    /** The output file is the branch's final name, and a failure message names the branch that failed. */
    predicate BranchNames(tid: TaskId, req: Request, output: string, fail: Option<string>) {
      && output == (if IsAudio(req) then AudioOutputName(tid, req.audioFormat) else VideoOutputName(tid))
      && (fail.Some? ==> StartsWith(fail.value, if IsAudio(req) then AudioFailedPrefix else VideoFailedPrefix))
    }

    /**
     * The conversion branch the request selects, with what the rest of the
     * run needs of it: the output name, the task's own status writes, the
     * folders changed only in the task's files, and the encoder command.
     */
    method Convert(tid: TaskId, req: Request, found: string, w: World, info: FetchedInfo, now: real)
      returns (output: string, fail: Option<string>, thumbOk: bool)
      requires tid in progress && StartsWith(found, tid) && EncoderEnds(w)
      modifies this`progress, this`downloads, this`temp, this`processes, this`commands, this`log
      ensures OwnChanges(tid, old(progress), progress, old(downloads), downloads, old(temp), temp)
      ensures processes == old(processes) - {tid}
      ensures |commands| == |old(commands)| + 1 && commands[..|old(commands)|] == old(commands)
      ensures StartsWith(output, tid)
      ensures BranchNames(tid, req, output, fail)
      ensures fail.None? ==> log == old(log) + Tasks.ConvertSteps(IsAudio(req))
      ensures fail.Some? ==> WrotePrefix(old(log), log, Tasks.ConvertSteps(IsAudio(req)))
      ensures fail.None? && !IsAudio(req) ==> SeparateInOut(commands[|commands| - 1]) && !thumbOk
    {
      ghost var d0, t0 := downloads, temp;
      if IsAudio(req) {
        AudioNames(tid, req.audioFormat);
        output := AudioOutputName(tid, req.audioFormat);
        fail, thumbOk := ConvertAudio(tid, req.audioFormat, found, w, info, now);
        var tempName := AudioTempName(tid, req.audioFormat);
        var encoded := Encoded(d0, tempName, w, now);
        EncodedOwn(d0, tempName, w, now, tid);
        if fail.None? {
          CoverArtOwn(t0, ThumbName(tid), thumbOk, w.thumbSize, now, tid);
        }
      } else {
        VideoNames(tid, found);
        output := VideoOutputName(tid);
        thumbOk := false;
        fail := ConvertVideo(tid, req.quality, found, w, now);
        var target := VideoTargetName(found, tid);
        var encoded := Encoded(d0, target, w, now);
        EncodedOwn(d0, target, w, now, tid);
        if fail.None? {
          VideoCommandSeparate(found, tid, req.quality);
        }
      }
    }

    /**
     * The final check of the output file and the completion record, whose
     * title comes from the pre-fetch (`clean` is the title clean-up).
     */
    method Finish(tid: TaskId, req: Request, output: string, pre: PreInfo, clean: string -> string, thumbOk: bool, elapsed: real, now: real)
      returns (fail: Option<string>)
      modifies this`progress, this`log
      ensures Finished(tid, req, output, TitleOf(pre, clean), thumbOk, elapsed, now, Storage.SizeOf(downloads, output), fail,
                       old(progress), progress, old(log), log)
      ensures fail.None? && StartsWith(output, tid) ==> Completes(progress[tid], tid, downloads)
    {
      var size := Storage.SizeOf(downloads, output);
      if size.None? {
        return Some(FinalMissingMessage);
      }
      if size.value < MinOutputSize {
        return Some(TooSmallMessage);
      }
      var rec := CompletedRecord(req, output, size.value, TitleOf(pre, clean), thumbOk, elapsed, now);
      CompletedRecordCompletes(tid, req, output, size.value, TitleOf(pre, clean), thumbOk, elapsed, now, downloads);
      progress := progress[tid := rec];
      log := log + [Tasks.Write(Tasks.Completed, 100.0)];
      fail := None;
    }

    /**
     * How the final check of an output of `size` ends: it fails with the
     * missing-file or too-small message and changes neither the registry nor
     * the log, or it stores the completion record and logs `completed`/100.
     */
    ghost predicate Finished(tid: TaskId, req: Request, output: string, title: string, thumbOk: bool, elapsed: real, now: real,
                             size: Option<int>, fail: Option<string>,
                             p0: map<TaskId, Tasks.TaskRecord>, p1: map<TaskId, Tasks.TaskRecord>, l0: seq<Tasks.Write>, l1: seq<Tasks.Write>)
    {
      && (fail.None? <==> size.Some? && size.value >= MinOutputSize)
      && (size.None? ==> fail == Some(FinalMissingMessage))
      && (size.Some? && size.value < MinOutputSize ==> fail == Some(TooSmallMessage))
      && (fail.Some? ==> p1 == p0 && l1 == l0)
      && (size.Some? && size.value >= MinOutputSize ==>
            && p1 == p0[tid := CompletedRecord(req, output, size.value, title, thumbOk, elapsed, now)]
            && l1 == l0 + [Tasks.Write(Tasks.Completed, 100.0)])
    }

    /**
     * The exception handler: drop the process handle, replace the entry by
     * the error record and delete every file of the task from both folders.
     */
    method Fail(tid: TaskId, msg: string, now: real)
      modifies this`progress, this`processes, this`downloads, this`temp, this`log
      ensures processes == old(processes) - {tid}
      ensures progress == old(progress)[tid := ErrorRecord(msg, now)]
      ensures log == old(log) + [Tasks.Write(Tasks.Error, 0.0)]
      ensures downloads == Storage.KeepUnprefixed(old(downloads), {tid}) && temp == Storage.KeepUnprefixed(old(temp), {tid})
      ensures OwnFilesOnly(old(downloads), downloads, tid) && OwnFilesOnly(old(temp), temp, tid)
      ensures downloads == Storage.KeepUnprefixed(downloads, {tid}) && temp == Storage.KeepUnprefixed(temp, {tid})
    {
      OwnKeepUnprefixed(downloads, tid);
      OwnKeepUnprefixed(temp, tid);
      Storage.KeepUnprefixedIdempotent(downloads, {tid});
      Storage.KeepUnprefixedIdempotent(temp, {tid});
      processes := processes - {tid};
      progress := progress[tid := ErrorRecord(msg, now)];
      log := log + [Tasks.Write(Tasks.Error, 0.0)];
      downloads := Storage.RemovePrefixed(downloads, tid);
      temp := Storage.RemovePrefixed(temp, tid);
    }

    /**
     * The body of the `try` block after admission: the download part, the
     * conversion branch and the final check. On success the entry is the
     * completion record.
     */
    method Pipeline(tid: TaskId, req: Request, w: World, clean: string -> string, elapsed: real, now: real)
      returns (fail: Option<string>)
      requires forall e :: e in w.written ==> StartsWith(e.name, tid)
      requires EncoderEnds(w)
      modifies this`progress, this`downloads, this`temp, this`processes, this`commands, this`log
      ensures tid in old(progress) ==> tid in progress && progress == old(progress)[tid := progress[tid]]
      ensures tid !in old(progress) ==> progress == old(progress)
      ensures OwnFilesOnly(old(downloads), downloads, tid) && OwnFilesOnly(old(temp), temp, tid)
      ensures processes - {tid} == old(processes) - {tid}
      ensures fail.None? ==> processes == old(processes) - {tid}
      ensures Ending(tid, IsAudio(req), fail, old(log), log, Tasks.DownloadSteps() + Tasks.ConvertSteps(IsAudio(req)), progress, downloads, commands)
    {
      var found;
      found, fail := Prepare(tid, w, now);
      ghost var steps := Tasks.ConvertSteps(IsAudio(req));
      if fail.Some? {
        WrotePrefixWithin(old(log), log, Tasks.DownloadSteps(), steps);
        return;
      }
      ghost var p1, l1 := progress, log;
      fail := ConvertAndFinish(tid, req, found.value, w, clean, elapsed, now);
      UpdateTwice(old(progress), tid, p1[tid], progress[tid]);
      if fail.Some? {
        WrotePrefixAfter(old(log), l1, log, Tasks.DownloadSteps(), steps);
      } else {
        assert log == old(log) + (Tasks.DownloadSteps() + steps) + [Tasks.Write(Tasks.Completed, 100.0)];
      }
    }

    /** The conversion branch and the final check, once the download is located. */
    method ConvertAndFinish(tid: TaskId, req: Request, found: string, w: World, clean: string -> string, elapsed: real, now: real)
      returns (fail: Option<string>)
      requires tid in progress && StartsWith(found, tid) && EncoderEnds(w)
      requires w.fetch.Fetched? && w.fetch.info.Some?
      modifies this`progress, this`downloads, this`temp, this`processes, this`commands, this`log
      ensures OwnChanges(tid, old(progress), progress, old(downloads), downloads, old(temp), temp)
      ensures processes == old(processes) - {tid}
      ensures Ending(tid, IsAudio(req), fail, old(log), log, Tasks.ConvertSteps(IsAudio(req)), progress, downloads, commands)
    {
      ghost var steps := Tasks.ConvertSteps(IsAudio(req));
      var output, thumbOk;
      output, fail, thumbOk := Convert(tid, req, found, w, w.fetch.info.value, now);
      if fail.Some? {
        return;
      }
      ghost var p1, l1 := progress, log;
      assert l1 == old(log) + steps;
      fail := Finish(tid, req, output, w.pre, clean, thumbOk, elapsed, now);
      if fail.None? {
        assert log == l1 + [Tasks.Write(Tasks.Completed, 100.0)];
        UpdateTwice(old(progress), tid, p1[tid], progress[tid]);
      } else {
        assert log == l1 && steps[..|steps|] == steps;
      }
    }

    /** `run_conversion` once a slot is held: the pipeline and, on any failure, the exception handler. */
    method RunAdmitted(tid: TaskId, req: Request, w: World, clean: string -> string, elapsed: real, now: real)
      requires forall e :: e in w.written ==> StartsWith(e.name, tid)
      requires EncoderEnds(w)
      modifies this`progress, this`downloads, this`temp, this`processes, this`commands, this`log
      ensures processes == old(processes) - {tid}
      ensures tid in progress && progress == old(progress)[tid := progress[tid]]
      ensures OwnFilesOnly(old(downloads), downloads, tid) && OwnFilesOnly(old(temp), temp, tid)
      ensures Outcome(tid, IsAudio(req), old(log), log, progress[tid], downloads, temp, commands)
    {
      var fail := Pipeline(tid, req, w, clean, elapsed, now);
      if fail.Some? {
        ghost var p1, l1 := progress, log;
        Tasks.FailedAfter(l1[|old(log)|..], IsAudio(req), |l1| - |old(log)|);
        Fail(tid, fail.value, now);
        if tid in old(progress) {
          UpdateTwice(old(progress), tid, p1[tid], progress[tid]);
        }
        assert log[|old(log)|..] == l1[|old(log)|..] + [Tasks.Write(Tasks.Error, 0.0)];
      } else {
        assert log[|old(log)|..] == Tasks.Script(IsAudio(req));
      }
    }

    /**
     * The exception handler reached when no slot is free: the task fails with
     * the busy message before any other status write.
     */
    method Refuse(tid: TaskId, req: Request, now: real)
      modifies this`progress, this`processes, this`downloads, this`temp, this`log
      ensures processes == old(processes) - {tid}
      ensures progress == old(progress)[tid := ErrorRecord(BusyMessage, now)]
      ensures OwnFilesOnly(old(downloads), downloads, tid) && OwnFilesOnly(old(temp), temp, tid)
      ensures downloads == Storage.KeepUnprefixed(downloads, {tid}) && temp == Storage.KeepUnprefixed(temp, {tid})
      ensures log == old(log) + [Tasks.Write(Tasks.Error, 0.0)] && Tasks.FailedRun(log[|old(log)|..], IsAudio(req))
      ensures Outcome(tid, IsAudio(req), old(log), log, progress[tid], downloads, temp, commands)
    {
      Tasks.FailedAfter([], IsAudio(req), 0);
      Fail(tid, BusyMessage, now);
      assert log[|old(log)|..] == [Tasks.Write(Tasks.Error, 0.0)];
    }

    /**
     * `run_conversion`: admission, the run of an admitted task, the release
     * of the slot; a task refused a slot goes through the exception handler
     * with the busy message.
     */
    method RunConversion(tid: TaskId, req: Request, w: World, clean: string -> string, elapsed: real, now: real)
      requires Valid() && tid !in holders
      requires forall e :: e in w.written ==> StartsWith(e.name, tid)
      requires EncoderEnds(w)
      modifies this`permits, this`holders, this`progress, this`downloads, this`temp, this`processes, this`commands, this`log
      ensures Valid() && permits == old(permits) && holders == old(holders)
      ensures processes == old(processes) - {tid}
      ensures tid in progress && progress == old(progress)[tid := progress[tid]]
      ensures OwnFilesOnly(old(downloads), downloads, tid) && OwnFilesOnly(old(temp), temp, tid)
      ensures Outcome(tid, IsAudio(req), old(log), log, progress[tid], downloads, temp, commands)
      ensures old(permits) == 0 ==> progress[tid] == ErrorRecord(BusyMessage, now) && log == old(log) + [Tasks.Write(Tasks.Error, 0.0)]
    {
      var acquired := Admit(tid);
      if acquired {
        RunAdmitted(tid, req, w, clean, elapsed, now);
        Release(tid);
      } else {
        Refuse(tid, req, now);
      }
    }
  }
}
