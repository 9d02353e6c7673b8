/**
 * The task registry's records and the pure rules that decide how each
 * operation of app.py rewrites them: the download progress hook, the stall
 * verdict, cancellation, the emergency kill, the progress poll, the janitor's
 * deletion rule and the fixed order of the conversion pipeline's own writes.
 * The `Service.Server` class applies these rules to its state.
 */
module Tasks {
  import opened Text
  import Files

  import opened Wrappers

  type TaskId = string

  /** The statuses the service stores; `unknown` is only ever reported, never stored. */
  datatype Status = Initializing | Connecting | Starting | Downloading | Processing | Embedding | Completed | Error | Cancelled

  function StatusName(s: Status): (r: string)
    ensures r != "unknown"
  {
    match s
    case Initializing => "initializing"
    case Connecting => "connecting"
    case Starting => "starting"
    case Downloading => "downloading"
    case Processing => "processing"
    case Embedding => "embedding"
    case Completed => "completed"
    case Error => "error"
    case Cancelled => "cancelled"
  }

  /** The fields a completed task carries for the client. */
  datatype Completion = Completion(
    title: string, filename: string, fileSize: int, hasThumbnail: bool,
    format: string, audioFormat: Option<string>, quality: string, extension: string)

  /**
   * One entry of `conversion_progress`. A `lastUpdate` of 0 stands for a
   * missing (or zero) `last_update`, which the stall scan treats as "never".
   */
  datatype TaskRecord = TaskRecord(status: Status, percent: real, message: string, lastUpdate: real, completion: Option<Completion>)

  /** Statuses no background job touches again. */
  predicate Terminal(s: Status) { s == Completed || s == Error || s == Cancelled }

  // ---------------------------------------------------------------- creation

  const CreatedMessage: string := "Preparing download..."

  /** A new entry: in flight, but not among the statuses the janitor guards. */
  function CreatedRecord(now: real): (r: TaskRecord)
    ensures !Terminal(r.status) && !Guarded(r.status)
    ensures r.percent == 1.0 && r.lastUpdate == now && r.completion.None?
    ensures now != 0.0 ==> Watched(r)
  {
    TaskRecord(Initializing, 1.0, CreatedMessage, now, None)
  }

  // ---------------------------------------------------------------- progress hook

  /**
   * What the fetcher reports: bytes so far and the total (0 when neither the
   * total nor its estimate is known), the end of the transfer, or anything else.
   */
  datatype HookEvent = DownloadingEvent(total: nat, downloaded: nat) | FinishedEvent | OtherEvent

  const DownloadCeiling: real := 85.0

  function MinReal(a: real, b: real): real { if a <= b then a else b }

  /** `int(x)` for a real: truncation toward zero. */
  function Trunc(x: real): int {
    if x >= 0.0 then x.Floor else -((-x).Floor)
  }

  /** The percent a downloading event reports. */
  function DownloadPercent(prev: real, total: nat, downloaded: nat): (p: real)
    ensures p <= DownloadCeiling
    ensures total > 0 ==> 0.0 <= p
    ensures total > 0 && downloaded <= total ==> p == downloaded as real / total as real * DownloadCeiling
    ensures total == 0 && prev <= DownloadCeiling ==> prev <= p
    ensures total == 0 && prev >= 0.0 ==> 0.0 <= p
    ensures total == 0 && prev < DownloadCeiling ==> prev < p
    ensures total > 0 && downloaded >= total ==> p == DownloadCeiling
  {
    if total > 0 then
      var q := downloaded as real / total as real;
      assert downloaded <= total ==> q <= 1.0;
      assert downloaded >= total ==> q >= 1.0 && q * DownloadCeiling >= DownloadCeiling;
      MinReal(q * DownloadCeiling, DownloadCeiling)
    else MinReal(prev + 0.3, DownloadCeiling)
  }

  /** The progress text, without the megabyte and speed suffix. */
  function DownloadingMessage(p: real): string {
    "Downloading... " + IntToString(Trunc(p)) + "%"
  }

  const FinishedMessage: string := "Download complete. Processing..."

  /**
   * `progress_hook` on a present entry: the timestamp is always refreshed; a
   * downloading event sets `downloading` and a percent of at most 85; the end
   * of the transfer sets `processing` at 87; other events change nothing else.
   * The status the entry had is not consulted.
   */
  function HookUpdate(rec: TaskRecord, ev: HookEvent, now: real): (r: TaskRecord)
    ensures r.lastUpdate == now && r.completion == rec.completion
    ensures ev.DownloadingEvent? ==>
      r.status == Downloading && r.percent <= DownloadCeiling && r.percent == DownloadPercent(rec.percent, ev.total, ev.downloaded)
    ensures ev.FinishedEvent? ==> r.status == Processing && r.percent == 87.0 && r.message == FinishedMessage
    ensures ev.OtherEvent? ==> r == rec.(lastUpdate := now)
  {
    var touched := rec.(lastUpdate := now);
    match ev
    case DownloadingEvent(total, downloaded) =>
      var p := DownloadPercent(rec.percent, total, downloaded);
      touched.(status := Downloading, percent := p, message := DownloadingMessage(p))
    case FinishedEvent =>
      touched.(status := Processing, percent := 87.0, message := FinishedMessage)
    case OtherEvent => touched
  }

  /** The hook does not check for a terminal status: a cancelled task goes back to `downloading`. */
  lemma HookRevivesCancelled(rec: TaskRecord, total: nat, downloaded: nat, now: real)
    requires rec.status == Cancelled
    ensures HookUpdate(rec, DownloadingEvent(total, downloaded), now).status == Downloading
    ensures HookUpdate(rec, FinishedEvent, now).status == Processing
  {
  }

  /** With a known total, the reported percent grows with the bytes received. */
  lemma DownloadPercentMonotone(prev: real, total: nat, d1: nat, d2: nat)
    requires total > 0 && d1 <= d2
    ensures DownloadPercent(prev, total, d1) <= DownloadPercent(prev, total, d2)
  {
    var t := total as real;
    assert d1 as real / t <= d2 as real / t by {
      assert d1 as real <= d2 as real;
    }
  }

  /** A hook call and the clock reading it made. */
  datatype TimedEvent = TimedEvent(event: HookEvent, at: real)

  /** The record after a series of hook calls, in order. */
  function ApplyHooks(rec: TaskRecord, events: seq<TimedEvent>): TaskRecord
    decreases |events|
  {
    if |events| == 0 then rec
    else
      var last := events[|events| - 1];
      HookUpdate(ApplyHooks(rec, events[..|events| - 1]), last.event, last.at)
  }

  /**
   * Hook calls alone never finish or fail a task: the status stays what it
   * was or becomes `downloading` or `processing`, the completion fields are
   * kept, and the timestamp is that of the last call.
   */
  lemma {:induction false} ApplyHooksInFlight(rec: TaskRecord, events: seq<TimedEvent>)
    ensures var r := ApplyHooks(rec, events);
      && r.completion == rec.completion
      && (r.status == rec.status || r.status == Downloading || r.status == Processing)
      && (|events| > 0 ==> r.lastUpdate == events[|events| - 1].at)
    decreases |events|
  {
    if |events| > 0 {
      ApplyHooksInFlight(rec, events[..|events| - 1]);
    }
  }

  // ---------------------------------------------------------------- stall scan

  const StallTimeout: real := 180.0
  const ProcessingStallTimeout: real := 600.0
  const StalledMessage: string := "Process stalled. Please try again."

  /** The idle time a status is allowed: the longer one while encoding or embedding. */
  function StallThreshold(s: Status): (r: real)
    ensures StallTimeout <= r <= ProcessingStallTimeout
    ensures r == ProcessingStallTimeout <==> s == Processing || s == Embedding
  {
    if s == Processing || s == Embedding then ProcessingStallTimeout else StallTimeout
  }

  /** An entry the scan looks at: not terminal and with a timestamp. */
  predicate Watched(rec: TaskRecord) {
    !Terminal(rec.status) && rec.lastUpdate != 0.0
  }

  /** Idle strictly longer than its status allows. */
  predicate Stalled(rec: TaskRecord, now: real)
    ensures Stalled(rec, now) ==> !Terminal(rec.status) && now - rec.lastUpdate > StallTimeout
  {
    Watched(rec) && now - rec.lastUpdate > StallThreshold(rec.status)
  }

  function StalledRecord(rec: TaskRecord, now: real): (r: TaskRecord)
    ensures r.status == Error && r.percent == rec.percent && r.lastUpdate == now
  {
    TaskRecord(Error, rec.percent, StalledMessage, now, None)
  }

  /** The registry after one scan at `now`. */
  function StallScanSpec(progress: map<TaskId, TaskRecord>, now: real): (r: map<TaskId, TaskRecord>)
    ensures r.Keys == progress.Keys
    ensures forall t :: t in progress && !Stalled(progress[t], now) ==> r[t] == progress[t]
    ensures forall t :: t in progress && Stalled(progress[t], now) ==> r[t] == StalledRecord(progress[t], now)
  {
    map t | t in progress :: if Stalled(progress[t], now) then StalledRecord(progress[t], now) else progress[t]
  }

  function StalledIds(progress: map<TaskId, TaskRecord>, now: real): set<TaskId> {
    set t | t in progress && Stalled(progress[t], now)
  }

  /** The registry part-way through a scan, once the ids in `seen` have been visited. */
  ghost function ScanPart(progress: map<TaskId, TaskRecord>, seen: set<TaskId>, now: real): map<TaskId, TaskRecord> {
    map t | t in progress :: if t in seen && Stalled(progress[t], now) then StalledRecord(progress[t], now) else progress[t]
  }

  lemma ScanPartStart(progress: map<TaskId, TaskRecord>, now: real)
    ensures ScanPart(progress, {}, now) == progress
  {
  }

  lemma ScanPartEnd(progress: map<TaskId, TaskRecord>, now: real)
    ensures ScanPart(progress, progress.Keys, now) == StallScanSpec(progress, now)
  {
  }

  /** Visiting one more id changes at most that id's entry. */
  lemma ScanPartStep(progress: map<TaskId, TaskRecord>, seen: set<TaskId>, t: TaskId, now: real)
    requires t in progress && t !in seen
    ensures t in ScanPart(progress, seen, now) && ScanPart(progress, seen, now)[t] == progress[t]
    ensures ScanPart(progress, seen + {t}, now)
      == if Stalled(progress[t], now) then ScanPart(progress, seen, now)[t := StalledRecord(progress[t], now)]
         else ScanPart(progress, seen, now)
  {
  }

  /** A second scan at the same moment finds nothing more to do. */
  lemma StallScanIdempotent(progress: map<TaskId, TaskRecord>, now: real)
    ensures StalledIds(StallScanSpec(progress, now), now) == {}
    ensures StallScanSpec(StallScanSpec(progress, now), now) == StallScanSpec(progress, now)
  {
    var once := StallScanSpec(progress, now);
    assert forall t :: t in once ==> !Stalled(once[t], now);
  }

  /** The scan skips what is terminal or has no timestamp, and turns only stalled entries into errors. */
  lemma StallScanOnlyStalled(progress: map<TaskId, TaskRecord>, now: real, t: TaskId)
    requires t in progress
    ensures Terminal(progress[t].status) || progress[t].lastUpdate == 0.0 ==> StallScanSpec(progress, now)[t] == progress[t]
    ensures StallScanSpec(progress, now)[t].status == Error <==> progress[t].status == Error || Stalled(progress[t], now)
  {
  }

  // ---------------------------------------------------------------- cancel, kill, poll

  const CancelledMessage: string := "Download cancelled by user"

  function CancelledRecord(now: real): TaskRecord {
    TaskRecord(Cancelled, 0.0, CancelledMessage, now, None)
  }

  /**
   * The registry after `cancel`: an existing entry becomes `cancelled`/0
   * whatever its status was, `completed` included; an unknown id gets no entry.
   */
  function CancelSpec(progress: map<TaskId, TaskRecord>, tid: TaskId, now: real): (r: map<TaskId, TaskRecord>)
    ensures r.Keys == progress.Keys
    ensures tid in progress ==> r[tid].status == Cancelled && r[tid].percent == 0.0 && r[tid].lastUpdate == now
    ensures forall t :: t in progress && t != tid ==> r[t] == progress[t]
  {
    if tid in progress then progress[tid := CancelledRecord(now)] else progress
  }

  /** A second cancel leaves the registry as a single cancel at the later time would. */
  lemma CancelIdempotent(progress: map<TaskId, TaskRecord>, tid: TaskId, n1: real, n2: real)
    ensures CancelSpec(CancelSpec(progress, tid, n1), tid, n2) == CancelSpec(progress, tid, n2)
  {
  }

  const KilledMessage: string := "Manually terminated"

  /** The emergency kill's record: no timestamp, so the stall scan skips it. */
  function KilledRecord(): (r: TaskRecord)
    ensures !Watched(r) && r.status == Error
  {
    TaskRecord(Error, 0.0, KilledMessage, 0.0, None)
  }

  function KillAllSpec(progress: map<TaskId, TaskRecord>): (r: map<TaskId, TaskRecord>)
    ensures r.Keys == progress.Keys
    ensures forall t :: t in r ==> Terminal(r[t].status)
    ensures forall t :: t in progress && Terminal(progress[t].status) ==> r[t] == progress[t]
    ensures forall t :: t in progress && !Terminal(progress[t].status) ==> r[t] == KilledRecord()
  {
    map t | t in progress :: if Terminal(progress[t].status) then progress[t] else KilledRecord()
  }

  /** After the emergency kill, no entry is watched by the stall scan. */
  lemma KillAllQuiet(progress: map<TaskId, TaskRecord>, now: real)
    ensures StalledIds(KillAllSpec(progress), now) == {}
  {
  }

  /** What `/api/progress/<id>` returns: the record without its timestamp. */
  datatype ProgressView = ProgressView(status: string, percent: real, message: string, completion: Option<Completion>)

  const NotFoundMessage: string := "Task not found"

  function View(rec: TaskRecord): ProgressView {
    ProgressView(StatusName(rec.status), rec.percent, rec.message, rec.completion)
  }

  /** The poll: the stored record, or `unknown`/0 for an id with no entry. */
  function Poll(progress: map<TaskId, TaskRecord>, tid: TaskId): (r: ProgressView)
    ensures r.status == "unknown" <==> tid !in progress
    ensures tid !in progress ==> r == ProgressView("unknown", 0.0, NotFoundMessage, None)
    ensures tid in progress ==> r.percent == progress[tid].percent && r.message == progress[tid].message
    ensures tid in progress ==> r.status == StatusName(progress[tid].status) && r.completion == progress[tid].completion
  {
    if tid in progress then View(progress[tid]) else ProgressView("unknown", 0.0, NotFoundMessage, None)
  }

  // ---------------------------------------------------------------- janitor

  const CleanupAge: real := 600.0
  const ThumbnailCacheAge: real := 300.0

  /** The statuses during which the janitor keeps a task's files (`initializing` is not among them). */
  predicate Guarded(s: Status) {
    s == Downloading || s == Processing || s == Embedding || s == Connecting || s == Starting
  }

  /** The janitor removes a file old enough whose owning task is absent or not in a guarded status. */
  predicate JanitorDeletes(progress: map<TaskId, TaskRecord>, name: string, mtime: real, now: real) {
    var owner := Files.OwnerId(name);
    now - mtime > CleanupAge && (owner !in progress || !Guarded(progress[owner].status))
  }

  /** Files of a task still fetching or converting are never removed, however old. */
  lemma JanitorSparesActive(progress: map<TaskId, TaskRecord>, tid: TaskId, suffix: string, mtime: real, now: real)
    requires Files.PlainId(tid) && (suffix == "" || suffix[0] == '.' || suffix[0] == '_')
    requires tid in progress && Guarded(progress[tid].status)
    ensures !JanitorDeletes(progress, tid + suffix, mtime, now)
  {
    Files.OwnerIdOfTaskFile(tid, suffix);
  }

  /** A task that has been created but not yet admitted is not protected. */
  lemma JanitorIgnoresInitializing(progress: map<TaskId, TaskRecord>, tid: TaskId, suffix: string, mtime: real, now: real)
    requires Files.PlainId(tid) && (suffix == "" || suffix[0] == '.' || suffix[0] == '_')
    requires tid in progress && progress[tid].status == Initializing && now - mtime > CleanupAge
    ensures JanitorDeletes(progress, tid + suffix, mtime, now)
  {
    Files.OwnerIdOfTaskFile(tid, suffix);
  }

  /** A thumbnail cache entry is dropped once older than 300 s. */
  predicate ThumbnailExpired(at: real, now: real) { now - at > ThumbnailCacheAge }

  // ---------------------------------------------------------------- pipeline script

  /** One status/percent write of the pipeline's own code. */
  datatype Write = Write(status: Status, percent: real)

  /** The writes up to and including "file located". */
  function DownloadSteps(): seq<Write> {
    [Write(Connecting, 3.0), Write(Starting, 5.0), Write(Processing, 86.0)]
  }

  /** The writes of the conversion branch. */
  function ConvertSteps(audio: bool): seq<Write> {
    [Write(Processing, 88.0)] + (if audio then [Write(Processing, 92.0), Write(Embedding, 95.0)] else [])
  }

  /** The writes of a successful run, after creation (`initializing`/1). */
  function Script(audio: bool): (r: seq<Write>)
    ensures |r| >= 5 && r[|r| - 1] == Write(Completed, 100.0)
    ensures forall i :: 0 <= i < |r| - 1 ==> r[i].status != Completed && r[i].status != Error
    ensures forall i, j :: 0 <= i < j < |r| ==> r[i].percent < r[j].percent
  {
    DownloadSteps() + ConvertSteps(audio) + [Write(Completed, 100.0)]
  }

  /** A run that stops during the download part has written a prefix of the script. */
  lemma DownloadPrefix(audio: bool, k: nat)
    requires k <= |DownloadSteps()|
    ensures Script(audio)[..k] == DownloadSteps()[..k]
  {
  }

  /** A run that stops during the conversion branch has written a prefix of the script. */
  lemma ConvertPrefix(audio: bool, k: nat)
    requires k <= |ConvertSteps(audio)|
    ensures Script(audio)[..|DownloadSteps()| + k] == DownloadSteps() + ConvertSteps(audio)[..k]
  {
    var d := DownloadSteps();
    var c := ConvertSteps(audio);
    assert Script(audio) == d + c + [Write(Completed, 100.0)];
    assert (d + c + [Write(Completed, 100.0)])[..|d| + k] == d + c[..k];
  }

  /** Stopping after a strict prefix of the script and writing the error is a failed run. */
  lemma FailedAfter(writes: seq<Write>, audio: bool, k: nat)
    requires k < |Script(audio)| && writes == Script(audio)[..k]
    ensures FailedRun(writes + [Write(Error, 0.0)], audio)
  {
  }

  /** The own writes of a run that stopped early: a strict prefix of the script, then `error`/0. */
  predicate FailedRun(writes: seq<Write>, audio: bool) {
    exists k :: 0 <= k < |Script(audio)| && writes == Script(audio)[..k] + [Write(Error, 0.0)]
  }

  /** Only the embedding step is audio-specific in status; the video run never embeds. */
  lemma VideoNeverEmbeds(i: nat)
    requires i < |Script(false)|
    ensures Script(false)[i].status != Embedding
  {
  }

  // ---------------------------------------------------------------- percent order

  /** Percent never goes down along `ps`. */
  predicate NonDecreasing(ps: seq<real>) {
    forall i, j :: 0 <= i < j < |ps| ==> ps[i] <= ps[j]
  }

  /** The percent after each hook call of a series, in order. */
  function HookPercents(rec: TaskRecord, events: seq<TimedEvent>): (r: seq<real>)
    ensures |r| == |events|
    decreases |events|
  {
    if |events| == 0 then []
    else HookPercents(rec, events[..|events| - 1]) + [ApplyHooks(rec, events).percent]
  }

  /** The percents of a list of writes. */
  function PercentsOf(ws: seq<Write>): (r: seq<real>)
    ensures |r| == |ws| && forall i :: 0 <= i < |ws| ==> r[i] == ws[i].percent
    decreases |ws|
  {
    if |ws| == 0 then [] else PercentsOf(ws[..|ws| - 1]) + [ws[|ws| - 1].percent]
  }

  /**
   * The percents a successful run shows, in order: its own `connecting` and
   * `starting` writes, the hook calls made during the fetch, then the rest of
   * its own writes up to `completed`.
   */
  function RunPercents(hookPercents: seq<real>, audio: bool): seq<real> {
    var own := PercentsOf(Script(audio));
    own[..2] + hookPercents + own[2..]
  }

  /** Three runs of percents, each rising and each no higher than the next begins, rise together. */
  lemma JoinOrdered(a: seq<real>, b: seq<real>, c: seq<real>, lo: real, hi: real)
    requires NonDecreasing(a) && NonDecreasing(b) && NonDecreasing(c)
    requires forall i :: 0 <= i < |a| ==> a[i] <= lo
    requires forall i :: 0 <= i < |b| ==> lo <= b[i] <= hi
    requires forall i :: 0 <= i < |c| ==> hi <= c[i]
    requires lo <= hi
    ensures NonDecreasing(a + b + c)
  {
    var ps := a + b + c;
    forall i, j | 0 <= i < j < |ps| ensures ps[i] <= ps[j] {
      if j < |a| {
      } else if j < |a| + |b| {
        assert ps[j] == b[j - |a|];
        if i >= |a| {
          assert ps[i] == b[i - |a|];
        }
      } else {
        assert ps[j] == c[j - |a| - |b|];
        if i >= |a| + |b| {
          assert ps[i] == c[i - |a| - |b|];
        } else if i >= |a| {
          assert ps[i] == b[i - |a|];
        }
      }
    }
  }

  /**
   * As written, the percent goes down during a run: the end of the transfer
   * reports 87 and the pipeline's next write, "locating the file", reports
   * 86, both with status `processing`; and a second stream fetched after the
   * first reports its own small share again while `downloading`.
   */
  lemma PercentDropsAsWritten(rec: TaskRecord, t1: real, t2: real, total: nat, audio: bool)
    requires total > 0
    ensures var done := HookUpdate(rec, FinishedEvent, t1);
      done.status == Processing && Script(audio)[2] == Write(Processing, 86.0) && Script(audio)[2].percent < done.percent
    ensures var again := HookUpdate(HookUpdate(rec, FinishedEvent, t1), DownloadingEvent(total, 0), t2);
      again.status == Downloading && again.percent < HookUpdate(rec, FinishedEvent, t1).percent
    ensures !NonDecreasing(RunPercents(HookPercents(rec, [TimedEvent(FinishedEvent, t1)]), audio))
  {
    var events := [TimedEvent(FinishedEvent, t1)];
    assert events[..0] == [];
    var hs := HookPercents(rec, events);
    assert hs == [87.0];
    var own := PercentsOf(Script(audio));
    var ps := own[..2] + hs + own[2..];
    assert ps[2] == 87.0 && ps[3] == own[2] == 86.0;
  }

  function MaxReal(a: real, b: real): real { if a <= b then b else a }

  /**
   * The hook with the percent order kept: a downloading event never lowers
   * the percent, and the end of the transfer reports the download ceiling of
   * 85 (below the pipeline's 86) unless the percent is already higher.
   * Everything else is what the hook as written does.
   */
  function HookUpdateFixed(rec: TaskRecord, ev: HookEvent, now: real): (r: TaskRecord)
    ensures rec.percent <= r.percent
    ensures rec.percent <= DownloadCeiling ==> r.percent <= DownloadCeiling
    ensures r == HookUpdate(rec, ev, now).(percent := r.percent)
  {
    var u := HookUpdate(rec, ev, now);
    u.(percent := MaxReal(rec.percent, if ev.FinishedEvent? then DownloadCeiling else u.percent))
  }

  function ApplyHooksFixed(rec: TaskRecord, events: seq<TimedEvent>): TaskRecord
    decreases |events|
  {
    if |events| == 0 then rec
    else
      var last := events[|events| - 1];
      HookUpdateFixed(ApplyHooksFixed(rec, events[..|events| - 1]), last.event, last.at)
  }

  function HookPercentsFixed(rec: TaskRecord, events: seq<TimedEvent>): (r: seq<real>)
    ensures |r| == |events|
    decreases |events|
  {
    if |events| == 0 then []
    else HookPercentsFixed(rec, events[..|events| - 1]) + [ApplyHooksFixed(rec, events).percent]
  }

  /** Under the corrected hook, the percents of a series rise from the start value and stay within the download ceiling. */
  lemma {:induction false} HookPercentsFixedOrdered(rec: TaskRecord, events: seq<TimedEvent>)
    requires rec.percent <= DownloadCeiling
    ensures var ps := HookPercentsFixed(rec, events);
      && NonDecreasing(ps)
      && rec.percent <= ApplyHooksFixed(rec, events).percent <= DownloadCeiling
      && forall k :: 0 <= k < |ps| ==> rec.percent <= ps[k] <= ApplyHooksFixed(rec, events).percent
    decreases |events|
  {
    if |events| > 0 {
      HookPercentsFixedOrdered(rec, events[..|events| - 1]);
    }
  }

  /**
   * With the corrected hook, the percent of a successful run never goes down,
   * whatever the hook calls made between the `starting` write and the
   * pipeline's 86.
   */
  lemma RunPercentsOrderedFixed(rec: TaskRecord, events: seq<TimedEvent>, audio: bool)
    requires rec.percent == Script(audio)[1].percent
    ensures NonDecreasing(RunPercents(HookPercentsFixed(rec, events), audio))
  {
    var own := PercentsOf(Script(audio));
    var hs := HookPercentsFixed(rec, events);
    HookPercentsFixedOrdered(rec, events);
    assert NonDecreasing(own);
    assert own[..2] == [3.0, 5.0] && own[2] == 86.0;
    assert forall i :: 0 <= i < |own[2..]| ==> own[2] <= own[2..][i];
    JoinOrdered(own[..2], hs, own[2..], rec.percent, DownloadCeiling);
  }
}
