/**
 * File-name logic of app.py: locating what the fetcher wrote
 * (`run_conversion`), choosing the file the download route serves and its
 * MIME type (`download`), the task id a file belongs to (`cleanup_old_files`)
 * and the encoder's output path in the video branch.
 *
 * A folder is the set of names `os.listdir` reports for it, plus the order it
 * reports them in; names here are base names inside the folder.
 */
module Files {
  import opened Text
  import Filenames
  import Commands

  import opened Wrappers

  const DownloadFolder: string := "downloads"

  /** The extensions tried, in order, right after a download. */
  const FetchedExtensions: seq<string> := [".mp4", ".m4a", ".mp3", ".webm", ".mkv", ".opus", ".ogg", ".wav", ".flac"]

  /** `listing` is what `os.listdir` returns for a folder holding `present`. */
  ghost predicate Lists(listing: seq<string>, present: set<string>) {
    forall n :: n in listing <==> n in present
  }

  /** The first name of `listing` that starts with `prefix` and passes `keep`. */
  function FirstPrefixed(listing: seq<string>, prefix: string, keep: string -> bool): (r: Option<nat>)
    ensures r.Some? ==> r.value < |listing| && StartsWith(listing[r.value], prefix) && keep(listing[r.value])
    ensures r.Some? ==> forall j :: 0 <= j < r.value ==> !(StartsWith(listing[j], prefix) && keep(listing[j]))
    ensures r.None? ==> forall j :: 0 <= j < |listing| ==> !(StartsWith(listing[j], prefix) && keep(listing[j]))
  {
    if |listing| == 0 then None
    else if StartsWith(listing[0], prefix) && keep(listing[0]) then Some(0)
    else match FirstPrefixed(listing[1..], prefix, keep)
      case None => None
      case Some(i) => Some(i + 1)
  }

  /** The first of `exts` for which `stem + ext` is present. */
  function FirstWithExtension(stem: string, exts: seq<string>, present: set<string>): (r: Option<nat>)
    ensures r.Some? ==> r.value < |exts| && stem + exts[r.value] in present
    ensures r.Some? ==> forall j :: 0 <= j < r.value ==> stem + exts[j] !in present
    ensures r.None? ==> forall j :: 0 <= j < |exts| ==> stem + exts[j] !in present
  {
    if |exts| == 0 then None
    else if stem + exts[0] in present then Some(0)
    else match FirstWithExtension(stem, exts[1..], present)
      case None => None
      case Some(i) => Some(i + 1)
  }

  predicate AnyName(n: string) { true }

  /**
   * Locating the downloaded file: `<id><ext>` for the first present
   * extension of the fixed list, else the first listed name that starts with
   * the id; none when no name starts with the id.
   */
  function FindDownloaded(tid: string, present: set<string>, listing: seq<string>): (r: Option<string>)
    requires Lists(listing, present)
    ensures r.Some? ==> r.value in present && StartsWith(r.value, tid)
    ensures r.None? <==> forall n :: n in present ==> !StartsWith(n, tid)
    ensures (exists j :: 0 <= j < |FetchedExtensions| && tid + FetchedExtensions[j] in present) ==>
              exists j :: 0 <= j < |FetchedExtensions| && r == Some(tid + FetchedExtensions[j])
                && forall k :: 0 <= k < j ==> tid + FetchedExtensions[k] !in present
  {
    match FirstWithExtension(tid, FetchedExtensions, present)
    case Some(j) =>
      assert StartsWith(tid + FetchedExtensions[j], tid) by {
        assert (tid + FetchedExtensions[j])[..|tid|] == tid;
      }
      Some(tid + FetchedExtensions[j])
    case None =>
      match FirstPrefixed(listing, tid, AnyName)
      case Some(i) => Some(listing[i])
      case None =>
        assert forall n :: n in present ==> !StartsWith(n, tid) by {
          forall n | n in present ensures !StartsWith(n, tid) {
            var k :| 0 <= k < |listing| && listing[k] == n;
          }
        }
        None
  }

  /** The extensions the download route tries first. */
  function PreferredExtensions(isVideo: bool): seq<string> {
    if isVideo then [".mp4"] else [".mp3", ".m4a", ".opus", ".ogg"]
  }

  /** The route's scan skips, for a video task, names not ending in `.mp4` (in any letter case). */
  function ServableFor(isVideo: bool): string -> bool {
    n => !isVideo || EndsWith(Lower(n), ".mp4")
  }

  /** The first `<id><ext>` that is present, the extensions taken in list order. */
  function FirstPreferred(tid: string, exts: seq<string>, present: set<string>): (r: Option<string>)
    ensures r.Some? ==> r.value in present && StartsWith(r.value, tid)
    ensures r.Some? ==>
      exists j :: 0 <= j < |exts| && r.value == tid + exts[j] && forall k :: 0 <= k < j ==> tid + exts[k] !in present
    ensures r.None? <==> forall j :: 0 <= j < |exts| ==> tid + exts[j] !in present
  {
    match FirstWithExtension(tid, exts, present)
    case Some(j) =>
      var n := tid + exts[j];
      assert n[..|tid|] == tid;
      Some(n)
    case None => None
  }

  /** The route's listing scan: the first listed name starting with the id that the scan does not skip. */
  function FirstServable(tid: string, isVideo: bool, present: set<string>, listing: seq<string>): (r: Option<string>)
    requires Lists(listing, present)
    ensures r.Some? ==> r.value in present && StartsWith(r.value, tid) && ServableFor(isVideo)(r.value)
    ensures r.Some? ==>
      exists i :: 0 <= i < |listing| && r.value == listing[i]
        && forall k :: 0 <= k < i ==> !(StartsWith(listing[k], tid) && ServableFor(isVideo)(listing[k]))
    ensures r.None? <==> forall n :: n in present ==> !(StartsWith(n, tid) && ServableFor(isVideo)(n))
  {
    match FirstPrefixed(listing, tid, ServableFor(isVideo))
    case Some(i) => Some(listing[i])
    case None =>
      assert forall n :: n in present ==> !(StartsWith(n, tid) && ServableFor(isVideo)(n)) by {
        forall n | n in present ensures !(StartsWith(n, tid) && ServableFor(isVideo)(n)) {
          var k :| 0 <= k < |listing| && listing[k] == n;
        }
      }
      None
  }

  /**
   * The file choice of the download route: the first preferred extension
   * present, else the first listed name starting with the id that the scan
   * does not skip.
   */
  function ChooseServedFile(tid: string, isVideo: bool, present: set<string>, listing: seq<string>): (r: Option<string>)
    requires Lists(listing, present)
    ensures r.Some? ==> r.value in present && StartsWith(r.value, tid)
    ensures r.Some? && isVideo ==> EndsWith(Lower(r.value), ".mp4")
    ensures r.None? <==> forall n :: n in present ==> !(StartsWith(n, tid) && ServableFor(isVideo)(n))
    ensures var exts := PreferredExtensions(isVideo);
      (exists j :: 0 <= j < |exts| && tid + exts[j] in present) ==>
        exists j :: 0 <= j < |exts| && r == Some(tid + exts[j])
          && forall k :: 0 <= k < j ==> tid + exts[k] !in present
    ensures var exts := PreferredExtensions(isVideo);
      (forall j :: 0 <= j < |exts| ==> tid + exts[j] !in present) && r.Some? ==>
        exists i :: 0 <= i < |listing| && r.value == listing[i]
          && forall k :: 0 <= k < i ==> !(StartsWith(listing[k], tid) && ServableFor(isVideo)(listing[k]))
  {
    var exts := PreferredExtensions(isVideo);
    match FirstPreferred(tid, exts, present)
    case Some(n) =>
      assert isVideo ==> n == tid + ".mp4";
      assert isVideo ==> EndsWith(Lower(n), ".mp4") by {
        if isVideo {
          MP4Lowered(tid);
        }
      }
      assert ServableFor(isVideo)(n);
      Some(n)
    case None => FirstServable(tid, isVideo, present, listing)
  }

  lemma MP4Lowered(tid: string)
    ensures EndsWith(Lower(tid + ".mp4"), ".mp4")
  {
    var n := tid + ".mp4";
    var l := Lower(n);
    assert l[|l| - 4..] == ".mp4" by {
      forall k | 0 <= k < 4 ensures l[|l| - 4 + k] == ".mp4"[k] {
        assert n[|n| - 4 + k] == ".mp4"[k];
      }
    }
  }

  /** Index of the last `c` in `s`. */
  function LastIndexOf(s: string, c: char): (r: Option<nat>)
    ensures r.Some? ==> r.value < |s| && s[r.value] == c && c !in s[r.value + 1..]
    ensures r.None? ==> c !in s
  {
    if |s| == 0 then None
    else if s[|s| - 1] == c then Some(|s| - 1)
    else
      var r := LastIndexOf(s[..|s| - 1], c);
      assert s == s[..|s| - 1] + [s[|s| - 1]];
      r
  }

  /**
   * `os.path.splitext(name)[1]` for a base name: from the last dot on, unless
   * only dots precede it (a leading-dot name has no extension).
   */
  function Ext(name: string): (r: string)
    ensures r == "" || (r[0] == '.' && '.' !in r[1..] && EndsWith(name, r) && |r| < |name|)
    ensures '.' !in name ==> r == ""
  {
    match LastIndexOf(name, '.')
    case None => ""
    case Some(k) =>
      if forall i :: 0 <= i < k ==> name[i] == '.' then ""
      else
        assert name[|name| - |name[k..]|..] == name[k..];
        name[k..]
  }

  /** `stem + ext` with a dot-free `ext` body and a stem that is not all dots has that extension. */
  lemma ExtOfJoin(stem: string, ext: string)
    requires |ext| > 0 && ext[0] == '.' && '.' !in ext[1..]
    requires exists i :: 0 <= i < |stem| && stem[i] != '.'
    ensures Ext(stem + ext) == ext
  {
    var n := stem + ext;
    assert n[|stem|] == '.';
    assert n[|stem| + 1..] == ext[1..];
    var k := LastIndexOf(n, '.');
    assert k.Some?;
    var i :| 0 <= i < |stem| && stem[i] != '.';
    assert n[i] != '.';
    assert n[k.value..] == ext;
  }

  /** The download route's `mime_types` table. */
  const MimeTypes: map<string, string> := map[
    ".mp3" := "audio/mpeg", ".m4a" := "audio/mp4", ".opus" := "audio/opus",
    ".ogg" := "audio/ogg", ".mp4" := "video/mp4", ".webm" := "video/webm"]

  const OctetStream: string := "application/octet-stream"

  /** The MIME type served for an extension: the table entry for its lower-cased form, else the octet-stream default. */
  function MimeFor(ext: string): (r: string)
    ensures Lower(ext) in MimeTypes ==> r == MimeTypes[Lower(ext)]
    ensures Lower(ext) !in MimeTypes ==> r == OctetStream
  {
    var e := Lower(ext);
    if e == ".mp3" then "audio/mpeg"
    else if e == ".m4a" then "audio/mp4"
    else if e == ".opus" then "audio/opus"
    else if e == ".ogg" then "audio/ogg"
    else if e == ".mp4" then "video/mp4"
    else if e == ".webm" then "video/webm"
    else OctetStream
  }

  /** The attachment name: the sanitized title followed by the served file's lower-cased extension. */
  function AttachmentName(title: string, served: string): (r: string)
    ensures var stem := Filenames.Sanitize(title, Filenames.DefaultMaxLength);
      Filenames.SafeName(stem) && StartsWith(r, stem) && r[|stem|..] == Lower(Ext(served))
  {
    var stem := Filenames.Sanitize(title, Filenames.DefaultMaxLength);
    Filenames.SanitizeSafe(title, Filenames.DefaultMaxLength);
    var r := stem + Lower(Ext(served));
    assert r[..|stem|] == stem;
    r
  }

  /** The task id `cleanup_old_files` derives from a file name: `name.split('.')[0].split('_')[0]`. */
  function OwnerId(name: string): (r: string)
    ensures '.' !in r && '_' !in r && StartsWith(name, r)
  {
    var a := BeforeFirst(name, '.');
    var b := BeforeFirst(a, '_');
    assert name[..|b|] == a[..|b|];
    b
  }

  /** A task id as the service makes them (a UUID): no `.` and no `_`. */
  predicate PlainId(tid: string) { '.' !in tid && '_' !in tid }

  /** Every file the service names after a task (`<id>.<ext>`, `<id>_temp.<ext>`, `<id>_thumb.jpg`, `<id>__enc.mp4`) is owned by that task. */
  lemma OwnerIdOfTaskFile(tid: string, suffix: string)
    requires PlainId(tid)
    requires suffix == "" || suffix[0] == '.' || suffix[0] == '_'
    ensures OwnerId(tid + suffix) == tid
  {
    var n := tid + suffix;
    BeforeFirstPrefix(tid, suffix, '.');
    var a := BeforeFirst(n, '.');
    assert StartsWith(a, tid) && (|a| == |tid| || a[|tid|] == '_');
    assert a == tid + a[|tid|..];
    BeforeFirstPrefix(tid, a[|tid|..], '_');
  }

  /** Cutting at the first `c` keeps a prefix free of `c` and stops where the suffix starts with another separator. */
  lemma {:induction false} BeforeFirstPrefix(p: string, s: string, c: char)
    requires c !in p
    ensures StartsWith(BeforeFirst(p + s, c), p)
    ensures s == "" || s[0] == c ==> BeforeFirst(p + s, c) == p
    ensures |BeforeFirst(p + s, c)| > |p| ==> s != "" && BeforeFirst(p + s, c)[|p|] == s[0]
    decreases |p|
  {
    if |p| > 0 {
      assert (p + s)[1..] == p[1..] + s;
      BeforeFirstPrefix(p[1..], s, c);
    } else {
      assert p + s == s;
    }
  }

  /** `os.path.abspath` for a relative path under the working directory `cwd` (an absolute path). */
  function AbsPath(cwd: string, p: string): (r: string)
    requires StartsWith(cwd, "/")
    ensures StartsWith(r, "/")
  {
    if StartsWith(p, "/") then p
    else
      var r := cwd + "/" + p;
      assert r[..1] == cwd[..1];
      r
  }

  /** `os.path.join(DOWNLOAD_FOLDER, name)` */
  function InDownloads(name: string): string { DownloadFolder + "/" + name }

  /** The final video path `downloads/<id>.mp4`. */
  function DesiredMp4(tid: string): string { InDownloads(tid + ".mp4") }

  /** The side path used when the download already sits at the final path. */
  function EncodePath(tid: string): string { InDownloads(tid + "__enc.mp4") }

  /** The encoder's output path, as written: the absolute download path is compared with the relative final path. */
  function TempTargetAsWritten(cwd: string, downloaded: string, tid: string): string
    requires StartsWith(cwd, "/")
  {
    if AbsPath(cwd, downloaded) == DesiredMp4(tid) then EncodePath(tid) else DesiredMp4(tid)
  }

  /** The comparison never holds, so a download already at `downloads/<id>.mp4` is also the encoder's output. */
  lemma TempTargetClobbersInput(cwd: string, tid: string)
    requires StartsWith(cwd, "/")
    ensures TempTargetAsWritten(cwd, DesiredMp4(tid), tid) == DesiredMp4(tid)
  {
    var d := DesiredMp4(tid);
    assert d[0] == 'd';
    assert AbsPath(cwd, d)[0] == '/';
  }

  /** The encoder command then names the same file as input and output. */
  lemma SameInputAndOutputAsWritten(cwd: string, tid: string, quality: string)
    requires StartsWith(cwd, "/")
    ensures var d := DesiredMp4(tid); var cmd := Commands.VideoCommand(d, Commands.SettingsFor(quality), TempTargetAsWritten(cwd, d, tid));
      cmd[3] == cmd[|cmd| - 1] == d
  {
    TempTargetClobbersInput(cwd, tid);
  }

  /** The evidently intended output path: a side file whenever the download is already the final path. */
  function TempTarget(downloaded: string, tid: string): (r: string)
    ensures r != downloaded
    ensures r == DesiredMp4(tid) || r == EncodePath(tid)
  {
    if downloaded == DesiredMp4(tid) then
      EncodePathDiffers(tid);
      EncodePath(tid)
    else DesiredMp4(tid)
  }

  lemma EncodePathDiffers(tid: string)
    ensures EncodePath(tid) != DesiredMp4(tid)
  {
    var k := |DownloadFolder + "/" + tid|;
    assert EncodePath(tid)[k] == '_';
    assert DesiredMp4(tid)[k] == '.';
  }
}
