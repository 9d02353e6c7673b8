# Video/audio downloader service, modelled in Dafny

The modelled system is a small web service (`app.py`). It fetches a video from YouTube, Facebook, Instagram, TikTok or Twitter/X. It then converts it with `ffmpeg`, either to an audio file (MP3, AAC, Opus or Ogg) or to a QuickTime-compatible MP4, and serves the result for download.

Each conversion is a *task*: a 36-character id with an entry in a shared progress registry. A background pipeline (`run_conversion`) moves that entry through a fixed sequence of statuses and percentages. Clients poll the entry, cancel the task or download the finished file. Two background jobs watch over the tasks:

- A stall detector fails tasks that have not reported progress for too long.
- A janitor deletes old files.

An admission semaphore lets at most five pipelines run at once.

## What the model covers

The model covers the bookkeeping around the pipeline. The network, the encoder and the file system are replaced by parameters.

**Services**

- `Service.Server` is a class. Its fields are the registry (`progress`), the registered process handles (`processes`), the two working folders (`downloads`, `temp`), the thumbnail cache, the semaphore's free slots (`permits`) and, as ghost state, the slot holders, the encoder command lines started so far and the log of the pipeline's status writes.
- Every route or background job that changes this state is a method on the class. A lock-protected block of the source is one method call.
- `VideoCache.VideoInfoCache` is the response cache of the video-info route.

**Pure rules**

| module | what it holds |
|---|---|
| `Tasks` | the rules those methods apply: the hook update, the stall verdict, cancel, kill-all, the poll, the janitor's rule and the pipeline's fixed script of status writes |
| `Supervision` | the encoder supervision loop over an abstract trace of polls |
| `Storage` | folders as listings of `(name, mtime, size)` entries |
| `Files` | the downloaded-file lookup, the download route's file choice, the MIME table and the owner of a file name |
| `Filenames` | `sanitize_filename` |
| `Commands` | the format tables and the `ffmpeg` argument lists |
| `MediaInfo` | title and artist fallbacks, best thumbnail, quality tiers, duration label, year and centre crop |
| `Urls` | `validate_url`, `normalize_youtube_url`, `get_platform` |
| `Timeouts` | the two timeout formulas |
| `Text` | Python string operations over `seq<char>` |
| `Wrappers` | the optional value every module shares |

**How a conversion run is modelled**

A run (`Service.Server.RunConversion`) takes a `World` value. It holds everything the run observes:

- what the metadata pre-fetch returned;
- the hook calls and the files the fetcher wrote;
- how the fetch ended;
- whether the encoder started, its poll trace and the size of its output;
- whether the cover art was saved.

The server keeps a ghost log of the pipeline's own status writes: each stage update of a present entry, the completion record and the error record append one entry. The contracts compare the log before and after a call, and the run's contract proves these points:

- A run ends `completed` exactly when it wrote the whole script (`connecting`/3, `starting`/5, `processing`/86, `processing`/88, then for audio `processing`/92 and `embedding`/95, then `completed`/100).
- It is then recorded as a present file of the task of at least 1000 bytes.
- Otherwise it wrote a strict prefix of the script and then `error`/0, and left no file of the task in either folder.
- It touches only its own registry entry and its own files.
- It drops its process handle.
- It gives its semaphore slot back exactly when it took one.

## Model

| member | source | states |
|---|---|---|
| Timeouts.DownloadTimeout | app.py:314-320 | the fetch timeout is 3600 s for a zero duration, at least 600 s for a positive one, and never more than 7200 s |
| Timeouts.FfmpegTimeout | app.py:323-328 | the encode timeout is 1800 s for a zero duration, at least 300 s for a positive one, and never more than 7200 s |
| Timeouts.DownloadTimeoutMonotone | app.py:314-320 | a longer known duration never gets a shorter fetch timeout |
| Timeouts.FfmpegTimeoutMonotone | app.py:323-328 | a longer known duration never gets a shorter encode timeout |
| Timeouts.TimeoutExamples | app.py:314-328 | worked values: 600 s gives 720/600; 7200 s gives a fetch timeout of 2400; a huge duration is capped at 7200 by both |
| Filenames.DropReserved | app.py:227 | no reserved or control character is left, and every character kept comes from the input |
| Filenames.JoinSeparators | app.py:228 | no whitespace or hyphen is left; every character is `_` or comes from the input |
| Filenames.KeepNameChars | app.py:229 | only word characters, `-` and `.` from the input are left |
| Filenames.SquashUnderscores | app.py:230 | no `__` is left, characters come from the input, and the first character is kept |
| Filenames.StripEdgesSafe | app.py:230 | stripping `._` keeps the character classes and the `__`-freedom, and leaves no `.` or `_` at either end |
| Filenames.PipelineShape | app.py:227-230 | after the four rewrites, the name has only word characters and dots and no `__` |
| Filenames.CapSafe | app.py:232-233 | the length cap and the second strip keep the safe shape within `max_length` |
| Filenames.FallbackIsSafe | app.py:224-225 | the `download` fallback itself has the safe shape |
| Filenames.Sanitize | app.py:222-235 | `sanitize_filename`: the result is never empty, and an empty title gives `download` |
| Filenames.SanitizeSafe | app.py:222-235 | every sanitized name is non-empty and made of word characters and dots; it has no whitespace, hyphen, reserved character or `__`, no `.`/`_` at either end, and is within `max_length` unless it is `download` |
| Filenames.DropReservedKeeps | app.py:227 | a name of word characters and dots passes step 1 unchanged |
| Filenames.JoinSeparatorsKeeps | app.py:228 | such a name passes step 2 unchanged |
| Filenames.KeepNameCharsKeeps | app.py:229 | such a name passes step 3 unchanged |
| Filenames.SquashUnderscoresKeeps | app.py:230 | a name without `__` passes step 4 unchanged |
| Filenames.SanitizeKeepsSafeName | app.py:222-235 | a name that already has the safe shape and fits is returned as it is |
| Filenames.SanitizeIdempotent | app.py:222-235 | sanitizing twice is sanitizing once |
| MediaInfo.ExtractCleanTitle | app.py:164-200 | the title has at least 3 characters; the stripped `track` is preferred, then the stripped `alt_title`, then the cleaned title/fulltitle/first description line, then `download` |
| MediaInfo.ExtractCleanArtist | app.py:203-219 | the artist is never empty; the first non-empty of artist, creator, uploader, channel is taken, in that order, with the suffix removed and stripped; it is `Unknown` when that leaves nothing or all four are empty, never a later field |
| MediaInfo.BestThumbIndex | app.py:245-253 | the first eligible thumbnail in a stable sort by area, largest first: none exactly when nothing is eligible, otherwise one of greatest area and the earliest such |
| MediaInfo.BestThumbnail | app.py:239-254 | no list gives the single `thumbnail` field; otherwise the url of a largest non-WebP thumbnail with a url, failing that a url of a largest thumbnail |
| MediaInfo.TierOf | app.py:760-771 | a height maps to a tier whose rank it reaches, and below 1080 for every tier but 1080p |
| MediaInfo.TierSet | app.py:757-771 | `best` is always present, and another tier is present exactly when some height reaches it |
| MediaInfo.InOrder | app.py:772-776 | the sort yields exactly the set's members, strictly descending by key |
| MediaInfo.AvailableFormats | app.py:756-776 | the tier list: the tier set sorted by rank, largest first; no contract of its own, see AvailableFormatsSpec |
| MediaInfo.AvailableFormatsSpec | app.py:756-776 | the tier list starts with `best`, is strictly descending (so has no duplicates), and holds another tier exactly when some height reaches it |
| MediaInfo.NoFormatsOnlyBest | app.py:756-776 | no formats give `["best"]` alone |
| MediaInfo.InOrderSingle | app.py:772-776 | sorting a single tier gives that tier |
| MediaInfo.DurationLabel | app.py:880-895 | a duration over 14400 s is rejected, and only such a duration |
| MediaInfo.DurationLabelRoundTrip | app.py:885-892 | every label shown for an accepted, known duration (`M:SS` below an hour, `H:MM:SS` from an hour on) parses back to that duration |
| MediaInfo.ClockTextRoundTrip | app.py:886-888 | `str(timedelta(seconds=d))` below a day parses back to `d` |
| MediaInfo.MinSecRoundTrip | app.py:891-892 | `f"{m}:{s:02d}"` parses back to `60m+s` |
| MediaInfo.PaddedMinSecRoundTrip | app.py:886-888 | the padded `MM:SS` tail parses back to `60m+s` |
| MediaInfo.HourMinSecRoundTrip | app.py:886-888 | `H:MM:SS` parses back to `3600h+60m+s` |
| MediaInfo.ClockParts | app.py:891 | hours, minutes and seconds from `//` and `%` recombine to the duration |
| MediaInfo.SplitAtJoin | app.py:891-892 | splitting a joined `a:b` at its first colon gives back `a` and `b` |
| MediaInfo.SplitDigits | app.py:891-892 | a digit string before a colon is recovered by the split |
| MediaInfo.Year | app.py:1156-1157 | a year exactly when the upload date has at least 4 characters, and then its first four |
| MediaInfo.CenterCrop | app.py:296-301 | no crop for a square image; otherwise the largest centred square, within the image, with the offset rounded down |
| Text.ReplaceAll | app.py:528 | `str.replace` of every non-overlapping occurrence, left to right; replacing by something no longer never lengthens the text |
| Urls.ValidationDomain | app.py:528 | the validation domain is lower-case and no longer than the host |
| Urls.AcceptsWithDomain | app.py:531-556 | the per-domain acceptance rules (YouTube, youtu.be, Facebook, the other platforms' markers); no contract of its own, its cases are stated by the lemmas below |
| Urls.ValidateUrl | app.py:524-556 | `validate_url` as written: the acceptance rules applied to the all-occurrence domain; no contract of its own, see InstagramRejectedAsWritten, RedditAccepted, WatchLinkValid, ShortLinkConsistent |
| Urls.ValidateUrlFixed | app.py:524-556 | corrected (see Findings): the same rules applied to the domain with one leading label removed; see InstagramAcceptedFixed |
| Urls.WatchUrl | app.py:510-519 | the canonical link is the watch prefix followed by the id |
| Urls.ShortsId | app.py:511-514 | the id after the leftmost `/shorts/` marker followed by an id character; none exactly when no such marker exists |
| Urls.FirstShorts | app.py:512 | `re.search` finds the leftmost marker position |
| Urls.IdRun | app.py:512 | the `+` group takes the longest run of id characters |
| Urls.NormalizeYoutubeUrl | app.py:503-521 | a YouTube link with `v` becomes the watch link of that id; without `v`, a shorts id gives its watch link and no shorts id leaves the link as it came; a `youtu.be` link becomes the watch link of its slash-stripped path, unless that is empty; any other host is left as it came |
| Urls.HostDomain | app.py:528 | the corrected domain is a suffix of the lower-cased host |
| Urls.GetPlatform | app.py:561-573 | the platform is the first of YouTube, Facebook, Instagram, TikTok, Twitter/X whose marker occurs in the lower-cased host, each an if-and-only-if, with Unknown otherwise |
| Urls.InstagramRejectedAsWritten | app.py:528-556 | as written, no link on `instagram.com` or `www.instagram.com` is accepted |
| Urls.InstagramDomainMangled | app.py:528 | both hosts become `instagracom` under the all-occurrence replacements |
| Urls.MangledInstagramRejected | app.py:532-556 | a link whose domain is `instagracom` is rejected |
| Urls.InstagramAcceptedFixed | app.py:528-556 | with only a leading label removed, every link on the three Instagram hosts is accepted |
| Urls.RedditAccepted | app.py:550-554 | a `www.reddit.com` link is accepted, because `t.co` occurs inside `reddit.com` |
| Urls.WatchLinkValid | app.py:532-535 | any watch link on `www.youtube.com` is accepted |
| Urls.NormalizedValid | app.py:503-535 | a rewritten link is the watch link of the id that follows the prefix, and that link, read back as host `www.youtube.com`, path `/watch` and query `v=<id>`, is accepted |
| Urls.ShortLinkConsistent | app.py:515-536 | on `youtu.be`, a link is accepted exactly when its path has more than slashes, and exactly those links are rewritten to the watch form of that path |
| Urls.YoutubeDomain | app.py:506-528 | `www.youtube.com` becomes `youtube.com` under both domain rewrites |
| Urls.ShortHostDomain | app.py:506-528 | `youtu.be` is unchanged by both domain rewrites |
| Urls.DomainSteps | app.py:506-528 | the two domain rewrites, composed step by step |
| Urls.ReplaceOnce | app.py:528 | a single occurrence after a stretch that cannot start one is replaced |
| Urls.InstagramLosesMDot | app.py:528 | `instagram.com` loses its `m.` to `.replace('m.', '')` |
| Urls.FinalMKept | app.py:528 | a host whose only `m` is the last character keeps it |
| Commands.ParseAudioFormat | app.py:112-161 | a known key maps to its table entry, and an unknown key to none |
| Commands.KeyRoundTrip | app.py:112-161 | every table key reads back as its own entry |
| Commands.EffectiveAudioFormat | app.py:975-976 | an audio request always ends with a known format; a known format or a video request is kept; otherwise the format becomes `mp3` |
| Commands.SettingsFor | app.py:103-110 | every settings row has a CRF, and scale, maxrate and bufsize are present together |
| Commands.UnknownQualityUnscaled | app.py:1216 | an unknown quality falls back to the unscaled `best` row |
| Commands.AudioCommand | app.py:1123-1132 | the audio `ffmpeg` argument list; no contract of its own, see AudioCommandSpec |
| Commands.VideoOptions | app.py:1236-1241 | the optional video arguments: scale filter, CRF and the rate pair; no contract of its own, see VideoOptionsSpec |
| Commands.VideoCommand | app.py:1218-1243 | the video `ffmpeg` argument list; no contract of its own, see VideoCommandSpec |
| Commands.AudioCommandSpec | app.py:1123-1132 | the audio command reads the input, drops video, sets the format's codec and bitrate, and writes the output last |
| Commands.VideoOptionsSpec | app.py:1236-1241 | `-vf` exactly when a scale is set; `-maxrate` and `-bufsize` only as a pair; `-crf` with the row's value |
| Commands.VideoCommandSpec | app.py:1218-1243 | the video command starts `ffmpeg -y -i <input>` and ends with the output; between them `-vf` exactly with a scale, the rate pair only together, and always `-crf` |
| Commands.BestVideoCommand | app.py:1216-1243 | with the `best` row there is neither a scale filter nor a rate cap, and the CRF is 20 |
| Commands.SettingsPlain | app.py:103-110 | no table value can be mistaken for a flag |
| Files.FirstWithExtension | app.py:1091-1095 | the first extension of the list for which `<id><ext>` exists |
| Files.FirstPrefixed | app.py:1097-1100 | the first listed name that starts with the id and passes the filter |
| Files.FindDownloaded | app.py:1090-1103 | a found name exists and starts with the id; none exactly when no name starts with the id; when a fixed-list extension is present, the first such is chosen |
| Files.FirstPreferred | app.py:1393-1397 | the first `<id><ext>` present, extensions in list order; none exactly when none of them is present |
| Files.FirstServable | app.py:1398-1405 | the first listed name that starts with the id and is not skipped (for a video task, not ending in `.mp4`); none exactly when no such name exists |
| Files.ChooseServedFile | app.py:1389-1408 | a served name exists and starts with the id, and ends in `.mp4` for a video task; none exactly when no such servable name exists; when some `<id><ext>` of the preferred list is present, the first such in list order is served; otherwise the first listed servable name |
| Files.MP4Lowered | app.py:1402 | `<id>.mp4` passes the video filter |
| Files.Ext | app.py:1410 | `os.path.splitext`: empty, or a dotted suffix without further dots, shorter than the name |
| Files.ExtOfJoin | app.py:1271 | `<stem><.ext>` has extension `.ext` |
| Files.MimeFor | app.py:1410-1419 | a lower-cased extension of the six-entry table gets its entry, and every other extension `application/octet-stream` |
| Files.AttachmentName | app.py:1430-1434 | the attachment name is the sanitized title (safe shape) followed by the lower-cased extension |
| Files.LastIndexOf | app.py:1271 | the last occurrence of the character, or none when it does not occur |
| Files.OwnerId | app.py:479 | the derived id is a prefix of the name without `.` or `_` |
| Files.OwnerIdOfTaskFile | app.py:479 | every file the service names after a task maps back to that task |
| Files.AbsPath | app.py:1214 | an absolute path starts with `/` |
| Files.TempTargetAsWritten | app.py:1213-1214 | as written: the side path is chosen only when the absolute path of the download equals the relative final path; no contract of its own, see TempTargetClobbersInput |
| Files.TempTargetClobbersInput | app.py:1213-1214 | as written, a download already at `downloads/<id>.mp4` is also the encoder's output path |
| Files.SameInputAndOutputAsWritten | app.py:1213-1243 | the encoder command then names the same file as input and output |
| Files.TempTarget | app.py:1213-1214 | corrected: the output path is never the input, and is `<id>.mp4` or `<id>__enc.mp4` |
| Files.EncodePathDiffers | app.py:1213-1214 | the side path differs from the final path |
| Storage.SizeOf | app.py:1267 | a size is read exactly when the name exists |
| Storage.Without | app.py:1192-1196 | removal keeps every other entry and leaves no entry of the name |
| Storage.Put | app.py:1175 | writing replaces any entry of that name, and the size then reads back |
| Storage.Rename | app.py:1249-1252 | other names are kept and the source name is gone |
| Storage.SizeOfRename | app.py:1252 | a rename moves the size to the new name |
| Storage.SizeOfWithout | app.py:1192-1196 | removing one name does not change the size read under another |
| Storage.KeepUnprefixedMembers | app.py:1316-1320 | deletion by prefix keeps exactly the entries whose name has none of the prefixes |
| Storage.KeepUnprefixedCompose | app.py:450-456 | deleting one task's files after another's is deleting both at once |
| Storage.KeepUnprefixedIdempotent | app.py:1355-1360 | a second deletion for the same id removes nothing more |
| Storage.KeepUnprefixedEmpty | app.py:1494-1500 | deleting every name empties the folder |
| Storage.KeepUnprefixedPut | app.py:1316-1320 | writing a file of the task is invisible once the task's files are deleted |
| Storage.KeepUnprefixedWithout | app.py:1316-1320 | so is removing one |
| Storage.KeepUnprefixedRename | app.py:1316-1320 | so is renaming between two of its names |
| Storage.KeepUnprefixedPutAll | app.py:1316-1320 | so is writing several |
| Storage.RemovePrefixed | app.py:1316-1320 | the listing loop deletes exactly the names that start with the prefix |
| Storage.KeepSwept | app.py:470-484 | the folder the janitor leaves: the entries its rule spares, in listing order; no contract of its own, see KeepSweptMembers |
| Storage.KeepSweptMembers | app.py:470-484 | the janitor keeps exactly the files its rule does not delete |
| Storage.Sweep | app.py:470-484 | the janitor's loop over one folder leaves the swept folder |
| Storage.SweepKeepsRecent | app.py:476-478 | a file not older than 600 s survives the janitor whoever owns it |
| Tasks.StatusName | app.py:1369-1377 | no stored status is reported as `unknown` |
| Tasks.DownloadPercent | app.py:712-715 | the reported percent never exceeds 85; with a known total it is the downloaded share of 85, and 85 once the download reaches the total; without one it grows by a step from the previous value, strictly while below 85 |
| Tasks.HookUpdate | app.py:689-750 | the timestamp is always refreshed; downloading gives `downloading` with at most 85; finished gives `processing`/87 with its message; other events change nothing else |
| Tasks.HookRevivesCancelled | app.py:693-745 | a cancelled task is turned back to `downloading` or `processing` by a hook call |
| Tasks.DownloadPercentMonotone | app.py:712-713 | with a known total, more bytes never lower the percent |
| Tasks.ApplyHooks | app.py:689-750 | the entry after a series of hook calls, applied in order; no contract of its own, see ApplyHooksInFlight |
| Tasks.ApplyHooksInFlight | app.py:689-750 | hook calls never complete or fail a task, keep the completion fields, and leave the last call's timestamp |
| Tasks.StalledRecord | app.py:444-449 | the stalled entry is `error` with the old percent and the scan's time |
| Tasks.StallThreshold | app.py:430 | the allowed idle time is 180 s, or 600 s exactly while processing or embedding |
| Tasks.Watched | app.py:423-427 | the entries the scan looks at: not terminal and with a timestamp; a definition without a contract of its own, see Stalled and StallScanOnlyStalled |
| Tasks.Stalled | app.py:423-431 | a stalled entry is not terminal and has been idle longer than 180 s |
| Tasks.StallScanSpec | app.py:420-456 | one scan replaces exactly the stalled entries and keeps every other entry |
| Tasks.ScanPartStep | app.py:422-449 | visiting one more id changes at most that entry |
| Tasks.ScanPartStart | app.py:421 | before any id is visited, the registry is unchanged |
| Tasks.ScanPartEnd | app.py:421-456 | after every id is visited, the registry is the scan's result |
| Tasks.StallScanIdempotent | app.py:420-456 | a second scan at the same time finds nothing stalled and changes nothing |
| Tasks.StallScanOnlyStalled | app.py:423-433 | terminal or timestamp-less entries are skipped; an entry is `error` afterwards exactly when it was `error` or stalled |
| Tasks.CancelSpec | app.py:1346-1353 | an existing entry becomes `cancelled`/0, whatever its status, `completed` included; no entry is created; others are kept |
| Tasks.CancelIdempotent | app.py:1333-1364 | a second cancel gives the registry of a single cancel at the later time |
| Tasks.KilledRecord | app.py:1487-1492 | the kill-all record is `error` with no timestamp, so the stall scan ignores it |
| Tasks.KillAllSpec | app.py:1485-1492 | every entry is terminal afterwards; terminal entries are kept and the others become the kill-all record |
| Tasks.KillAllQuiet | app.py:1485-1492 | after kill-all, no entry can stall |
| Tasks.CreatedRecord | app.py:978-985 | a new entry is in flight (`initializing`/1, the request's time, no completion) but is not a status the janitor guards; with a timestamp the stall scan watches it |
| Tasks.View | app.py:1369-1377 | the polled view of a stored entry: its status name, percent, message and completion fields; no contract of its own, see Poll |
| Tasks.Poll | app.py:1369-1377 | an unknown id reads `unknown`/0 `Task not found`; a known one reads its stored status name, percent, message and completion |
| Tasks.JanitorDeletes | app.py:477-482 | the janitor's rule: a file older than 600 s whose owner has no entry or is not fetching or converting; no contract of its own, see JanitorSparesActive and JanitorIgnoresInitializing |
| Tasks.JanitorSparesActive | app.py:478-484 | files of a task that is fetching or converting are never removed, however old |
| Tasks.JanitorIgnoresInitializing | app.py:482 | an old file of an `initializing` task is removed |
| Tasks.Script | app.py:1004-1290 | the successful run's writes end with `completed`/100, fail nowhere before it, and have strictly increasing percentages |
| Tasks.DownloadPrefix | app.py:1004-1087 | a run stopped in the download part has written a prefix of the script |
| Tasks.ConvertPrefix | app.py:1109-1211 | a run stopped in a conversion branch has written a prefix of the script |
| Tasks.FailedAfter | app.py:1294-1315 | a strict prefix followed by `error`/0 is a failed run |
| Tasks.VideoNeverEmbeds | app.py:1203-1263 | the video script never writes `embedding` |
| Tasks.PercentDropsAsWritten | app.py:742-749 | as written (see Findings): the end of the transfer reports `processing`/87 and the pipeline's next write is `processing`/86; a second stream's first downloading event reports less than 87; so a run's percents can go down |
| Tasks.HookUpdateFixed | app.py:689-750 | corrected (see Findings): the hook never lowers the percent, keeps it within 85 when it was, and otherwise does what the hook as written does |
| Tasks.HookPercentsFixedOrdered | app.py:689-750 | corrected: under the corrected hook, the percents of any series of hook calls never go down and stay between the start value and 85 |
| Tasks.RunPercentsOrderedFixed | app.py:1004-1290 | corrected: with the corrected hook, the percents of a successful run, hook calls included, never go down |
| Supervision.ExitTerminates | app.py:376-384 | a trace in which the encoder exits ends the loop whatever the timeout |
| Supervision.TerminatesTail | app.py:376-407 | a trace that ends, and does not end at its first poll, still ends after that poll |
| Supervision.FirstEnd | app.py:376-407 | the loop returns at the first poll that ends it |
| Supervision.Verdict | app.py:377-394 | success exactly on exit code 0 with no text; the error output on another code; `FFmpeg timeout` on overrun |
| Supervision.Base | app.py:403 | the base has no `(` and no space at either end |
| Supervision.Refreshed | app.py:403-404 | the refreshed message is the base, then ` (`, then the elapsed seconds and `s)...` |
| Supervision.Ends | app.py:377-386 | the loop's exit test: the encoder has exited, or the timeout has passed; a definition without a contract of its own, see ExitTerminates and FirstEnd |
| Supervision.KeepAlive | app.py:396-404 | a keep-alive refreshes the timestamp and, only in the loop's stage, rewrites the message as `base (Ns)...` |
| Supervision.KeepAlives | app.py:376-407 | the entry after the loop's keep-alives, up to the first poll that ends the loop; no contract of its own, see KeepAlivesPreserve and KeepAlivesFresh |
| Supervision.KeepAlivesUnfold | app.py:376-407 | one pass of the loop over the rest of the trace |
| Supervision.RefreshedBaseStable | app.py:403-404 | a refreshed message has the same base, so the `(Ns)` groups never pile up |
| Supervision.RefreshTwice | app.py:403-404 | refreshing twice is refreshing once with the later time |
| Supervision.StripTrailingSpace | app.py:403 | stripping `base + " "` gives the base back |
| Supervision.KeepAlivesPreserve | app.py:396-405 | the loop never changes status, percent or completion; the message is the old one or one refresh of it |
| Supervision.KeepAlivesFresh | app.py:396-405 | once the encoder has run more than 10 s, the timestamp at the last poll is within 10 s of it |
| Service.ErrorText | app.py:1295-1313 | the failure message starts `Error: ` and carries at most 300 characters of the exception text |
| Service.ErrorRecord | app.py:1309-1315 | the handler's record is a terminal `error`/0 with an `Error: ` message, the handler's time and no completion |
| Service.DurationOf | app.py:1020-1030 | a failed pre-fetch gives the timeouts of an hour: 1320 s for the fetch and 2100 s for the encoder |
| Service.FetchError | app.py:1071-1079 | the fetch wait raises unless the fetcher returned an info dictionary |
| Service.ConversionError | app.py:1135-1136 | an encoder failure text starts with the branch's prefix |
| Service.MinutesSeconds | app.py:1274 | `int(t//60)` and `int(t%60)` recombine to the whole seconds |
| Service.TimeText | app.py:1274 | definition of the duration text; no contract of its own, its shape is stated by Service.TimeTextShape |
| Service.TimeTextShape | app.py:1274 | the duration text ends in `s`; from one minute on it is `<m>m <s>s` with m ≥ 1, s < 60 and 60m + s the whole seconds |
| Service.ReadyMessage | app.py:1280 | definition of the final message; no contract of its own, its shape is stated by Service.ReadyMessageShape |
| Service.ReadyMessageShape | app.py:1280 | the final message starts with `Ready! (took ` and ends with the duration text's `s` and `)` |
| Service.ExtensionOf | app.py:1271 | definition of the extension field; no contract of its own, see Service.ExtensionOfSpec |
| Service.ExtensionOfSpec | app.py:1271 | the extension without its dot: empty when the name has none, else the dot-free tail the name ends with |
| Service.CompletedRecord | app.py:1271-1290 | the completion record is `completed`/100, names the output and its size, and has a safe title |
| Service.CompletedRecordCompletes | app.py:1264-1290 | a completion record for a file of the task that is present with at least 1000 bytes is a completion for that folder |
| Service.TitleOf | app.py:1021-1025 | the title is at least 3 characters, from the pre-fetch or `download` |
| Service.AudioOutputFiles | app.py:1174-1199 | after the copy and the clean-up, the final file has the encoded size, the temporary file and the original download are gone, and only the task's files changed |
| Service.VideoOutputFiles | app.py:1249-1260 | after the move, `<id>.mp4` has the encoder output's size, the side file and the original download are gone, and only the task's files changed |
| Service.VideoTargetName | app.py:1213-1214 | the encoder's output name is the corrected target, never the input |
| Service.VideoCommandSeparate | app.py:1213-1243 | corrected (see Findings): with the corrected target, the video encoder never writes over the file it reads |
| Service.Encoded | app.py:1134-1135 | the downloads folder gains the encoder's output exactly when it started and wrote one |
| Service.CoverArt | app.py:1148-1196 | the cover art is gone from the temp folder afterwards |
| Service.OwnFilesOnlyMembers | app.py:1316-1320 | a change limited to the task's files leaves every other file alone |
| Service.AudioNames | app.py:1121-1154 | the audio branch's names belong to the task, and the temporary name is not the final one |
| Service.VideoNames | app.py:1213-1214 | the video branch's names belong to the task |
| Service.OwnPut | app.py:1175 | writing a file of the task leaves other tasks' files alone |
| Service.OwnWithout | app.py:1192-1196 | so does removing one |
| Service.OwnRename | app.py:1252 | so does renaming one |
| Service.OwnPutAll | app.py:1059-1066 | so do the files the fetcher writes |
| Service.Server.constructor | app.py:81-92 | empty registry, handles, folders and cache, with five free slots |
| Service.Server.CreateTask | app.py:978-985 | the new task's entry is `initializing`/1 with `Preparing download...`; nothing else changes |
| Service.Server.ProgressHook | app.py:689-750 | a present entry is updated by the hook rule; a missing one is left missing |
| Service.Server.ReplayHooks | app.py:1034-1066 | the fetcher's hook calls, in order, update only the task's entry |
| Service.Server.StallScan | app.py:420-456 | the registry becomes the scan's result; handles of stalled tasks are dropped unless the kill raised; the stalled tasks' files are deleted from both folders |
| Service.Server.Expire | app.py:434-456 | one stalled entry: its handle dropped unless the kill raised, the stalled record, its files deleted |
| Service.Server.Cancel | app.py:1333-1364 | the handle is always dropped, the registry becomes the cancel result, and the task's files are deleted from both folders |
| Service.Server.KillAll | app.py:1472-1501 | no handle is left, every unfinished task has failed, and both folders are emptied |
| Service.Server.Cleanup | app.py:465-491 | both folders are swept by the janitor rule, and thumbnail cache entries older than 300 s are dropped |
| Service.Server.Admit | app.py:1000-1002 | a slot is taken exactly when one is free; 0 ≤ permits ≤ 5 is kept |
| Service.Server.Release | app.py:1323-1325 | the holder's slot is given back |
| Service.Server.RunFfmpeg | app.py:359-412 | the command is recorded; the handle is dropped on every way out; the verdict is that of the first poll that ends the loop; the entry receives the loop's keep-alives |
| Service.Server.Touch | app.py:396-404 | one keep-alive: an entry still present is refreshed as the keep-alive function says, nothing else changes |
| Service.Server.Supervise | app.py:376-407 | the loop returns the verdict of the first poll that ends it, and leaves the entry as the keep-alive function computes |
| Service.Server.Stage | app.py:1005-1010 | one stage write to a present entry, appended to the write log; a missing entry raises `KeyError` and neither the entry nor the log changes |
| Service.Server.Prepare | app.py:1004-1103 | through `Prepared`: a missing entry raises `KeyError` with nothing logged; the log gains `connecting`/3, `starting`/5, `processing`/86 in that order, or stops after `starting` with the fetch error; after a clean fetch the located download is the lookup over the folder, the download-missing error comes exactly when no file of the task is present, and a located file is present and belongs to the task; every failure stops after a prefix of those writes; only the task's entry and files change |
| Service.PreparedMissing | app.py:1005-1006 | a missing entry ends the download part with `KeyError`, nothing logged and nothing changed |
| Service.PreparedFetchFailed | app.py:1005-1079 | a fetch error ends the download part after `connecting`/3 and `starting`/5 with the fetch error |
| Service.PreparedLocated | app.py:1081-1103 | after a clean fetch and the three writes, the lookup's answer ends the download part: the located file, or the download-missing error when there is none |
| Service.Server.Encode | app.py:1134-1135 | the encoder run: the command, the handle dropped, success exactly when the supervised encoder exits 0 |
| Service.Server.EncodeAudio | app.py:1111-1135 | the log gains `processing`/88, then the audio encoder writes the temporary file |
| Service.Server.PlaceAudio | app.py:1138-1199 | the log gains `processing`/92 and `embedding`/95; the cover art, the copy to the final name and the clean-up of both folders |
| Service.Server.ConvertAudio | app.py:1109-1201 | through `AudioConverted`: the audio branch succeeds exactly when the encoder exits 0 and its file exists; the log gains 88, 92, 95 on success and only 88 before the `Audio conversion failed: ` failure; the folders end as the encoder, the copy and the clean-up leave them; the cover art was saved exactly when a thumbnail link exists and the save succeeded |
| Service.AudioFails | app.py:1135-1136 | an encoder that fails or leaves no file ends the audio branch with the audio-failure text after `processing`/88 only |
| Service.AudioSucceeds | app.py:1138-1201 | an encoder that succeeds and leaves its file ends the audio branch with the three audio writes and the copied output |
| Service.Server.ConvertVideo | app.py:1203-1262 | corrected (see Findings): the log gains `processing`/88; the video branch succeeds exactly when the encoder exits 0 and its file exists; the encoder writes to the corrected target, which is not its input; the result is moved to `<id>.mp4` |
| Service.Server.Convert | app.py:1109-1262 | the selected branch appends its steps, or a prefix of them on failure, to the log, changes only the task's entry and files, and names the branch's output |
| Service.Server.Finish | app.py:1264-1290 | `completed`/100 is written and logged exactly when the output exists with at least 1000 bytes; otherwise the final-file or too-small error, with entry and log unchanged |
| Service.Server.Fail | app.py:1294-1322 | the handle is dropped, the entry becomes `error`/0 with `Error: ` and the message, `error`/0 is logged, and every file of the task is deleted |
| Service.Server.ConvertAndFinish | app.py:1109-1290 | the log gains the conversion writes and then the completion, ending in a completion record for a present file of the task, or a prefix of the conversion writes before a failure |
| Service.Server.Pipeline | app.py:1004-1290 | the body of the `try` block: the log gains the whole script and the entry is a completion record, or the log gains a prefix of it before a failure, with only the task's entry and files changed |
| Service.Server.RunAdmitted | app.py:1004-1322 | an admitted run ends completed exactly when the log gained the whole script, or failed after the log gained a strict prefix and `error`/0, with no file of the task left |
| Service.Server.Refuse | app.py:1000-1315 | a task refused a slot fails with the busy message; the log gains only `error`/0 |
| Service.Server.RunConversion | app.py:992-1327 | the run's outcome as above, read off the write log; the slot is released exactly when it was taken; a refused task carries the busy error and logs only `error`/0 |
| VideoCache.EvictionRestoresBound | app.py:928-933 | evicting one entry from 101 brings the cache back to at most 100 |
| VideoCache.InsertGrowsByOne | app.py:924-927 | an insert grows the cache by at most one |
| VideoCache.NewestSurvives | app.py:928-933 | the entry just stored, newer than all others, is never the one evicted |
| VideoCache.VideoInfoCache.constructor | app.py:88 | the cache starts empty |
| VideoCache.VideoInfoCache.Get | app.py:862-867 | a hit exactly when the key is present and younger than 300 s, and then its data |
| VideoCache.VideoInfoCache.OldestKey | app.py:929-932 | the key returned has the smallest `cached_at` |
| VideoCache.VideoInfoCache.Put | app.py:923-933 | the entry is stored; an oldest entry is evicted exactly when the cache exceeds 100; the bound of 100 is kept |

## Left out

- HTTP transport is not modelled: Flask routing, rate limits, CORS, templates, `send_file`, and the deferred removal of a downloaded task's entry 30 s after it is served.
- The `supported-platforms`, `audio-formats`, `health` and `admin/status` routes are not modelled. They only report.
- The fetcher library is replaced by the `World` value of a run: the pre-fetch result, the hook calls and the files written. Its options dictionary and the format selection string are not modelled.
- Threads, locks, sleeps and the semaphore's blocking wait are not modelled. Each background loop is one pass (`StallScan`, `Cleanup`). The 120 s bounded wait of admission becomes an immediate test (`Admit`). The fetch thread and its timed wait become the fetch outcome.
- The clock is a parameter. One run uses a single reading `now` for all its writes, and `elapsed` for the duration in the final message.
- Process handles are a set of ids. Killing a process tree is abstract: a kill that raises is a parameter of the stall scan (`killFails`). Cancel, kill-all and the failure path drop the handle unconditionally, as the code does.
- File deletions and renames are assumed to succeed. The `try`/`except: pass` around them only hides failures that the model does not produce.
- The thumbnail fetch, image decoding, resizing and saving are not modelled; only the centre-crop arithmetic is. The metadata embedding (mutagen tags, FLAC pictures) is not modelled either.
- The thumbnail cache's insert in the video-info route and the thumbnail proxy route are not modelled. The cache is a map from key to storage time, and only its expiry is modelled.
- MD5 hashing of URLs and thumbnail URLs is not modelled; cache keys are opaque strings. The response the video-info cache stores is a type parameter.
- `urlparse` and `parse_qs` are not modelled; the URL helpers take the parsed pieces.
- `\w` and `lower()` are modelled on ASCII letters, digits and `_` only. Python's Unicode word characters and case mappings are not modelled.
- Tasks.DownloadingMessage: the megabyte figures and the `@ speed` suffix of the downloading message, and the speed, ETA and byte fields of the hook, are not modelled. They are floating-point display text.
- MediaInfo.ExtractCleanTitle: the three regular-expression rewrites are an uninterpreted `clean` function. Only the fallback order is modelled.
- MediaInfo.ExtractCleanArtist: the suffix-removal regular expression is an uninterpreted function.
- MediaInfo.DurationLabel: a `None` duration is modelled as 0, which the route also treats as unknown. Durations are whole seconds throughout the model (`DurationLabel`, the timeout formulas and the pre-fetch record). A fractional duration from the fetcher is not modelled: below an hour `f"{s:02d}"` then raises and the video-info route answers with its error response, and the timeout formulas return floats, so the timed-out message reads, for instance, `after 12.0 minutes.`.
- VideoCache.VideoInfoCache.OldestKey: ties between equal timestamps are broken arbitrarily. Python's `min` takes the first key in insertion order.
- Service.Server.ConvertVideo: the video branch encodes to the corrected target of the app.py:1213-1214 finding (`Files.TempTarget`), not to the path the code as written computes. As written, a download already at `downloads/<id>.mp4` is both the encoder's input and its output, and the model does not follow that run; its success and completion results for video runs hold for the corrected code only. The same applies to Service.Server.Convert, ConvertAndFinish, Pipeline, RunAdmitted and RunConversion for video runs.
- Service.VideoCommandSeparate: the separation of input and output it states holds for the corrected target only; Files.SameInputAndOutputAsWritten states the opposite for the code as written.
- Service.Server.ProgressHook: applies the hook as written (Tasks.HookUpdate), not the corrected Tasks.HookUpdateFixed of the percent-order finding, so the registry the server keeps shows the drops that Tasks.PercentDropsAsWritten exhibits. The corrected rule is proved ordered on its own and is not wired into the server.
- Service.Server.Finish: the title, artist and year handed to the metadata embedding are not recorded. Only the sanitized title on the completion record is.

## Findings

| source | as written | input that shows it | evidently intended | confidence | as-written member | corrected member |
|---|---|---|---|---|---|---|
| app.py:528 | the validation domain applies `.replace('www.','')` and `.replace('m.','')` to every occurrence, so `instagram.com` becomes `instagracom` | `https://www.instagram.com/reel/abc/` is rejected, although Instagram is listed as supported | remove only a leading `www.`, `m.` or `web.` label | high (not executed) | Urls.InstagramRejectedAsWritten | Urls.InstagramAcceptedFixed |
| app.py:742-749 | the hook's `finished` event writes `processing`/87, and `run_conversion` then writes `processing`/86 before locating the file; a later stream's downloading events restart from their own share | any fetch whose hook reports `finished`: the polled percent goes 87, then 86 while the status stays `processing` | the percent never goes down while the task is in flight: the hook never lowers it, and the end of the transfer reports 85 | medium (not executed) | Tasks.PercentDropsAsWritten | Tasks.RunPercentsOrderedFixed |
| app.py:1213-1214 | `os.path.abspath(downloaded_file)` (absolute) is compared with `desired_mp4` (relative), so the test never holds | a fetch that leaves `downloads/<id>.mp4` makes the encoder read and write that same file | use `<id>__enc.mp4` whenever the download already is the final path | high (not executed) | Files.TempTargetClobbersInput | Files.TempTarget |
