/**
 * Timeout policy: how long the fetch and the encoder may run, derived from the
 * media duration in seconds (app.py, calculate_timeout and
 * calculate_ffmpeg_timeout). A falsy duration (0 or missing) selects a fixed
 * default. Python's `//` floors; Dafny's `/` on a positive divisor does too, so
 * the formulas below hold for negative durations as well.
 */
module Timeouts {

  const DownloadTimeoutDefault: int := 3600
  const FfmpegTimeoutDefault: int := 1800
  const TimeoutCeiling: int := 7200

  /** Seconds the pipeline waits for the fetcher. */
  function DownloadTimeout(duration: int): (t: int)
    ensures t <= TimeoutCeiling
    ensures duration == 0 ==> t == DownloadTimeoutDefault
    ensures duration > 0 ==> 600 <= t
  {
    if duration == 0 then DownloadTimeoutDefault
    else
      var base := 600;
      var factor := (duration / 600) * 120;
      var extra := if duration > 3600 then ((duration - 3600) / 600) * 60 else 0;
      Min(base + factor + extra, TimeoutCeiling)
  }

  /** Seconds the encoder may run. */
  function FfmpegTimeout(duration: int): (t: int)
    ensures t <= TimeoutCeiling
    ensures duration == 0 ==> t == FfmpegTimeoutDefault
    ensures duration > 0 ==> 300 <= t
  {
    if duration == 0 then FfmpegTimeoutDefault
    else Min(300 + (duration / 60) * 30, TimeoutCeiling)
  }

  function Min(a: int, b: int): int { if a <= b then a else b }

  /** A longer (known) duration never gets a shorter fetch timeout. */
  lemma DownloadTimeoutMonotone(d1: int, d2: int)
    requires 0 < d1 <= d2
    ensures DownloadTimeout(d1) <= DownloadTimeout(d2)
  {
  }

  /** A longer (known) duration never gets a shorter encode timeout. */
  lemma FfmpegTimeoutMonotone(d1: int, d2: int)
    requires 0 < d1 <= d2
    ensures FfmpegTimeout(d1) <= FfmpegTimeout(d2)
  {
  }

  /** Worked values of the policy, including a deliberately huge duration. */
  lemma TimeoutExamples()
    ensures DownloadTimeout(600) == 720
    ensures DownloadTimeout(7200) == 2400
    ensures FfmpegTimeout(600) == 600
    ensures DownloadTimeout(10000000) == 7200
    ensures FfmpegTimeout(10000000) == 7200
  {
  }
}
