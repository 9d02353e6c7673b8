/**
 * The encoder supervision loop of app.py (`run_ffmpeg_with_progress`): poll
 * the encoder until it exits or overruns its timeout, and every time more
 * than ten seconds have passed since the last refresh, refresh the task's
 * timestamp and, while the task is in the loop's stage, rewrite its message
 * as `<base> (<elapsed>s)...`.
 *
 * The encoder's behaviour is a trace of poll results, one clock reading per
 * poll; the functions below give the task record and the verdict that the
 * loop produces for a trace.
 */
module Supervision {
  import opened Text
  import Tasks
  import Files

  /** One pass of the loop: the encoder still running at clock `at`, or its exit code and error output. */
  datatype FfmpegPoll = Running(at: real) | Exited(code: int, stderr: string)

  const KeepAliveInterval: real := 10.0
  const TimeoutMessage: string := "FFmpeg timeout"

  /** The poll at which the loop returns: the encoder has exited, or the timeout has passed. */
  predicate Ends(p: FfmpegPoll, start: real, timeout: int) {
    p.Exited? || p.at - start > timeout as real
  }

  /** The trace reaches a poll that ends the loop. */
  predicate Terminates(trace: seq<FfmpegPoll>, start: real, timeout: int) {
    exists i :: 0 <= i < |trace| && Ends(trace[i], start, timeout)
  }

  /** The encoder exits at some poll of the trace. */
  predicate EventuallyExits(trace: seq<FfmpegPoll>) {
    exists i :: 0 <= i < |trace| && trace[i].Exited?
  }

  /** A trace in which the encoder exits terminates whatever the timeout. */
  lemma ExitTerminates(trace: seq<FfmpegPoll>, start: real, timeout: int)
    requires EventuallyExits(trace)
    ensures Terminates(trace, start, timeout)
  {
    var i :| 0 <= i < |trace| && trace[i].Exited?;
    assert Ends(trace[i], start, timeout);
  }

  lemma TerminatesTail(trace: seq<FfmpegPoll>, start: real, timeout: int)
    requires Terminates(trace, start, timeout) && !Ends(trace[0], start, timeout)
    ensures Terminates(trace[1..], start, timeout)
  {
    var i :| 0 <= i < |trace| && Ends(trace[i], start, timeout);
    assert trace[1..][i - 1] == trace[i];
  }

  /** Index of the poll at which the loop returns. */
  function FirstEnd(trace: seq<FfmpegPoll>, start: real, timeout: int): (i: nat)
    requires Terminates(trace, start, timeout)
    ensures i < |trace| && Ends(trace[i], start, timeout)
    ensures forall j :: 0 <= j < i ==> !Ends(trace[j], start, timeout)
    decreases |trace|
  {
    if Ends(trace[0], start, timeout) then 0
    else
      TerminatesTail(trace, start, timeout);
      var k := FirstEnd(trace[1..], start, timeout);
      assert forall j :: 1 <= j < k + 1 ==> trace[j] == trace[1..][j - 1];
      k + 1
  }

  /**
   * What the loop returns at its last poll: success exactly on exit code 0,
   * the error output on another exit code, the timeout message otherwise.
   */
  function Verdict(p: FfmpegPoll): (r: (bool, string))
    ensures r.0 <==> p.Exited? && p.code == 0
    ensures r.0 ==> r.1 == ""
    ensures p.Running? ==> r.1 == TimeoutMessage
    ensures p.Exited? && p.code != 0 ==> r.1 == p.stderr
  {
    match p
    case Exited(code, stderr) => if code == 0 then (true, "") else (false, stderr)
    case Running(_) => (false, TimeoutMessage)
  }

  /** `message.split('(')[0].strip()` */
  function Base(m: string): (r: string)
    ensures '(' !in r
    ensures r == [] || (!IsSpace(r[0]) && !IsSpace(r[|r| - 1]))
  {
    var b := BeforeFirst(m, '(');
    StripByKeeps(b, IsSpace);
    Strip(b)
  }

  /** The keep-alive message: the base of the old message and the whole seconds since the encoder started. */
  function Refreshed(m: string, elapsed: int): (r: string)
    ensures StartsWith(r, Base(m) + " (") && EndsWith(r, "s)...")
  {
    Base(m) + " (" + IntToString(elapsed) + "s)..."
  }

  /** One keep-alive on a present record. */
  function KeepAlive(rec: Tasks.TaskRecord, now: real, start: real, stage: Tasks.Status): (r: Tasks.TaskRecord)
    ensures r.status == rec.status && r.percent == rec.percent && r.completion == rec.completion
    ensures r.lastUpdate == now
    ensures rec.status == stage ==> r.message == Refreshed(rec.message, Tasks.Trunc(now - start))
    ensures rec.status != stage ==> r.message == rec.message
  {
    var touched := rec.(lastUpdate := now);
    if rec.status == stage then touched.(message := Refreshed(rec.message, Tasks.Trunc(now - start))) else touched
  }

  /** The record after the loop has run over `trace`, the last refresh having happened at `lastKeep`. */
  function KeepAlives(rec: Tasks.TaskRecord, trace: seq<FfmpegPoll>, start: real, timeout: int, stage: Tasks.Status, lastKeep: real): Tasks.TaskRecord
    requires Terminates(trace, start, timeout)
    decreases |trace|
  {
    var p := trace[0];
    if Ends(p, start, timeout) then rec
    else
      TerminatesTail(trace, start, timeout);
      if p.at - lastKeep > KeepAliveInterval then
        KeepAlives(KeepAlive(rec, p.at, start, stage), trace[1..], start, timeout, stage, p.at)
      else KeepAlives(rec, trace[1..], start, timeout, stage, lastKeep)
  }

  /** One pass of the loop over the suffix starting at poll `i`. */
  lemma KeepAlivesUnfold(rec: Tasks.TaskRecord, trace: seq<FfmpegPoll>, i: nat, start: real, timeout: int, stage: Tasks.Status, lastKeep: real)
    requires Terminates(trace, start, timeout) && i <= FirstEnd(trace, start, timeout)
    requires Terminates(trace[i..], start, timeout)
    ensures Ends(trace[i], start, timeout) <==> i == FirstEnd(trace, start, timeout)
    ensures Ends(trace[i], start, timeout) ==> KeepAlives(rec, trace[i..], start, timeout, stage, lastKeep) == rec
    ensures !Ends(trace[i], start, timeout) ==>
      && Terminates(trace[i + 1..], start, timeout)
      && KeepAlives(rec, trace[i..], start, timeout, stage, lastKeep)
         == if trace[i].at - lastKeep > KeepAliveInterval
            then KeepAlives(KeepAlive(rec, trace[i].at, start, stage), trace[i + 1..], start, timeout, stage, trace[i].at)
            else KeepAlives(rec, trace[i + 1..], start, timeout, stage, lastKeep)
  {
    assert trace[i..][0] == trace[i];
    if !Ends(trace[i], start, timeout) {
      TerminatesTail(trace[i..], start, timeout);
      assert trace[i..][1..] == trace[i + 1..];
    }
  }

  /** `Strip(b + " ") == b` for a string with no space at either end. */
  lemma StripTrailingSpace(b: string)
    requires b == [] || (!IsSpace(b[0]) && !IsSpace(b[|b| - 1]))
    ensures Strip(b + " ") == b
  {
    var s := b + " ";
    if b != [] {
      assert s[0] == b[0];
      assert LeadingCount(s, IsSpace) == 0;
      assert s[..|s| - 1] == b;
      assert TrailingCount(b, IsSpace) == 0;
      assert TrailingCount(s, IsSpace) == 1;
      assert s[0..|s| - 1] == b;
    } else {
      assert s == " ";
      assert IsSpace(s[0]);
    }
  }

  /** The refreshed message is the base and a space, then a part that starts with `(`. */
  lemma RefreshedSplit(b: string, digits: string)
    ensures b + " (" + digits + "s)..." == (b + " ") + ("(" + digits + "s)...")
    ensures ("(" + digits + "s)...")[0] == '('
  {
  }

  /** A refreshed message has the same base, so refreshes never pile up `(...)` groups. */
  lemma RefreshedBaseStable(m: string, n: int)
    ensures Base(Refreshed(m, n)) == Base(m)
  {
    var b := Base(m);
    var rest := "(" + IntToString(n) + "s)...";
    RefreshedSplit(b, IntToString(n));
    assert '(' !in b + " ";
    Files.BeforeFirstPrefix(b + " ", rest, '(');
    StripTrailingSpace(b);
  }

  /** Refreshing twice is refreshing once, with the later elapsed time. */
  lemma RefreshTwice(m: string, a: int, b: int)
    ensures Refreshed(Refreshed(m, a), b) == Refreshed(m, b)
  {
    RefreshedBaseStable(m, a);
  }

  /**
   * The loop leaves status, percent and completion alone; the message is
   * either the old one or one refresh of it.
   */
  lemma {:induction false} KeepAlivesPreserve(rec: Tasks.TaskRecord, trace: seq<FfmpegPoll>, start: real, timeout: int, stage: Tasks.Status, lastKeep: real)
    requires Terminates(trace, start, timeout)
    ensures var r := KeepAlives(rec, trace, start, timeout, stage, lastKeep);
      && r.status == rec.status && r.percent == rec.percent && r.completion == rec.completion
      && (r.message == rec.message || (rec.status == stage && exists n :: r.message == Refreshed(rec.message, n)))
    decreases |trace|
  {
    var p := trace[0];
    if !Ends(p, start, timeout) {
      TerminatesTail(trace, start, timeout);
      if p.at - lastKeep > KeepAliveInterval {
        var k := KeepAlive(rec, p.at, start, stage);
        KeepAlivesPreserve(k, trace[1..], start, timeout, stage, p.at);
        var r := KeepAlives(k, trace[1..], start, timeout, stage, p.at);
        if rec.status == stage && r.message != k.message {
          var n :| r.message == Refreshed(k.message, n);
          RefreshTwice(rec.message, Tasks.Trunc(p.at - start), n);
        }
      } else {
        KeepAlivesPreserve(rec, trace[1..], start, timeout, stage, lastKeep);
      }
    }
  }

  /**
   * The purpose of the keep-alive: when the encoder has been running for more
   * than ten seconds at its last poll, the record's timestamp is within ten
   * seconds of that poll, so the stall scan sees a live task.
   */
  lemma {:induction false} KeepAlivesFresh(rec: Tasks.TaskRecord, trace: seq<FfmpegPoll>, start: real, timeout: int, stage: Tasks.Status, lastKeep: real)
    requires Terminates(trace, start, timeout)
    requires FirstEnd(trace, start, timeout) > 0
    requires lastKeep == start || rec.lastUpdate == lastKeep
    ensures var q := trace[FirstEnd(trace, start, timeout) - 1];
      q.at - start > KeepAliveInterval ==> KeepAlives(rec, trace, start, timeout, stage, lastKeep).lastUpdate >= q.at - KeepAliveInterval
    decreases |trace|
  {
    var p := trace[0];
    TerminatesTail(trace, start, timeout);
    var e := FirstEnd(trace, start, timeout);
    var tail := trace[1..];
    assert FirstEnd(tail, start, timeout) == e - 1 by {
      var e' := FirstEnd(tail, start, timeout);
      assert Ends(trace[e' + 1], start, timeout);
      assert forall j :: 0 <= j < e - 1 ==> tail[j] == trace[j + 1];
    }
    if p.at - lastKeep > KeepAliveInterval {
      var k := KeepAlive(rec, p.at, start, stage);
      if e > 1 {
        assert trace[e - 1] == tail[e - 2];
        KeepAlivesFresh(k, tail, start, timeout, stage, p.at);
      } else {
        assert Ends(tail[0], start, timeout);
      }
    } else {
      if e > 1 {
        assert trace[e - 1] == tail[e - 2];
        KeepAlivesFresh(rec, tail, start, timeout, stage, lastKeep);
      } else {
        assert Ends(tail[0], start, timeout);
      }
    }
  }
}
