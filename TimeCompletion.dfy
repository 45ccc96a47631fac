/**
 * Time-based completion of a stress test (`org.radargun.stages.test.TimeStressorCompletion`):
 * stressors keep going until the deadline `startTime + duration` on the nanosecond clock, or for
 * ever when the duration is 0, and log their progress at most every 20 seconds. The clock reading
 * `now` is a parameter.
 */
module TimeCompletion {
  import opened JavaNumbers

  /** `TimeUnit.SECONDS.toNanos(20)`. */
  const LOG_FREQUENCY: Long := 20_000_000_000

  /** `moreToRun`'s test: no deadline when the duration is 0, else before `startTime + duration` (in `long`). */
  function MoreToRunAt(duration: Long, startTime: Long, now: Long): bool
  {
    duration == 0 || now < WrapLong(startTime + duration)
  }

  /** When the deadline does not overflow, `moreToRun` holds exactly while less than `duration` has elapsed. */
  lemma DeadlineIsElapsedTime(duration: Long, startTime: Long, now: Long)
    requires duration > 0 && startTime + duration <= LONG_MAX
    ensures MoreToRunAt(duration, startTime, now) <==> now - startTime < duration
  {
  }

  /** With a deadline, once `moreToRun` is false it stays false for every later clock reading. */
  lemma DeadlineIsFinal(duration: Long, startTime: Long, t: Long, now: Long)
    requires !MoreToRunAt(duration, startTime, t) && t <= now
    ensures !MoreToRunAt(duration, startTime, now)
  {
  }

  /** The numbers of one progress message. */
  datatype ProgressLine = ProgressLine(executedOps: Int, elapsed: Long, remaining: Long, total: Long)

  /** The message `logProgress` writes at `now`; the remaining time is cut off at 0. */
  function ProgressAt(executedOps: Int, startTime: Long, duration: Long, now: Long): (line: ProgressLine)
    ensures line.remaining >= 0 && line.total == duration && line.executedOps == executedOps
    ensures LONG_MIN <= startTime + duration <= LONG_MAX && LONG_MIN <= startTime + duration - now <= LONG_MAX ==>
      line.remaining == Max(0, startTime + duration - now)
  {
    ProgressLine(executedOps, WrapLong(now - startTime), Max(0, WrapLong(WrapLong(startTime + duration) - now)), duration)
  }

  /** What `logProgress` keeps between calls: the time of the last message and the messages so far. */
  datatype LogState = LogState(lastPrint: Long, log: seq<ProgressLine>)

  /** One call of `logProgress`. */
  datatype LogCall = LogCall(executedOps: Int, now: Long)

  /** `logProgress`'s guard as written: go on only when a message was printed and 20 seconds have passed. */
  function ShouldLogAsWritten(lastPrint: Long, now: Long): bool
  {
    !(lastPrint < 0 || WrapLong(now - lastPrint) < LOG_FREQUENCY)
  }

  /** The guard as evidently intended: the first call logs, and then 20 seconds after the last message. */
  function ShouldLog(lastPrint: Long, now: Long): bool
  {
    lastPrint < 0 || WrapLong(now - lastPrint) >= LOG_FREQUENCY
  }

  /** The state after a call, given which guard decides. */
  function LogStep(asWritten: bool, s: LogState, c: LogCall, startTime: Long, duration: Long): LogState
  {
    if (if asWritten then ShouldLogAsWritten(s.lastPrint, c.now) else ShouldLog(s.lastPrint, c.now))
    then LogState(c.now, s.log + [ProgressAt(c.executedOps, startTime, duration, c.now)])
    else s
  }

  /** The state after a series of calls, the last call last. */
  function LogRun(asWritten: bool, s: LogState, calls: seq<LogCall>, startTime: Long, duration: Long): LogState
  {
    if calls == [] then s
    else LogStep(asWritten, LogRun(asWritten, s, calls[..|calls| - 1], startTime, duration), calls[|calls| - 1], startTime, duration)
  }

  /**
   * As written, `lastPrint` starts at -1 and is only assigned past a guard that requires it to be
   * non-negative, so no series of calls ever logs anything.
   */
  lemma {:induction false} AsWrittenNeverLogs(calls: seq<LogCall>, startTime: Long, duration: Long)
    ensures LogRun(true, LogState(-1, []), calls, startTime, duration) == LogState(-1, [])
  {
    if calls != [] {
      AsWrittenNeverLogs(calls[..|calls| - 1], startTime, duration);
    }
  }

  predicate NonDecreasing(calls: seq<LogCall>)
  {
    forall i, j :: 0 <= i < j < |calls| ==> 0 <= calls[i].now <= calls[j].now
  }

  /**
   * With the intended guard, on a non-negative clock that does not go backwards: the first call
   * logs; the last message is never 20 seconds or more behind the latest call; and a call logs
   * exactly when at least 20 seconds have passed since the last message.
   */
  lemma {:induction false} IntendedLogsEveryTwentySeconds(calls: seq<LogCall>, startTime: Long, duration: Long)
    requires NonDecreasing(calls) && calls != []
    ensures var s := LogRun(false, LogState(-1, []), calls, startTime, duration);
      && |s.log| >= 1
      && s.log[0] == ProgressAt(calls[0].executedOps, startTime, duration, calls[0].now)
      && calls[0].now <= s.lastPrint <= calls[|calls| - 1].now
      && calls[|calls| - 1].now - s.lastPrint < LOG_FREQUENCY
    ensures |calls| > 1 ==>
      var prev := LogRun(false, LogState(-1, []), calls[..|calls| - 1], startTime, duration);
      var s := LogRun(false, LogState(-1, []), calls, startTime, duration);
      (|s.log| == |prev.log| + 1 <==> calls[|calls| - 1].now - prev.lastPrint >= LOG_FREQUENCY)
  {
    var init := calls[..|calls| - 1];
    var c := calls[|calls| - 1];
    if init == [] {
      assert calls == [c];
      assert LogRun(false, LogState(-1, []), init, startTime, duration) == LogState(-1, []);
    } else {
      assert NonDecreasing(init);
      IntendedLogsEveryTwentySeconds(init, startTime, duration);
      var s := LogRun(false, LogState(-1, []), init, startTime, duration);
      assert init[0] == calls[0] && init[|init| - 1] == calls[|calls| - 2];
      assert calls[|calls| - 2].now <= c.now;
      assert 0 <= c.now - s.lastPrint;
    }
  }

  /** In both variants, a call either leaves the state alone or logs one message and moves `lastPrint` to `now`. */
  lemma LogStepEffect(asWritten: bool, s: LogState, c: LogCall, startTime: Long, duration: Long)
    ensures var t := LogStep(asWritten, s, c, startTime, duration);
      t == s || (t.lastPrint == c.now && t.log == s.log + [ProgressAt(c.executedOps, startTime, duration, c.now)])
  {
  }

  /**
   * The completion of one stressor. `startTime` is a parameter; `completionHandlerCalls` counts the
   * calls of the inherited `runCompletionHandler`, whose own behaviour is not part of this model.
   */
  class TimeStressorCompletion {
    const duration: Long
    const startTime: Long
    var lastPrint: Long
    var log: seq<ProgressLine>
    var completionHandlerCalls: nat

    /** The argument is read as milliseconds and stored in nanoseconds, saturating at the `long` bounds. */
    constructor (durationMillis: Long, startTime: Long)
      ensures duration == MillisToNanos(durationMillis) && this.startTime == startTime
      ensures lastPrint == -1 && log == [] && completionHandlerCalls == 0
    {
      duration := MillisToNanos(durationMillis);
      this.startTime := startTime;
      lastPrint := -1;
      log := [];
      completionHandlerCalls := 0;
    }

    /** `moreToRun`: the deadline test; the completion handler runs on exactly the calls that return false. */
    method MoreToRun(now: Long) returns (more: bool)
      modifies this`completionHandlerCalls
      ensures more == MoreToRunAt(duration, startTime, now)
      ensures duration == 0 ==> more && completionHandlerCalls == old(completionHandlerCalls)
      ensures completionHandlerCalls == old(completionHandlerCalls) + (if more then 0 else 1)
    {
      more := if duration == 0 then true else now < WrapLong(startTime + duration);
      if !more {
        completionHandlerCalls := completionHandlerCalls + 1;
      }
    }

    /** `logProgress` as written: returns at once while `lastPrint` is negative, which is always. */
    method LogProgressAsWritten(executedOps: Int, now: Long)
      modifies this`lastPrint, this`log
      ensures LogState(lastPrint, log) == LogStep(true, old(LogState(lastPrint, log)), LogCall(executedOps, now), startTime, duration)
      ensures old(lastPrint) < 0 ==> lastPrint == old(lastPrint) && log == old(log)
    {
      if lastPrint < 0 || WrapLong(now - lastPrint) < LOG_FREQUENCY {
        return;
      }
      // the re-check under the lock
      if WrapLong(now - lastPrint) < LOG_FREQUENCY {
        return;
      }
      lastPrint := now;
      var remaining := Max(0, WrapLong(WrapLong(startTime + duration) - now));
      log := log + [ProgressLine(executedOps, WrapLong(now - startTime), remaining, duration)];
    }

    /** `logProgress` with the intended guard, both before and under the lock. */
    method LogProgress(executedOps: Int, now: Long)
      modifies this`lastPrint, this`log
      ensures LogState(lastPrint, log) == LogStep(false, old(LogState(lastPrint, log)), LogCall(executedOps, now), startTime, duration)
      ensures old(lastPrint) < 0 ==> lastPrint == now && |log| == |old(log)| + 1
    {
      if lastPrint >= 0 && WrapLong(now - lastPrint) < LOG_FREQUENCY {
        return;
      }
      // the re-check under the lock
      if lastPrint >= 0 && WrapLong(now - lastPrint) < LOG_FREQUENCY {
        return;
      }
      lastPrint := now;
      var remaining := Max(0, WrapLong(WrapLong(startTime + duration) - now));
      log := log + [ProgressLine(executedOps, WrapLong(now - startTime), remaining, duration)];
    }
  }

  /** A zero duration never ends the test and never calls the completion handler. */
  method RunsForeverExample(now: Long) returns (more: bool, handlerCalls: nat)
    ensures more && handlerCalls == 0
  {
    var completion := new TimeStressorCompletion(0, 0);
    more := completion.MoreToRun(now);
    handlerCalls := completion.completionHandlerCalls;
  }
}
