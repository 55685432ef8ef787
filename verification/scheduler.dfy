/** The heartbeat scheduler's state machine: interval wakes, enable and stop guards,
    health, and the accounting of each run. The worker thread is replaced by explicit
    steps; clock readings, the run's outcome and the thread's liveness are inputs. */
module HeartbeatScheduler {
  import opened Wrappers
  import opened JsonValue
  import Exceptions
  import WakeQueue

  /** The two settings the scheduler reads; either may be absent. */
  datatype SchedulerConfig = SchedulerConfig(intervalMs: Option<int>, enabled: Option<bool>)

  const DefaultIntervalMs := 60000

  datatype Sched = Sched(
    intervalMs: int, enabled: bool, nextDueMs: Option<int>, running: bool, stopped: bool,
    inFlight: bool, wake: WakeQueue.Slot, lastRunReason: Option<string>,
    runAttempts: nat, runFailures: nat, consecutiveFailures: nat, callbackFailures: nat,
    lastRunStartedMs: Option<int>, lastRunFinishedMs: Option<int>, lastRunStatus: Option<string>,
    lastRunResultReason: Option<string>, lastRunError: Option<string>)

  /** What every reachable state satisfies: a positive interval, a due time exactly while
      enabled, a valid pending wake, a stopped scheduler not running, and failure counts
      bounded by the attempts. */
  predicate ValidSched(s: Sched) {
    s.intervalMs >= 1 && (s.nextDueMs.Some? <==> s.enabled) && WakeQueue.ValidSlot(s.wake)
    && (s.stopped ==> !s.running && !s.inFlight && s.wake.None?)
    && s.consecutiveFailures <= s.runFailures <= s.runAttempts
  }

  /** The handle's constructor, at clock reading `nowMs`. */
  function Start(config: SchedulerConfig, nowMs: int): (s: Sched)
    ensures ValidSched(s) && s.running && !s.stopped && !s.inFlight && s.wake.None?
    ensures s.intervalMs == if config.intervalMs.GetOr(DefaultIntervalMs) < 1 then 1 else config.intervalMs.GetOr(DefaultIntervalMs)
    ensures s.enabled == config.enabled.GetOr(true)
    ensures s.enabled ==> s.nextDueMs == Some(nowMs + s.intervalMs)
    ensures s.runAttempts == 0 && s.runFailures == 0 && s.callbackFailures == 0
  {
    var requested := config.intervalMs.GetOr(DefaultIntervalMs);
    var interval := if requested < 1 then 1 else requested;
    var enabled := config.enabled.GetOr(true);
    Sched(interval, enabled, if enabled then Some(nowMs + interval) else None, true, false, false, None,
          None, 0, 0, 0, 0, None, None, None, None, None)
  }

  // ---------------------------------------------------------------------------
  // wake / stop / set_enabled
  // ---------------------------------------------------------------------------

  datatype WakeResponse = WakeResponse(status: string, accepted: bool, reason: string, queueSize: nat,
                                       replacedReason: Option<string>)

  /** `wake`: ignored once stopped, without touching the queue; otherwise the wake
      queue's decision. An invalid reason raises. */
  function Wake(s: Sched, reason: string, nowMs: int): (r: Result<(Sched, WakeResponse), string>)
    requires ValidSched(s)
    ensures s.stopped ==> r == Ok((s, WakeResponse("ignored", false, reason, 0, None)))
    ensures !s.stopped ==> (r.Err? <==> !WakeQueue.IsValidReason(reason))
    ensures r.Ok? ==> ValidSched(r.value.0) && r.value.0.(wake := s.wake) == s
    ensures r.Ok? ==> r.value.1.status in {"accepted", "ignored"} && (r.value.1.status == "accepted" <==> r.value.1.accepted)
    ensures r.Ok? && !s.stopped ==>
              var (slot, d) := WakeQueue.RequestWake(s.wake, reason, nowMs).value;
              r.value.0.wake == slot && r.value.1.accepted == d.accepted && r.value.1.queueSize == 1
              && r.value.1.replacedReason == d.replacedReason
  {
    if s.stopped then Ok((s, WakeResponse("ignored", false, reason, 0, None)))
    else match WakeQueue.RequestWake(s.wake, reason, nowMs)
      case Err(e) => Err(e)
      case Ok((slot, d)) =>
        Ok((s.(wake := slot), WakeResponse(if d.accepted then "accepted" else "ignored", d.accepted, d.reason,
                                           d.queueSize, d.replacedReason)))
  }

  /** `stop`: the first call stops, ends the run in flight and clears the pending wake;
      later calls do nothing. */
  function Stop(s: Sched): (r: Sched)
    requires ValidSched(s)
    ensures ValidSched(r) && r.stopped && !r.running && !r.inFlight && r.wake.None?
    ensures s.stopped ==> r == s
    ensures !s.stopped ==> r == s.(stopped := true, running := false, inFlight := false, wake := None)
  {
    if s.stopped then s else s.(stopped := true, running := false, inFlight := false, wake := None)
  }

  lemma StopTwice(s: Sched)
    requires ValidSched(s)
    ensures Stop(Stop(s)) == Stop(s)
  {
  }

  /** A wake after stop is ignored and changes nothing. */
  lemma WakeAfterStopIgnored(s: Sched, reason: string, nowMs: int)
    requires ValidSched(s)
    ensures Wake(Stop(s), reason, nowMs) == Ok((Stop(s), WakeResponse("ignored", false, reason, 0, None)))
  {
  }

  /** `set_enabled`: the previous flag; enabling restarts the interval from now, disabling
      drops the due time and the pending wake. */
  function SetEnabled(s: Sched, enabled: bool, nowMs: int): (r: (Sched, bool))
    requires ValidSched(s)
    ensures ValidSched(r.0) && r.1 == s.enabled && r.0.enabled == enabled
    ensures enabled ==> r.0.nextDueMs == Some(nowMs + s.intervalMs) && r.0.wake == s.wake
    ensures !enabled ==> r.0.nextDueMs.None? && r.0.wake.None?
    ensures r.0.(enabled := s.enabled, nextDueMs := s.nextDueMs, wake := s.wake) == s
  {
    if enabled then (s.(enabled := true, nextDueMs := Some(nowMs + s.intervalMs)), s.enabled)
    else (s.(enabled := false, nextDueMs := None, wake := None), s.enabled)
  }

  // ---------------------------------------------------------------------------
  // _enqueue_interval_wake
  // ---------------------------------------------------------------------------

  /** The due time moved forward by whole intervals until it is strictly after `nowMs`:
      within one interval after now, and unchanged if already in the future. */
  function NextDue(due: int, nowMs: int, intervalMs: int): (next: int)
    requires intervalMs >= 1 && due <= nowMs + intervalMs
    ensures nowMs < next <= nowMs + intervalMs
    ensures due > nowMs ==> next == due
    decreases nowMs - due
  {
    if due > nowMs then due else NextDue(due + intervalMs, nowMs, intervalMs)
  }

  /** The source's loop, one interval at a time, reaches the same due time. */
  method AdvanceDue(due: int, nowMs: int, intervalMs: int) returns (next: int)
    requires intervalMs >= 1 && due <= nowMs
    ensures nowMs < next <= nowMs + intervalMs
    ensures next == NextDue(due, nowMs, intervalMs)
  {
    next := due;
    while next <= nowMs
      invariant next <= nowMs + intervalMs
      invariant NextDue(next, nowMs, intervalMs) == NextDue(due, nowMs, intervalMs)
      decreases nowMs - next
    {
      next := next + intervalMs;
    }
  }

  /** `_enqueue_interval_wake`: only when enabled and due, an interval wake is requested
      and the due time moves past now. */
  function EnqueueIntervalWake(s: Sched, nowMs: int): (r: Sched)
    requires ValidSched(s) && !s.stopped
    ensures ValidSched(r)
    ensures !(s.enabled && nowMs >= s.nextDueMs.value) ==> r == s
    ensures s.enabled && nowMs >= s.nextDueMs.value ==>
              && r.wake == WakeQueue.RequestWake(s.wake, "interval", nowMs).value.0
              && r.nextDueMs.Some? && nowMs < r.nextDueMs.value <= nowMs + s.intervalMs
              && r.nextDueMs.value == NextDue(s.nextDueMs.value, nowMs, s.intervalMs)
              && r.(wake := s.wake, nextDueMs := s.nextDueMs) == s
  {
    if !s.enabled || s.nextDueMs.None? || nowMs < s.nextDueMs.value then s
    else
      var due := s.nextDueMs.value;
      var (slot, _) := WakeQueue.RequestWake(s.wake, "interval", nowMs).value;
      s.(wake := slot, nextDueMs := Some(NextDue(due, nowMs, s.intervalMs)))
  }

  // ---------------------------------------------------------------------------
  // Health
  // ---------------------------------------------------------------------------

  /** `_compute_health`, first match wins. */
  function Health(s: Sched, threadAlive: bool): (r: (string, Option<string>))
    ensures s.stopped ==> r == ("stopped", None)
    ensures !s.stopped && !threadAlive ==> r == ("degraded", Some("scheduler-thread-terminated"))
    ensures !s.stopped && threadAlive && s.inFlight ==> r == ("busy", None)
    ensures !s.stopped && threadAlive && !s.inFlight && s.consecutiveFailures > 0 ==>
              r == ("degraded", Some("consecutive-run-failures"))
    ensures !s.stopped && threadAlive && !s.inFlight && s.consecutiveFailures == 0 ==> r == ("ok", None)
    // a reason exactly when degraded
    ensures r.1.Some? <==> r.0 == "degraded"
  {
    if s.stopped then ("stopped", None)
    else if !threadAlive then ("degraded", Some("scheduler-thread-terminated"))
    else if s.inFlight then ("busy", None)
    else if s.consecutiveFailures > 0 then ("degraded", Some("consecutive-run-failures"))
    else ("ok", None)
  }

  /** The status report. */
  datatype SchedulerStatus = SchedulerStatus(
    enabled: bool, running: bool, inFlight: bool, nextDueMs: Option<int>, pendingWakeReason: Option<string>,
    lastRunReason: Option<string>, threadAlive: bool, health: string, healthReason: Option<string>,
    runAttempts: nat, runFailures: nat, consecutiveFailures: nat, callbackFailures: nat,
    lastRunStartedMs: Option<int>, lastRunFinishedMs: Option<int>, lastRunStatus: Option<string>,
    lastRunResultReason: Option<string>, lastRunError: Option<string>)

  /** `get_status`: a report of the state, after noting that a worker thread which died
      while the scheduler was running leaves it no longer running. */
  function GetStatus(s: Sched, threadAlive: bool): (r: (Sched, SchedulerStatus))
    requires ValidSched(s)
    ensures ValidSched(r.0) && r.0.(running := s.running) == s
    // the scheduler is reported running only while its thread lives
    ensures r.0.running <==> s.running && threadAlive
    ensures r.1.running == r.0.running && r.1.threadAlive == threadAlive
    ensures (r.1.health, r.1.healthReason) == Health(r.0, threadAlive)
    ensures !s.stopped && !threadAlive ==> !r.1.running && r.1.health == "degraded"
    ensures r.1.pendingWakeReason == if s.wake.Some? then Some(s.wake.value.reason) else None
    ensures r.1.enabled == s.enabled && r.1.inFlight == s.inFlight && r.1.nextDueMs == s.nextDueMs
    ensures r.1.runAttempts == s.runAttempts && r.1.runFailures == s.runFailures
            && r.1.consecutiveFailures == s.consecutiveFailures && r.1.callbackFailures == s.callbackFailures
    ensures r.1.lastRunReason == s.lastRunReason && r.1.lastRunStatus == s.lastRunStatus
            && r.1.lastRunResultReason == s.lastRunResultReason && r.1.lastRunError == s.lastRunError
            && r.1.lastRunStartedMs == s.lastRunStartedMs && r.1.lastRunFinishedMs == s.lastRunFinishedMs
  {
    var s1 := if s.running && !s.stopped && !threadAlive then s.(running := false) else s;
    var (health, healthReason) := Health(s1, threadAlive);
    (s1, SchedulerStatus(
      s1.enabled, s1.running, s1.inFlight, s1.nextDueMs, if s1.wake.Some? then Some(s1.wake.value.reason) else None,
      s1.lastRunReason, threadAlive, health, healthReason,
      s1.runAttempts, s1.runFailures, s1.consecutiveFailures, s1.callbackFailures,
      s1.lastRunStartedMs, s1.lastRunFinishedMs, s1.lastRunStatus, s1.lastRunResultReason, s1.lastRunError))
  }

  // ---------------------------------------------------------------------------
  // One pass of the worker loop
  // ---------------------------------------------------------------------------

  /** `_result_value`: the default for a non-mapping result or a missing key, else the
      value's `str()`. */
  function ResultValue(raw: Json, key: string, default: string): (r: string)
    ensures !raw.JObject? || key !in raw.fields ==> r == default
    ensures raw.JObject? && key in raw.fields ==> r == PyStr(raw.fields[key])
  {
    if raw.JObject? && key in raw.fields then PyStr(raw.fields[key]) else default
  }

  /** How one run went: the runner raised, or it returned a result and the result hook
      (if any) raised or not. */
  datatype RunOutcome = RunRaised(exc: Exceptions.Exc) | RunReturned(raw: Json, callbackRaised: bool)

  /** The bookkeeping of one run of reason `reason`, started at `startedMs` and finished
      at `finishedMs`. */
  function RecordRun(s: Sched, reason: string, startedMs: int, outcome: RunOutcome, finishedMs: int): (r: Sched)
    requires ValidSched(s) && !s.stopped
    ensures ValidSched(r)
    ensures r.runAttempts == s.runAttempts + 1 && r.lastRunReason == Some(reason)
    ensures r.lastRunStartedMs == Some(startedMs) && r.lastRunFinishedMs == Some(finishedMs) && !r.inFlight
    // a returned result resets the failure streak; only a raising hook counts a callback failure
    ensures outcome.RunReturned? ==>
              && r.consecutiveFailures == 0 && r.runFailures == s.runFailures
              && r.callbackFailures == s.callbackFailures + (if outcome.callbackRaised then 1 else 0)
              && r.lastRunStatus == Some(ResultValue(outcome.raw, "status", "ran"))
              && r.lastRunResultReason == Some(ResultValue(outcome.raw, "reason", "delivered"))
              && (r.lastRunError.None? <==> ResultValue(outcome.raw, "error", "") == "")
    // a raising runner is a failure
    ensures outcome.RunRaised? ==>
              && r.runFailures == s.runFailures + 1 && r.consecutiveFailures == s.consecutiveFailures + 1
              && r.callbackFailures == s.callbackFailures
              && r.lastRunStatus == Some("failed") && r.lastRunResultReason == Some("scheduler-exception")
              && r.lastRunError == Some(if outcome.exc.message == "" then outcome.exc.typeName else outcome.exc.message)
    // nothing outside the run record changes
    ensures r.(runAttempts := s.runAttempts, runFailures := s.runFailures, consecutiveFailures := s.consecutiveFailures,
               callbackFailures := s.callbackFailures, lastRunReason := s.lastRunReason,
               lastRunStartedMs := s.lastRunStartedMs, lastRunFinishedMs := s.lastRunFinishedMs,
               lastRunStatus := s.lastRunStatus, lastRunResultReason := s.lastRunResultReason,
               lastRunError := s.lastRunError, inFlight := s.inFlight) == s
  {
    var started := s.(runAttempts := s.runAttempts + 1, lastRunStartedMs := Some(startedMs),
                      lastRunReason := Some(reason));
    var done := match outcome
      case RunRaised(exc) =>
        started.(runFailures := s.runFailures + 1, consecutiveFailures := s.consecutiveFailures + 1,
                 lastRunStatus := Some("failed"), lastRunResultReason := Some("scheduler-exception"),
                 lastRunError := Some(if exc.message == "" then exc.typeName else exc.message))
      case RunReturned(raw, callbackRaised) =>
        var error := ResultValue(raw, "error", "");
        started.(consecutiveFailures := 0, lastRunStatus := Some(ResultValue(raw, "status", "ran")),
                 lastRunResultReason := Some(ResultValue(raw, "reason", "delivered")),
                 lastRunError := if error == "" then None else Some(error),
                 callbackFailures := s.callbackFailures + (if callbackRaised then 1 else 0));
    done.(inFlight := false, lastRunFinishedMs := Some(finishedMs))
  }

  /** What one pass of the loop did. */
  datatype Step = Exited | Ran(reason: string) | Slept(ms: int)

  /** One pass of `_loop` at clock reading `nowMs`: exit once stopped; otherwise enqueue
      an interval wake if due, then run the pending wake or wait. */
  function LoopStep(s: Sched, nowMs: int, startedMs: int, outcome: RunOutcome, finishedMs: int): (r: (Sched, Step))
    requires ValidSched(s)
    ensures ValidSched(r.0)
    ensures s.stopped ==> r == (s, Exited)
    ensures !s.stopped ==> r.0.wake.None? || r.1.Slept?
    ensures r.1.Ran? ==> r.0.runAttempts == s.runAttempts + 1 && !r.0.inFlight
    ensures r.1.Slept? ==> r.0.runAttempts == s.runAttempts && r.1.ms >= 1
    // a run happens exactly when a wake was pending or the interval came due
    ensures !s.stopped ==> (r.1.Ran? <==> s.wake.Some? || (s.enabled && nowMs >= s.nextDueMs.value))
    // the run's reason: the pending wake's, unless a due interval wake displaced it
    ensures r.1.Ran? && s.wake.None? ==> r.1.reason == "interval"
    ensures r.1.Ran? && s.wake.Some? && !(s.enabled && nowMs >= s.nextDueMs.value) ==> r.1.reason == s.wake.value.reason
    ensures r.1.Ran? && s.wake.Some? && s.enabled && nowMs >= s.nextDueMs.value ==>
              r.1.reason == (if WakeQueue.Priority("interval") >= WakeQueue.Priority(s.wake.value.reason)
                             then "interval" else s.wake.value.reason)
    // otherwise it waits until the next due time, at least 1 ms, or 25 ms when disabled
    ensures r.1.Slept? ==> r.1.ms == if !s.enabled then 25 else if s.nextDueMs.value - nowMs > 1 then s.nextDueMs.value - nowMs else 1
  {
    if s.stopped then (s, Exited)
    else
      var queued := EnqueueIntervalWake(s, nowMs);
      match queued.wake
      case Some(w) =>
        (RecordRun(queued.(wake := None, inFlight := true), w.reason, startedMs, outcome, finishedMs), Ran(w.reason))
      case None =>
        var sleepFor := if queued.nextDueMs.Some? && queued.nextDueMs.value - nowMs > 1 then queued.nextDueMs.value - nowMs
                        else if queued.nextDueMs.Some? then 1 else 25;
        (queued, Slept(sleepFor))
  }

  /** Interval wakes never pile up: after a pass that found the interval due, the due time
      is again in the future, so the very next pass at the same time does not run unless
      something else woke the scheduler. */
  lemma NoDoubleIntervalRun(s: Sched, nowMs: int, startedMs: int, outcome: RunOutcome, finishedMs: int,
                            later: int, outcome2: RunOutcome)
    requires ValidSched(s) && !s.stopped && s.wake.None? && s.enabled && nowMs >= s.nextDueMs.value
    ensures var (s1, step1) := LoopStep(s, nowMs, startedMs, outcome, finishedMs);
            step1.Ran? && LoopStep(s1, nowMs, startedMs, outcome2, finishedMs).1.Slept?
  {
  }
}
