/** Heartbeat event ingestion: per-status counters, and suppression of a repeated
    delivered output within a sliding dedupe window. The clock reading and the two
    SHA-256 digests (of the output text, and of the event's fields) are inputs. */
module HeartbeatEvents {
  import opened Wrappers
  import Text
  import Numbers
  import opened JsonValue
  import opened HeartbeatStore

  /** The event service: the store it writes through and the window, never negative. */
  datatype Service = Service(store: Store, dedupeWindowMs: nat)

  /** HeartbeatEventService's constructor clamps a negative window to zero. */
  function NewService(store: Store, dedupeWindowMs: int): (r: Service)
    ensures r.store == store
    ensures dedupeWindowMs >= 0 ==> r.dedupeWindowMs == dedupeWindowMs
    ensures dedupeWindowMs < 0 ==> r.dedupeWindowMs == 0
  {
    Service(store, if dedupeWindowMs > 0 then dedupeWindowMs else 0)
  }

  datatype IngestResult = IngestResult(
    event: LastEventRecord, counters: EventCounters, shouldDeliver: bool,
    dedupeSuppressed: bool, dedupeKey: Option<string>)

  /** `str(run_result.get(key, ""))`. */
  function Field(runResult: map<string, Json>, key: string): (r: string)
    ensures key !in runResult ==> r == ""
    ensures key in runResult && runResult[key].JStr? ==> r == runResult[key].s
  {
    if key in runResult then PyStr(runResult[key]) else ""
  }

  const Statuses := {"ran", "skipped", "failed"}

  /** The counters after one run of the given status. */
  function Count(c: EventCounters, status: string): (r: EventCounters)
    requires status in Statuses
    ensures status == "ran" ==> r == c.(ran := c.ran + 1)
    ensures status == "skipped" ==> r == c.(skipped := c.skipped + 1)
    ensures status == "failed" ==> r == c.(failed := c.failed + 1)
  {
    if status == "ran" then c.(ran := c.ran + 1)
    else if status == "skipped" then c.(skipped := c.skipped + 1)
    else c.(failed := c.failed + 1)
  }

  /** `_event_id`: "evt_" and the first 20 hex digits of the digest of the fields joined
      by the unit separator. */
  function EventId(digest: string -> string, tsMs: int, status: string, reason: string, runReason: string,
                   outputText: string, error: string, suppressed: bool): (id: string)
    ensures 4 <= |id| <= 24 && id[..4] == "evt_"
  {
    var material := Text.Join('\U{1F}', [Numbers.IntToString(tsMs), status, reason, runReason, outputText, error,
                                         if suppressed then "1" else "0"]);
    var d := digest(material);
    "evt_" + (if |d| <= 20 then d else d[..20])
  }

  /** Whether a ran output with this key is inside the window of an earlier one. */
  predicate Suppresses(svc: Service, key: string, nowMs: int) {
    key in svc.store.dedupe && svc.dedupeWindowMs > 0 && nowMs < svc.store.dedupe[key].suppressUntilMs
  }

  /** `ingest_run_result`. `dedupeKey` and `digest` stand for the two SHA-256 hex digests.
      An unsupported status raises before anything is written. */
  function Ingest(svc: Service, runResult: map<string, Json>, nowMs: int,
                  dedupeKey: string -> string, digest: string -> string)
    : (r: Result<(Service, IngestResult), string>)
    ensures var status := Text.Strip(Field(runResult, "status"));
            && (r.Err? <==> status !in Statuses)
            && (r.Err? ==> r.error == "unsupported run_result status: '" + status + "'")
    ensures r.Ok? ==> IngestPost(svc, runResult, nowMs, dedupeKey, r.value.0, r.value.1)
  {
    var status := Text.Strip(Field(runResult, "status"));
    if status !in Statuses then Err("unsupported run_result status: '" + status + "'")
    else
      var reason := Field(runResult, "reason");
      var runReason := Field(runResult, "run_reason");
      var outputText := Field(runResult, "output_text");
      var error := Field(runResult, "error");
      var counted := Count(svc.store.counters, status);
      var key := if status == "ran" && outputText != "" then Some(dedupeKey(outputText)) else None;
      var suppressed := key.Some? && Suppresses(svc, key.value, nowMs);
      var counters := if suppressed then counted.(deduped := counted.deduped + 1) else counted;
      var store1 :=
        if key.None? then svc.store
        else
          var hits := if key.value in svc.store.dedupe then svc.store.dedupe[key.value].hits + 1 else 1;
          SetDedupe(svc.store, DedupeRecord(key.value, nowMs, nowMs + svc.dedupeWindowMs, hits));
      var event := LastEventRecord(
        EventId(digest, nowMs, status, reason, runReason, outputText, error, suppressed),
        nowMs, status, reason, runReason, outputText, error, suppressed);
      var store2 := store1.(counters := counters, lastEvent := Some(event));
      Ok((svc.(store := store2), IngestResult(event, counters, key.Some? && !suppressed, suppressed, key)))
  }

  /** What a successful ingest promises. */
  ghost predicate IngestPost(svc: Service, runResult: map<string, Json>, nowMs: int,
                             dedupeKey: string -> string, s: Service, res: IngestResult)
  {
    var status := Text.Strip(Field(runResult, "status"));
    var outputText := Field(runResult, "output_text");
    && status in Statuses
    && s.dedupeWindowMs == svc.dedupeWindowMs && s.store.enabled == svc.store.enabled
    && s.store.loadError == svc.store.loadError
    // a key only for a ran run with output
    && (res.dedupeKey.Some? <==> status == "ran" && outputText != "")
    && (res.dedupeKey.Some? ==> res.dedupeKey.value == dedupeKey(outputText))
    // suppressed exactly inside a live window; delivered exactly otherwise
    && (res.dedupeSuppressed <==> res.dedupeKey.Some? && Suppresses(svc, res.dedupeKey.value, nowMs))
    && (res.shouldDeliver <==> res.dedupeKey.Some? && !res.dedupeSuppressed)
    // counters: the status's own, plus deduped on suppression; the store keeps them
    && res.counters == (var c := Count(svc.store.counters, status);
                        if res.dedupeSuppressed then c.(deduped := c.deduped + 1) else c)
    && s.store.counters == res.counters
    // the dedupe record: rewritten for a keyed run, untouched otherwise
    && (res.dedupeKey.None? ==> s.store.dedupe == svc.store.dedupe)
    && (res.dedupeKey.Some? ==>
          var k := res.dedupeKey.value;
          && k in s.store.dedupe
          && s.store.dedupe == svc.store.dedupe[k := s.store.dedupe[k]]
          && s.store.dedupe[k].lastSeenMs == nowMs
          && s.store.dedupe[k].suppressUntilMs == nowMs + svc.dedupeWindowMs
          && s.store.dedupe[k].hits == (if k in svc.store.dedupe then svc.store.dedupe[k].hits + 1 else 1))
    // the last event echoes the input, stamped now
    && s.store.lastEvent == Some(res.event)
    && res.event.tsMs == nowMs && res.event.status == status
    && res.event.reason == Field(runResult, "reason") && res.event.runReason == Field(runResult, "run_reason")
    && res.event.outputText == outputText && res.event.error == Field(runResult, "error")
    && res.event.dedupeSuppressed == res.dedupeSuppressed
  }

  /** A run result whose fields are the given strings. */
  function RunResult(status: string, outputText: string): map<string, Json> {
    map["status" := JStr(status), "output_text" := JStr(outputText)]
  }

  /** With a zero window nothing is ever suppressed: every ran output is delivered. */
  lemma ZeroWindowNeverSuppresses(svc: Service, runResult: map<string, Json>, nowMs: int,
                                  dedupeKey: string -> string, digest: string -> string)
    requires svc.dedupeWindowMs == 0
    requires Ingest(svc, runResult, nowMs, dedupeKey, digest).Ok?
    ensures var res := Ingest(svc, runResult, nowMs, dedupeKey, digest).value.1;
            !res.dedupeSuppressed && (res.shouldDeliver <==> res.dedupeKey.Some?)
  {
  }

  /** The same ran output twice, the second time before the first one's window closes:
      the first is delivered if new, the second suppressed and counted as deduped. */
  lemma RepeatWithinWindowSuppressed(svc: Service, output: string, t1: int, t2: int,
                                     dedupeKey: string -> string, digest: string -> string)
    requires svc.dedupeWindowMs > 0 && output != ""
    requires t2 < t1 + svc.dedupeWindowMs
    ensures var first := Ingest(svc, RunResult("ran", output), t1, dedupeKey, digest);
            && first.Ok?
            && var second := Ingest(first.value.0, RunResult("ran", output), t2, dedupeKey, digest);
            && second.Ok?
            && second.value.1.dedupeSuppressed && !second.value.1.shouldDeliver
            && second.value.1.counters.deduped == first.value.1.counters.deduped + 1
            && second.value.0.store.dedupe[dedupeKey(output)].hits == first.value.0.store.dedupe[dedupeKey(output)].hits + 1
  {
    var rr := RunResult("ran", output);
    assert Field(rr, "status") == "ran" && Field(rr, "output_text") == output;
    assert Text.Strip("ran") == "ran" by { assert Text.NoEdgeSpace("ran"); }
  }

  /** An ingest with a status that is not ran leaves the dedupe records alone and
      delivers nothing. */
  lemma OnlyRanIsDeduped(svc: Service, runResult: map<string, Json>, nowMs: int,
                         dedupeKey: string -> string, digest: string -> string)
    requires Ingest(svc, runResult, nowMs, dedupeKey, digest).Ok?
    requires Text.Strip(Field(runResult, "status")) != "ran"
    ensures var (s, res) := Ingest(svc, runResult, nowMs, dedupeKey, digest).value;
            s.store.dedupe == svc.store.dedupe && !res.shouldDeliver && !res.dedupeSuppressed
            && res.counters.ran == svc.store.counters.ran
  {
  }
}
