/** The heartbeat operator API's pure helpers: the operator contract stamped on every
    payload and its `ok` inference, run-result normalisation, the bounded ingest-decision
    history, store backend selection, system-event draining for a run, and `wake`.
    Payloads are JSON-like mappings. */
module HeartbeatApi {
  import opened Wrappers
  import Text
  import Numbers
  import opened JsonValue
  import SystemEvents
  import HeartbeatEvents
  import HeartbeatScheduler
  import WakeQueue

  type Payload = map<string, Json>

  const OperatorContract := "heartbeat.operator"
  const OperatorContractVersion := "1.0"
  const SystemEventDrainLimit := 20
  const IngestDecisionHistoryLimit := 20

  /** `payload.setdefault(key, value)`. */
  function SetDefault(p: Payload, key: string, value: Json): (r: Payload)
    ensures key in r && (key in p ==> r[key] == p[key]) && (key !in p ==> r[key] == value)
    ensures r.Keys == p.Keys + {key}
    ensures forall k :: k in p ==> r[k] == p[k]
  {
    if key in p then p else p[key := value]
  }

  // ---------------------------------------------------------------------------
  // _infer_ok / _with_operator_contract
  // ---------------------------------------------------------------------------

  const FailedStatuses := {"failed", "error", "not-running", "degraded"}

  /** An error code other than None or "". */
  predicate HasErrorCode(p: Payload) {
    "error_code" in p && p["error_code"] != JNull && p["error_code"] != JStr("")
  }

  /** The status as `_infer_ok` reads it: stringified, trimmed, lower-cased. */
  function StatusText(p: Payload): string {
    Text.Lower(Text.Strip(if "status" in p then PyStr(p["status"]) else ""))
  }

  /** `_infer_ok`: false exactly for an error code or a failing status. */
  function InferOk(p: Payload): (ok: bool)
    ensures !ok <==> HasErrorCode(p) || StatusText(p) in FailedStatuses
  {
    if HasErrorCode(p) then false
    else StatusText(p) !in FailedStatuses
  }

  const ContractKeys := {"contract", "contract_version", "contract_metadata"}

  function ContractMetadata(): Json {
    JObject(map["name" := JStr(OperatorContract), "version" := JStr(OperatorContractVersion)])
  }

  /** The three contract keys set. */
  function Stamp(p: Payload): (r: Payload)
    ensures r.Keys == p.Keys + ContractKeys
    ensures r["contract"] == JStr(OperatorContract) && r["contract_version"] == JStr(OperatorContractVersion)
    ensures r["contract_metadata"] == ContractMetadata()
    ensures forall k :: k in p && k !in ContractKeys ==> r[k] == p[k]
  {
    p["contract" := JStr(OperatorContract)]["contract_version" := JStr(OperatorContractVersion)]
     ["contract_metadata" := ContractMetadata()]
  }

  /** `error_code` and `error_reason` defaulted to None. */
  function DefaultCodes(p: Payload): (r: Payload)
    ensures r.Keys == p.Keys + {"error_code", "error_reason"}
    ensures forall k :: k in p ==> r[k] == p[k]
    ensures "error_code" !in p ==> r["error_code"] == JNull
    ensures "error_reason" !in p ==> r["error_reason"] == JNull
  {
    SetDefault(SetDefault(p, "error_code", JNull), "error_reason", JNull)
  }

  /** The keys `_with_operator_contract` defaults are none of the contract's keys. */
  lemma ContractKeysApart()
    ensures "error_code" !in ContractKeys && "error_reason" !in ContractKeys && "ok" !in ContractKeys
    ensures "status" !in ContractKeys && "ok" != "error_code" && "ok" != "error_reason"
  {
    assert "contract"[0] == 'c' && "contract_version"[0] == 'c' && "contract_metadata"[0] == 'c';
    assert "error_code"[0] == 'e' && "error_reason"[0] == 'e' && "ok"[0] == 'o' && "status"[0] == 's';
  }

  /** Neither step changes what `_infer_ok` reads. */
  lemma StampKeepsOk(p: Payload)
    ensures InferOk(DefaultCodes(Stamp(p))) == InferOk(p)
  {
    var q := DefaultCodes(Stamp(p));
    ContractKeysApart();
    assert StatusText(q) == StatusText(p);
    assert HasErrorCode(q) == HasErrorCode(p);
  }

  /** `_with_operator_contract`: the contract name, version and metadata always stamped;
      `error_code`, `error_reason` defaulted to None; an existing `ok` kept, else inferred. */
  function WithOperatorContract(p: Payload): (r: Payload)
    ensures r.Keys == p.Keys + ContractKeys + {"error_code", "error_reason", "ok"}
    ensures r["contract"] == JStr(OperatorContract) && r["contract_version"] == JStr(OperatorContractVersion)
    ensures r["contract_metadata"] == ContractMetadata()
    ensures forall k :: k in p && k !in ContractKeys ==> r[k] == p[k]
    ensures "error_code" !in p ==> r["error_code"] == JNull
    ensures "error_reason" !in p ==> r["error_reason"] == JNull
    ensures "ok" !in p ==> r["ok"] == JBool(InferOk(p))
  {
    var q := DefaultCodes(Stamp(p));
    StampKeepsOk(p);
    StampThenDefault(p);
    SetDefault(q, "ok", JBool(InferOk(q)))
  }

  /** The payload after stamping and defaulting the error keys, before `ok`. */
  lemma StampThenDefault(p: Payload)
    ensures var q := DefaultCodes(Stamp(p));
            && q.Keys == p.Keys + ContractKeys + {"error_code", "error_reason"}
            && "ok" !in q.Keys - p.Keys
            && q["contract"] == JStr(OperatorContract) && q["contract_version"] == JStr(OperatorContractVersion)
            && q["contract_metadata"] == ContractMetadata()
            && (forall k :: k in p && k !in ContractKeys ==> q[k] == p[k])
            && ("error_code" !in p ==> q["error_code"] == JNull)
            && ("error_reason" !in p ==> q["error_reason"] == JNull)
  {
    ContractKeysApart();
  }

  /** Stamping twice is stamping once. */
  lemma WithOperatorContractIdempotent(p: Payload)
    ensures WithOperatorContract(WithOperatorContract(p)) == WithOperatorContract(p)
  {
    var r := WithOperatorContract(p);
    StampFixed(r);
    assert DefaultCodes(r) == r;
  }

  /** A payload that already carries the contract keys is stamped into itself. */
  lemma StampFixed(q: Payload)
    requires "contract" in q && q["contract"] == JStr(OperatorContract)
    requires "contract_version" in q && q["contract_version"] == JStr(OperatorContractVersion)
    requires "contract_metadata" in q && q["contract_metadata"] == ContractMetadata()
    ensures Stamp(q) == q
  {
    assert q["contract" := JStr(OperatorContract)] == q;
    assert q["contract_version" := JStr(OperatorContractVersion)] == q;
  }

  // ---------------------------------------------------------------------------
  // _normalize_run_result
  // ---------------------------------------------------------------------------

  const RunResultKeys := {"status", "reason", "output_text", "error", "run_reason", "error_code", "error_reason"}

  /** The value `_normalize_run_result` fills in for a missing key. */
  function RunResultDefault(key: string, runReason: string): Json {
    if key == "status" then JStr("ran")
    else if key == "reason" then JStr("delivered")
    else if key == "run_reason" then JStr(runReason)
    else if key == "error_code" || key == "error_reason" then JNull
    else JStr("")
  }

  /** The chain of `setdefault` calls: present keys kept, missing ones defaulted. */
  function FillRunResult(p: Payload, runReason: string): (r: Payload)
    ensures r.Keys == p.Keys + RunResultKeys
    ensures forall k :: k in p ==> r[k] == p[k]
    ensures forall k :: k in RunResultKeys && k !in p ==> r[k] == RunResultDefault(k, runReason)
  {
    map k | k in p.Keys + RunResultKeys :: if k in p then p[k] else RunResultDefault(k, runReason)
  }

  /** `_normalize_run_result`: a dict keeps every key it has and gains only the missing
      ones; anything else is a delivered run whose output is its `str()`. */
  function NormalizeRunResult(raw: Json, runReason: string): (r: Payload)
    ensures RunResultKeys <= r.Keys
    ensures raw.JObject? ==> r.Keys == raw.fields.Keys + RunResultKeys
                             && forall k :: k in raw.fields ==> r[k] == raw.fields[k]
    ensures raw.JObject? && "status" !in raw.fields ==> r["status"] == JStr("ran")
    ensures raw.JObject? && "run_reason" !in raw.fields ==> r["run_reason"] == JStr(runReason)
    ensures !raw.JObject? ==> r["status"] == JStr("ran") && r["reason"] == JStr("delivered")
                              && r["output_text"] == JStr(PyStr(raw)) && r["error"] == JStr("")
                              && r["run_reason"] == JStr(runReason) && r["error_code"] == JNull
  {
    // A non-mapping result starts from status `ran`, reason `delivered`, the run reason,
    // its string form and an empty error; all but the string form are the very defaults
    // the `setdefault` chain fills in, so only the output is seeded here.
    var base := if raw.JObject? then raw.fields else map["output_text" := JStr(PyStr(raw))];
    FillRunResult(base, runReason)
  }

  /** Normalising an already normalised result changes nothing. */
  lemma NormalizeRunResultIdempotent(raw: Json, runReason: string, other: string)
    ensures var p := NormalizeRunResult(raw, runReason);
            NormalizeRunResult(JObject(p), other) == p
  {
  }

  // ---------------------------------------------------------------------------
  // _IngestDecisionDiagnostics
  // ---------------------------------------------------------------------------

  datatype DecisionEntry = DecisionEntry(
    source: string, eventId: string, tsMs: int, status: string, reason: string, runReason: string,
    shouldDeliver: bool, dedupeSuppressed: bool, dedupeKey: Option<string>)

  /** The bounded history and the counters by name. */
  datatype Diagnostics = Diagnostics(maxEntries: nat, entries: seq<DecisionEntry>, counters: map<string, int>)

  const CounterNames := {"total", "manual", "scheduler", "delivered", "suppressed"}

  predicate ValidDiagnostics(d: Diagnostics) {
    d.maxEntries >= 1 && |d.entries| <= d.maxEntries && CounterNames <= d.counters.Keys
  }

  function NewDiagnostics(maxEntries: int): (d: Diagnostics)
    ensures ValidDiagnostics(d) && d.entries == []
    ensures d.maxEntries == if maxEntries < 1 then 1 else maxEntries
    ensures d.counters == map["total" := 0, "manual" := 0, "scheduler" := 0, "delivered" := 0, "suppressed" := 0]
  {
    Diagnostics(if maxEntries < 1 then 1 else maxEntries, [],
                map["total" := 0, "manual" := 0, "scheduler" := 0, "delivered" := 0, "suppressed" := 0])
  }

  /** `str(run_result.get(key, ""))`. */
  function FieldText(p: Payload, key: string): string {
    if key in p then PyStr(p[key]) else ""
  }

  /** `counters[key] = counters.get(key, 0) + 1`. */
  function Bump(c: map<string, int>, key: string): (r: map<string, int>)
    ensures r.Keys == c.Keys + {key}
    ensures r[key] == (if key in c then c[key] else 0) + 1
    ensures forall k :: k in c && k != key ==> r[k] == c[k]
  {
    c[key := (if key in c then c[key] else 0) + 1]
  }

  /** The counters after one decision from a manual or scheduled run. */
  function Tally(c: map<string, int>, source: string, delivered: bool, suppressed: bool): (r: map<string, int>)
    requires CounterNames <= c.Keys && source in {"manual", "scheduler"}
    ensures r.Keys == c.Keys
    ensures r["total"] == c["total"] + 1 && r[source] == c[source] + 1
    ensures r["delivered"] == c["delivered"] + (if delivered then 1 else 0)
    ensures r["suppressed"] == c["suppressed"] + (if suppressed then 1 else 0)
    ensures forall k :: k in c && k !in {"total", source, "delivered", "suppressed"} ==> r[k] == c[k]
  {
    var c1 := Bump(Bump(c, "total"), source);
    var c2 := if delivered then Bump(c1, "delivered") else c1;
    if suppressed then Bump(c2, "suppressed") else c2
  }

  /** The counters after a decision from any source, `Tally` for the two real ones. */
  function TallyAny(c: map<string, int>, source: string, delivered: bool, suppressed: bool): (r: map<string, int>)
    requires CounterNames <= c.Keys
    ensures CounterNames <= r.Keys
    ensures source in {"manual", "scheduler"} ==> r == Tally(c, source, delivered, suppressed)
  {
    var c1 := Bump(Bump(c, "total"), source);
    var c2 := if delivered then Bump(c1, "delivered") else c1;
    if suppressed then Bump(c2, "suppressed") else c2
  }

  /** The newest entry records the decision: its source, the event, the run's status and
      the ingest verdict. */
  predicate Describes(e: DecisionEntry, source: string, runResult: Payload, ingest: HeartbeatEvents.IngestResult) {
    && e.source == source && e.eventId == ingest.event.eventId && e.tsMs == ingest.event.tsMs
    && e.status == FieldText(runResult, "status") && e.shouldDeliver == ingest.shouldDeliver
    && e.dedupeSuppressed == ingest.dedupeSuppressed && e.dedupeKey == ingest.dedupeKey
  }

  /** `deque(maxlen=max).append(e)`: the entry added at the end and the oldest one
      dropped once there are more than `max`. */
  function Push(entries: seq<DecisionEntry>, e: DecisionEntry, max: nat): (r: seq<DecisionEntry>)
    requires max >= 1 && |entries| <= max
    ensures |r| == if |entries| < max then |entries| + 1 else max
    ensures r == (entries + [e])[|entries| + 1 - |r|..]
    ensures r[|r| - 1] == e
  {
    var appended := entries + [e];
    if |appended| > max then appended[1..] else appended
  }

  /** `record`: the entry appended and the history cut to its newest `maxEntries`; the
      counters bumped: the total, the source's own, and delivered or suppressed as flagged. */
  function Record(d: Diagnostics, source: string, runResult: Payload, ingest: HeartbeatEvents.IngestResult): (r: Diagnostics)
    requires ValidDiagnostics(d)
    ensures ValidDiagnostics(r) && r.maxEntries == d.maxEntries
    ensures |r.entries| == if |d.entries| < d.maxEntries then |d.entries| + 1 else d.maxEntries
    ensures r.entries == (d.entries + [r.entries[|r.entries| - 1]])[|d.entries| + 1 - |r.entries|..]
    ensures Describes(r.entries[|r.entries| - 1], source, runResult, ingest)
    ensures source in {"manual", "scheduler"} ==>
              r.counters == Tally(d.counters, source, ingest.shouldDeliver, ingest.dedupeSuppressed)
  {
    var e := DecisionEntry(source, ingest.event.eventId, ingest.event.tsMs, FieldText(runResult, "status"),
                           FieldText(runResult, "reason"), FieldText(runResult, "run_reason"), ingest.shouldDeliver,
                           ingest.dedupeSuppressed, ingest.dedupeKey);
    Diagnostics(d.maxEntries, Push(d.entries, e, d.maxEntries),
                TallyAny(d.counters, source, ingest.shouldDeliver, ingest.dedupeSuppressed))
  }

  /** The counters stay consistent: every record is manual or scheduled, and is delivered
      or suppressed or neither, never both. */
  predicate CountersConsistent(c: map<string, int>)
    requires CounterNames <= c.Keys
  {
    && c["manual"] >= 0 && c["scheduler"] >= 0 && c["delivered"] >= 0 && c["suppressed"] >= 0
    && c["total"] == c["manual"] + c["scheduler"]
    && c["delivered"] + c["suppressed"] <= c["total"]
  }

  lemma RecordKeepsCountersConsistent(d: Diagnostics, source: string, runResult: Payload,
                                      ingest: HeartbeatEvents.IngestResult)
    requires ValidDiagnostics(d) && CountersConsistent(d.counters)
    requires source in {"manual", "scheduler"} && !(ingest.shouldDeliver && ingest.dedupeSuppressed)
    ensures CountersConsistent(Record(d, source, runResult, ingest).counters)
  {
    var c := d.counters;
    var r := Tally(c, source, ingest.shouldDeliver, ingest.dedupeSuppressed);
    assert Record(d, source, runResult, ingest).counters == r;
    if source == "manual" {
      assert r["scheduler"] == c["scheduler"];
    } else {
      assert r["manual"] == c["manual"];
    }
  }

  // ---------------------------------------------------------------------------
  // _drain_formatted_system_events
  // ---------------------------------------------------------------------------

  /** `_format_system_event`; `contextJson` stands for the compact, key-sorted `json.dumps`. */
  function FormatEvent(e: SystemEvents.SystemEvent, contextJson: map<string, string> -> string): string {
    "source=" + e.source + ";text=" + e.text + ";context=" + contextJson(e.context)
  }

  /** `_format_system_event_overflow`. */
  function OverflowMarker(dropped: nat): string {
    "source=system;text=[overflow dropped=" + Numbers.NatToString(dropped) + "];context={}"
  }

  /** The formatted events of a drain: all of them when there are at most 20, else the
      first 19 and a marker counting the rest. */
  function FormatDrained(drained: seq<SystemEvents.SystemEvent>, contextJson: map<string, string> -> string)
    : (r: seq<string>)
    ensures |r| <= SystemEventDrainLimit
    ensures |drained| <= SystemEventDrainLimit ==>
              |r| == |drained| && forall i :: 0 <= i < |r| ==> r[i] == FormatEvent(drained[i], contextJson)
    ensures |drained| > SystemEventDrainLimit ==>
              && |r| == SystemEventDrainLimit
              && (forall i :: 0 <= i < SystemEventDrainLimit - 1 ==> r[i] == FormatEvent(drained[i], contextJson))
              && r[SystemEventDrainLimit - 1] == OverflowMarker(|drained| - (SystemEventDrainLimit - 1))
  {
    var selected := if |drained| <= SystemEventDrainLimit then drained else drained[..SystemEventDrainLimit - 1];
    var formatted := seq(|selected|, i requires 0 <= i < |selected| => FormatEvent(selected[i], contextJson));
    if |drained| <= SystemEventDrainLimit then formatted
    else formatted + [OverflowMarker(|drained| - (SystemEventDrainLimit - 1))]
  }

  /** Draining a session's events for a run empties its queue, and every drained event is
      either formatted or counted in the overflow marker. */
  function DrainFormattedSystemEvents(bus: SystemEvents.Bus, sessionKey: string,
                                      contextJson: map<string, string> -> string)
    : (r: Result<(SystemEvents.Bus, seq<string>), string>)
    requires SystemEvents.ValidBus(bus)
    ensures sessionKey in bus.queues ==>
              && r.Ok?
              && sessionKey in r.value.0.queues && r.value.0.queues[sessionKey].items == []
              && r.value.1 == FormatDrained(bus.queues[sessionKey].items, contextJson)
    ensures r.Ok? ==> forall k :: k in bus.queues && k != sessionKey ==>
                        k in r.value.0.queues && r.value.0.queues[k] == bus.queues[k]
  {
    match SystemEvents.BusDrain(bus, sessionKey, None)
    case Err(e) => Err(e)
    case Ok((bus1, drained)) =>
      assert sessionKey in bus.queues ==> bus1 == SystemEvents.Replace(bus, sessionKey, SystemEvents.Drain(bus.queues[sessionKey], None).0);
      Ok((bus1, FormatDrained(drained, contextJson)))
  }

  // ---------------------------------------------------------------------------
  // _select_store_backend
  // ---------------------------------------------------------------------------

  /** The configuration as the backend selection sees it: a mapping, or a HeartbeatConfig,
      which has none of the keys involved. */
  datatype ConfigLike = MappingConfig(fields: Payload) | DataclassConfig

  datatype StoreKind = MemoryStore | JsonFileStore(path: string)

  /** The chosen store, and whether it is the current one reused. */
  datatype Selection = Selection(store: StoreKind, reused: bool)

  const DefaultStateFile := ".heartbeat/heartbeat_state.json"
  const MemoryAliases := {"", "memory", "in-memory", "in_memory"}
  const JsonAliases := {"json", "json-file", "json_file", "file"}

  /** `_config_state_path`: a non-blank string `state_path` of a mapping, trimmed. */
  function StatePath(config: ConfigLike): (r: Option<string>)
    ensures r.Some? <==> config.MappingConfig? && "state_path" in config.fields && config.fields["state_path"].JStr?
                         && !Text.IsBlank(config.fields["state_path"].s)
    ensures r.Some? ==> r.value == Text.Strip(config.fields["state_path"].s) && !Text.IsBlank(r.value)
  {
    if config.DataclassConfig? || "state_path" !in config.fields || !config.fields["state_path"].JStr? then None
    else
      var value := Text.Strip(config.fields["state_path"].s);
      if value == "" then None else Some(value)
  }

  function ConfigText(config: ConfigLike, key: string, default: string): string {
    if config.MappingConfig? && key in config.fields then PyStr(config.fields[key]) else default
  }

  function Keep(current: StoreKind, wanted: StoreKind): (r: Selection)
    ensures r.store == wanted && (r.reused <==> current == wanted)
  {
    if current == wanted then Selection(current, true) else Selection(wanted, false)
  }

  /** The store a backend name asks for; `file` is the trimmed `state_file`. */
  function StoreNamed(backend: string, file: string): (r: StoreKind)
    ensures backend !in JsonAliases ==> r == MemoryStore
    ensures backend in JsonAliases ==> r == JsonFileStore(if file == "" then DefaultStateFile else file)
  {
    if backend in MemoryAliases then MemoryStore
    else if backend in JsonAliases then JsonFileStore(if file == "" then DefaultStateFile else file)
    else MemoryStore
  }

  /** `_select_store_backend`. File paths are compared as written. */
  function SelectStoreBackend(config: ConfigLike, current: StoreKind): (r: Selection)
    // a non-blank state_path wins
    ensures StatePath(config).Some? ==> r.store == JsonFileStore(StatePath(config).value)
    // otherwise the backend name decides; an unknown one means memory
    ensures StatePath(config).None? ==>
              var backend := Text.Lower(Text.Strip(ConfigText(config, "state_backend", "memory")));
              var file := Text.Strip(ConfigText(config, "state_file", DefaultStateFile));
              && (backend !in JsonAliases ==> r.store == MemoryStore)
              && (backend in JsonAliases ==> r.store == JsonFileStore(if file == "" then DefaultStateFile else file))
    // the current store is reused exactly when it is the one selected
    ensures r.reused <==> current == r.store
  {
    match StatePath(config)
    case Some(path) => Keep(current, JsonFileStore(path))
    case None =>
      var backend := Text.Lower(Text.Strip(ConfigText(config, "state_backend", "memory")));
      var file := Text.Strip(ConfigText(config, "state_file", DefaultStateFile));
      Keep(current, StoreNamed(backend, file))
  }

  /** A HeartbeatConfig always selects memory. */
  lemma DataclassConfigSelectsMemory(current: StoreKind)
    ensures SelectStoreBackend(DataclassConfig, current).store == MemoryStore
  {
    var m := "memory";
    assert Text.NoEdgeSpace(m) && Text.Strip(m) == m;
    Text.LowerOfNoUpper(m);
  }

  // ---------------------------------------------------------------------------
  // wake
  // ---------------------------------------------------------------------------

  const WakeKeys := {"status", "accepted", "reason", "wake_reason", "queue_size", "replaced_reason",
                     "error", "error_code", "error_reason"}

  /** The value `_normalize_wake_payload` fills in for a missing key. */
  function WakeDefault(key: string, wakeReason: string): Json {
    if key == "status" then JStr("accepted")
    else if key == "accepted" then JBool(true)
    else if key == "reason" || key == "wake_reason" then JStr(wakeReason)
    else if key == "queue_size" then JInt(0)
    else if key == "error" then JStr("")
    else JNull
  }

  /** The `setdefault` calls of `_normalize_wake_payload`. */
  function FillWake(p: Payload, wakeReason: string): (r: Payload)
    ensures r.Keys == p.Keys + WakeKeys
    ensures forall k :: k in p ==> r[k] == p[k]
    ensures forall k :: k in WakeKeys && k !in p ==> r[k] == WakeDefault(k, wakeReason)
  {
    map k | k in p.Keys + WakeKeys :: if k in p then p[k] else WakeDefault(k, wakeReason)
  }

  /** Filling in a status-carrying payload does not change whether it is ok. */
  lemma FillWakeKeepsOk(p: Payload, wakeReason: string)
    ensures "status" in p ==> InferOk(FillWake(p, wakeReason)) == InferOk(p)
  {
    var f := FillWake(p, wakeReason);
    assert "status" in p ==> StatusText(f) == StatusText(p);
    assert "error_code" !in p ==> f["error_code"] == JNull;
  }

  /** The wake keys and the contract's keys are apart, and neither holds "ok". */
  lemma WakeKeysApart(wakeReason: string)
    ensures "error_code" in WakeKeys && "error_code" !in ContractKeys
    ensures "ok" !in WakeKeys && "ok" !in ContractKeys
    ensures WakeDefault("error_code", wakeReason) == JNull
    ensures "status" !in ContractKeys && "accepted" !in ContractKeys
  {
    assert |"error_code"| == 10 && |"ok"| == 2;
    assert "error_code"[0] != "queue_size"[0];
  }

  /** `_normalize_wake_payload`: present keys kept, missing ones defaulted, then the
      operator contract. */
  function NormalizeWakePayload(p: Payload, wakeReason: string): (r: Payload)
    ensures forall k :: k in p && k !in ContractKeys ==> k in r && r[k] == p[k]
    ensures "error_code" in r && ("error_code" !in p ==> r["error_code"] == JNull)
    ensures "ok" in r && ("status" in p && "ok" !in p ==> r["ok"] == JBool(InferOk(p)))
  {
    var filled := FillWake(p, wakeReason);
    FillWakeKeepsOk(p, wakeReason);
    var r := WithOperatorContract(filled);
    WakeKeysApart(wakeReason);
    assert r["error_code"] == filled["error_code"];
    r
  }

  function OptText(o: Option<string>): Json {
    if o.Some? then JStr(o.value) else JNull
  }

  /** The scheduler's answer as the dict it returns. */
  function ResponsePayload(resp: HeartbeatScheduler.WakeResponse): (r: Payload)
    ensures "status" in r && r["status"] == JStr(resp.status)
    ensures "accepted" in r && r["accepted"] == JBool(resp.accepted)
    ensures "error_code" !in r && "ok" !in r
  {
    map["status" := JStr(resp.status), "accepted" := JBool(resp.accepted), "reason" := JStr(resp.reason),
        "queue_size" := JInt(resp.queueSize), "replaced_reason" := OptText(resp.replacedReason)]
  }

  /** The statuses the scheduler answers with are not failing ones. */
  lemma SchedulerStatusOk(status: string)
    requires status in {"accepted", "ignored"}
    ensures Text.Lower(Text.Strip(status)) == status && status !in FailedStatuses
  {
    if status == "accepted" { PlainStatus("accepted"); } else { PlainStatus("ignored"); }
  }

  /** A lower-case word that starts unlike every failing status reads as itself and is
      not a failing one. */
  lemma PlainStatus(s: string)
    requires |s| > 0 && forall i :: 0 <= i < |s| ==> 'a' <= s[i] <= 'z'
    requires s[0] != 'f' && s[0] != 'e' && s[0] != 'n' && s[0] != 'd'
    ensures Text.Lower(Text.Strip(s)) == s && s !in FailedStatuses
  {
    assert 'a' <= s[0] <= 'z' && 'a' <= s[|s| - 1] <= 'z';
    assert Text.NoEdgeSpace(s);
    Text.LowerOfNoUpper(s);
    NotFailing(s);
  }

  /** A word whose first letter starts no failing status is not one. */
  lemma NotFailing(s: string)
    requires |s| > 0 && s[0] != 'f' && s[0] != 'e' && s[0] != 'n' && s[0] != 'd'
    ensures s !in FailedStatuses
  {
    assert "failed"[0] == 'f' && "error"[0] == 'e' && "not-running"[0] == 'n' && "degraded"[0] == 'd';
  }

  /** A scheduler answer, normalised: as accepted as the scheduler says, without an error,
      and ok. */
  function SchedulerAnswer(resp: HeartbeatScheduler.WakeResponse, wakeReason: string): (r: Payload)
    requires resp.status in {"accepted", "ignored"}
    ensures "accepted" in r && r["accepted"] == JBool(resp.accepted)
    ensures "status" in r && r["status"] == JStr(resp.status)
    ensures "error_code" in r && r["error_code"] == JNull
    ensures "ok" in r && r["ok"] == JBool(true)
  {
    var p := ResponsePayload(resp);
    WakeKeysApart(wakeReason);
    SchedulerStatusOk(resp.status);
    assert StatusText(p) == Text.Lower(Text.Strip(resp.status));
    assert InferOk(p);
    NormalizeWakePayload(p, wakeReason)
  }

  /** `get_status().running`: a scheduler whose thread has died is marked not running. */
  function Observe(s: HeartbeatScheduler.Sched, threadAlive: bool): (r: HeartbeatScheduler.Sched)
    requires HeartbeatScheduler.ValidSched(s)
    ensures HeartbeatScheduler.ValidSched(r) && r == s.(running := r.running)
    ensures r.running <==> s.running && threadAlive
  {
    HeartbeatScheduler.GetStatus(s, threadAlive).0
  }

  /** The answer when no scheduler runs: not accepted, runtime-not-started, not ok. */
  function NotRunningAnswer(reason: string): (r: Payload)
    ensures "status" in r && r["status"] == JStr("not-running")
    ensures "accepted" in r && r["accepted"] == JBool(false)
    ensures "error_code" in r && r["error_code"] == JStr("runtime-not-started")
    ensures "ok" in r && r["ok"] == JBool(false)
  {
    var p := map k | k in WakeKeys :: NotRunningField(k, reason);
    assert p["status"] == JStr("not-running") && p["accepted"] == JBool(false);
    assert p["error_code"] == JStr("runtime-not-started");
    WakeKeysApart(reason);
    FailedAnswer(p);
    WithOperatorContract(p)
  }

  /** A payload with an error code and no `ok` keeps its status, acceptance and error code
      through the operator contract, and is not ok. */
  lemma FailedAnswer(p: Payload)
    requires "status" in p && "accepted" in p && "ok" !in p && HasErrorCode(p)
    ensures var r := WithOperatorContract(p);
            && "status" in r && r["status"] == p["status"]
            && "accepted" in r && r["accepted"] == p["accepted"]
            && "error_code" in r && r["error_code"] == p["error_code"]
            && "ok" in r && r["ok"] == JBool(false)
  {
    WakeKeysApart("");
  }

  /** The nine fields of the not-running answer, by key. */
  function NotRunningField(key: string, reason: string): Json {
    match key
    case "error_code" => JStr("runtime-not-started")
    case "status" => JStr("not-running")
    case "accepted" => JBool(false)
    case "error_reason" => JStr("runtime-not-started")
    case "reason" => JStr(reason)
    case "wake_reason" => JStr(reason)
    case "queue_size" => JInt(0)
    case "error" => JStr("")
    case _ => JNull
  }

  /** The answer when the scheduler rejects the reason: failed, not accepted, not ok. */
  function InvalidReasonAnswer(reason: string, error: string): (r: Payload)
    ensures "status" in r && r["status"] == JStr("failed")
    ensures "accepted" in r && r["accepted"] == JBool(false)
    ensures "error_code" in r && r["error_code"] == JStr("invalid-wake-reason")
    ensures "ok" in r && r["ok"] == JBool(false)
  {
    var p := map k | k in WakeKeys :: InvalidReasonField(k, reason, error);
    assert p["status"] == JStr("failed") && p["accepted"] == JBool(false);
    assert p["error_code"] == JStr("invalid-wake-reason");
    WakeKeysApart(reason);
    FailedAnswer(p);
    WithOperatorContract(p)
  }

  /** The nine fields of the invalid-reason answer, by key. */
  function InvalidReasonField(key: string, reason: string, error: string): Json {
    match key
    case "error_code" => JStr("invalid-wake-reason")
    case "status" => JStr("failed")
    case "accepted" => JBool(false)
    case "error_reason" => JStr("invalid-wake-reason")
    case "reason" => JStr("invalid-wake-reason")
    case "wake_reason" => JStr(reason)
    case "queue_size" => JInt(0)
    case "error" => JStr(error)
    case _ => JNull
  }

  predicate Running(handle: Option<HeartbeatScheduler.Sched>, threadAlive: bool) {
    handle.Some? && handle.value.running && threadAlive
  }

  /** `wake`: through the scheduler when one is running, else a not-running answer. A
      valid reason gets the wake queue's decision and is ok; anything else is not ok. */
  function ApiWake(handle: Option<HeartbeatScheduler.Sched>, threadAlive: bool, reason: string, nowMs: int)
    : (r: (Option<HeartbeatScheduler.Sched>, Payload))
    requires handle.Some? ==> HeartbeatScheduler.ValidSched(handle.value)
    ensures r.0.Some? <==> handle.Some?
    ensures r.0.Some? ==> HeartbeatScheduler.ValidSched(r.0.value)
    ensures "ok" in r.1 && "accepted" in r.1 && "status" in r.1 && "error_code" in r.1
    // no running scheduler
    ensures !Running(handle, threadAlive) ==>
              && r.1 == NotRunningAnswer(reason)
              && (handle.Some? ==> r.0 == Some(Observe(handle.value, threadAlive)))
    // a running one and a reason the wake queue rejects
    ensures Running(handle, threadAlive) && !WakeQueue.IsValidReason(reason) ==>
              r == (handle, InvalidReasonAnswer(reason, WakeQueue.InvalidReason(reason)))
    // a running one and a valid reason
    ensures Running(handle, threadAlive) && WakeQueue.IsValidReason(reason) ==>
              var (slot, d) := WakeQueue.RequestWake(handle.value.wake, reason, nowMs).value;
              && r.0.value == handle.value.(wake := slot)
              && r.1["accepted"] == JBool(d.accepted) && r.1["ok"] == JBool(true) && r.1["error_code"] == JNull
  {
    match handle
    case None => (None, NotRunningAnswer(reason))
    case Some(s) =>
      var observed := Observe(s, threadAlive);
      if !observed.running then (Some(observed), NotRunningAnswer(reason))
      else match HeartbeatScheduler.Wake(observed, reason, nowMs)
        case Err(e) => (Some(observed), InvalidReasonAnswer(reason, e))
        case Ok((s1, resp)) => (Some(s1), SchedulerAnswer(resp, reason))
  }
}
