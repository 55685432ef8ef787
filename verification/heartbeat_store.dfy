/** The heartbeat state store: enabled flag, event counters, last event and dedupe
    records; the JSON payload the file-backed store writes, and the lenient decoding it
    applies when loading one back. The file itself is a value: absent, unreadable,
    not JSON, or a decoded JSON document. */
module HeartbeatStore {
  import opened Wrappers
  import Text
  import opened JsonValue

  datatype EventCounters = EventCounters(ran: int, skipped: int, failed: int, deduped: int)

  const ZeroCounters := EventCounters(0, 0, 0, 0)

  datatype LastEventRecord = LastEventRecord(
    eventId: string, tsMs: int, status: string, reason: string, runReason: string,
    outputText: string, error: string, dedupeSuppressed: bool)

  datatype DedupeRecord = DedupeRecord(key: string, lastSeenMs: int, suppressUntilMs: int, hits: int)

  datatype Snapshot = Snapshot(
    enabled: bool, lastEvent: Option<LastEventRecord>, counters: EventCounters,
    dedupe: map<string, DedupeRecord>)

  /** The store's state; `loadError` is only ever set by a file-backed store's load. */
  datatype Store = Store(
    enabled: bool, lastEvent: Option<LastEventRecord>, counters: EventCounters,
    dedupe: map<string, DedupeRecord>, loadError: Option<string>)

  function SnapshotOf(s: Store): Snapshot {
    Snapshot(s.enabled, s.lastEvent, s.counters, s.dedupe)
  }

  function StoreOf(snap: Snapshot): Store {
    Store(snap.enabled, snap.lastEvent, snap.counters, snap.dedupe, None)
  }

  /** A fresh store: enabled, zero counters, no last event, no dedupe records. */
  function NewStore(): (s: Store)
    ensures s.enabled && s.counters == ZeroCounters && s.lastEvent.None? && s.dedupe == map[]
    ensures LoadWarning(s).None?
  {
    Store(true, None, ZeroCounters, map[], None)
  }

  /** `get_load_warning`. */
  function LoadWarning(s: Store): (r: Option<string>)
    ensures r.None? <==> s.loadError.None?
    ensures r.Some? ==> r.value == "persistent-state-load-warning: " + s.loadError.value
  {
    match s.loadError
    case None => None
    case Some(e) => Some("persistent-state-load-warning: " + e)
  }

  /** `set_enabled`: the previous flag, and the store with the new one. */
  function SetEnabled(s: Store, enabled: bool): (r: (Store, bool))
    ensures r.1 == s.enabled && r.0.enabled == enabled
    ensures SnapshotOf(r.0).(enabled := s.enabled) == SnapshotOf(s)
  {
    (s.(enabled := enabled), s.enabled)
  }

  /** Toggling twice restores the store and reports the intermediate flag. */
  lemma SetEnabledRestores(s: Store, e: bool)
    ensures var (s1, _) := SetEnabled(s, e);
            var (s2, prev) := SetEnabled(s1, s.enabled);
            s2 == s && prev == e
  {
  }

  function GetDedupe(s: Store, key: string): (r: Option<DedupeRecord>)
    ensures r.Some? <==> key in s.dedupe
    ensures r.Some? ==> r.value == s.dedupe[key]
  {
    if key in s.dedupe then Some(s.dedupe[key]) else None
  }

  /** `set_dedupe`: stored under the record's own key. */
  function SetDedupe(s: Store, rec: DedupeRecord): (r: Store)
    ensures GetDedupe(r, rec.key) == Some(rec)
    ensures forall k :: k != rec.key ==> GetDedupe(r, k) == GetDedupe(s, k)
    ensures SnapshotOf(r).(dedupe := s.dedupe) == SnapshotOf(s)
  {
    s.(dedupe := s.dedupe[rec.key := rec])
  }

  /** A later record for a key replaces the earlier one entirely. */
  lemma SetDedupeReplaces(s: Store, a: DedupeRecord, b: DedupeRecord)
    requires a.key == b.key
    ensures SetDedupe(SetDedupe(s, a), b) == SetDedupe(s, b)
  {
  }

  predicate Expired(rec: DedupeRecord, nowMs: int) {
    rec.suppressUntilMs <= nowMs
  }

  /** `prune_dedupe`: removes exactly the records whose window has closed by `nowMs`, and
      reports how many went. */
  function PruneDedupe(s: Store, nowMs: int): (r: (Store, nat))
    ensures forall k :: k in r.0.dedupe <==> k in s.dedupe && !Expired(s.dedupe[k], nowMs)
    ensures forall k :: k in r.0.dedupe ==> r.0.dedupe[k] == s.dedupe[k]
    ensures r.1 == |set k | k in s.dedupe && Expired(s.dedupe[k], nowMs)|
    ensures |r.0.dedupe| + r.1 == |s.dedupe|
    ensures SnapshotOf(r.0).(dedupe := s.dedupe) == SnapshotOf(s)
  {
    var kept := map k | k in s.dedupe && !Expired(s.dedupe[k], nowMs) :: s.dedupe[k];
    var expired := set k | k in s.dedupe && Expired(s.dedupe[k], nowMs);
    assert s.dedupe.Keys == kept.Keys + expired && kept.Keys !! expired;
    assert |kept| == |kept.Keys|;
    (s.(dedupe := kept), |expired|)
  }

  /** Pruning again at the same time removes nothing. */
  lemma PruneIdempotent(s: Store, nowMs: int)
    ensures var (s1, _) := PruneDedupe(s, nowMs);
            PruneDedupe(s1, nowMs) == (s1, 0)
  {
    var (s1, _) := PruneDedupe(s, nowMs);
    var (s2, n) := PruneDedupe(s1, nowMs);
    assert (set k | k in s1.dedupe && Expired(s1.dedupe[k], nowMs)) == {};
    assert s2.dedupe == s1.dedupe;
  }

  // ---------------------------------------------------------------------------
  // Coercion of a decoded payload
  // ---------------------------------------------------------------------------

  /** `_coerce_bool`: only a JSON boolean counts. */
  function CoerceBool(v: Json, default: bool): (r: bool)
    ensures v.JBool? ==> r == v.b
    ensures !v.JBool? ==> r == default
  {
    if v.JBool? then v.b else default
  }

  /** `_coerce_int`: only a JSON integer counts; booleans give the default. */
  function CoerceInt(v: Json, default: int): (r: int)
    ensures v.JInt? ==> r == v.i
    ensures !v.JInt? ==> r == default
  {
    if v.JInt? then v.i else default
  }

  /** `_coerce_str`: only a JSON string counts. */
  function CoerceStr(v: Json, default: string): (r: string)
    ensures v.JStr? ==> r == v.s
    ensures !v.JStr? ==> r == default
  {
    if v.JStr? then v.s else default
  }

  /** `_coerce_counters`: a non-object gives all zeros; each missing or non-integer field
      gives zero. */
  function CoerceCounters(v: Json): (r: EventCounters)
    ensures !v.JObject? ==> r == ZeroCounters
  {
    if !v.JObject? then ZeroCounters
    else EventCounters(CoerceInt(Get(v.fields, "ran"), 0), CoerceInt(Get(v.fields, "skipped"), 0),
                       CoerceInt(Get(v.fields, "failed"), 0), CoerceInt(Get(v.fields, "deduped"), 0))
  }

  /** `_coerce_last_event`: nothing unless an object with a non-empty string id and status. */
  function CoerceLastEvent(v: Json): (r: Option<LastEventRecord>)
    ensures r.Some? <==> v.JObject? && CoerceStr(Get(v.fields, "event_id"), "") != ""
                                    && CoerceStr(Get(v.fields, "status"), "") != ""
    ensures r.Some? ==> r.value.eventId != "" && r.value.status != ""
  {
    if !v.JObject? then None
    else
      var f := v.fields;
      var eventId := CoerceStr(Get(f, "event_id"), "");
      var status := CoerceStr(Get(f, "status"), "");
      if eventId == "" || status == "" then None
      else Some(LastEventRecord(
        eventId, CoerceInt(Get(f, "ts_ms"), 0), status, CoerceStr(Get(f, "reason"), ""),
        CoerceStr(Get(f, "run_reason"), ""), CoerceStr(Get(f, "output_text"), ""),
        CoerceStr(Get(f, "error"), ""), CoerceBool(Get(f, "dedupe_suppressed"), false)))
  }

  /** One entry of the dedupe object: skipped unless an object whose record key (its "key"
      field, defaulting to the entry's own key) is non-empty. */
  function CoerceDedupeEntry(key: string, raw: Json): (r: Option<DedupeRecord>)
    ensures r.Some? ==> r.value.key != ""
    ensures !raw.JObject? ==> r.None?
    ensures raw.JObject? && !Get(raw.fields, "key").JStr? ==> r.Some? == (key != "") && (r.Some? ==> r.value.key == key)
  {
    if !raw.JObject? then None
    else
      var f := raw.fields;
      var recordKey := CoerceStr(Get(f, "key"), key);
      if recordKey == "" then None
      else Some(DedupeRecord(recordKey, CoerceInt(Get(f, "last_seen_ms"), 0),
                             CoerceInt(Get(f, "suppress_until_ms"), 0), CoerceInt(Get(f, "hits"), 1)))
  }

  /** The dedupe entries taken in the order `keys`; a later entry with the same record key
      replaces an earlier one. */
  function CoerceEntries(fields: map<string, Json>, keys: seq<string>): (r: map<string, DedupeRecord>)
    ensures forall k :: k in r ==> k != "" && r[k].key == k
    ensures forall k :: k in r ==> exists i :: 0 <= i < |keys| && CoerceDedupeEntry(keys[i], Get(fields, keys[i])) == Some(r[k])
    decreases |keys|
  {
    if |keys| == 0 then map[]
    else
      var init := keys[..|keys| - 1];
      var acc := CoerceEntries(fields, init);
      var k := keys[|keys| - 1];
      assert forall i :: 0 <= i < |init| ==> init[i] == keys[i];
      match CoerceDedupeEntry(k, Get(fields, k))
      case None => acc
      case Some(rec) => acc[rec.key := rec]
  }

  /** `_coerce_dedupe_map`, visiting the entries in key order. */
  function CoerceDedupeMap(v: Json): (r: map<string, DedupeRecord>)
    ensures !v.JObject? ==> r == map[]
    ensures forall k :: k in r ==> k != "" && r[k].key == k
  {
    if !v.JObject? then map[] else CoerceEntries(v.fields, Text.SortSet(v.fields.Keys))
  }

  // ---------------------------------------------------------------------------
  // Encoding
  // ---------------------------------------------------------------------------

  function CountersPayload(c: EventCounters): Json {
    JObject(map["ran" := JInt(c.ran), "skipped" := JInt(c.skipped), "failed" := JInt(c.failed),
                "deduped" := JInt(c.deduped)])
  }

  function LastEventPayload(e: Option<LastEventRecord>): Json {
    match e
    case None => JNull
    case Some(ev) => JObject(map[
      "event_id" := JStr(ev.eventId), "ts_ms" := JInt(ev.tsMs), "status" := JStr(ev.status),
      "reason" := JStr(ev.reason), "run_reason" := JStr(ev.runReason),
      "output_text" := JStr(ev.outputText), "error" := JStr(ev.error),
      "dedupe_suppressed" := JBool(ev.dedupeSuppressed)])
  }

  function RecordPayload(rec: DedupeRecord): Json {
    JObject(map["key" := JStr(rec.key), "last_seen_ms" := JInt(rec.lastSeenMs),
                "suppress_until_ms" := JInt(rec.suppressUntilMs), "hits" := JInt(rec.hits)])
  }

  function DedupePayload(d: map<string, DedupeRecord>): (r: map<string, Json>)
    ensures r.Keys == d.Keys
  {
    map k | k in d :: RecordPayload(d[k])
  }

  /** `_snapshot_to_payload`. */
  function SnapshotPayload(snap: Snapshot): Json {
    JObject(map["enabled" := JBool(snap.enabled), "counters" := CountersPayload(snap.counters),
                "last_event" := LastEventPayload(snap.lastEvent), "dedupe" := JObject(DedupePayload(snap.dedupe))])
  }

  // ---------------------------------------------------------------------------
  // Loading
  // ---------------------------------------------------------------------------

  /** The state file as the loader finds it. */
  datatype StateFile = NoFile | Unreadable(ioError: string) | NotJson(jsonError: string) | Decoded(payload: Json)

  /** `_load_from_disk` on a fresh file-backed store: defaults unless the file holds a JSON
      object, with the reason recorded when the file exists but cannot be used. */
  function Load(f: StateFile): (s: Store)
    ensures !(f.Decoded? && f.payload.JObject?) ==> SnapshotOf(s) == SnapshotOf(NewStore())
    ensures f.NoFile? ==> s == NewStore()
    ensures f.Unreadable? ==> LoadWarning(s) == Some("persistent-state-load-warning: " + f.ioError)
    ensures f.NotJson? ==> LoadWarning(s) == Some("persistent-state-load-warning: " + f.jsonError)
    ensures f.Decoded? && !f.payload.JObject? ==>
              s.loadError == Some("invalid JSON payload type; expected object")
    ensures f.Decoded? && f.payload.JObject? ==> s.loadError.None?
  {
    match f
    case NoFile => NewStore()
    case Unreadable(e) => NewStore().(loadError := Some(e))
    case NotJson(e) => NewStore().(loadError := Some(e))
    case Decoded(payload) =>
      if !payload.JObject? then NewStore().(loadError := Some("invalid JSON payload type; expected object"))
      else
        var p := payload.fields;
        Store(CoerceBool(Get(p, "enabled"), true), CoerceLastEvent(Get(p, "last_event")),
              CoerceCounters(Get(p, "counters")), CoerceDedupeMap(Get(p, "dedupe")), None)
  }

  /** The snapshots the loader can restore: a last event with a non-empty id and status,
      and every dedupe record stored under its own non-empty key. */
  predicate Restorable(snap: Snapshot) {
    (snap.lastEvent.Some? ==> snap.lastEvent.value.eventId != "" && snap.lastEvent.value.status != "")
    && forall k :: k in snap.dedupe ==> k != "" && snap.dedupe[k].key == k
  }

  lemma CountersRoundTrip(c: EventCounters)
    ensures CoerceCounters(CountersPayload(c)) == c
  {
  }

  lemma LastEventRoundTrip(e: Option<LastEventRecord>)
    requires e.Some? ==> e.value.eventId != "" && e.value.status != ""
    ensures CoerceLastEvent(LastEventPayload(e)) == e
  {
  }

  lemma RecordRoundTrip(rec: DedupeRecord)
    requires rec.key != ""
    ensures CoerceDedupeEntry(rec.key, RecordPayload(rec)) == Some(rec)
  {
  }

  lemma EntriesStep(d: map<string, DedupeRecord>, keys: seq<string>)
    requires forall k :: k in d ==> k != "" && d[k].key == k
    requires |keys| > 0 && keys[|keys| - 1] in d
    ensures var k := keys[|keys| - 1];
            CoerceEntries(DedupePayload(d), keys) == CoerceEntries(DedupePayload(d), keys[..|keys| - 1])[k := d[k]]
  {
    var k := keys[|keys| - 1];
    assert Get(DedupePayload(d), k) == RecordPayload(d[k]);
    RecordRoundTrip(d[k]);
  }

  lemma RestrictExtend(d: map<string, DedupeRecord>, keys: seq<string>)
    requires |keys| > 0 && keys[|keys| - 1] in d
    ensures var k := keys[|keys| - 1];
            (map x | x in d && x in keys[..|keys| - 1] :: d[x])[k := d[k]] == map x | x in d && x in keys :: d[x]
  {
    var init, k := keys[..|keys| - 1], keys[|keys| - 1];
    assert keys == init + [k];
    assert forall x :: x in keys <==> x in init || x == k;
  }

  /** Decoding the encoded dedupe entries, in any order that lists each key, restores the
      records listed. */
  lemma {:induction false} EntriesRoundTrip(d: map<string, DedupeRecord>, keys: seq<string>)
    requires forall k :: k in d ==> k != "" && d[k].key == k
    requires forall i :: 0 <= i < |keys| ==> keys[i] in d
    ensures CoerceEntries(DedupePayload(d), keys) == map k | k in d && k in keys :: d[k]
    decreases |keys|
  {
    if |keys| > 0 {
      EntriesRoundTrip(d, keys[..|keys| - 1]);
      EntriesStep(d, keys);
      RestrictExtend(d, keys);
    }
  }

  lemma DedupeMapRoundTrip(d: map<string, DedupeRecord>)
    requires forall k :: k in d ==> k != "" && d[k].key == k
    ensures CoerceDedupeMap(JObject(DedupePayload(d))) == d
  {
    var keys := Text.SortSet(d.Keys);
    EntriesRoundTrip(d, keys);
    RestrictToAll(d, keys);
  }

  lemma RestrictToAll(d: map<string, DedupeRecord>, keys: seq<string>)
    requires forall k :: k in d ==> k in keys
    ensures (map k | k in d && k in keys :: d[k]) == d
  {
  }

  /** Writing a restorable snapshot and loading it back gives the same state and no
      warning. */
  lemma PayloadRoundTrip(snap: Snapshot)
    requires Restorable(snap)
    ensures Load(Decoded(SnapshotPayload(snap))) == StoreOf(snap)
  {
    PayloadFields(snap);
    CountersRoundTrip(snap.counters);
    LastEventRoundTrip(snap.lastEvent);
    DedupeMapRoundTrip(snap.dedupe);
  }

  /** The four fields of the snapshot payload. */
  lemma PayloadFields(snap: Snapshot)
    ensures SnapshotPayload(snap).JObject?
    ensures var p := SnapshotPayload(snap).fields;
            && Get(p, "enabled") == JBool(snap.enabled)
            && Get(p, "counters") == CountersPayload(snap.counters)
            && Get(p, "last_event") == LastEventPayload(snap.lastEvent)
            && Get(p, "dedupe") == JObject(DedupePayload(snap.dedupe))
  {
  }

  /** A record stored under an empty key does not survive a reload. */
  lemma EmptyKeyRecordLost(rec: DedupeRecord)
    requires rec.key == ""
    ensures CoerceDedupeEntry(rec.key, RecordPayload(rec)).None?
  {
  }
}
