/** The Telegram channel adapter: turns Telegram's at-least-once update feed into a
    resumable cursor.

    The adapter is a record threaded through transitions. It keeps three id sets
    (seen, pending acknowledgement, processed), a committed floor that is loaded
    from the cursor store at construction and persisted whenever it rises, and the
    `next_offset` sent with the next `getUpdates` call. The API's answer and the
    outcome of each write to the state file are inputs of the transitions. A
    ChannelRuntimeError is an `Err` carrying its message; the adapter's state
    changes made before it was raised are kept, as the Python object keeps them. */
module TelegramAdapter {
  import opened Wrappers
  import Text
  import opened JsonValue
  import Numbers
  import IntSets
  import Contracts
  import UpdateParser
  import CursorState
  import TelegramApi

  /** One entry of the diagnostics buffer. */
  datatype Diagnostic = Diagnostic(code: string, message: string, updateId: Option<string>)

  datatype Adapter = Adapter(
    /** The state file of the configured cursor store; None when there is no store. */
    store: Option<CursorState.Disk>,
    strict: bool,
    diagnostics: seq<Diagnostic>,
    seen: set<int>,
    pending: set<int>,
    processed: set<int>,
    floor: Option<int>,
    nextOffset: Option<int>)

  /** A transition's new state and what the call returned or raised. */
  datatype Step<T> = Step(state: Adapter, result: Result<T, string>)

  /** The adapter's invariant: the offset is the committed floor and every id
      awaiting acknowledgement has been seen. */
  predicate Inv(a: Adapter) {
    a.nextOffset == a.floor && a.pending <= a.seen
  }

  /** `_to_int_update_id` on a string id: `int(value.strip())`. */
  function ToIntUpdateId(s: string): Option<int> {
    Numbers.PyIntOfText(s)
  }

  // ---------------------------------------------------------------------------
  // State-store errors
  // ---------------------------------------------------------------------------

  function StateErrorMessage(operation: string, e: CursorState.CursorStateError): string {
    "cursor_state_" + operation + " failed: " + CursorState.Message(e)
  }

  /** `_handle_state_error`: record the diagnostic; raise only in strict mode. */
  function HandleStateError(a: Adapter, operation: string, e: CursorState.CursorStateError): (r: Step<()>)
    ensures |r.state.diagnostics| == |a.diagnostics| + 1
    ensures r.state == a.(diagnostics := a.diagnostics + [r.state.diagnostics[|a.diagnostics|]])
    ensures r.state.diagnostics[|a.diagnostics|].code == "cursor-state-" + operation + "-error"
    ensures r.state.diagnostics[|a.diagnostics|].message == StateErrorMessage(operation, e)
    ensures r.state.diagnostics[|a.diagnostics|].updateId.None?
    ensures r.result.Err? <==> a.strict
    ensures r.result.Err? ==> r.result.error == r.state.diagnostics[|a.diagnostics|].message
  {
    var message := StateErrorMessage(operation, e);
    var d := Diagnostic("cursor-state-" + operation + "-error", message, None);
    Step(a.(diagnostics := a.diagnostics + [d]), if a.strict then Err(message) else Ok(()))
  }

  // ---------------------------------------------------------------------------
  // Construction
  // ---------------------------------------------------------------------------

  /** `TelegramChannelAdapter(api, cursor_state_store=..., strict_state_io=...)`.
      `store` is None when no store is given, else the state file it reads. An
      `Err` means the constructor raised. */
  function Init(store: Option<CursorState.Disk>, strict: bool): (r: Step<()>)
    ensures Inv(r.state)
    ensures r.state.seen == {} && r.state.pending == {} && r.state.processed == {}
    ensures r.state.store == store && r.state.strict == strict
    ensures store.None? ==> r.result.Ok? && r.state.floor.None? && r.state.diagnostics == []
    // a stored floor is resumed from
    ensures (store.Some? && CursorState.Load(store.value).Ok?) ==>
              && r.result.Ok? && r.state.diagnostics == []
              && r.state.floor == (match CursorState.Load(store.value).value
                                   case Some(n) => Some(n as int)
                                   case None => None)
    // an unloadable floor is reported, and fatal only in strict mode
    ensures (store.Some? && CursorState.Load(store.value).Err?) ==>
              && r.state.floor.None?
              && |r.state.diagnostics| == 1
              && r.state.diagnostics[0].code == "cursor-state-load-error"
              && (r.result.Err? <==> strict)
  {
    var empty := Adapter(store, strict, [], {}, {}, {}, None, None);
    if store.None? then Step(empty, Ok(()))
    else Resume(empty, CursorState.Load(store.value))
  }

  /** `_load_committed_floor` on a fresh adapter: the loaded floor becomes both the
      floor and the offset; a load error is handled as a state error. */
  function Resume(a: Adapter, loaded: Result<Option<nat>, CursorState.CursorStateError>): (r: Step<()>)
    requires a.floor.None? && a.nextOffset.None? && a.diagnostics == []
    ensures Inv(r.state) <==> Inv(a)
    ensures r.state == a.(diagnostics := r.state.diagnostics, floor := r.state.floor, nextOffset := r.state.floor)
    ensures loaded.Ok? ==>
              && r.result.Ok? && r.state.diagnostics == []
              && r.state.floor == (match loaded.value case Some(n) => Some(n as int) case None => None)
    ensures loaded.Err? ==>
              && r.state.floor.None?
              && |r.state.diagnostics| == 1
              && r.state.diagnostics[0].code == "cursor-state-load-error"
              && (r.result.Err? <==> a.strict)
  {
    match loaded
    case Err(e) => HandleStateError(a, "load", e)
    case Ok(f) =>
      var floor: Option<int> := if f.Some? then Some(f.value as int) else None;
      Step(a.(floor := floor, nextOffset := floor), Ok(()))
  }

  // ---------------------------------------------------------------------------
  // Offset recomputation
  // ---------------------------------------------------------------------------

  /** The offset `_recompute_offset` computes: the oldest id awaiting
      acknowledgement, else one past the newest id seen, else the floor, and in
      every case at least the floor. */
  function Target(a: Adapter): (t: Option<int>)
    // never below the floor
    ensures a.floor.Some? ==> t.Some? && t.value >= a.floor.value
    // the oldest unacknowledged update, unless the floor is already past it
    ensures a.pending != {} ==>
              && t.Some?
              && (|| (t.value in a.pending && forall p :: p in a.pending ==> t.value <= p)
                  || (t == a.floor && exists p :: p in a.pending && p < a.floor.value))
    // with nothing pending, past every id seen
    ensures a.pending == {} && a.seen != {} ==>
              && t.Some?
              && (forall x :: x in a.seen ==> x < t.value)
              && (t.value - 1 in a.seen || t == a.floor)
    ensures a.pending == {} && a.seen == {} ==> t == a.floor
  {
    var candidate :=
      if a.pending != {} then Some(IntSets.Min(a.pending))
      else if a.seen != {} then Some(IntSets.Max(a.seen) + 1)
      else a.floor;
    if candidate.Some? && a.floor.Some? && a.floor.value > candidate.value then a.floor else candidate
  }

  /** `_persist_committed_floor`: the value is written when a store is configured. */
  function Persist(a: Adapter, floor: int, writeError: Option<string>): (r: Step<()>)
    ensures r.state == a.(store := r.state.store, diagnostics := r.state.diagnostics)
    ensures a.store.None? ==> r == Step(a, Ok(()))
    ensures a.store.Some? ==>
              var o := CursorState.Save(a.store.value, JInt(floor), writeError);
              && r.state.store == Some(o.disk)
              && (o.error.None? ==> r == Step(a.(store := Some(o.disk)), Ok(())))
              && (o.error.Some? ==> r == HandleStateError(a.(store := Some(o.disk)), "save", o.error.value))
  {
    if a.store.None? then Step(a, Ok(()))
    else
      var o := CursorState.Save(a.store.value, JInt(floor), writeError);
      var a1 := a.(store := Some(o.disk));
      if o.error.Some? then HandleStateError(a1, "save", o.error.value) else Step(a1, Ok(()))
  }

  /** `_recompute_offset`: the offset moves to its target, the floor follows it
      upwards only, and the floor is persisted exactly when it rises. */
  function Recompute(a: Adapter, writeError: Option<string>): (r: Step<()>)
    // the offset always equals the floor afterwards
    ensures r.state.nextOffset == r.state.floor
    // the floor moves to the target, which never lies below it
    ensures r.state.floor == Target(a)
    ensures a.floor.Some? ==> r.state.floor.Some? && r.state.floor.value >= a.floor.value
    // the id sets are untouched
    ensures r.state.seen == a.seen && r.state.pending == a.pending && r.state.processed == a.processed
    ensures r.state.strict == a.strict
    // a save happens exactly when the floor rises
    ensures r.state.floor == a.floor ==> r == Step(a.(nextOffset := a.floor), Ok(()))
    ensures r.state.floor != a.floor ==>
              r == Persist(a.(floor := r.state.floor, nextOffset := r.state.floor), r.state.floor.value, writeError)
  {
    var t := Target(a);
    if t.Some? && (a.floor.None? || t.value > a.floor.value) then
      Persist(a.(floor := t, nextOffset := t), t.value, writeError)
    else Step(a.(nextOffset := t), Ok(()))
  }

  // ---------------------------------------------------------------------------
  // Fetch
  // ---------------------------------------------------------------------------

  /** The integer update id a parsed update contributes, if any. */
  function ItemId(p: UpdateParser.ParsedUpdate): Option<int> {
    if p.updateId.Some? then ToIntUpdateId(p.updateId.value) else None
  }

  /** What the parser guarantees of each of its results and the loop relies on. */
  predicate WellFormed(p: UpdateParser.ParsedUpdate) {
    p.inbound.Some? ==> p.updateId == Some(p.inbound.value.updateId)
  }

  /** The batch as the loop sees it: each raw update parsed. The parser is a pure
      function of one update, so parsing up front is parsing in the loop. */
  function ParseAll(batch: seq<map<string, Json>>): (r: seq<UpdateParser.ParsedUpdate>)
    ensures |r| == |batch|
    ensures forall i :: 0 <= i < |batch| ==> r[i] == UpdateParser.ParseUpdate(batch[i]) && WellFormed(r[i])
  {
    seq(|batch|, i requires 0 <= i < |batch| => UpdateParser.ParseUpdate(batch[i]))
  }

  function StaleDrop(id: int, floor: int): Diagnostic {
    Diagnostic("stale-drop",
               "dropped stale update " + Numbers.IntToString(id) + " below committed floor "
               + Numbers.IntToString(floor),
               Some(Numbers.IntToString(id)))
  }

  function StaleDrops(ids: seq<int>, floor: int): (r: seq<Diagnostic>)
    ensures |r| == |ids| && forall i :: 0 <= i < |ids| ==> r[i] == StaleDrop(ids[i], floor)
  {
    seq(|ids|, i requires 0 <= i < |ids| => StaleDrop(ids[i], floor))
  }

  predicate Distinct(xs: seq<int>) {
    forall i, j :: 0 <= i < j < |xs| ==> xs[i] != xs[j]
  }

  /** The progress of the fetch loop: the adapter so far, the ids met in this batch,
      the messages emitted with their integer ids, and the ids dropped as stale. */
  datatype Scan = Scan(
    state: Adapter,
    batchIds: set<int>,
    emitted: seq<Contracts.InboundMessage>,
    emittedIds: seq<int>,
    dropped: seq<int>)

  /** True when an update with this id is dropped as below the floor. */
  predicate Stale(a: Adapter, id: int) {
    a.floor.Some? && id < a.floor.value
  }

  /** One iteration of the fetch loop. */
  function ScanStep(sc: Scan, p: UpdateParser.ParsedUpdate): (r: Scan)
    // an update without an integer id changes nothing
    ensures ItemId(p).None? ==> r == sc
    ensures ItemId(p).Some? ==>
              var id := ItemId(p).value;
              && r.batchIds == sc.batchIds + {id}
              && r.state == sc.state.(diagnostics := r.state.diagnostics, seen := r.state.seen,
                                      pending := r.state.pending, processed := r.state.processed)
              // a later copy in the same batch is only marked processed
              && (id in sc.batchIds ==>
                    r == sc.(state := sc.state.(processed := sc.state.processed + {id})))
              // an id below the floor is dropped with one diagnostic
              && (id !in sc.batchIds && Stale(sc.state, id) ==>
                    r == sc.(batchIds := r.batchIds, dropped := sc.dropped + [id],
                             state := sc.state.(processed := sc.state.processed + {id},
                                                diagnostics := sc.state.diagnostics + [StaleDrop(id, sc.state.floor.value)])))
              // an id handled before and not awaiting acknowledgement is not emitted again
              && (id !in sc.batchIds && !Stale(sc.state, id) && id in sc.state.seen && id !in sc.state.pending ==>
                    r == sc.(batchIds := r.batchIds, state := sc.state.(processed := sc.state.processed + {id})))
              // otherwise the id is seen, and the message is emitted when it parsed
              && (id !in sc.batchIds && !Stale(sc.state, id) && (id !in sc.state.seen || id in sc.state.pending) ==>
                    && r.state.seen == sc.state.seen + {id}
                    && r.state.diagnostics == sc.state.diagnostics
                    && r.dropped == sc.dropped
                    && (p.inbound.None? ==>
                          && r.state.pending == sc.state.pending && r.state.processed == sc.state.processed + {id}
                          && r.emitted == sc.emitted && r.emittedIds == sc.emittedIds)
                    && (p.inbound.Some? ==>
                          && r.state.pending == sc.state.pending + {id} && r.state.processed == sc.state.processed
                          && r.emitted == sc.emitted + [p.inbound.value] && r.emittedIds == sc.emittedIds + [id]))
  {
    match ItemId(p)
    case None => sc
    case Some(id) =>
      var a := sc.state;
      if id in sc.batchIds then sc.(state := a.(processed := a.processed + {id}))
      else
        var batchIds := sc.batchIds + {id};
        if a.floor.Some? && id < a.floor.value then
          sc.(batchIds := batchIds, dropped := sc.dropped + [id],
              state := a.(processed := a.processed + {id},
                          diagnostics := a.diagnostics + [StaleDrop(id, a.floor.value)]))
        else if id in a.seen && id !in a.pending then
          sc.(batchIds := batchIds, state := a.(processed := a.processed + {id}))
        else
          var a1 := a.(seen := a.seen + {id});
          match p.inbound
          case None => sc.(batchIds := batchIds, state := a1.(processed := a1.processed + {id}))
          case Some(m) =>
            sc.(batchIds := batchIds, state := a1.(pending := a1.pending + {id}),
                emitted := sc.emitted + [m], emittedIds := sc.emittedIds + [id])
  }

  /** The fetch loop over a parsed batch, in order. It touches only the diagnostics
      and the id sets. */
  function ScanBatch(a: Adapter, items: seq<UpdateParser.ParsedUpdate>): (r: Scan)
    ensures r.state == a.(diagnostics := r.state.diagnostics, seen := r.state.seen,
                          pending := r.state.pending, processed := r.state.processed)
    decreases |items|
  {
    if |items| == 0 then Scan(a, {}, [], [], [])
    else ScanStep(ScanBatch(a, items[..|items| - 1]), items[|items| - 1])
  }

  /** The ids the loop meets are exactly the batch's integer ids. */
  lemma {:induction false} ScanIds(a: Adapter, items: seq<UpdateParser.ParsedUpdate>)
    ensures forall id :: id in ScanBatch(a, items).batchIds <==>
              exists k :: 0 <= k < |items| && ItemId(items[k]) == Some(id)
    decreases |items|
  {
    if |items| > 0 {
      var prefix := items[..|items| - 1];
      ScanIds(a, prefix);
      forall id ensures (exists k :: 0 <= k < |items| && ItemId(items[k]) == Some(id)) <==>
                        (exists k :: 0 <= k < |prefix| && ItemId(prefix[k]) == Some(id))
                        || ItemId(items[|items| - 1]) == Some(id) {
        if k :| 0 <= k < |items| && ItemId(items[k]) == Some(id) {
          if k < |items| - 1 {
            assert prefix[k] == items[k];
          }
        }
        if k :| 0 <= k < |prefix| && ItemId(prefix[k]) == Some(id) {
          assert items[k] == prefix[k];
        }
      }
    }
  }

  /** How the loop moves the id sets: every batch id not below the floor becomes
      seen, exactly the emitted ids join pending, and pending stays within seen. */
  lemma {:induction false} ScanSets(a: Adapter, items: seq<UpdateParser.ParsedUpdate>)
    ensures var r := ScanBatch(a, items);
            && a.seen <= r.state.seen && a.processed <= r.state.processed
            && (a.pending <= a.seen ==> r.state.pending <= r.state.seen)
            && (forall id :: id in r.state.pending <==> id in a.pending || id in r.emittedIds)
            && (forall id :: id in r.state.seen <==> id in a.seen || (id in r.batchIds && !Stale(a, id)))
            && r.state.processed <= a.processed + r.batchIds
    decreases |items|
  {
    if |items| > 0 {
      var prev := ScanBatch(a, items[..|items| - 1]);
      var p := items[|items| - 1];
      ScanSets(a, items[..|items| - 1]);
      assert ScanBatch(a, items) == ScanStep(prev, p);
      StepSets(a, prev, p);
    }
  }

  lemma StepSets(a: Adapter, sc: Scan, p: UpdateParser.ParsedUpdate)
    requires sc.state.floor == a.floor
    requires a.seen <= sc.state.seen && a.processed <= sc.state.processed
    requires a.pending <= a.seen ==> sc.state.pending <= sc.state.seen
    requires forall id :: id in sc.state.pending <==> id in a.pending || id in sc.emittedIds
    requires forall id :: id in sc.state.seen <==> id in a.seen || (id in sc.batchIds && !Stale(a, id))
    requires sc.state.processed <= a.processed + sc.batchIds
    ensures var r := ScanStep(sc, p);
            && a.seen <= r.state.seen && a.processed <= r.state.processed
            && (a.pending <= a.seen ==> r.state.pending <= r.state.seen)
            && (forall id :: id in r.state.pending <==> id in a.pending || id in r.emittedIds)
            && (forall id :: id in r.state.seen <==> id in a.seen || (id in r.batchIds && !Stale(a, id)))
            && r.state.processed <= a.processed + r.batchIds
  {
  }

  /** Emitted messages: each id at most once per batch, never below the floor, never
      one already handled, and each carrying its integer id. */
  lemma {:induction false} ScanEmitted(a: Adapter, items: seq<UpdateParser.ParsedUpdate>)
    requires forall k :: 0 <= k < |items| ==> WellFormed(items[k])
    ensures var r := ScanBatch(a, items);
            && |r.emittedIds| == |r.emitted|
            && (forall i :: 0 <= i < |r.emitted| ==> ToIntUpdateId(r.emitted[i].updateId) == Some(r.emittedIds[i]))
            && Distinct(r.emittedIds)
            && (forall i :: 0 <= i < |r.emittedIds| ==>
                  && r.emittedIds[i] in r.batchIds
                  && !Stale(a, r.emittedIds[i])
                  && (r.emittedIds[i] !in a.seen || r.emittedIds[i] in a.pending))
    decreases |items|
  {
    if |items| > 0 {
      var prev := ScanBatch(a, items[..|items| - 1]);
      var p := items[|items| - 1];
      ScanEmitted(a, items[..|items| - 1]);
      ScanSets(a, items[..|items| - 1]);
      assert ScanBatch(a, items) == ScanStep(prev, p);
      StepEmitted(a, prev, p);
    }
  }

  /** What the loop promises of its emitted messages so far, relative to the adapter
      it started from. */
  predicate EmittedOK(a: Adapter, sc: Scan) {
    && |sc.emittedIds| == |sc.emitted|
    && (forall i :: 0 <= i < |sc.emitted| ==> ToIntUpdateId(sc.emitted[i].updateId) == Some(sc.emittedIds[i]))
    && Distinct(sc.emittedIds)
    && (forall i :: 0 <= i < |sc.emittedIds| ==>
          && sc.emittedIds[i] in sc.batchIds
          && !Stale(a, sc.emittedIds[i])
          && (sc.emittedIds[i] !in a.seen || sc.emittedIds[i] in a.pending))
  }

  lemma StepEmitted(a: Adapter, sc: Scan, p: UpdateParser.ParsedUpdate)
    requires WellFormed(p)
    requires sc.state.floor == a.floor
    requires a.seen <= sc.state.seen
    requires forall id :: id in sc.state.pending ==> id in a.pending || id in sc.emittedIds
    requires EmittedOK(a, sc)
    ensures EmittedOK(a, ScanStep(sc, p))
  {
    var r := ScanStep(sc, p);
    if ItemId(p).Some? {
      var id := ItemId(p).value;
      if id !in sc.batchIds && !Stale(sc.state, id) && (id !in sc.state.seen || id in sc.state.pending)
         && p.inbound.Some? {
        assert id !in sc.emittedIds;
        assert ToIntUpdateId(p.inbound.value.updateId) == Some(id);
        EmittedSnoc(a, sc, r, id, p.inbound.value);
      } else {
        assert r.emittedIds == sc.emittedIds && r.emitted == sc.emitted;
        assert sc.batchIds <= r.batchIds;
      }
    }
  }

  /** Emitting one more message with a fresh, admissible id keeps the promise. */
  lemma EmittedSnoc(a: Adapter, sc: Scan, r: Scan, id: int, m: Contracts.InboundMessage)
    requires EmittedOK(a, sc)
    requires r.emittedIds == sc.emittedIds + [id] && r.emitted == sc.emitted + [m]
    requires sc.batchIds + {id} <= r.batchIds
    requires id !in sc.emittedIds && ToIntUpdateId(m.updateId) == Some(id)
    requires !Stale(a, id) && (id !in a.seen || id in a.pending)
    ensures EmittedOK(a, r)
  {
    forall i | 0 <= i < |r.emitted|
      ensures ToIntUpdateId(r.emitted[i].updateId) == Some(r.emittedIds[i])
    {
      if i < |sc.emitted| {
        assert r.emitted[i] == sc.emitted[i] && r.emittedIds[i] == sc.emittedIds[i];
      }
    }
    forall i | 0 <= i < |r.emittedIds|
      ensures && r.emittedIds[i] in r.batchIds
              && !Stale(a, r.emittedIds[i])
              && (r.emittedIds[i] !in a.seen || r.emittedIds[i] in a.pending)
    {
      if i < |sc.emittedIds| {
        assert r.emittedIds[i] == sc.emittedIds[i];
      }
    }
  }

  /** Exactly one stale-drop diagnostic per distinct batch id below the floor, and
      no other diagnostic. */
  lemma {:induction false} ScanDropped(a: Adapter, items: seq<UpdateParser.ParsedUpdate>)
    ensures var r := ScanBatch(a, items);
            && Distinct(r.dropped)
            && (forall id :: id in r.dropped <==> id in r.batchIds && Stale(a, id))
            && r.state.diagnostics == a.diagnostics + (if a.floor.Some? then StaleDrops(r.dropped, a.floor.value) else [])
    decreases |items|
  {
    if |items| > 0 {
      var prev := ScanBatch(a, items[..|items| - 1]);
      var p := items[|items| - 1];
      ScanDropped(a, items[..|items| - 1]);
      assert ScanBatch(a, items) == ScanStep(prev, p);
      StepDropped(a, prev, p);
    }
  }

  lemma StepDropped(a: Adapter, sc: Scan, p: UpdateParser.ParsedUpdate)
    requires sc.state.floor == a.floor
    requires Distinct(sc.dropped)
    requires forall id :: id in sc.dropped <==> id in sc.batchIds && Stale(a, id)
    requires sc.state.diagnostics == a.diagnostics + (if a.floor.Some? then StaleDrops(sc.dropped, a.floor.value) else [])
    ensures var r := ScanStep(sc, p);
            && Distinct(r.dropped)
            && (forall id :: id in r.dropped <==> id in r.batchIds && Stale(a, id))
            && r.state.diagnostics == a.diagnostics + (if a.floor.Some? then StaleDrops(r.dropped, a.floor.value) else [])
  {
    var r := ScanStep(sc, p);
    if ItemId(p).None? {
      assert r == sc;
    } else {
      var id := ItemId(p).value;
      if id !in sc.batchIds && Stale(sc.state, id) {
        DropOne(a, sc, id, r);
      } else {
        assert r.dropped == sc.dropped && r.batchIds == sc.batchIds + {id};
        assert r.state.diagnostics == sc.state.diagnostics;
      }
    }
  }

  lemma DropOne(a: Adapter, sc: Scan, id: int, r: Scan)
    requires a.floor.Some? && sc.state.floor == a.floor && id !in sc.batchIds && Stale(a, id)
    requires Distinct(sc.dropped)
    requires forall x :: x in sc.dropped <==> x in sc.batchIds && Stale(a, x)
    requires sc.state.diagnostics == a.diagnostics + StaleDrops(sc.dropped, a.floor.value)
    requires r.dropped == sc.dropped + [id] && r.batchIds == sc.batchIds + {id}
    requires r.state.diagnostics == sc.state.diagnostics + [StaleDrop(id, a.floor.value)]
    ensures Distinct(r.dropped)
    ensures forall x :: x in r.dropped <==> x in r.batchIds && Stale(a, x)
    ensures r.state.diagnostics == a.diagnostics + StaleDrops(r.dropped, a.floor.value)
  {
    assert StaleDrops(sc.dropped + [id], a.floor.value)
           == StaleDrops(sc.dropped, a.floor.value) + [StaleDrop(id, a.floor.value)];
  }

  /** `fetch_updates`: an API error raises and changes nothing; otherwise the batch is
      scanned and the offset recomputed. `writeError` is the outcome of the state
      file write the recomputation may make. */
  function Fetch(a: Adapter, api: Result<seq<map<string, Json>>, TelegramApi.ApiErr>, writeError: Option<string>)
    : (r: Step<seq<Contracts.InboundMessage>>)
    ensures api.Err? ==> r == Step(a, Err("fetch_updates failed: " + TelegramApi.ErrorDict(api.error)))
    ensures api.Ok? ==>
              var sc := ScanBatch(a, ParseAll(api.value));
              var rc := Recompute(sc.state, writeError);
              && r.state == rc.state
              && (rc.result.Ok? ==> r.result == Ok(sc.emitted))
              && (rc.result.Err? ==> r.result == Err(rc.result.error))
  {
    match api
    case Err(e) => Step(a, Err("fetch_updates failed: " + TelegramApi.ErrorDict(e)))
    case Ok(batch) =>
      var sc := ScanBatch(a, ParseAll(batch));
      var rc := Recompute(sc.state, writeError);
      Step(rc.state, if rc.result.Err? then Err(rc.result.error) else Ok(sc.emitted))
  }

  // ---------------------------------------------------------------------------
  // Send, ack, drain
  // ---------------------------------------------------------------------------

  /** `send_message`: the API's error becomes a ChannelRuntimeError. */
  function SendMessage(api: Result<map<string, Json>, TelegramApi.ApiErr>): (r: Result<(), string>)
    ensures r.Ok? <==> api.Ok?
    ensures api.Err? ==> r == Err("send_message failed: " + TelegramApi.ErrorDict(api.error))
  {
    if api.Ok? then Ok(()) else Err("send_message failed: " + TelegramApi.ErrorDict(api.error))
  }

  /** `ack_update`: a non-integer id raises and changes nothing; otherwise the id is
      moved out of pending into seen and processed, and the offset recomputed. */
  function Ack(a: Adapter, updateId: string, writeError: Option<string>): (r: Step<()>)
    ensures ToIntUpdateId(updateId).None? ==> r == Step(a, Err("ack_update requires a numeric update_id"))
    ensures ToIntUpdateId(updateId).Some? ==>
              var id := ToIntUpdateId(updateId).value;
              && r.state.seen == a.seen + {id}
              && r.state.pending == a.pending - {id}
              && r.state.processed == a.processed + {id}
              && r == Recompute(a.(seen := a.seen + {id}, pending := a.pending - {id},
                                   processed := a.processed + {id}), writeError)
  {
    match ToIntUpdateId(updateId)
    case None => Step(a, Err("ack_update requires a numeric update_id"))
    case Some(id) =>
      Recompute(a.(seen := a.seen + {id}, pending := a.pending - {id}, processed := a.processed + {id}), writeError)
  }

  /** `drain_diagnostics`: returns the buffered diagnostics in order and empties the
      buffer. */
  function Drain(a: Adapter): (r: (seq<Diagnostic>, Adapter))
    ensures r.0 == a.diagnostics && r.1.diagnostics == []
    ensures r.1 == a.(diagnostics := [])
  {
    (a.diagnostics, a.(diagnostics := []))
  }

  // ---------------------------------------------------------------------------
  // Properties across calls
  // ---------------------------------------------------------------------------

  /** A call on the adapter, with the inputs its collaborators supply. */
  datatype Call =
    | FetchCall(api: Result<seq<map<string, Json>>, TelegramApi.ApiErr>, writeError: Option<string>)
    | AckCall(updateId: string, writeError: Option<string>)
    | DrainCall

  function Apply(a: Adapter, c: Call): Adapter {
    match c
    case FetchCall(api, w) => Fetch(a, api, w).state
    case AckCall(id, w) => Ack(a, id, w).state
    case DrainCall => Drain(a).1
  }

  /** The adapter after a sequence of calls; a raised error does not undo the
      state changes made before it. */
  function Run(a: Adapter, calls: seq<Call>): Adapter
    decreases |calls|
  {
    if |calls| == 0 then a else Run(Apply(a, calls[0]), calls[1..])
  }

  /** Every call keeps the invariant and never lowers the floor. */
  lemma ApplyPreserves(a: Adapter, c: Call)
    requires Inv(a)
    ensures Inv(Apply(a, c))
    ensures a.floor.Some? ==> Apply(a, c).floor.Some? && Apply(a, c).floor.value >= a.floor.value
  {
    if c.FetchCall? && c.api.Ok? {
      ScanSets(a, ParseAll(c.api.value));
    }
  }

  /** The committed floor never decreases across any sequence of fetch, ack and
      drain calls, and the offset stays equal to it. */
  lemma {:induction false} RunPreserves(a: Adapter, calls: seq<Call>)
    requires Inv(a)
    ensures Inv(Run(a, calls))
    ensures a.floor.Some? ==> Run(a, calls).floor.Some? && Run(a, calls).floor.value >= a.floor.value
    decreases |calls|
  {
    if |calls| > 0 {
      ApplyPreserves(a, calls[0]);
      RunPreserves(Apply(a, calls[0]), calls[1..]);
    }
  }

  /** A floor that rose and was written successfully is resumed from by a new
      adapter over the same state file, so a restart never lowers it. */
  lemma RestartResumesFloor(a: Adapter, writeError: Option<string>, strict: bool)
    requires a.store.Some? && writeError.None?
    requires var r := Recompute(a, writeError); r.state.floor != a.floor && r.state.floor.value >= 0
    ensures var r := Recompute(a, writeError);
            Init(r.state.store, strict).state.floor == r.state.floor
  {
    var r := Recompute(a, writeError);
    CursorState.SaveThenLoad(a.store.value, r.state.floor.value);
  }

  /** A still-pending id that is delivered again is emitted again. */
  lemma PendingRedelivered(a: Adapter, raw: map<string, Json>)
    requires var p := UpdateParser.ParseUpdate(raw);
             ItemId(p).Some? && ItemId(p).value in a.pending && !Stale(a, ItemId(p).value) && p.inbound.Some?
    ensures ScanBatch(a, ParseAll([raw])).emitted == [UpdateParser.ParseUpdate(raw).inbound.value]
  {
    assert ParseAll([raw])[..0] == [];
  }

  /** An id that was acknowledged is not emitted again when redelivered; it is only
      marked processed. */
  lemma AckedNotReemitted(a: Adapter, raw: map<string, Json>)
    requires var p := UpdateParser.ParseUpdate(raw);
             ItemId(p).Some? && ItemId(p).value in a.seen && ItemId(p).value !in a.pending
    ensures var r := ScanBatch(a, ParseAll([raw]));
            r.emitted == [] && r.state.seen == a.seen && r.state.pending == a.pending
  {
    assert ParseAll([raw])[..0] == [];
  }

  /** After an ack the id is no longer awaiting acknowledgement. */
  lemma AckSettles(a: Adapter, updateId: string, writeError: Option<string>)
    requires Inv(a) && ToIntUpdateId(updateId).Some?
    ensures var r := Ack(a, updateId, writeError);
            var id := ToIntUpdateId(updateId).value;
            id !in r.state.pending && id in r.state.seen && id in r.state.processed && Inv(r.state)
  {
  }
}
