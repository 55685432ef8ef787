/** The heartbeat's bounded FIFO of system events, with consecutive-duplicate rejection,
    and the bus that keeps one such queue per session key. The wall clock is an input. */
module SystemEvents {
  import opened Wrappers
  import Numbers

  /** A queued event. `serial` is the number in its id: the id is "se-" and the serial. */
  datatype SystemEvent = SystemEvent(serial: nat, tsMs: int, text: string, source: string, context: map<string, string>)

  function EventId(e: SystemEvent): string {
    "se-" + Numbers.NatToString(e.serial)
  }

  /** Distinct serials give distinct ids, so an id is never reused. */
  lemma EventIdInjective(a: SystemEvent, b: SystemEvent)
    requires a.serial != b.serial
    ensures EventId(a) != EventId(b)
  {
    if EventId(a) == EventId(b) {
      var sa := Numbers.NatToString(a.serial);
      var sb := Numbers.NatToString(b.serial);
      assert sa == EventId(a)[3..] && sb == EventId(b)[3..];
      Numbers.NatToStringValue(a.serial);
      Numbers.NatToStringValue(b.serial);
    }
  }

  datatype WriteResult = WriteResult(accepted: bool, queueSize: nat, dropped: nat, deduped: bool)

  datatype Queue = Queue(maxItems: nat, dedupeConsecutive: bool, items: seq<SystemEvent>, nextId: nat)

  /** Serials strictly increase along the queue and are all below the next one. */
  predicate SerialsIncreasing(items: seq<SystemEvent>, nextId: nat) {
    (forall i, j :: 0 <= i < j < |items| ==> items[i].serial < items[j].serial)
    && (forall i :: 0 <= i < |items| ==> items[i].serial < nextId)
  }

  predicate ValidQueue(q: Queue) {
    q.maxItems >= 1 && |q.items| <= q.maxItems && q.nextId >= 1 && SerialsIncreasing(q.items, q.nextId)
  }

  /** SystemEventQueue's constructor. */
  function NewQueue(maxItems: int, dedupeConsecutive: bool): (r: Result<Queue, string>)
    ensures r.Ok? <==> maxItems >= 1
    ensures r.Err? ==> r.error == "max_items must be >= 1"
    ensures r.Ok? ==> ValidQueue(r.value) && r.value.items == [] && r.value.maxItems == maxItems
  {
    if maxItems <= 0 then Err("max_items must be >= 1")
    else Ok(Queue(maxItems, dedupeConsecutive, [], 1))
  }

  /** Whether an event would repeat the last queued one. */
  predicate RepeatsLast(q: Queue, text: string, source: string, context: map<string, string>) {
    q.dedupeConsecutive && |q.items| > 0
    && q.items[|q.items| - 1].text == text && q.items[|q.items| - 1].source == source
    && q.items[|q.items| - 1].context == context
  }

  /** The number of oldest events an append pushes out. */
  function Overflow(size: nat, maxItems: nat): nat {
    if size > maxItems then size - maxItems else 0
  }

  /** `publish`. */
  function Publish(q: Queue, text: string, source: string, context: map<string, string>, nowMs: int)
    : (r: (Queue, WriteResult))
    requires ValidQueue(q)
    ensures ValidQueue(r.0) && r.0.maxItems == q.maxItems && r.0.dedupeConsecutive == q.dedupeConsecutive
    ensures r.1.queueSize == |r.0.items|
    // a repeat of the last event: rejected, queue unchanged
    ensures RepeatsLast(q, text, source, context) ==> r == (q, WriteResult(false, |q.items|, 0, true))
    // otherwise appended with the next serial, the oldest events dropped to stay in bounds
    ensures !RepeatsLast(q, text, source, context) ==>
              var e := SystemEvent(q.nextId, nowMs, text, source, context);
              && r.1 == WriteResult(true, |r.0.items|, Overflow(|q.items| + 1, q.maxItems), false)
              && r.0.nextId == q.nextId + 1
              && r.0.items == (q.items + [e])[r.1.dropped..]
              && r.0.items[|r.0.items| - 1] == e
  {
    if RepeatsLast(q, text, source, context) then (q, WriteResult(false, |q.items|, 0, true))
    else
      var e := SystemEvent(q.nextId, nowMs, text, source, context);
      var appended := q.items + [e];
      var dropped := Overflow(|appended|, q.maxItems);
      var items := appended[dropped..];
      SerialsSnoc(q.items, e);
      SerialsSuffix(appended, q.nextId + 1, dropped);
      (q.(items := items, nextId := q.nextId + 1), WriteResult(true, |items|, dropped, false))
  }

  lemma SerialsSnoc(items: seq<SystemEvent>, e: SystemEvent)
    requires SerialsIncreasing(items, e.serial)
    ensures SerialsIncreasing(items + [e], e.serial + 1)
  {
  }

  lemma SerialsSuffix(items: seq<SystemEvent>, nextId: nat, k: nat)
    requires SerialsIncreasing(items, nextId) && k <= |items|
    ensures SerialsIncreasing(items[k..], nextId)
  {
    assert forall i :: 0 <= i < |items| - k ==> items[k..][i] == items[k + i];
  }

  /** `drain`: everything with no limit; nothing for a limit of zero or less; otherwise
      the oldest `limit` events. The rest stay, in order. */
  function Drain(q: Queue, limit: Option<int>): (r: (Queue, seq<SystemEvent>))
    requires ValidQueue(q)
    ensures ValidQueue(r.0) && r.0.maxItems == q.maxItems && r.0.nextId == q.nextId
    ensures r.1 + r.0.items == q.items
    ensures limit.None? ==> r.1 == q.items && r.0.items == []
    ensures limit.Some? && limit.value <= 0 ==> r == (q, [])
    ensures limit.Some? && limit.value > 0 ==> |r.1| == if limit.value < |q.items| then limit.value else |q.items|
  {
    match limit
    case None => (q.(items := []), q.items)
    case Some(n) =>
      if n <= 0 then (q, [])
      else
        var count := if n < |q.items| then n else |q.items|;
        assert q.items[..count] + q.items[count..] == q.items;
        (q.(items := q.items[count..]), q.items[..count])
  }

  /** `peek`: the oldest `limit` events, queue untouched. */
  function Peek(q: Queue, limit: int): (r: seq<SystemEvent>)
    ensures limit <= 0 ==> r == []
    ensures limit > 0 ==> |r| == (if limit < |q.items| then limit else |q.items|) && r == q.items[..|r|]
  {
    if limit <= 0 then [] else if limit < |q.items| then q.items[..limit] else q.items
  }

  /** Draining in two steps gives the same events, in the same order, as draining once. */
  lemma DrainInSteps(q: Queue, n: int)
    requires ValidQueue(q)
    ensures var (rest, first) := Drain(q, Some(n));
            first + Drain(rest, None).1 == Drain(q, None).1
  {
  }

  /** Publishing onto a queue with room and no repeat, then draining, gives back the
      queued events followed by the new one. */
  lemma PublishThenDrain(q: Queue, text: string, source: string, context: map<string, string>, nowMs: int)
    requires ValidQueue(q) && |q.items| < q.maxItems && !RepeatsLast(q, text, source, context)
    ensures Drain(Publish(q, text, source, context, nowMs).0, None).1
            == q.items + [SystemEvent(q.nextId, nowMs, text, source, context)]
  {
  }

  // ---------------------------------------------------------------------------
  // SessionSystemEventBus
  // ---------------------------------------------------------------------------

  /** The bus: the queue settings, which are validated only when a queue is created, and
      the queue of each session key seen so far. */
  datatype Bus = Bus(maxItems: int, dedupeConsecutive: bool, queues: map<string, Queue>)

  predicate ValidBus(b: Bus) {
    forall k :: k in b.queues ==> ValidQueue(b.queues[k])
  }

  /** `get_queue`: the key's queue, created on first use. */
  function GetQueue(b: Bus, key: string): (r: Result<(Bus, Queue), string>)
    requires ValidBus(b)
    ensures key in b.queues ==> r == Ok((b, b.queues[key]))
    ensures key !in b.queues ==> r.Ok? == (b.maxItems >= 1)
    // a new queue starts empty with the bus's settings; bad settings fail only here
    ensures key !in b.queues && r.Ok? ==> r.value.1.items == [] && r.value.1.maxItems == b.maxItems
                                          && r.value.1.dedupeConsecutive == b.dedupeConsecutive
    ensures r.Err? ==> r.error == "max_items must be >= 1"
    ensures r.Ok? ==> ValidBus(r.value.0) && ValidQueue(r.value.1)
                      && r.value.0.queues == b.queues[key := r.value.1]
  {
    if key in b.queues then Ok((b, b.queues[key]))
    else match NewQueue(b.maxItems, b.dedupeConsecutive)
      case Err(e) => Err(e)
      case Ok(q) => Ok((b.(queues := b.queues[key := q]), q))
  }

  /** `publish` on the bus: only the key's own queue changes. */
  function BusPublish(b: Bus, key: string, text: string, source: string, context: map<string, string>, nowMs: int)
    : (r: Result<(Bus, WriteResult), string>)
    requires ValidBus(b)
    ensures r.Ok? ==> ValidBus(r.value.0) && key in r.value.0.queues
    ensures r.Ok? ==> forall k :: k in b.queues && k != key ==> k in r.value.0.queues && r.value.0.queues[k] == b.queues[k]
    ensures r.Ok? ==> r.value.0.queues.Keys == b.queues.Keys + {key}
    // the key's queue, created if need be, takes the event exactly as a lone queue would
    ensures r.Err? <==> GetQueue(b, key).Err?
    ensures r.Ok? ==> var q := GetQueue(b, key).value.1;
                      (r.value.0.queues[key], r.value.1) == Publish(q, text, source, context, nowMs)
  {
    match GetQueue(b, key)
    case Err(e) => Err(e)
    case Ok((b1, q)) =>
      var (q1, w) := Publish(q, text, source, context, nowMs);
      Ok((Replace(b, key, q1), w))
  }

  /** The bus with the key's queue set to `q`. */
  function Replace(b: Bus, key: string, q: Queue): (r: Bus)
    requires ValidBus(b) && ValidQueue(q)
    ensures ValidBus(r) && key in r.queues && r.queues[key] == q
    ensures r.queues.Keys == b.queues.Keys + {key}
    ensures forall k :: k in b.queues && k != key ==> k in r.queues && r.queues[k] == b.queues[k]
  {
    b.(queues := b.queues[key := q])
  }

  /** `drain` on the bus: only the key's own queue changes. */
  function BusDrain(b: Bus, key: string, limit: Option<int>): (r: Result<(Bus, seq<SystemEvent>), string>)
    requires ValidBus(b)
    ensures r.Ok? ==> ValidBus(r.value.0)
    ensures r.Ok? ==> forall k :: k in b.queues && k != key ==> k in r.value.0.queues && r.value.0.queues[k] == b.queues[k]
    ensures key in b.queues ==> r.Ok? && r.value.1 == Drain(b.queues[key], limit).1
    ensures r.Err? <==> GetQueue(b, key).Err?
    // draining a key seen for the first time creates its queue and yields nothing
    ensures key !in b.queues && r.Ok? ==> r.value.1 == [] && key in r.value.0.queues && r.value.0.queues[key].items == []
  {
    match GetQueue(b, key)
    case Err(e) => Err(e)
    case Ok((b1, q)) =>
      var (q1, events) := Drain(q, limit);
      Ok((Replace(b, key, q1), events))
  }

  /** Publishing under one key never shows up when draining another. */
  lemma KeysIndependent(b: Bus, key: string, other: string, text: string, source: string,
                        context: map<string, string>, nowMs: int, limit: Option<int>)
    requires ValidBus(b) && key != other && other in b.queues
    requires BusPublish(b, key, text, source, context, nowMs).Ok?
    ensures BusDrain(BusPublish(b, key, text, source, context, nowMs).value.0, other, limit).value.1
            == BusDrain(b, other, limit).value.1
  {
  }
}
