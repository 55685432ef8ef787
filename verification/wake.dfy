/** The heartbeat's single-slot wake queue: at most one pending wake request, which a
    request of equal or higher priority replaces and a lower one cannot. */
module WakeQueue {
  import opened Wrappers

  /** The accepted wake reasons, in the order the error message lists them. */
  const ValidReasons: seq<string> := ["manual", "exec-event", "hook", "other", "interval", "retry"]

  predicate IsValidReason(reason: string) {
    reason in ValidReasons
  }

  /** The priority table: manual, exec-event and hook above other, above interval, above retry. */
  function Priority(reason: string): (p: nat)
    requires IsValidReason(reason)
    ensures p <= 3
    ensures p == 3 <==> reason in {"manual", "exec-event", "hook"}
    ensures p == 2 <==> reason == "other"
    ensures p == 1 <==> reason == "interval"
    ensures p == 0 <==> reason == "retry"
  {
    if reason == "other" then 2
    else if reason == "interval" then 1
    else if reason == "retry" then 0
    else 3
  }

  datatype WakeRequest = WakeRequest(reason: string, requestedAtMs: int)

  datatype WakeDecision = WakeDecision(accepted: bool, reason: string, queueSize: nat, replacedReason: Option<string>)

  /** The slot: the pending request, if any. */
  type Slot = Option<WakeRequest>

  predicate ValidSlot(q: Slot) {
    q.Some? ==> IsValidReason(q.value.reason)
  }

  /** The message of the ValueError raised for an unknown reason. */
  function InvalidReason(reason: string): string {
    "invalid wake reason: '" + reason + "'; expected one of manual, exec-event, hook, other, interval, retry"
  }

  /** `request_wake`. An invalid reason raises before the slot is looked at. */
  function RequestWake(q: Slot, reason: string, nowMs: int): (r: Result<(Slot, WakeDecision), string>)
    requires ValidSlot(q)
    ensures r.Err? <==> !IsValidReason(reason)
    ensures r.Err? ==> r.error == InvalidReason(reason)
    ensures r.Ok? ==> ValidSlot(r.value.0) && r.value.0.Some? == (q.Some? || r.value.1.accepted)
    // every valid request reports one queued request, for the given reason
    ensures r.Ok? ==> r.value.1.queueSize == 1 && r.value.1.reason == reason
    // an empty slot takes any valid request
    ensures r.Ok? && q.None? ==> r.value == (Some(WakeRequest(reason, nowMs)), WakeDecision(true, reason, 1, None))
    // an equal or higher priority replaces the pending request and names it
    ensures r.Ok? && q.Some? && Priority(reason) >= Priority(q.value.reason) ==>
              r.value == (Some(WakeRequest(reason, nowMs)), WakeDecision(true, reason, 1, Some(q.value.reason)))
    // a lower priority is rejected and the slot is unchanged
    ensures r.Ok? && q.Some? && Priority(reason) < Priority(q.value.reason) ==>
              r.value == (q, WakeDecision(false, reason, 1, None))
  {
    if !IsValidReason(reason) then Err(InvalidReason(reason))
    else
      var incoming := WakeRequest(reason, nowMs);
      match q
      case None => Ok((Some(incoming), WakeDecision(true, reason, 1, None)))
      case Some(pending) =>
        if Priority(reason) > Priority(pending.reason) || Priority(reason) == Priority(pending.reason) then
          Ok((Some(incoming), WakeDecision(true, reason, 1, Some(pending.reason))))
        else
          Ok((q, WakeDecision(false, reason, 1, None)))
  }

  /** `pop_next`: the pending request, and an empty slot. */
  function PopNext(q: Slot): (r: (Slot, Option<WakeRequest>))
    ensures r.0.None? && r.1 == q
  {
    (None, q)
  }

  /** `peek`: the pending request, slot untouched. */
  function Peek(q: Slot): (r: Option<WakeRequest>)
    ensures r == q
  {
    q
  }

  /** `clear`. */
  function Clear(q: Slot): (r: Slot)
    ensures r.None?
  {
    None
  }

  /** A second pop finds nothing. */
  lemma PopTwice(q: Slot)
    ensures PopNext(PopNext(q).0).1.None?
  {
  }

  /** Requesting each reason in turn, ignoring the rejected invalid ones. */
  function RequestAll(q: Slot, reasons: seq<string>, nowMs: int): (r: Slot)
    requires ValidSlot(q)
    ensures ValidSlot(r)
    decreases |reasons|
  {
    if |reasons| == 0 then q
    else
      var prev := RequestAll(q, reasons[..|reasons| - 1], nowMs);
      match RequestWake(prev, reasons[|reasons| - 1], nowMs)
      case Ok((next, _)) => next
      case Err(_) => prev
  }

  /** Priority coalescing: after a run of requests, the slot holds a request whose priority
      is at least that of every valid reason requested and of what was pending before, and
      its reason is one of those. */
  lemma {:induction false} CoalescesToHighestPriority(q: Slot, reasons: seq<string>, nowMs: int)
    requires ValidSlot(q)
    ensures var r := RequestAll(q, reasons, nowMs);
            && (q.Some? || (exists i :: 0 <= i < |reasons| && IsValidReason(reasons[i])) ==> r.Some?)
            && (r.Some? ==> forall i :: 0 <= i < |reasons| && IsValidReason(reasons[i]) ==>
                              Priority(reasons[i]) <= Priority(r.value.reason))
            && (r.Some? && q.Some? ==> Priority(q.value.reason) <= Priority(r.value.reason))
            && (r.Some? ==> r == q || exists i :: 0 <= i < |reasons| && r.value.reason == reasons[i])
    decreases |reasons|
  {
    if |reasons| > 0 {
      var init := reasons[..|reasons| - 1];
      var last := reasons[|reasons| - 1];
      CoalescesToHighestPriority(q, init, nowMs);
      var prev := RequestAll(q, init, nowMs);
      var r := RequestAll(q, reasons, nowMs);
      RequestAllSnoc(q, reasons, nowMs);
      forall i | 0 <= i < |reasons| - 1
        ensures reasons[i] == init[i]
      {
      }
      if r.Some? && r != q && r == prev && prev != q {
        var i :| 0 <= i < |init| && prev.value.reason == init[i];
        assert r.value.reason == reasons[i];
      }
    }
  }

  /** One more request either takes the slot or leaves it as it was. */
  lemma RequestAllSnoc(q: Slot, reasons: seq<string>, nowMs: int)
    requires ValidSlot(q) && |reasons| > 0
    ensures var prev := RequestAll(q, reasons[..|reasons| - 1], nowMs);
            var last := reasons[|reasons| - 1];
            RequestAll(q, reasons, nowMs)
            == if IsValidReason(last) && (prev.None? || Priority(last) >= Priority(prev.value.reason))
               then Some(WakeRequest(last, nowMs)) else prev
  {
  }
}
