/** `process_once`: one fetch → handle → send → ack cycle of the channel service.

    The adapter and orchestrator are collaborators whose behaviour is an input: the
    fetch outcome, and for each fetched update what handling it produced and whether
    the send and the ack raised. The calls the cycle makes on its collaborators are
    part of the result, so the order and number of acks can be stated. */
module ChannelService {
  import opened Wrappers
  import Numbers
  import Contracts
  import Exceptions

  /** What `session_resolver` followed by `orchestrator.handle_message` did. */
  datatype Handled =
    | Raised(exc: Exceptions.Exc)                // either call raised
    | NoReply                                    // returned None
    | Reply(outbound: Contracts.OutboundMessage) // returned an OutboundMessage
    | Unsupported(typeName: string)              // returned any other object

  /** The collaborators' behaviour for one update: what handling produced, what
      `send_message` raised (consulted only for a reply), and what `ack_update` raised. */
  datatype UpdateOutcome = UpdateOutcome(
    handled: Handled,
    sendError: Option<Exceptions.Exc>,
    ackError: Option<Exceptions.Exc>)

  /** A call the cycle makes on a collaborator. */
  datatype Call =
    | HandleCall(updateId: string)
    | SendCall(outbound: Contracts.OutboundMessage)
    | AckCall(updateId: string)

  /** ProcessOnceResult. */
  datatype ProcessResult = ProcessResult(
    status: string,
    reason: string,
    fetchedCount: nat,
    sentCount: nat,
    ackedCount: nat,
    errorCount: nat,
    errors: seq<string>)

  /** The per-update accumulation of the loop. */
  datatype Tally = Tally(sent: nat, acked: nat, errors: seq<string>, calls: seq<Call>)

  function UpdateError(updateId: string, detail: string): string {
    "update " + updateId + ": " + detail
  }

  /** The exception raised for a handler result of an unsupported type. */
  function UnsupportedOutput(typeName: string): Exceptions.Exc {
    Exceptions.Exc("ChannelRuntimeError", "orchestrator returned unsupported output type: " + typeName)
  }

  /** The error, if any, from handling and sending one update. */
  function HandleError(m: Contracts.InboundMessage, o: UpdateOutcome): Option<string> {
    match o.handled
    case Raised(e) => Some(UpdateError(m.updateId, Exceptions.Sanitize(e)))
    case NoReply => None
    case Reply(_) =>
      if o.sendError.Some? then Some(UpdateError(m.updateId, Exceptions.Sanitize(o.sendError.value))) else None
    case Unsupported(t) => Some(UpdateError(m.updateId, Exceptions.Sanitize(UnsupportedOutput(t))))
  }

  /** The error, if any, from acknowledging one update. */
  function AckError(m: Contracts.InboundMessage, o: UpdateOutcome): Option<string> {
    if o.ackError.Some? then Some("update " + m.updateId + ": ack failed: " + Exceptions.Sanitize(o.ackError.value))
    else None
  }

  function OptionToSeq(o: Option<string>): (r: seq<string>)
    ensures |r| <= 1
  {
    if o.Some? then [o.value] else []
  }

  /** The calls made for one update: the handler, the send for a reply, the ack. */
  function CallsFor(m: Contracts.InboundMessage, o: UpdateOutcome): seq<Call> {
    [HandleCall(m.updateId)]
    + (if o.handled.Reply? then [SendCall(o.handled.outbound)] else [])
    + [AckCall(m.updateId)]
  }

  /** The ids of the ack calls in a call sequence, in order. */
  function AckedIds(calls: seq<Call>): seq<string> {
    if |calls| == 0 then []
    else AckedIds(calls[..|calls| - 1]) + (if calls[|calls| - 1].AckCall? then [calls[|calls| - 1].updateId] else [])
  }

  /** The outbound messages of the send calls, in order. */
  function SentMessages(calls: seq<Call>): seq<Contracts.OutboundMessage> {
    if |calls| == 0 then []
    else SentMessages(calls[..|calls| - 1]) + (if calls[|calls| - 1].SendCall? then [calls[|calls| - 1].outbound] else [])
  }

  lemma {:induction false} AckedIdsAppend(a: seq<Call>, b: seq<Call>)
    ensures AckedIds(a + b) == AckedIds(a) + AckedIds(b)
    ensures SentMessages(a + b) == SentMessages(a) + SentMessages(b)
    decreases |b|
  {
    if |b| > 0 {
      assert (a + b)[..|a + b| - 1] == a + b[..|b| - 1];
      AckedIdsAppend(a, b[..|b| - 1]);
    } else {
      assert a + b == a;
    }
  }

  /** One update contributes exactly its own ack, and its reply's send if any. */
  lemma CallsForTrace(m: Contracts.InboundMessage, o: UpdateOutcome)
    ensures AckedIds(CallsFor(m, o)) == [m.updateId]
    ensures SentMessages(CallsFor(m, o)) == if o.handled.Reply? then [o.handled.outbound] else []
  {
    var c := CallsFor(m, o);
    var h := [HandleCall(m.updateId)];
    assert h[..0] == [];
    assert AckedIds(h) == [] && SentMessages(h) == [];
    if o.handled.Reply? {
      var hs := h + [SendCall(o.handled.outbound)];
      assert hs[..1] == h;
      assert c == hs + [AckCall(m.updateId)];
      assert c[..|c| - 1] == hs;
    } else {
      assert c == h + [AckCall(m.updateId)];
      assert c[..|c| - 1] == h;
    }
  }

  function Ids(updates: seq<Contracts.InboundMessage>): (r: seq<string>)
    ensures |r| == |updates| && forall i :: 0 <= i < |updates| ==> r[i] == updates[i].updateId
  {
    seq(|updates|, i requires 0 <= i < |updates| => updates[i].updateId)
  }

  /** The replies among the outcomes, in order. */
  function Replies(outcomes: seq<UpdateOutcome>): (r: seq<Contracts.OutboundMessage>)
    ensures |r| <= |outcomes|
  {
    if |outcomes| == 0 then []
    else Replies(outcomes[..|outcomes| - 1])
         + (if outcomes[|outcomes| - 1].handled.Reply? then [outcomes[|outcomes| - 1].handled.outbound] else [])
  }

  /** The number of outcomes whose ack raised. */
  function AckFailures(outcomes: seq<UpdateOutcome>): (n: nat)
    ensures n <= |outcomes|
  {
    if |outcomes| == 0 then 0
    else AckFailures(outcomes[..|outcomes| - 1]) + (if outcomes[|outcomes| - 1].ackError.Some? then 1 else 0)
  }

  /** The number of outcomes whose reply was sent without raising. */
  function Sends(outcomes: seq<UpdateOutcome>): (n: nat)
    ensures n <= |outcomes|
  {
    if |outcomes| == 0 then 0
    else
      var o := outcomes[|outcomes| - 1];
      Sends(outcomes[..|outcomes| - 1]) + (if o.handled.Reply? && o.sendError.None? then 1 else 0)
  }

  /** An update that went through without any collaborator raising: the handler
      returned None or a reply, the reply was sent, and the ack succeeded. */
  predicate Clean(o: UpdateOutcome) {
    && (o.handled.NoReply? || o.handled.Reply?)
    && (o.handled.Reply? ==> o.sendError.None?)
    && o.ackError.None?
  }

  /** Every update of the cycle went through cleanly. */
  predicate AllClean(outcomes: seq<UpdateOutcome>) {
    forall i :: 0 <= i < |outcomes| ==> Clean(outcomes[i])
  }

  lemma AllCleanSnoc(outcomes: seq<UpdateOutcome>)
    requires |outcomes| > 0
    ensures AllClean(outcomes)
            <==> AllClean(outcomes[..|outcomes| - 1]) && Clean(outcomes[|outcomes| - 1])
  {
    var n := |outcomes| - 1;
    assert forall i :: 0 <= i < n ==> outcomes[..n][i] == outcomes[i];
  }

  /** The errors one update adds, in the order they are appended: the handling
      error first, then the ack error. */
  function Reported(m: Contracts.InboundMessage, o: UpdateOutcome): seq<string> {
    OptionToSeq(HandleError(m, o)) + OptionToSeq(AckError(m, o))
  }

  /** Handling raised: the handler raised, the send of its reply raised, or it
      returned an object of an unsupported type. */
  predicate HandlingFailed(o: UpdateOutcome) {
    o.handled.Raised? || o.handled.Unsupported? || (o.handled.Reply? && o.sendError.Some?)
  }

  /** One update's contribution: its handler, send and ack calls, its counts, its errors. */
  function Step(prev: Tally, m: Contracts.InboundMessage, o: UpdateOutcome): (t: Tally)
    ensures AckedIds(t.calls) == AckedIds(prev.calls) + [m.updateId]
    ensures SentMessages(t.calls) == SentMessages(prev.calls) + (if o.handled.Reply? then [o.handled.outbound] else [])
    ensures t.sent == prev.sent + (if o.handled.Reply? && o.sendError.None? then 1 else 0)
    ensures t.acked == prev.acked + (if o.ackError.None? then 1 else 0)
    // errors are only appended: one for a failed handling, one for a failed ack
    ensures prev.errors <= t.errors
    ensures |t.errors| == |prev.errors| + (if HandlingFailed(o) then 1 else 0) + (if o.ackError.Some? then 1 else 0)
    ensures t.errors == prev.errors <==> Clean(o)
  {
    var sent := if o.handled.Reply? && o.sendError.None? then 1 else 0;
    var acked := if o.ackError.None? then 1 else 0;
    AckedIdsAppend(prev.calls, CallsFor(m, o));
    CallsForTrace(m, o);
    StepErrors(m, o);
    Tally(prev.sent + sent, prev.acked + acked, prev.errors + Reported(m, o), prev.calls + CallsFor(m, o))
  }

  /** The errors one update appends, in the source's words: a failed handling first,
      naming the update and the sanitized exception (the handler's, the send's, or the
      `ChannelRuntimeError` for a result of an unsupported type), a failed ack last. */
  lemma StepErrorWords(prev: Tally, m: Contracts.InboundMessage, o: UpdateOutcome)
    ensures o.handled.Raised? ==>
              Step(prev, m, o).errors[|prev.errors|] == "update " + m.updateId + ": " + Exceptions.Sanitize(o.handled.exc)
    ensures o.handled.Reply? && o.sendError.Some? ==>
              Step(prev, m, o).errors[|prev.errors|] == "update " + m.updateId + ": " + Exceptions.Sanitize(o.sendError.value)
    ensures o.handled.Unsupported? ==>
              Step(prev, m, o).errors[|prev.errors|] == "update " + m.updateId + ": " + Exceptions.Sanitize(
                Exceptions.Exc("ChannelRuntimeError", "orchestrator returned unsupported output type: " + o.handled.typeName))
    ensures o.ackError.Some? ==>
              Step(prev, m, o).errors[|Step(prev, m, o).errors| - 1] == "update " + m.updateId + ": ack failed: " + Exceptions.Sanitize(o.ackError.value)
  {
    var t := Step(prev, m, o);
    HandleErrorWords(m, o);
    AckErrorWords(m, o);
    assert t.errors == prev.errors + Reported(m, o);
    assert HandlingFailed(o) ==> t.errors[|prev.errors|] == HandleError(m, o).value;
    assert o.ackError.Some? ==> t.errors[|t.errors| - 1] == AckError(m, o).value;
  }

  /** One update adds one error per failed step, and none exactly when it went through cleanly. */
  lemma StepErrors(m: Contracts.InboundMessage, o: UpdateOutcome)
    ensures |Reported(m, o)| == (if HandlingFailed(o) then 1 else 0) + (if o.ackError.Some? then 1 else 0)
    ensures Reported(m, o) == [] <==> Clean(o)
  {
  }

  /** A failed handling is reported as the update's id and the sanitized exception:
      the handler's, the send's, or the `ChannelRuntimeError` for an unsupported result. */
  lemma HandleErrorWords(m: Contracts.InboundMessage, o: UpdateOutcome)
    ensures o.handled.Raised? ==>
              HandleError(m, o) == Some("update " + m.updateId + ": " + Exceptions.Sanitize(o.handled.exc))
    ensures o.handled.Reply? && o.sendError.Some? ==>
              HandleError(m, o) == Some("update " + m.updateId + ": " + Exceptions.Sanitize(o.sendError.value))
    ensures o.handled.Unsupported? ==>
              HandleError(m, o) == Some("update " + m.updateId + ": " + Exceptions.Sanitize(
                Exceptions.Exc("ChannelRuntimeError", "orchestrator returned unsupported output type: " + o.handled.typeName)))
    ensures !HandlingFailed(o) ==> HandleError(m, o).None?
  {
  }

  /** A failed ack is reported as the update's id, "ack failed", and the sanitized exception. */
  lemma AckErrorWords(m: Contracts.InboundMessage, o: UpdateOutcome)
    ensures o.ackError.Some? ==>
              AckError(m, o) == Some("update " + m.updateId + ": ack failed: " + Exceptions.Sanitize(o.ackError.value))
    ensures o.ackError.None? ==> AckError(m, o).None?
  {
  }

  /** The lists joined front to back. */
  function Flatten(xss: seq<seq<string>>): seq<string>
    decreases |xss|
  {
    if |xss| == 0 then [] else xss[0] + Flatten(xss[1..])
  }

  lemma {:induction false} FlattenSnoc(xss: seq<seq<string>>)
    requires |xss| > 0
    ensures Flatten(xss) == Flatten(xss[..|xss| - 1]) + xss[|xss| - 1]
    decreases |xss|
  {
    var n := |xss| - 1;
    if n > 0 {
      FlattenSnoc(xss[1..]);
      assert xss[1..][..n - 1] == xss[..n][1..];
    }
  }

  lemma {:induction false} FlattenContains(xss: seq<seq<string>>, i: nat)
    requires i < |xss|
    ensures forall e :: e in xss[i] ==> e in Flatten(xss)
    decreases i
  {
    if i > 0 {
      FlattenContains(xss[1..], i - 1);
    }
  }

  /** Each update's errors, in fetch order. */
  function PerUpdate(updates: seq<Contracts.InboundMessage>, outcomes: seq<UpdateOutcome>): (r: seq<seq<string>>)
    requires |outcomes| == |updates|
    ensures |r| == |updates| && forall i :: 0 <= i < |updates| ==> r[i] == Reported(updates[i], outcomes[i])
  {
    seq(|updates|, i requires 0 <= i < |updates| => Reported(updates[i], outcomes[i]))
  }

  /** The errors of a whole cycle: each update's errors, in fetch order. */
  function ErrorsOf(updates: seq<Contracts.InboundMessage>, outcomes: seq<UpdateOutcome>): seq<string>
    requires |outcomes| == |updates|
  {
    Flatten(PerUpdate(updates, outcomes))
  }

  /** `ErrorsOf`, read from the back: the last update's errors come last. */
  lemma ErrorsOfSnoc(updates: seq<Contracts.InboundMessage>, outcomes: seq<UpdateOutcome>)
    requires |outcomes| == |updates| > 0
    ensures var n := |updates| - 1;
            ErrorsOf(updates, outcomes) == ErrorsOf(updates[..n], outcomes[..n]) + Reported(updates[n], outcomes[n])
  {
    var n := |updates| - 1;
    var all := PerUpdate(updates, outcomes);
    FlattenSnoc(all);
    assert all[..n] == PerUpdate(updates[..n], outcomes[..n]);
  }

  /** Every error of one update appears among the cycle's errors. */
  lemma ErrorsOfContains(updates: seq<Contracts.InboundMessage>, outcomes: seq<UpdateOutcome>, i: nat)
    requires |outcomes| == |updates| && i < |updates|
    ensures forall e :: e in Reported(updates[i], outcomes[i]) ==> e in ErrorsOf(updates, outcomes)
  {
    FlattenContains(PerUpdate(updates, outcomes), i);
  }

  /** The loop of `process_once` over the fetched updates. Every update is handled,
      then acked in a `finally`, whatever handling or sending raised. */
  function Loop(updates: seq<Contracts.InboundMessage>, outcomes: seq<UpdateOutcome>): (t: Tally)
    requires |outcomes| == |updates|
    // every update is handled and acked exactly once, in fetch order
    ensures AckedIds(t.calls) == Ids(updates)
    // exactly the replies are sent, each once, in order
    ensures SentMessages(t.calls) == Replies(outcomes)
    // counts
    ensures t.sent == Sends(outcomes) && Sends(outcomes) <= |Replies(outcomes)| <= |updates|
    ensures t.acked + AckFailures(outcomes) == |updates|
    ensures |t.errors| <= 2 * |updates|
    ensures t.errors == [] <==> AllClean(outcomes)
    // the errors are each update's errors, in fetch order
    ensures t.errors == ErrorsOf(updates, outcomes)
    decreases |updates|
  {
    if |updates| == 0 then Tally(0, 0, [], [])
    else
      var n := |updates| - 1;
      var prev := Loop(updates[..n], outcomes[..n]);
      LoopTraceStep(prev, updates, outcomes);
      LoopCountStep(prev, updates, outcomes);
      ErrorsOfSnoc(updates, outcomes);
      Step(prev, updates[n], outcomes[n])
  }

  /** The calls of one more update extend the acked ids and the sent replies. */
  lemma LoopTraceStep(prev: Tally, updates: seq<Contracts.InboundMessage>, outcomes: seq<UpdateOutcome>)
    requires |outcomes| == |updates| > 0
    requires AckedIds(prev.calls) == Ids(updates[..|updates| - 1])
    requires SentMessages(prev.calls) == Replies(outcomes[..|updates| - 1])
    ensures var t := Step(prev, updates[|updates| - 1], outcomes[|updates| - 1]);
            AckedIds(t.calls) == Ids(updates) && SentMessages(t.calls) == Replies(outcomes)
  {
    var n := |updates| - 1;
    IdsSnoc(updates);
    var o := outcomes[n];
    assert Replies(outcomes) == Replies(outcomes[..n]) + (if o.handled.Reply? then [o.handled.outbound] else []);
  }

  lemma IdsSnoc(updates: seq<Contracts.InboundMessage>)
    requires |updates| > 0
    ensures Ids(updates) == Ids(updates[..|updates| - 1]) + [updates[|updates| - 1].updateId]
  {
  }

  /** The counts and errors of one more update extend those of the prefix. */
  lemma LoopCountStep(prev: Tally, updates: seq<Contracts.InboundMessage>, outcomes: seq<UpdateOutcome>)
    requires |outcomes| == |updates| > 0
    requires prev.sent == Sends(outcomes[..|updates| - 1])
    requires prev.acked + AckFailures(outcomes[..|updates| - 1]) == |updates| - 1
    requires |prev.errors| <= 2 * (|updates| - 1)
    requires prev.errors == [] <==> AllClean(outcomes[..|updates| - 1])
    ensures var t := Step(prev, updates[|updates| - 1], outcomes[|updates| - 1]);
            && t.sent == Sends(outcomes)
            && t.acked + AckFailures(outcomes) == |updates|
            && |t.errors| <= 2 * |updates|
            && (t.errors == [] <==> AllClean(outcomes))
  {
    AllCleanSnoc(outcomes);
  }

  /** `process_once`. `fetch` is what `adapter.fetch_updates()` returned or raised;
      `outcomes` the collaborators' behaviour for each fetched update. The result
      carries the calls made on the collaborators. */
  function ProcessOnce(fetch: Result<seq<Contracts.InboundMessage>, Exceptions.Exc>, outcomes: seq<UpdateOutcome>)
    : (r: (ProcessResult, seq<Call>))
    requires fetch.Ok? ==> |outcomes| == |fetch.value|
    // a failed fetch: one error, zero counts, no other call
    ensures fetch.Err? ==>
              r == (ProcessResult("failed", "adapter-fetch-exception", 0, 0, 0, 1, [Exceptions.Sanitize(fetch.error)]), [])
    // nothing fetched: ok with zero counts
    ensures fetch == Ok([]) ==> r == (ProcessResult("ok", "no-updates", 0, 0, 0, 0, []), [])
    // otherwise the cycle completes with status ok whatever happened per update
    ensures fetch.Ok? && |fetch.value| > 0 ==>
              && r.0.status == "ok"
              && r.0.fetchedCount == |fetch.value|
              && r.0.sentCount == Sends(outcomes) <= r.0.fetchedCount
              && r.0.ackedCount + AckFailures(outcomes) == r.0.fetchedCount
              && r.0.errorCount == |r.0.errors| <= 2 * r.0.fetchedCount
              && r.0.errors == ErrorsOf(fetch.value, outcomes)
              && (r.0.reason == "processed" <==> r.0.errors == [])
              && (r.0.reason == "processed" <==> AllClean(outcomes))
              && (r.0.reason != "processed" ==> r.0.reason == "completed-with-errors")
              && AckedIds(r.1) == Ids(fetch.value)
              && SentMessages(r.1) == Replies(outcomes)
  {
    match fetch
    case Err(e) =>
      (ProcessResult("failed", "adapter-fetch-exception", 0, 0, 0, 1, [Exceptions.Sanitize(e)]), [])
    case Ok(updates) =>
      if |updates| == 0 then (ProcessResult("ok", "no-updates", 0, 0, 0, 0, []), [])
      else
        var t := Loop(updates, outcomes);
        (ProcessResult("ok", if |t.errors| == 0 then "processed" else "completed-with-errors",
                       |updates|, t.sent, t.acked, |t.errors|, t.errors),
         t.calls)
  }

  /** A failure on one update does not stop the next: with every handler raising,
      every update is still acknowledged. */
  lemma AllHandlersRaising(updates: seq<Contracts.InboundMessage>, outcomes: seq<UpdateOutcome>)
    requires |updates| > 0 && |outcomes| == |updates|
    requires forall i :: 0 <= i < |outcomes| ==> outcomes[i].handled.Raised? && outcomes[i].ackError.None?
    ensures var r := ProcessOnce(Ok(updates), outcomes);
            r.0.status == "ok" && r.0.reason == "completed-with-errors"
            && r.0.ackedCount == |updates| && r.0.sentCount == 0
            && AckedIds(r.1) == Ids(updates)
  {
    NoAckFailures(outcomes);
    NoRepliesSentNothing(outcomes);
    assert !Clean(outcomes[0]);
  }

  lemma {:induction false} NoAckFailures(outcomes: seq<UpdateOutcome>)
    requires forall i :: 0 <= i < |outcomes| ==> outcomes[i].ackError.None?
    ensures AckFailures(outcomes) == 0
    decreases |outcomes|
  {
    if |outcomes| > 0 {
      NoAckFailures(outcomes[..|outcomes| - 1]);
    }
  }

  lemma {:induction false} NoRepliesSentNothing(outcomes: seq<UpdateOutcome>)
    requires forall i :: 0 <= i < |outcomes| ==> !outcomes[i].handled.Reply?
    ensures Sends(outcomes) == 0
    decreases |outcomes|
  {
    if |outcomes| > 0 {
      NoRepliesSentNothing(outcomes[..|outcomes| - 1]);
    }
  }

  lemma {:induction false} RepliesAppend(a: seq<UpdateOutcome>, b: seq<UpdateOutcome>)
    ensures Replies(a + b) == Replies(a) + Replies(b)
    decreases |b|
  {
    if |b| > 0 {
      assert (a + b)[..|a + b| - 1] == a + b[..|b| - 1];
      RepliesAppend(a, b[..|b| - 1]);
    } else {
      assert a + b == a;
    }
  }

  /** An outcome that is not a reply contributes no send: the replies are those of the
      outcomes before it and after it. */
  lemma RepliesSkip(outcomes: seq<UpdateOutcome>, i: nat)
    requires i < |outcomes| && !outcomes[i].handled.Reply?
    ensures Replies(outcomes) == Replies(outcomes[..i]) + Replies(outcomes[i + 1..])
  {
    var upto := outcomes[..i + 1];
    assert outcomes == upto + outcomes[i + 1..];
    RepliesAppend(upto, outcomes[i + 1..]);
    assert upto[..i] == outcomes[..i];
  }

  /** A handler result of an unsupported type is recorded as a `ChannelRuntimeError`
      naming the type, the cycle completes with errors, and nothing is sent for it:
      the sends are the replies of the other updates. */
  lemma UnsupportedRecordedNotSent(updates: seq<Contracts.InboundMessage>, outcomes: seq<UpdateOutcome>, i: nat)
    requires |outcomes| == |updates| && i < |updates|
    requires outcomes[i].handled.Unsupported?
    ensures var r := ProcessOnce(Ok(updates), outcomes);
            && r.0.reason == "completed-with-errors"
            && "update " + updates[i].updateId + ": " + Exceptions.Sanitize(Exceptions.Exc("ChannelRuntimeError",
                 "orchestrator returned unsupported output type: " + outcomes[i].handled.typeName)) in r.0.errors
            && SentMessages(r.1) == Replies(outcomes[..i]) + Replies(outcomes[i + 1..])
  {
    var r := ProcessOnce(Ok(updates), outcomes);
    assert !Clean(outcomes[i]);
    assert r.0.reason == "completed-with-errors";
    HandleErrorWords(updates[i], outcomes[i]);
    assert HandleError(updates[i], outcomes[i]).value in Reported(updates[i], outcomes[i]);
    ErrorsOfContains(updates, outcomes, i);
    RepliesSkip(outcomes, i);
  }
}
