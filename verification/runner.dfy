/** The channel runtime around one service cycle: the allowlist gate in front of the
    orchestrator, the echo orchestrator, the heartbeat failure emitter, the merge of
    drained diagnostics into the cycle result, and the polling loop. */
module ChannelRunner {
  import opened Wrappers
  import Text
  import Numbers
  import Contracts
  import Exceptions
  import ChannelService

  // ---------------------------------------------------------------------------
  // Chat ids and the allowlist gate
  // ---------------------------------------------------------------------------

  /** `_normalize_chat_id_value`: the trimmed text, in canonical decimal when it is
      an integer; None when blank. */
  function NormalizeChatId(value: string): (r: Option<string>)
    ensures r.None? <==> Text.IsBlank(value)
    ensures r.Some? ==> r.value != "" && Text.NoEdgeSpace(r.value)
    ensures Numbers.PyIntOfText(value).Some? ==> r == Some(Numbers.IntToString(Numbers.PyIntOfText(value).value))
    ensures !Text.IsBlank(value) && Numbers.PyIntOfText(value).None? ==> r == Some(Text.Strip(value))
  {
    var text := Text.Strip(value);
    if text == "" then None
    else match Numbers.ParseInt(text)
      case Some(i) => Some(Numbers.IntToString(i))
      case None => Some(text)
  }

  /** Normalising a normalised chat id changes nothing. */
  lemma NormalizeChatIdIdempotent(value: string)
    requires NormalizeChatId(value).Some?
    ensures NormalizeChatId(NormalizeChatId(value).value) == NormalizeChatId(value)
  {
    var n := NormalizeChatId(value).value;
    assert Text.Strip(n) == n;
    match Numbers.PyIntOfText(value)
    case Some(i) =>
      Numbers.IntToStringParses(i);
    case None =>
  }

  /** Leading zeros do not make a different chat: "0042" and "42" normalise alike. */
  lemma ZeroPaddedChatId(z: string, n: nat)
    requires Numbers.AllZeros(z)
    ensures NormalizeChatId(z + Numbers.NatToString(n)) == NormalizeChatId(Numbers.NatToString(n))
    ensures NormalizeChatId(Numbers.NatToString(n)) == Some(Numbers.NatToString(n))
  {
    var s := Numbers.NatToString(n);
    Numbers.ZeroPaddedParses(z, n);
    Numbers.ZeroPaddedParses("", n);
    assert "" + s == s;
    var t := z + s;
    assert t[|t| - 1] == s[|s| - 1];
    assert Numbers.IsDigit(t[0]) && Numbers.IsDigit(t[|t| - 1]);
    assert Text.Strip(t) == t;
    assert Text.Strip(s) == s;
    assert Numbers.IntToString(n) == s;
  }

  /** A diagnostic dict as the runtime reads it; absent keys are None. */
  datatype Diag = Diag(code: string, message: Option<string>, updateId: Option<string>, chatId: Option<string>)

  /** AllowlistGateOrchestrator: the normalised allowed chat ids and its own diagnostics. */
  datatype Gate = Gate(allowed: set<string>, diagnostics: seq<Diag>)

  function NewGate(allowedChatIds: seq<string>): (g: Gate)
    ensures g.diagnostics == []
    ensures forall k :: 0 <= k < |allowedChatIds| && !Text.IsBlank(allowedChatIds[k]) ==>
              NormalizeChatId(allowedChatIds[k]).value in g.allowed
    ensures forall c :: c in g.allowed ==> exists k :: 0 <= k < |allowedChatIds| && NormalizeChatId(allowedChatIds[k]) == Some(c)
  {
    Gate(set k | 0 <= k < |allowedChatIds| && NormalizeChatId(allowedChatIds[k]).Some? :: NormalizeChatId(allowedChatIds[k]).value, [])
  }

  /** Whether the gate lets a chat through: an empty allowlist admits every chat. */
  predicate Admits(g: Gate, chatId: string) {
    g.allowed == {} || (NormalizeChatId(chatId).Some? && NormalizeChatId(chatId).value in g.allowed)
  }

  function AllowlistDrop(m: Contracts.InboundMessage): Diag {
    Diag("allowlist-drop",
         Some("dropped update " + m.updateId + ": chat_id not allowlisted (" + m.chatId + ")"),
         Some(m.updateId), Some(m.chatId))
  }

  datatype GateStep = GateStep(gate: Gate, reply: Option<Contracts.OutboundMessage>, delegated: bool)

  /** The gate's `handle_message`. `delegateReply` is what the wrapped orchestrator
      returns when it is called. */
  function GateHandle(g: Gate, m: Contracts.InboundMessage, delegateReply: Option<Contracts.OutboundMessage>)
    : (s: GateStep)
    // a chat not on a non-empty allowlist: no reply, one drop record, no delegate call
    ensures !Admits(g, m.chatId) ==>
              s.reply.None? && !s.delegated && s.gate.allowed == g.allowed
              && s.gate.diagnostics == g.diagnostics + [AllowlistDrop(m)]
    // otherwise the delegate's reply, and nothing recorded
    ensures Admits(g, m.chatId) ==> s == GateStep(g, delegateReply, true)
  {
    if !Admits(g, m.chatId) then GateStep(g.(diagnostics := g.diagnostics + [AllowlistDrop(m)]), None, false)
    else GateStep(g, delegateReply, true)
  }

  /** A chat listed in the allowlist, in any spelling that normalises alike, is let through. */
  lemma ListedChatAdmitted(allowedChatIds: seq<string>, k: nat, chatId: string)
    requires k < |allowedChatIds| && !Text.IsBlank(allowedChatIds[k])
    requires NormalizeChatId(chatId) == NormalizeChatId(allowedChatIds[k])
    ensures Admits(NewGate(allowedChatIds), chatId)
  {
  }

  /** A chat whose normalised id matches no entry of a non-empty allowlist is dropped. */
  lemma UnlistedChatDropped(allowedChatIds: seq<string>, chatId: string)
    requires exists k :: 0 <= k < |allowedChatIds| && !Text.IsBlank(allowedChatIds[k])
    requires forall k :: 0 <= k < |allowedChatIds| ==> NormalizeChatId(allowedChatIds[k]) != NormalizeChatId(chatId)
    ensures !Admits(NewGate(allowedChatIds), chatId)
  {
    var k :| 0 <= k < |allowedChatIds| && !Text.IsBlank(allowedChatIds[k]);
    assert NormalizeChatId(allowedChatIds[k]).value in NewGate(allowedChatIds).allowed;
  }

  /** The gate's `drain_diagnostics`: its own records, then the delegate's; its own
      buffer is emptied. */
  function GateDrain(g: Gate, delegateDiagnostics: seq<Diag>): (r: (Gate, seq<Diag>))
    ensures r.0 == g.(diagnostics := [])
    ensures |r.1| == |g.diagnostics| + |delegateDiagnostics|
    ensures r.1[..|g.diagnostics|] == g.diagnostics && r.1[|g.diagnostics|..] == delegateDiagnostics
  {
    (g.(diagnostics := []), g.diagnostics + delegateDiagnostics)
  }

  /** Draining twice in a row yields nothing of the gate's own the second time. */
  lemma GateDrainEmpties(g: Gate, first: seq<Diag>, second: seq<Diag>)
    ensures GateDrain(GateDrain(g, first).0, second).1 == second
  {
  }

  // ---------------------------------------------------------------------------
  // DefaultOrchestrator
  // ---------------------------------------------------------------------------

  datatype Echo = Echo(memoryHook: bool, diagnostics: seq<Diag>)

  function OrchestratorError(m: Contracts.InboundMessage, e: Exceptions.Exc): Diag {
    Diag("orchestrator-error", Some(Exceptions.Sanitize(e)), Some(m.updateId), None)
  }

  /** The reply text: the echo, with the memory note when the lookup found something. */
  function EchoText(text: string, memory: Option<string>): string {
    if memory.Some? && memory.value != "" then "echo: " + text + "\n\nmemory: " + memory.value
    else "echo: " + text
  }

  /** The lookup's text when the hook is on and the lookup returned. */
  function MemoryNote(memoryHook: bool, lookup: Result<Option<string>, Exceptions.Exc>): Option<string> {
    if memoryHook && lookup.Ok? then lookup.value else None
  }

  /** The reply text is never blank: it always starts with "echo: ". */
  lemma EchoTextNotBlank(text: string, memory: Option<string>)
    ensures !Text.IsBlank(EchoText(text, memory))
    ensures Text.StartsWith(EchoText(text, memory), "echo: ")
  {
    var t := EchoText(text, memory);
    assert t[0] == 'e';
    assert !Text.IsSpace(t[0]);
  }

  /** What DefaultOrchestrator's `handle_message` builds, or the exception it catches.
      `lookup` is what the memory lookup returned or raised; it is consulted only with
      the memory hook on. */
  function EchoReply(memoryHook: bool, m: Contracts.InboundMessage, sessionId: string,
                     lookup: Result<Option<string>, Exceptions.Exc>)
    : (r: Result<Contracts.OutboundMessage, Exceptions.Exc>)
    // a reply goes to the same chat, in reply to the inbound message, tagged with the session
    ensures r.Ok? ==> r.value == Contracts.OutboundMessage(
                        m.chatId, EchoText(m.text, MemoryNote(memoryHook, lookup)),
                        m.messageId, map["session_id" := sessionId])
    // a raising lookup is what is caught
    ensures memoryHook && lookup.Err? ==> r == Err(lookup.error)
    // otherwise the only failure is a blank chat id
    ensures !(memoryHook && lookup.Err?) ==> (r.Ok? <==> !Text.IsBlank(m.chatId))
  {
    if memoryHook && lookup.Err? then Err(lookup.error)
    else
      var text := EchoText(m.text, MemoryNote(memoryHook, lookup));
      EchoTextNotBlank(m.text, MemoryNote(memoryHook, lookup));
      match Contracts.NewOutbound(m.chatId, text, m.messageId, map["session_id" := sessionId])
      case Ok(out) => Ok(out)
      case Err(msg) => Err(Exceptions.Exc("ContractValidationError", msg))
  }

  /** DefaultOrchestrator's `handle_message`: the reply, or one orchestrator-error record. */
  function EchoHandle(o: Echo, m: Contracts.InboundMessage, sessionId: string,
                      lookup: Result<Option<string>, Exceptions.Exc>)
    : (r: (Echo, Option<Contracts.OutboundMessage>))
    ensures r.0.memoryHook == o.memoryHook
    ensures r.1.Some? ==> r.0 == o && Contracts.ValidOutbound(r.1.value)
    ensures r.1.None? ==> |r.0.diagnostics| == |o.diagnostics| + 1
                          && r.0.diagnostics[..|o.diagnostics|] == o.diagnostics
                          && r.0.diagnostics[|o.diagnostics|].code == "orchestrator-error"
                          && r.0.diagnostics[|o.diagnostics|].updateId == Some(m.updateId)
    // a valid message without a failing lookup is always answered
    ensures Contracts.ValidInbound(m) && !(o.memoryHook && lookup.Err?) ==> r.1.Some?
  {
    match EchoReply(o.memoryHook, m, sessionId, lookup)
    case Ok(out) =>
      EchoTextNotBlank(m.text, MemoryNote(o.memoryHook, lookup));
      (o, Some(out))
    case Err(e) => (o.(diagnostics := o.diagnostics + [OrchestratorError(m, e)]), None)
  }

  /** With the memory hook off, the reply text is the inbound text behind the "echo: " prefix. */
  lemma EchoRecoversText(m: Contracts.InboundMessage, sessionId: string,
                         lookup: Result<Option<string>, Exceptions.Exc>)
    requires !Text.IsBlank(m.chatId)
    ensures var r := EchoReply(false, m, sessionId, lookup);
            r.Ok? && r.value.text[..|"echo: "|] == "echo: " && r.value.text[|"echo: "|..] == m.text
  {
  }

  // ---------------------------------------------------------------------------
  // HeartbeatEventEmitter and the emit state
  // ---------------------------------------------------------------------------

  /** `emit_failure`: True only when enabled and the publisher returned; it never raises.
      `publishRaises` is whether the publisher (given or default) raised. */
  function EmitFailure(enabled: bool, publishRaises: bool): (emitted: bool)
    ensures emitted <==> enabled && !publishRaises
  {
    if !enabled then false
    else !publishRaises
  }

  /** `_derive_heartbeat_emit_state`. */
  function EmitState(enabled: bool, attempted: int, failures: int): (s: string)
    ensures s in {"disabled", "emit-failed", "emitted"}
  {
    if !enabled || attempted <= 0 then "disabled"
    else if failures > 0 then "emit-failed"
    else "emitted"
  }

  datatype EmitCounts = EmitCounts(attempts: nat, failures: nat)

  /** The counters `_emit_failure` keeps across a cycle's emits, given whether each
      publish raised. */
  function CountEmits(enabled: bool, publishRaises: seq<bool>): (c: EmitCounts)
    ensures c.failures <= c.attempts
    ensures c.attempts == if enabled then |publishRaises| else 0
    decreases |publishRaises|
  {
    if |publishRaises| == 0 then EmitCounts(0, 0)
    else
      var prev := CountEmits(enabled, publishRaises[..|publishRaises| - 1]);
      var emitted := EmitFailure(enabled, publishRaises[|publishRaises| - 1]);
      EmitCounts(prev.attempts + (if enabled then 1 else 0),
                 prev.failures + (if enabled && !emitted then 1 else 0))
  }

  lemma {:induction false} FailuresIffSomeRaise(enabled: bool, publishRaises: seq<bool>)
    requires enabled
    ensures CountEmits(enabled, publishRaises).failures > 0 <==> true in publishRaises
    decreases |publishRaises|
  {
    if |publishRaises| > 0 {
      var init := publishRaises[..|publishRaises| - 1];
      FailuresIffSomeRaise(enabled, init);
      assert publishRaises == init + [publishRaises[|publishRaises| - 1]];
    }
  }

  /** After a cycle's emits, the state is disabled when the emitter is off or nothing was
      emitted, emit-failed when any publish raised, and emitted otherwise. */
  lemma EmitStateAfter(enabled: bool, publishRaises: seq<bool>)
    ensures var c := CountEmits(enabled, publishRaises);
            EmitState(enabled, c.attempts, c.failures)
            == if !enabled || |publishRaises| == 0 then "disabled"
               else if true in publishRaises then "emit-failed"
               else "emitted"
  {
    if enabled {
      FailuresIffSomeRaise(enabled, publishRaises);
    }
  }

  // ---------------------------------------------------------------------------
  // Diagnostic merge in run_cycle
  // ---------------------------------------------------------------------------

  datatype Dropped = Dropped(updateId: string, chatId: string, reason: string)

  /** The run_cycle result, without telemetry and error details. */
  datatype CycleResult = CycleResult(
    status: string,
    reason: string,
    fetchedCount: nat,
    sentCount: nat,
    ackedCount: nat,
    errorCount: nat,
    errors: seq<string>,
    droppedUpdates: seq<Dropped>)

  predicate IsDrop(d: Diag) {
    Text.Strip(d.code) in {"allowlist-drop", "stale-drop"}
  }

  function DropEntry(d: Diag): Dropped {
    var code := Text.Strip(d.code);
    Dropped(d.updateId.GetOr(""), d.chatId.GetOr(""),
            d.message.GetOr((if code == "" then "diagnostic" else code) + " drop"))
  }

  /** The drop records among the diagnostics, in order. */
  function Drops(ds: seq<Diag>): (r: seq<Dropped>)
    ensures |r| <= |ds|
    decreases |ds|
  {
    if |ds| == 0 then []
    else Drops(ds[..|ds| - 1]) + (if IsDrop(ds[|ds| - 1]) then [DropEntry(ds[|ds| - 1])] else [])
  }

  /** The error messages of the other diagnostics, in order. */
  function DiagnosticErrors(ds: seq<Diag>): (r: seq<string>)
    ensures |r| <= |ds|
    ensures |Drops(ds)| + |r| == |ds|
    decreases |ds|
  {
    if |ds| == 0 then []
    else DiagnosticErrors(ds[..|ds| - 1]) + (if IsDrop(ds[|ds| - 1]) then [] else [ds[|ds| - 1].message.GetOr("unknown")])
  }

  lemma {:induction false} OnlyDropsNoErrors(ds: seq<Diag>)
    requires forall k :: 0 <= k < |ds| ==> IsDrop(ds[k])
    ensures DiagnosticErrors(ds) == [] && |Drops(ds)| == |ds|
    decreases |ds|
  {
    if |ds| > 0 {
      OnlyDropsNoErrors(ds[..|ds| - 1]);
    }
  }

  /** The process_once result as run_cycle receives it. */
  function FromService(p: ChannelService.ProcessResult): CycleResult {
    CycleResult(p.status, p.reason, p.fetchedCount, p.sentCount, p.ackedCount, p.errorCount, p.errors, [])
  }

  /** The merge of drained diagnostics (the gate's then the adapter's) into the result:
      drops are listed as dropped updates, every other diagnostic is an error. */
  function Merge(r: CycleResult, ds: seq<Diag>): (m: CycleResult)
    ensures m.status == r.status
    ensures m.fetchedCount == r.fetchedCount && m.sentCount == r.sentCount && m.ackedCount == r.ackedCount
    ensures m.errors == r.errors + DiagnosticErrors(ds)
    ensures m.errorCount == r.errorCount + |DiagnosticErrors(ds)|
    ensures m.droppedUpdates == Drops(ds)
    ensures m.reason == if r.status == "ok" && DiagnosticErrors(ds) != [] then "completed-with-errors" else r.reason
  {
    var errs := DiagnosticErrors(ds);
    var merged := if errs == [] then r
                  else r.(errors := r.errors + errs, errorCount := r.errorCount + |errs|,
                          reason := if r.status == "ok" then "completed-with-errors" else r.reason);
    merged.(droppedUpdates := Drops(ds))
  }

  /** Drop records never count as errors: with only drops, the errors and the reason are
      those of process_once, and every diagnostic is a dropped update. */
  lemma DropsAreNotErrors(r: CycleResult, ds: seq<Diag>)
    requires forall k :: 0 <= k < |ds| ==> IsDrop(ds[k])
    ensures Merge(r, ds).errors == r.errors && Merge(r, ds).errorCount == r.errorCount
    ensures Merge(r, ds).reason == r.reason && |Merge(r, ds).droppedUpdates| == |ds|
  {
    OnlyDropsNoErrors(ds);
  }

  /** The merge keeps process_once's invariants: the error count is the number of errors,
      and a completed cycle reads "processed" exactly when there are none. */
  lemma MergeKeepsCycleInvariants(fetch: Result<seq<Contracts.InboundMessage>, Exceptions.Exc>,
                                  outcomes: seq<ChannelService.UpdateOutcome>, ds: seq<Diag>)
    requires fetch.Ok? && |fetch.value| > 0 && |outcomes| == |fetch.value|
    ensures var m := Merge(FromService(ChannelService.ProcessOnce(fetch, outcomes).0), ds);
            m.errorCount == |m.errors| && m.status == "ok"
            && (m.reason == "processed" <==> m.errors == [])
            && |m.droppedUpdates| + |DiagnosticErrors(ds)| == |ds|
  {
  }

  /** The failure events a completed cycle emits: one for a service result that failed
      or has errors, and one per diagnostic that is not a drop. */
  function CycleEmits(r: CycleResult, ds: seq<Diag>): nat {
    (if r.status != "ok" || r.errorCount > 0 then 1 else 0) + |DiagnosticErrors(ds)|
  }

  /** A cycle emits a failure event exactly when its merged result is not a clean ok. */
  lemma FailureEmittedIffUnclean(r: CycleResult, ds: seq<Diag>)
    ensures CycleEmits(r, ds) == 0 <==> Merge(r, ds).status == "ok" && Merge(r, ds).errorCount == 0
  {
  }

  // ---------------------------------------------------------------------------
  // run_cycle: as written, and as intended
  // ---------------------------------------------------------------------------

  /** The exception Python raises when `process_once` is called with a keyword it does not
      declare. */
  const AckPolicyKeyword := Exceptions.Exc("TypeError", "process_once() got an unexpected keyword argument 'ack_policy'")

  function ProcessOnceException(e: Exceptions.Exc): CycleResult {
    CycleResult("failed", "runtime-process-once-exception", 0, 0, 0, 1, [Exceptions.Sanitize(e)], [])
  }

  /** run_cycle as written: the call passes `ack_policy=`, which `process_once` does not
      accept, so the call raises before fetching and the cycle reports the exception. The
      inputs are those of the intended cycle; none of them is reached. */
  function RunCycleAsWritten(fetch: Result<seq<Contracts.InboundMessage>, Exceptions.Exc>,
                             outcomes: seq<ChannelService.UpdateOutcome>, ds: seq<Diag>)
    : (r: (CycleResult, seq<ChannelService.Call>))
    requires fetch.Ok? ==> |outcomes| == |fetch.value|
    ensures r.0.status == "failed" && r.0.reason == "runtime-process-once-exception"
    ensures r.0.errorCount == 1 && |r.0.errors| == 1 && r.1 == []
  {
    (ProcessOnceException(AckPolicyKeyword), [])
  }

  /** The discrepancy: whatever the adapter would return, the cycle as written fetches
      nothing and acknowledges nothing, and an empty fetch is still reported as failed. */
  lemma AsWrittenNeverAcks(updates: seq<Contracts.InboundMessage>, outcomes: seq<ChannelService.UpdateOutcome>)
    requires |outcomes| == |updates| && |updates| > 0
    ensures ChannelService.AckedIds(RunCycleAsWritten(Ok(updates), outcomes, []).1) == []
    ensures ChannelService.AckedIds(ChannelService.ProcessOnce(Ok(updates), outcomes).1) != []
    ensures RunCycleAsWritten(Ok([]), [], []).0.status == "failed"
  {
    assert ChannelService.Ids(updates)[0] == updates[0].updateId;
  }

  /** run_cycle as intended: process_once without the keyword, then the diagnostic merge. */
  function RunCycle(fetch: Result<seq<Contracts.InboundMessage>, Exceptions.Exc>,
                    outcomes: seq<ChannelService.UpdateOutcome>, ds: seq<Diag>)
    : (r: (CycleResult, seq<ChannelService.Call>))
    requires fetch.Ok? ==> |outcomes| == |fetch.value|
    // every fetched update is acknowledged once, in order
    ensures fetch.Ok? ==> ChannelService.AckedIds(r.1) == ChannelService.Ids(fetch.value)
    ensures fetch.Err? ==> r.0.status == "failed" && r.0.reason == "adapter-fetch-exception" && r.1 == []
    ensures fetch.Ok? ==> r.0.status == "ok"
    ensures r.0.errorCount == |r.0.errors|
    ensures r.0.droppedUpdates == Drops(ds)
    // the service's errors come first, then one per diagnostic that is not a drop
    ensures r.0.errors == ChannelService.ProcessOnce(fetch, outcomes).0.errors + DiagnosticErrors(ds)
    ensures fetch.Ok? && |fetch.value| > 0 ==> (r.0.reason == "processed" <==> r.0.errors == [])
  {
    var (p, calls) := ChannelService.ProcessOnce(fetch, outcomes);
    (Merge(FromService(p), ds), calls)
  }

  /** An empty fetch with nothing to report is a clean cycle when the call is made as
      intended. */
  lemma IntendedEmptyCycle()
    ensures RunCycle(Ok([]), [], []).0.status == "ok"
    ensures RunCycle(Ok([]), [], []).0.reason == "no-updates"
  {
  }

  // ---------------------------------------------------------------------------
  // run_loop
  // ---------------------------------------------------------------------------

  /** The result a raising cycle is replaced by. */
  function LoopException(e: Exceptions.Exc): CycleResult {
    CycleResult("failed", "runtime-loop-cycle-exception", 0, 0, 0, 1, [Exceptions.Sanitize(e)], [])
  }

  function CycleOutcome(o: Result<CycleResult, Exceptions.Exc>): CycleResult {
    match o
    case Ok(r) => r
    case Err(e) => LoopException(e)
  }

  datatype LoopRun = LoopRun(results: seq<CycleResult>, sleeps: seq<real>, finished: bool)

  /** The number of cycles run_loop runs before returning, when it returns. */
  function CyclesToRun(once: bool, maxCycles: Option<int>): Option<nat> {
    if once then Some(1)
    else if maxCycles.Some? then Some(if maxCycles.value <= 1 then 1 else maxCycles.value)
    else None
  }

  /** `run_loop`. Cycle k returns or raises `cycle(k)`; the loop stops after `--once`, or
      once `max_cycles` cycles have run, sleeping the poll interval between cycles. An
      unbounded loop is observed for `budget` cycles. */
  method RunLoop(once: bool, maxCycles: Option<int>, pollIntervalS: real,
                 cycle: nat -> Result<CycleResult, Exceptions.Exc>, budget: nat)
    returns (run: LoopRun)
    requires budget >= 1
    // at least one cycle, each observed in order, raising cycles as failed results
    ensures 1 <= |run.results| <= budget
    ensures forall k :: 0 <= k < |run.results| ==> run.results[k] == CycleOutcome(cycle(k))
    // the poll interval is slept between consecutive cycles, never after the last
    ensures forall k :: 0 <= k < |run.sleeps| ==> run.sleeps[k] == pollIntervalS
    ensures run.finished ==> |run.sleeps| == |run.results| - 1
    ensures !run.finished ==> |run.sleeps| == |run.results| == budget
    // it returns exactly when the configured number of cycles has run
    ensures run.finished <==> CyclesToRun(once, maxCycles).Some? && CyclesToRun(once, maxCycles).value <= budget
    ensures run.finished ==> |run.results| == CyclesToRun(once, maxCycles).value
  {
    var results: seq<CycleResult> := [];
    var sleeps: seq<real> := [];
    var cycles: nat := 0;
    while true
      invariant cycles == |results| <= budget
      invariant |sleeps| == cycles
      invariant forall k :: 0 <= k < |results| ==> results[k] == CycleOutcome(cycle(k))
      invariant forall k :: 0 <= k < |sleeps| ==> sleeps[k] == pollIntervalS
      invariant CyclesToRun(once, maxCycles).Some? ==> cycles < CyclesToRun(once, maxCycles).value
      decreases budget - cycles
    {
      if cycles == budget {
        return LoopRun(results, sleeps, false);
      }
      var last := CycleOutcome(cycle(cycles));
      results := results + [last];
      cycles := cycles + 1;
      if once {
        return LoopRun(results, sleeps, true);
      }
      if maxCycles.Some? && cycles >= maxCycles.value {
        return LoopRun(results, sleeps, true);
      }
      sleeps := sleeps + [pollIntervalS];
    }
  }
}
