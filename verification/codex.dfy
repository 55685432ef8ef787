/** The Codex-backed orchestrator: the session manager with its idle-TTL and capacity
    eviction, and `handle_message`, which never raises and turns every failure into one
    classified diagnostic. Clock readings and the Codex invocation's outcome are inputs. */
module CodexOrchestrator {
  import opened Wrappers
  import Text
  import Contracts
  import Exceptions

  // ---------------------------------------------------------------------------
  // Policy and session runtimes
  // ---------------------------------------------------------------------------

  datatype Policy = Policy(maxSessions: nat, idleTtlS: real)

  const DefaultPolicy := Policy(128, 900.0)

  /** CodexSessionPolicy's validation, in order. */
  function NewPolicy(maxSessions: int, idleTtlS: real): (r: Result<Policy, string>)
    ensures r.Ok? <==> maxSessions >= 1 && idleTtlS > 0.0
    ensures r.Ok? ==> r.value.maxSessions == maxSessions && r.value.idleTtlS == idleTtlS
    ensures maxSessions < 1 ==> r == Err("max_sessions must be >= 1")
    ensures maxSessions >= 1 && idleTtlS <= 0.0 ==> r == Err("idle_ttl_s must be > 0")
  {
    if maxSessions < 1 then Err("max_sessions must be >= 1")
    else if idleTtlS <= 0.0 then Err("idle_ttl_s must be > 0")
    else Ok(Policy(maxSessions, idleTtlS))
  }

  predicate ValidPolicy(p: Policy) {
    p.maxSessions >= 1 && p.idleTtlS > 0.0
  }

  lemma DefaultPolicyAccepted()
    ensures NewPolicy(DefaultPolicy.maxSessions, DefaultPolicy.idleTtlS) == Ok(DefaultPolicy)
  {
  }

  /** One session's runtime; the session id is its key in the manager's map. */
  datatype Runtime = Runtime(createdAtS: real, lastActivityS: real, invokeCount: nat, timeoutCount: nat, failureCount: nat)

  function Fresh(now: real): Runtime {
    Runtime(now, now, 0, 0, 0)
  }

  type Sessions = map<string, Runtime>

  // ---------------------------------------------------------------------------
  // Eviction order
  // ---------------------------------------------------------------------------

  /** The capacity victim order: least recent activity first, then earliest creation,
      then the smaller id. */
  predicate Before(s: Sessions, a: string, b: string)
    requires a in s && b in s
  {
    s[a].lastActivityS < s[b].lastActivityS
    || (s[a].lastActivityS == s[b].lastActivityS
        && (s[a].createdAtS < s[b].createdAtS
            || (s[a].createdAtS == s[b].createdAtS && Text.Lt(a, b))))
  }

  lemma BeforeAsymmetric(s: Sessions, a: string, b: string)
    requires a in s && b in s && Before(s, a, b)
    ensures !Before(s, b, a)
  {
    Text.LtAsymmetric(a, b);
  }

  lemma BeforeTransitive(s: Sessions, a: string, b: string, c: string)
    requires a in s && b in s && c in s && Before(s, a, b) && Before(s, b, c)
    ensures Before(s, a, c)
  {
    if s[a].lastActivityS == s[b].lastActivityS == s[c].lastActivityS
       && s[a].createdAtS == s[b].createdAtS == s[c].createdAtS {
      Text.LtTransitive(a, b, c);
    }
  }

  lemma BeforeTotal(s: Sessions, a: string, b: string)
    requires a in s && b in s && a != b
    ensures Before(s, a, b) || Before(s, b, a)
  {
    Text.LtTotal(a, b);
  }

  predicate IsOldest(s: Sessions, ks: set<string>, m: string)
    requires ks <= s.Keys
  {
    m in ks && forall k :: k in ks && k != m ==> Before(s, m, k)
  }

  lemma {:induction false} OldestExists(s: Sessions, ks: set<string>)
    requires ks <= s.Keys && ks != {}
    ensures exists m :: IsOldest(s, ks, m)
    decreases |ks|
  {
    var x :| x in ks;
    var rest := ks - {x};
    if rest == {} {
      assert ks == {x};
      assert IsOldest(s, ks, x);
    } else {
      OldestExists(s, rest);
      var m :| IsOldest(s, rest, m);
      BeforeTotal(s, x, m);
      if Before(s, x, m) {
        forall k | k in ks && k != x ensures Before(s, x, k) {
          if k != m { BeforeTransitive(s, x, m, k); }
        }
        assert IsOldest(s, ks, x);
      } else {
        assert IsOldest(s, ks, m);
      }
    }
  }

  lemma OldestUnique(s: Sessions, ks: set<string>, a: string, b: string)
    requires ks <= s.Keys && IsOldest(s, ks, a) && IsOldest(s, ks, b)
    ensures a == b
  {
    if a != b { BeforeAsymmetric(s, a, b); }
  }

  /** `min(candidates, key=...)`: the candidate that comes first in the victim order. */
  function Oldest(s: Sessions, ks: set<string>): (m: string)
    requires ks <= s.Keys && ks != {}
    ensures IsOldest(s, ks, m)
  {
    OldestExists(s, ks);
    var m :| IsOldest(s, ks, m);
    forall b | IsOldest(s, ks, b) ensures b == m { OldestUnique(s, ks, m, b); }
    m
  }

  // ---------------------------------------------------------------------------
  // Eviction
  // ---------------------------------------------------------------------------

  predicate Idle(r: Runtime, now: real, ttl: real) {
    now - r.lastActivityS >= ttl
  }

  /** `_evict_idle`: every session idle for at least the TTL is removed. */
  function EvictIdle(s: Sessions, now: real, ttl: real): (r: Sessions)
    ensures forall k :: k in r <==> k in s && !Idle(s[k], now, ttl)
    ensures forall k :: k in r ==> r[k] == s[k]
  {
    map k | k in s && !Idle(s[k], now, ttl) :: s[k]
  }

  /** The sessions eligible as a capacity victim: every other session, or all of them
      when there is no other. */
  function Candidates(s: Sessions, keep: string): (ks: set<string>)
    ensures ks <= s.Keys
    ensures s.Keys - {keep} != {} ==> ks == s.Keys - {keep}
    ensures s != map[] ==> ks != {}
  {
    if s.Keys - {keep} != {} then s.Keys - {keep} else s.Keys
  }

  function Remove(s: Sessions, k: string): (r: Sessions)
    requires k in s
    ensures r.Keys == s.Keys - {k} && |r| == |s| - 1
    ensures forall j :: j in r ==> r[j] == s[j]
  {
    var r := map j | j in s && j != k :: s[j];
    assert r.Keys == s.Keys - {k};
    assert |s.Keys - {k}| == |s.Keys| - 1;
    r
  }

  lemma OtherSessionExists(s: Sessions, keep: string)
    requires |s| >= 2
    ensures s.Keys - {keep} != {}
  {
    var a :| a in s.Keys;
    assert |s.Keys - {a}| == |s.Keys| - 1;
    var b :| b in s.Keys - {a};
    assert a != keep ==> a in s.Keys - {keep};
    assert b != keep ==> b in s.Keys - {keep};
  }

  /** `_evict_over_capacity`: while over capacity, the oldest candidate is removed. */
  function EvictOverCapacity(s: Sessions, keep: string, maxSessions: nat): (r: Sessions)
    requires maxSessions >= 1
    ensures r.Keys <= s.Keys && forall k :: k in r ==> r[k] == s[k]
    ensures |r| == if |s| <= maxSessions then |s| else maxSessions
    // the session being begun or recorded is never the victim
    ensures keep in s ==> keep in r
    // every evicted session precedes every surviving one other than the kept one
    ensures forall e, k :: e in s && e !in r && k in r && k != keep ==> Before(s, e, k)
    decreases |s|
  {
    if |s| <= maxSessions then s
    else
      OtherSessionExists(s, keep);
      var ks := Candidates(s, keep);
      var v := Oldest(s, ks);
      var rest := Remove(s, v);
      var r := EvictOverCapacity(rest, keep, maxSessions);
      assert forall e, k :: e in rest && k in rest ==> (Before(rest, e, k) <==> Before(s, e, k));
      r
  }

  /** The number of sessions never exceeds the policy's maximum. */
  predicate WithinCapacity(s: Sessions, p: Policy) {
    |s| <= p.maxSessions
  }

  lemma {:induction false} SubsetCard<T>(a: set<T>, b: set<T>)
    requires a <= b
    ensures |a| <= |b|
    decreases |b|
  {
    if a != {} {
      var x :| x in a;
      SubsetCard(a - {x}, b - {x});
    }
  }

  datatype Manager = Manager(policy: Policy, sessions: Sessions)

  predicate ValidManager(m: Manager) {
    ValidPolicy(m.policy) && WithinCapacity(m.sessions, m.policy)
  }

  function NewManager(p: Policy): (m: Manager)
    ensures m.sessions == map[] && m.policy == p
    ensures ValidPolicy(p) ==> ValidManager(m)
  {
    Manager(p, map[])
  }

  // ---------------------------------------------------------------------------
  // Manager operations
  // ---------------------------------------------------------------------------

  /** `begin`: idle sessions go first, then the session is created or touched, then the
      capacity is restored without evicting it. */
  function Begin(m: Manager, sessionId: string, now: real): (r: Manager)
    requires ValidPolicy(m.policy)
    ensures r.policy == m.policy && ValidManager(r)
    ensures sessionId in r.sessions && r.sessions[sessionId].lastActivityS == now
    // a live session keeps its creation time and counters; otherwise it starts fresh
    ensures var live := EvictIdle(m.sessions, now, m.policy.idleTtlS);
            r.sessions[sessionId] == if sessionId in live then live[sessionId].(lastActivityS := now) else Fresh(now)
    // no session idle at `now` survives, and nothing else is changed
    ensures forall k :: k in r.sessions && k != sessionId ==>
              k in m.sessions && !Idle(m.sessions[k], now, m.policy.idleTtlS) && r.sessions[k] == m.sessions[k]
    // over capacity, exactly as many of the oldest live sessions are evicted as needed
    ensures var n := |EvictIdle(m.sessions, now, m.policy.idleTtlS).Keys + {sessionId}|;
            |r.sessions| == if n <= m.policy.maxSessions then n else m.policy.maxSessions
    ensures forall e, k :: (&& e in EvictIdle(m.sessions, now, m.policy.idleTtlS) && e !in r.sessions
                            && k in r.sessions && k != sessionId) ==> Before(m.sessions, e, k)
  {
    var live := EvictIdle(m.sessions, now, m.policy.idleTtlS);
    var touched := if sessionId in live then live[sessionId].(lastActivityS := now) else Fresh(now);
    EvictAfterInsert(live, m.sessions, sessionId, touched, m.policy.maxSessions);
    Manager(m.policy, EvictOverCapacity(live[sessionId := touched], sessionId, m.policy.maxSessions))
  }

  /** Inserting `keep` into `base` and restoring the capacity keeps `keep` as inserted,
      leaves the survivors untouched, and evicts the oldest others, as many as needed;
      the order is that of any `orig` the sessions of `base` are taken from. */
  lemma EvictAfterInsert(base: Sessions, orig: Sessions, keep: string, v: Runtime, maxSessions: nat)
    requires maxSessions >= 1
    requires forall k :: k in base ==> k in orig && base[k] == orig[k]
    ensures var r := EvictOverCapacity(base[keep := v], keep, maxSessions);
            var n := |base.Keys + {keep}|;
            && keep in r && r[keep] == v
            && (forall k :: k in r && k != keep ==> k in base && r[k] == base[k])
            && |r| == (if n <= maxSessions then n else maxSessions)
            && (forall e, k :: e in base && e !in r && k in r && k != keep ==> Before(orig, e, k))
  {
    var g := base[keep := v];
    assert g.Keys == base.Keys + {keep};
    var r := EvictOverCapacity(g, keep, maxSessions);
    forall e, k | e in base && e !in r && k in r && k != keep
      ensures Before(orig, e, k)
    {
      assert Before(g, e, k);
      assert g[e] == orig[e] && g[k] == orig[k];
    }
  }

  datatype Outcome = Success | Timeout | Failure

  function Count(r: Runtime, o: Outcome): Runtime {
    match o
    case Success => r.(invokeCount := r.invokeCount + 1)
    case Timeout => r.(timeoutCount := r.timeoutCount + 1, failureCount := r.failureCount + 1)
    case Failure => r.(failureCount := r.failureCount + 1)
  }

  /** `record_success` / `record_timeout` / `record_failure`. A missing session is
      recreated at `createdNow` (restoring the capacity); the activity time is the later
      reading `now`. */
  function Record(m: Manager, sessionId: string, o: Outcome, createdNow: real, now: real): (r: Manager)
    requires ValidPolicy(m.policy)
    ensures r.policy == m.policy
    ensures WithinCapacity(m.sessions, m.policy) ==> ValidManager(r)
    ensures sessionId in r.sessions && r.sessions[sessionId].lastActivityS == now
    ensures var before := if sessionId in m.sessions then m.sessions[sessionId] else Fresh(createdNow);
            && r.sessions[sessionId].createdAtS == before.createdAtS
            && r.sessions[sessionId].invokeCount == before.invokeCount + (if o.Success? then 1 else 0)
            && r.sessions[sessionId].timeoutCount == before.timeoutCount + (if o.Timeout? then 1 else 0)
            && r.sessions[sessionId].failureCount == before.failureCount + (if o.Success? then 0 else 1)
    // an existing session is updated in place and nothing else changes
    ensures sessionId in m.sessions ==> r.sessions == m.sessions[sessionId := r.sessions[sessionId]]
    ensures forall k :: k in r.sessions && k != sessionId ==> k in m.sessions && r.sessions[k] == m.sessions[k]
    // a recreated session may push the oldest others out, exactly as many as needed
    ensures sessionId !in m.sessions ==>
              |r.sessions| == if |m.sessions| + 1 <= m.policy.maxSessions then |m.sessions| + 1 else m.policy.maxSessions
    ensures sessionId !in m.sessions ==>
              forall e, k :: (e in m.sessions && e !in r.sessions && k in r.sessions && k != sessionId) ==>
                Before(m.sessions, e, k)
  {
    if sessionId in m.sessions then
      Manager(m.policy, m.sessions[sessionId := Count(m.sessions[sessionId], o).(lastActivityS := now)])
    else
      EvictAfterInsert(m.sessions, m.sessions, sessionId, Fresh(createdNow), m.policy.maxSessions);
      var s := EvictOverCapacity(m.sessions[sessionId := Fresh(createdNow)], sessionId, m.policy.maxSessions);
      Manager(m.policy, s[sessionId := Count(s[sessionId], o).(lastActivityS := now)])
  }

  /** `cleanup`: the idle sessions are removed and their ids returned, sorted. */
  function Cleanup(m: Manager, now: real): (r: (Manager, seq<string>))
    ensures r.0.policy == m.policy
    ensures r.0.sessions == EvictIdle(m.sessions, now, m.policy.idleTtlS)
    // exactly the removed ids, each once, in increasing order
    ensures Text.SortedStrict(r.1)
    ensures forall k :: k in r.1 <==> k in m.sessions && k !in r.0.sessions
    ensures forall k :: k in r.1 ==> Idle(m.sessions[k], now, m.policy.idleTtlS)
  {
    var live := EvictIdle(m.sessions, now, m.policy.idleTtlS);
    (m.(sessions := live), Text.SortSet(m.sessions.Keys - live.Keys))
  }

  /** A second cleanup at the same instant removes nothing. */
  lemma CleanupIdempotent(m: Manager, now: real)
    ensures Cleanup(Cleanup(m, now).0, now).1 == []
  {
  }

  /** `list_session_ids`: every session id once, in increasing order. */
  function ListSessionIds(m: Manager): (ids: seq<string>)
    ensures Text.SortedStrict(ids) && |ids| == |m.sessions|
    ensures forall k :: k in ids <==> k in m.sessions
  {
    Text.SortSet(m.sessions.Keys)
  }

  /** Beginning a session that is already live at `now` evicts nothing but idle sessions. */
  lemma BeginLiveEvictsOnlyIdle(m: Manager, sessionId: string, now: real)
    requires ValidManager(m)
    requires sessionId in m.sessions && !Idle(m.sessions[sessionId], now, m.policy.idleTtlS)
    ensures Begin(m, sessionId, now).sessions.Keys == EvictIdle(m.sessions, now, m.policy.idleTtlS).Keys
  {
    var live := EvictIdle(m.sessions, now, m.policy.idleTtlS);
    SubsetCard(live.Keys, m.sessions.Keys);
    var touched := live[sessionId].(lastActivityS := now);
    assert live[sessionId := touched].Keys == live.Keys;
  }

  // ---------------------------------------------------------------------------
  // handle_message
  // ---------------------------------------------------------------------------

  /** The exception types `_classify_codex_exception` distinguishes. */
  datatype ExcKind = TimeoutError | ContractViolation | InvalidResponse | ExecError | OtherError

  datatype Classification = Classification(code: string, retryable: bool, trackAsTimeout: bool)

  /** `_classify_codex_exception`. */
  function Classify(k: ExcKind): (c: Classification)
    ensures c.trackAsTimeout <==> k.TimeoutError?
    ensures c.retryable <==> !(k.ContractViolation? || k.InvalidResponse?)
    // a timeout is checked first, so an OSError that is a TimeoutError counts as a timeout;
    // every exception outside the three named kinds is an execution failure
    ensures k.TimeoutError? ==> c.code == "codex-timeout"
    ensures k.ContractViolation? ==> c.code == "codex-contract-violation"
    ensures k.InvalidResponse? ==> c.code == "codex-invalid-response"
    ensures k.ExecError? || k.OtherError? ==> c.code == "codex-exec-failed"
  {
    match k
    case TimeoutError => Classification("codex-timeout", true, true)
    case ContractViolation => Classification("codex-contract-violation", false, false)
    case InvalidResponse => Classification("codex-invalid-response", false, false)
    case ExecError => Classification("codex-exec-failed", true, false)
    case OtherError => Classification("codex-exec-failed", true, false)
  }

  /** What the invocation function returned or raised. */
  datatype Response =
    | Returned(text: Option<string>)       // a string or None
    | NonString(typeName: string)          // any other object
    | Raised(kind: ExcKind, exc: Exceptions.Exc)

  datatype CodexDiag = CodexDiag(code: string, updateId: string, sessionId: string, retryable: bool, message: string)

  datatype Orchestrator = Orchestrator(manager: Manager, diagnostics: seq<CodexDiag>)

  function InvalidResponseExc(typeName: string): Exceptions.Exc {
    Exceptions.Exc("CodexInvalidResponseError", "codex response must be a string or None, got " + typeName)
  }

  function Failed(o: Orchestrator, m: Contracts.InboundMessage, sessionId: string, k: ExcKind, e: Exceptions.Exc, now: real)
    : Orchestrator
    requires ValidPolicy(o.manager.policy)
  {
    var c := Classify(k);
    var manager := Record(o.manager, sessionId, if c.trackAsTimeout then Timeout else Failure, now, now);
    Orchestrator(manager, o.diagnostics + [CodexDiag(c.code, m.updateId, sessionId, c.retryable, Exceptions.Sanitize(e))])
  }

  /** `handle_message`. `started` is the clock reading of `begin`, `now` the reading of the
      outcome's record. The session is begun first, whatever happens next. */
  function HandleMessage(o: Orchestrator, m: Contracts.InboundMessage, sessionId: string,
                         response: Response, started: real, now: real)
    : (r: (Orchestrator, Option<Contracts.OutboundMessage>))
    requires ValidPolicy(o.manager.policy)
    ensures ValidManager(r.0.manager) && r.0.manager.policy == o.manager.policy
    ensures sessionId in r.0.manager.sessions
    // a reply: a non-blank string, trimmed, to the same chat, in reply to the message
    ensures r.1.Some? ==>
              && response.Returned? && response.text.Some?
              && r.1.value == Contracts.OutboundMessage(m.chatId, Text.Strip(response.text.value), m.messageId,
                                                        map["session_id" := sessionId, "orchestrator_mode" := "codex"])
              && Contracts.ValidOutbound(r.1.value)
              && r.0.diagnostics == o.diagnostics
    // no reply: either nothing to say, or exactly one diagnostic
    ensures r.1.None? ==>
              r.0.diagnostics == o.diagnostics
              || (|r.0.diagnostics| == |o.diagnostics| + 1 && r.0.diagnostics[..|o.diagnostics|] == o.diagnostics
                  && r.0.diagnostics[|o.diagnostics|].updateId == m.updateId
                  && r.0.diagnostics[|o.diagnostics|].sessionId == sessionId)
    // a raised exception is classified and reported once
    ensures response.Raised? ==>
              r.1.None? && r.0.diagnostics == o.diagnostics
                 + [CodexDiag(Classify(response.kind).code, m.updateId, sessionId, Classify(response.kind).retryable,
                              Exceptions.Sanitize(response.exc))]
    ensures response.NonString? ==>
              r.1.None? && |r.0.diagnostics| == |o.diagnostics| + 1
              && r.0.diagnostics[|o.diagnostics|].code == "codex-invalid-response"
              && !r.0.diagnostics[|o.diagnostics|].retryable
    // None or whitespace: no reply, no diagnostic
    ensures response.Returned? && (response.text.None? || Text.IsBlank(response.text.value)) ==>
              r.1.None? && r.0.diagnostics == o.diagnostics
  {
    var begun := Begin(o.manager, sessionId, started);
    var o1 := o.(manager := begun);
    match response
    case Raised(k, e) => (Failed(o1, m, sessionId, k, e, now), None)
    case NonString(t) => (Failed(o1, m, sessionId, InvalidResponse, InvalidResponseExc(t), now), None)
    case Returned(None) => (o1.(manager := Record(begun, sessionId, Success, now, now)), None)
    case Returned(Some(raw)) =>
      var text := Text.Strip(raw);
      if text == "" then (o1.(manager := Record(begun, sessionId, Success, now, now)), None)
      else
        var succeeded := o1.(manager := Record(begun, sessionId, Success, now, now));
        match Contracts.NewOutbound(m.chatId, text, m.messageId,
                                    map["session_id" := sessionId, "orchestrator_mode" := "codex"])
        case Ok(out) => (succeeded, Some(out))
        case Err(msg) =>
          (Failed(succeeded, m, sessionId, ContractViolation, Exceptions.Exc("ContractValidationError", msg), now), None)
  }

  /** Any text that is not blank is a reply, trimmed, to the message's chat. For a
      message with a blank chat the reply cannot be built: nothing is sent and the
      contract violation is reported once, as not retryable. */
  lemma HandleMessageReplies(o: Orchestrator, m: Contracts.InboundMessage, sessionId: string,
                             text: string, started: real, now: real)
    requires ValidPolicy(o.manager.policy)
    requires !Text.IsBlank(text)
    ensures var r := HandleMessage(o, m, sessionId, Returned(Some(text)), started, now);
            !Text.IsBlank(m.chatId) ==>
              r.1 == Some(Contracts.OutboundMessage(m.chatId, Text.Strip(text), m.messageId,
                                                    map["session_id" := sessionId, "orchestrator_mode" := "codex"]))
    ensures var r := HandleMessage(o, m, sessionId, Returned(Some(text)), started, now);
            Text.IsBlank(m.chatId) ==>
              r.1.None? && r.0.diagnostics == o.diagnostics
                 + [CodexDiag("codex-contract-violation", m.updateId, sessionId, false,
                              Exceptions.Sanitize(Exceptions.Exc("ContractValidationError", Contracts.Required("chat_id"))))]
  {
  }

  /** Recording on a present session counts the outcome on it. */
  lemma RecordPresent(m: Manager, sessionId: string, o: Outcome, createdNow: real, now: real)
    requires ValidPolicy(m.policy) && sessionId in m.sessions
    ensures Record(m, sessionId, o, createdNow, now).sessions[sessionId] == Count(m.sessions[sessionId], o).(lastActivityS := now)
  {
  }

  /** Every handled message is accounted for on its session: a timeout counts as a timeout
      and a failure, any other exception as a failure, and a returned response as an
      invocation. */
  lemma HandleCountsOutcome(o: Orchestrator, m: Contracts.InboundMessage, sessionId: string,
                            response: Response, started: real, now: real)
    requires ValidPolicy(o.manager.policy)
    ensures var before := Begin(o.manager, sessionId, started).sessions[sessionId];
            var after := HandleMessage(o, m, sessionId, response, started, now).0.manager.sessions[sessionId];
            && after.createdAtS == before.createdAtS
            && after.lastActivityS == now
            && after.timeoutCount == before.timeoutCount + (if response.Raised? && response.kind.TimeoutError? then 1 else 0)
            && (response.Returned? && !Text.IsBlank(m.chatId) ==>
                  after.invokeCount == before.invokeCount + 1 && after.failureCount == before.failureCount)
            && (!response.Returned? ==>
                  after.invokeCount == before.invokeCount && after.failureCount == before.failureCount + 1)
  {
    if response.Returned? {
      HandleCountsReturned(o, m, sessionId, response, started, now);
    } else {
      HandleCountsFailure(o, m, sessionId, response, started, now);
    }
  }

  lemma HandleCountsFailure(o: Orchestrator, m: Contracts.InboundMessage, sessionId: string,
                            response: Response, started: real, now: real)
    requires ValidPolicy(o.manager.policy) && !response.Returned?
    ensures var before := Begin(o.manager, sessionId, started).sessions[sessionId];
            var after := HandleMessage(o, m, sessionId, response, started, now).0.manager.sessions[sessionId];
            && after.createdAtS == before.createdAtS && after.lastActivityS == now
            && after.timeoutCount == before.timeoutCount + (if response.Raised? && response.kind.TimeoutError? then 1 else 0)
            && after.invokeCount == before.invokeCount && after.failureCount == before.failureCount + 1
  {
    var begun := Begin(o.manager, sessionId, started);
    if response.Raised? {
      var c := Classify(response.kind);
      RecordPresent(begun, sessionId, if c.trackAsTimeout then Timeout else Failure, now, now);
    } else {
      RecordPresent(begun, sessionId, Failure, now, now);
    }
  }

  lemma HandleCountsReturned(o: Orchestrator, m: Contracts.InboundMessage, sessionId: string,
                             response: Response, started: real, now: real)
    requires ValidPolicy(o.manager.policy) && response.Returned?
    ensures var before := Begin(o.manager, sessionId, started).sessions[sessionId];
            var after := HandleMessage(o, m, sessionId, response, started, now).0.manager.sessions[sessionId];
            && after.createdAtS == before.createdAtS && after.lastActivityS == now
            && after.timeoutCount == before.timeoutCount
            && (!Text.IsBlank(m.chatId) ==> after.invokeCount == before.invokeCount + 1 && after.failureCount == before.failureCount)
  {
    var begun := Begin(o.manager, sessionId, started);
    RecordPresent(begun, sessionId, Success, now, now);
    if response.text.Some? && Text.Strip(response.text.value) != "" {
      HandleReplyManager(o, m, sessionId, response.text.value, started, now);
      var succeeded := Record(begun, sessionId, Success, now, now);
      RecordPresent(succeeded, sessionId, Failure, now, now);
    } else {
      assert HandleMessage(o, m, sessionId, response, started, now).0.manager == Record(begun, sessionId, Success, now, now);
    }
  }

  /** The manager after a non-blank text: one success, then a failure when the reply
      cannot be built. */
  lemma HandleReplyManager(o: Orchestrator, m: Contracts.InboundMessage, sessionId: string, raw: string,
                           started: real, now: real)
    requires ValidPolicy(o.manager.policy) && Text.Strip(raw) != ""
    ensures var succeeded := Record(Begin(o.manager, sessionId, started), sessionId, Success, now, now);
            HandleMessage(o, m, sessionId, Returned(Some(raw)), started, now).0.manager
            == if Text.IsBlank(m.chatId) then Record(succeeded, sessionId, Failure, now, now) else succeeded
  {
    var text := Text.Strip(raw);
    Text.StripIdempotent(raw);
    assert !Text.IsBlank(text);
    var out := Contracts.NewOutbound(m.chatId, text, m.messageId,
                                     map["session_id" := sessionId, "orchestrator_mode" := "codex"]);
    if Text.IsBlank(m.chatId) {
      assert out.Err? && !Classify(ContractViolation).trackAsTimeout;
    } else {
      assert out.Ok?;
    }
  }
}
