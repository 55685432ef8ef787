/** The Telegram Bot API client: constructor validation, classification of each
    request attempt into a result or a structured error, the bounded retry loop with
    its backoff schedule, and the result-shape checks of `getUpdates` and
    `sendMessage`.

    The HTTP transport is not modelled: what the opener did on each attempt is an
    input (`Transport`), indexed by attempt number, and the sleeper is modelled by
    the list of durations it was asked to sleep. */
module TelegramApi {
  import opened Wrappers
  import Text
  import opened JsonValue
  import Numbers

  /** The `kind` of a TelegramApiError. */
  datatype ErrorKind =
    | HttpError
    | NetworkError
    | TimeoutError
    | InvalidJson
    | InvalidResponseShape
    | ApiError
    | InvalidResultShape
  {
    function Name(): string {
      match this
      case HttpError => "http-error"
      case NetworkError => "network-error"
      case TimeoutError => "timeout"
      case InvalidJson => "invalid-json"
      case InvalidResponseShape => "invalid-response-shape"
      case ApiError => "api-error"
      case InvalidResultShape => "invalid-result-shape"
    }
  }

  /** TelegramApiError. */
  datatype ApiErr = ApiErr(
    operation: string,
    kind: ErrorKind,
    transient: bool,
    description: string,
    statusCode: Option<int>,
    errorCode: Option<int>)

  /** Python's `repr` of a string, without escaping. */
  function Quote(s: string): string {
    "'" + s + "'"
  }

  function OptionalIntRepr(o: Option<int>): string {
    if o.Some? then Numbers.IntToString(o.value) else "None"
  }

  /** `repr(error.to_dict())`: the text a wrapping ChannelRuntimeError carries. */
  function ErrorDict(e: ApiErr): string {
    "{'operation': " + Quote(e.operation) + ", 'kind': " + Quote(e.kind.Name())
    + ", 'transient': " + (if e.transient then "True" else "False")
    + ", 'description': " + Quote(e.description)
    + ", 'status_code': " + OptionalIntRepr(e.statusCode)
    + ", 'error_code': " + OptionalIntRepr(e.errorCode) + "}"
  }

  /** What the opener did on one attempt. */
  datatype Transport =
    /** A response was read; its body decoded as JSON, or None when it is not
        valid UTF-8 JSON. */
    | Response(body: Option<Json>)
    /** `HTTPError` with its status code, reason, and its body decoded as JSON
        (None when empty, unreadable or not JSON). */
    | HttpFailure(code: int, reason: string, errorBody: Option<Json>)
    /** `URLError` with its reason. */
    | UrlFailure(reason: string)
    /** `TimeoutError` with its message. */
    | TimedOut(message: string)
    /** Any other `OSError` with its message. */
    | OsFailure(message: string)

  /** A validated client. */
  datatype Client = Client(token: string, timeoutS: real, maxRetries: nat, backoff: seq<real>)

  predicate ValidClient(c: Client) {
    && !Text.IsBlank(c.token) && Text.NoEdgeSpace(c.token)
    && c.timeoutS > 0.0
    && |c.backoff| > 0
    && (forall i :: 0 <= i < |c.backoff| ==> c.backoff[i] >= 0.0)
  }

  // ---------------------------------------------------------------------------
  // Constructor
  // ---------------------------------------------------------------------------

  /** `TelegramApiClient(token, timeout_s=..., max_retries=..., backoff_seconds=...)`:
      checks the token, timeout, retry count and backoff entries in that order. An
      empty backoff schedule becomes `[0.0]`. */
  function NewClient(token: string, timeoutS: real, maxRetries: int, backoff: seq<real>)
    : (r: Result<Client, string>)
    ensures r.Ok? <==>
            (&& !Text.IsBlank(token) && timeoutS > 0.0 && maxRetries >= 0
             && forall i :: 0 <= i < |backoff| ==> backoff[i] >= 0.0)
    ensures r.Ok? ==> ValidClient(r.value)
    ensures r.Ok? ==> r.value.token == Text.Strip(token) && r.value.timeoutS == timeoutS
                      && r.value.maxRetries == maxRetries
                      && r.value.backoff == (if |backoff| == 0 then [0.0] else backoff)
    ensures Text.IsBlank(token) ==> r == Err("token must be a non-empty string")
    ensures (!Text.IsBlank(token) && timeoutS <= 0.0) ==> r == Err("timeout_s must be a positive number")
    ensures (!Text.IsBlank(token) && timeoutS > 0.0 && maxRetries < 0) ==> r == Err("max_retries must be >= 0")
    ensures (!Text.IsBlank(token) && timeoutS > 0.0 && maxRetries >= 0
             && exists i :: 0 <= i < |backoff| && backoff[i] < 0.0)
            ==> r == Err("backoff_seconds values must be >= 0")
  {
    var t := Text.Strip(token);
    if t == "" then Err("token must be a non-empty string")
    else if timeoutS <= 0.0 then Err("timeout_s must be a positive number")
    else if maxRetries < 0 then Err("max_retries must be >= 0")
    else if exists i :: 0 <= i < |backoff| && backoff[i] < 0.0 then Err("backoff_seconds values must be >= 0")
    else Ok(Client(t, timeoutS, maxRetries, if |backoff| == 0 then [0.0] else backoff))
  }

  // ---------------------------------------------------------------------------
  // Error classification of one attempt
  // ---------------------------------------------------------------------------

  /** Server errors (the 5xx class, section 15.6 of RFC 9110) and 429 Too Many
      Requests (section 4 of RFC 6585) are worth retrying. */
  predicate TransientCode(code: int) {
    code >= 500 || code == 429
  }

  /** `_extract_description`: the `description` of an object body as text. */
  function ExtractDescription(payload: Option<Json>): Option<string> {
    if payload.Some? && payload.value.JObject? && !Get(payload.value.fields, "description").JNull?
    then Some(PyStr(Get(payload.value.fields, "description")))
    else None
  }

  /** `_extract_error_code`: the `error_code` of an object body, when `int()` accepts it. */
  function ExtractErrorCode(payload: Option<Json>): Option<int> {
    if payload.Some? && payload.value.JObject? then PyInt(Get(payload.value.fields, "error_code"))
    else None
  }

  /** Python's `a or b` on an optional string: the first when it is non-empty. */
  function OrElse(a: Option<string>, b: string): string {
    if a.Some? && a.value != "" then a.value else b
  }

  /** `_post_json`, `_decode_json` and `_extract_result` in sequence: the `result`
      of a successful response, or the error the attempt raises. */
  function Attempt(operation: string, t: Transport): (r: Result<Json, ApiErr>)
    ensures r.Err? ==> r.error.operation == operation
    ensures t.HttpFailure? ==>
              (r.Err? && r.error.kind == HttpError && r.error.statusCode == Some(t.code)
               && r.error.errorCode == ExtractErrorCode(t.errorBody)
               && (r.error.transient <==> TransientCode(t.code))
               && (ExtractDescription(t.errorBody) == None && t.reason == "" ==> r.error.description == "HTTP error"))
    ensures !t.HttpFailure? ==> r.Err? ==> r.error.statusCode == None
    ensures t.UrlFailure? ==> r == Err(ApiErr(operation, NetworkError, true, t.reason, None, None))
    ensures t.OsFailure? ==> r == Err(ApiErr(operation, NetworkError, true, t.message, None, None))
    ensures t.TimedOut? ==> r == Err(ApiErr(operation, TimeoutError, true, t.message, None, None))
    ensures t == Response(None) ==> r.Err? && r.error.kind == InvalidJson && !r.error.transient
    ensures (t.Response? && t.body.Some? && !t.body.value.JObject?)
            ==> r.Err? && r.error.kind == InvalidResponseShape && !r.error.transient
    ensures (t.Response? && t.body.Some? && t.body.value.JObject?)
            ==> if Get(t.body.value.fields, "ok") == JBool(true)
                then r == Ok(Get(t.body.value.fields, "result"))
                else r.Err? && r.error.kind == ApiError
                     && r.error.errorCode == ExtractErrorCode(t.body)
                     && (r.error.transient <==> r.error.errorCode.Some? && TransientCode(r.error.errorCode.value))
  {
    match t
    case HttpFailure(code, reason, errorBody) =>
      Err(ApiErr(operation, HttpError, TransientCode(code),
                 OrElse(ExtractDescription(errorBody), if reason == "" then "HTTP error" else reason),
                 Some(code), ExtractErrorCode(errorBody)))
    case UrlFailure(reason) => Err(ApiErr(operation, NetworkError, true, reason, None, None))
    case TimedOut(message) => Err(ApiErr(operation, TimeoutError, true, message, None, None))
    case OsFailure(message) => Err(ApiErr(operation, NetworkError, true, message, None, None))
    case Response(None) =>
      Err(ApiErr(operation, InvalidJson, false, "response body is not valid JSON", None, None))
    case Response(Some(payload)) =>
      if !payload.JObject? then
        Err(ApiErr(operation, InvalidResponseShape, false, "response body must be an object", None, None))
      else if Get(payload.fields, "ok") != JBool(true) then
        var code := ExtractErrorCode(Some(payload));
        Err(ApiErr(operation, ApiError, code.Some? && TransientCode(code.value),
                   OrElse(ExtractDescription(Some(payload)), "telegram api returned ok=false"),
                   None, code))
      else Ok(Get(payload.fields, "result"))
  }

  // ---------------------------------------------------------------------------
  // Bounded retry
  // ---------------------------------------------------------------------------

  /** `_backoff_for_attempt`: the schedule entry for the attempt, or its last entry
      once the attempt is past the end. */
  function Backoff(c: Client, attempt: nat): (d: real)
    requires ValidClient(c)
    ensures d >= 0.0
    ensures d in c.backoff
    ensures attempt < |c.backoff| ==> d == c.backoff[attempt]
    ensures attempt >= |c.backoff| ==> d == c.backoff[|c.backoff| - 1]
  {
    if attempt < |c.backoff| then c.backoff[attempt] else c.backoff[|c.backoff| - 1]
  }

  /** The outcome of `_request`: the result or raised error, how many attempts were
      made, and the sleeps requested between them. */
  datatype RequestOutcome = RequestOutcome(result: Result<Json, ApiErr>, attempts: nat, sleeps: seq<real>)

  /** Whether a failed attempt is followed by another. */
  predicate ShouldRetry(c: Client, e: ApiErr, attempt: nat) {
    e.transient && attempt < c.maxRetries
  }

  /** Reference definition of `_request` from attempt `attempt` on. */
  function RequestFrom(c: Client, results: nat -> Result<Json, ApiErr>, attempt: nat): RequestOutcome
    requires ValidClient(c) && attempt <= c.maxRetries
    decreases c.maxRetries - attempt
  {
    var r := results(attempt);
    if r.Err? && ShouldRetry(c, r.error, attempt) then
      var rest := RequestFrom(c, results, attempt + 1);
      RequestOutcome(rest.result, rest.attempts, [Backoff(c, attempt)] + rest.sleeps)
    else RequestOutcome(r, attempt + 1, [])
  }

  /** An attempt that raised an error worth retrying. */
  predicate FailsTransiently(r: Result<Json, ApiErr>) {
    r.Err? && r.error.transient
  }

  /** What `_request` promises from attempt `start` on: every attempt before the last
      failed transiently and is followed by its backoff, the last attempt's outcome is
      the request's, and it stops early only on a success or an error not worth
      retrying. */
  predicate RetryShape(c: Client, results: nat -> Result<Json, ApiErr>, start: nat, o: RequestOutcome)
    requires ValidClient(c)
  {
    && start + 1 <= o.attempts <= c.maxRetries + 1
    && |o.sleeps| == o.attempts - 1 - start
    && (forall k :: start <= k < o.attempts - 1 ==>
          FailsTransiently(results(k)) && o.sleeps[k - start] == Backoff(c, k))
    && o.result == results(o.attempts - 1)
    && (o.result.Err? && o.attempts <= c.maxRetries ==> !o.result.error.transient)
  }

  /** The reference definition has that shape. */
  lemma {:induction false} RequestFromShape(c: Client, results: nat -> Result<Json, ApiErr>, attempt: nat)
    requires ValidClient(c) && attempt <= c.maxRetries
    ensures RetryShape(c, results, attempt, RequestFrom(c, results, attempt))
    decreases c.maxRetries - attempt
  {
    var r := results(attempt);
    if r.Err? && ShouldRetry(c, r.error, attempt) {
      RequestFromShape(c, results, attempt + 1);
      var o := RequestFrom(c, results, attempt);
      var rest := RequestFrom(c, results, attempt + 1);
      assert o.sleeps == [Backoff(c, attempt)] + rest.sleeps;
      forall k | attempt <= k < o.attempts - 1
        ensures FailsTransiently(results(k)) && o.sleeps[k - attempt] == Backoff(c, k)
      {
        if k > attempt {
          assert o.sleeps[k - attempt] == rest.sleeps[k - (attempt + 1)];
        }
      }
    }
  }

  /** `_request`: try up to `max_retries + 1` times; stop at the first success or the
      first error that is not transient or that came from the last allowed attempt,
      sleeping the scheduled backoff before each retry. `results(k)` is what attempt `k`
      returns or raises, `Attempt(operation, t)` of its transport outcome `t`. */
  method Request(c: Client, results: nat -> Result<Json, ApiErr>) returns (o: RequestOutcome)
    requires ValidClient(c)
    ensures o == RequestFrom(c, results, 0)
    ensures RetryShape(c, results, 0, o)
  {
    var attempt: nat := 0;
    var sleeps: seq<real> := [];
    while true
      invariant attempt <= c.maxRetries
      invariant var rest := RequestFrom(c, results, attempt);
                RequestFrom(c, results, 0)
                == RequestOutcome(rest.result, rest.attempts, sleeps + rest.sleeps)
      decreases c.maxRetries - attempt
    {
      var r := results(attempt);
      if r.Ok? || !ShouldRetry(c, r.error, attempt) {
        assert sleeps + [] == sleeps;
        o := RequestOutcome(r, attempt + 1, sleeps);
        RequestFromShape(c, results, 0);
        return;
      }
      assert sleeps + ([Backoff(c, attempt)] + RequestFrom(c, results, attempt + 1).sleeps)
             == (sleeps + [Backoff(c, attempt)]) + RequestFrom(c, results, attempt + 1).sleeps;
      sleeps := sleeps + [Backoff(c, attempt)];
      attempt := attempt + 1;
    }
  }

  /** When every attempt fails transiently, exactly `max_retries + 1` attempts are
      made and the last error is raised. */
  lemma {:induction false} AllTransientExhaustsRetries(c: Client, results: nat -> Result<Json, ApiErr>, attempt: nat)
    requires ValidClient(c) && attempt <= c.maxRetries
    requires forall k :: attempt <= k <= c.maxRetries ==> FailsTransiently(results(k))
    ensures RequestFrom(c, results, attempt).attempts == c.maxRetries + 1
    ensures RequestFrom(c, results, attempt).result == results(c.maxRetries)
    decreases c.maxRetries - attempt
  {
    if attempt < c.maxRetries {
      AllTransientExhaustsRetries(c, results, attempt + 1);
    }
  }

  /** A non-transient error stops the request at the attempt that produced it. */
  lemma NonTransientStopsAtOnce(c: Client, results: nat -> Result<Json, ApiErr>, attempt: nat)
    requires ValidClient(c) && attempt <= c.maxRetries
    requires results(attempt).Err? && !results(attempt).error.transient
    ensures RequestFrom(c, results, attempt)
            == RequestOutcome(results(attempt), attempt + 1, [])
  {
  }

  // ---------------------------------------------------------------------------
  // getUpdates and sendMessage
  // ---------------------------------------------------------------------------

  /** The `getUpdates` payload: `timeout` and `limit` always, `offset` and
      `allowed_updates` only when supplied. */
  function GetUpdatesPayload(offset: Option<int>, timeoutS: int, limit: int, allowed: Option<seq<string>>)
    : (p: map<string, Json>)
    ensures "timeout" in p && p["timeout"] == JInt(timeoutS)
    ensures "limit" in p && p["limit"] == JInt(limit)
    ensures "offset" in p <==> offset.Some?
    ensures offset.Some? ==> p["offset"] == JInt(offset.value)
    ensures "allowed_updates" in p <==> allowed.Some?
    ensures allowed.Some? ==> p["allowed_updates"] == JArray(Strings(allowed.value))
    ensures forall k :: k in p ==> k in {"timeout", "limit", "offset", "allowed_updates"}
  {
    var base := map["timeout" := JInt(timeoutS), "limit" := JInt(limit)];
    var withOffset := if offset.Some? then base["offset" := JInt(offset.value)] else base;
    if allowed.Some? then withOffset["allowed_updates" := JArray(Strings(allowed.value))] else withOffset
  }

  function Strings(xs: seq<string>): (r: seq<Json>)
    ensures |r| == |xs| && forall i :: 0 <= i < |xs| ==> r[i] == JStr(xs[i])
  {
    seq(|xs|, i requires 0 <= i < |xs| => JStr(xs[i]))
  }

  /** The `sendMessage` payload: `chat_id` and `text` always, `reply_to_message_id`
      only when supplied. */
  function SendMessagePayload(chatId: Json, text: string, replyTo: Option<Json>): (p: map<string, Json>)
    ensures "chat_id" in p && p["chat_id"] == chatId
    ensures "text" in p && p["text"] == JStr(text)
    ensures "reply_to_message_id" in p <==> replyTo.Some?
    ensures replyTo.Some? ==> p["reply_to_message_id"] == replyTo.value
    ensures |p.Keys| == if replyTo.Some? then 3 else 2
  {
    var base := map["chat_id" := chatId, "text" := JStr(text)];
    if replyTo.Some? then base["reply_to_message_id" := replyTo.value] else base
  }

  /** The object items of a list, in order. */
  function Objects(items: seq<Json>): (r: seq<map<string, Json>>)
    ensures |r| <= |items|
    ensures forall m :: m in r <==> JObject(m) in items
  {
    if |items| == 0 then []
    else
      var rest := Objects(items[1..]);
      assert forall x :: x in items <==> x == items[0] || x in items[1..];
      if items[0].JObject? then [items[0].fields] + rest else rest
  }

  /** Filtering distributes over concatenation, so relative order is kept. */
  lemma {:induction false} ObjectsAppend(a: seq<Json>, b: seq<Json>)
    ensures Objects(a + b) == Objects(a) + Objects(b)
  {
    if |a| > 0 {
      assert (a + b)[1..] == a[1..] + b;
      ObjectsAppend(a[1..], b);
    } else {
      assert a + b == b;
    }
  }

  /** A list of objects passes through unchanged. */
  lemma {:induction false} ObjectsKeepsAllObjects(ms: seq<map<string, Json>>)
    ensures Objects(seq(|ms|, i requires 0 <= i < |ms| => JObject(ms[i]))) == ms
  {
    if |ms| > 0 {
      var items := seq(|ms|, i requires 0 <= i < |ms| => JObject(ms[i]));
      assert items[1..] == seq(|ms[1..]|, i requires 0 <= i < |ms[1..]| => JObject(ms[1..][i]));
      ObjectsKeepsAllObjects(ms[1..]);
      assert ms == [ms[0]] + ms[1..];
    }
  }

  /** `get_updates` after its request: a non-list result is `invalid-result-shape`,
      otherwise its object items in order. */
  function GetUpdatesResult(r: Result<Json, ApiErr>): (u: Result<seq<map<string, Json>>, ApiErr>)
    ensures r.Err? ==> u == Err(r.error)
    ensures r.Ok? && !r.value.JArray?
            ==> u == Err(ApiErr("getUpdates", InvalidResultShape, false, "result must be a list", None, None))
    ensures r.Ok? && r.value.JArray? ==> u == Ok(Objects(r.value.items))
  {
    match r
    case Err(e) => Err(e)
    case Ok(v) =>
      if v.JArray? then Ok(Objects(v.items))
      else Err(ApiErr("getUpdates", InvalidResultShape, false, "result must be a list", None, None))
  }

  /** `send_message` after its request: a non-object result is `invalid-result-shape`. */
  function SendMessageResult(r: Result<Json, ApiErr>): (u: Result<map<string, Json>, ApiErr>)
    ensures r.Err? ==> u == Err(r.error)
    ensures r.Ok? && !r.value.JObject?
            ==> u == Err(ApiErr("sendMessage", InvalidResultShape, false, "result must be an object", None, None))
    ensures r.Ok? && r.value.JObject? ==> u == Ok(r.value.fields)
  {
    match r
    case Err(e) => Err(e)
    case Ok(v) =>
      if v.JObject? then Ok(v.fields)
      else Err(ApiErr("sendMessage", InvalidResultShape, false, "result must be an object", None, None))
  }
}
