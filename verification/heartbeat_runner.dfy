/** One heartbeat run: the configuration checks, the prompt file preflight, the null
    responder, and the decision chain of `run_heartbeat_once`. The prompt file's
    content and the responder's answer are inputs. */
module HeartbeatRun {
  import opened Wrappers
  import Text
  import Exceptions
  import HeartbeatNormalize

  // ---------------------------------------------------------------------------
  // heartbeat_file.py
  // ---------------------------------------------------------------------------

  /** `is_heartbeat_content_empty`. */
  predicate IsContentEmpty(text: Option<string>) {
    text.None? || Text.Strip(text.value) == ""
  }

  lemma ContentEmptyIffBlank(text: Option<string>)
    ensures IsContentEmpty(text) <==> text.None? || Text.IsBlank(text.value)
  {
  }

  /** What reading the prompt file gave. */
  datatype FileRead = Missing | Contents(text: string) | ReadError(exc: Exceptions.Exc)

  datatype PromptLoad = PromptLoad(path: string, text: string, isEmpty: bool)

  /** `load_heartbeat_prompt`: a missing file is empty text; any other read error is raised. */
  function LoadHeartbeatPrompt(path: string, read: FileRead): (r: Result<PromptLoad, Exceptions.Exc>)
    ensures r.Err? <==> read.ReadError?
    ensures r.Ok? ==> r.value.path == path && r.value.isEmpty == IsContentEmpty(Some(r.value.text))
    // the content verbatim, untrimmed; a missing file as empty text
    ensures read.Contents? ==> r.value.text == read.text
    ensures read.Missing? ==> r.value == PromptLoad(path, "", true)
  {
    match read
    case Missing => Ok(PromptLoad(path, "", IsContentEmpty(Some(""))))
    case Contents(text) => Ok(PromptLoad(path, text, IsContentEmpty(Some(text))))
    case ReadError(e) => Err(e)
  }

  // ---------------------------------------------------------------------------
  // config.py
  // ---------------------------------------------------------------------------

  datatype HeartbeatConfig = HeartbeatConfig(
    enabled: bool, heartbeatFile: string, ackToken: string, ackMaxChars: int, includeReasoning: bool)

  const DefaultConfig := HeartbeatConfig(true, "HEARTBEAT.md", HeartbeatNormalize.DefaultAckToken,
                                         HeartbeatNormalize.DefaultAckMaxChars, false)

  predicate ValidConfig(c: HeartbeatConfig) {
    !Text.IsBlank(c.heartbeatFile) && !Text.IsBlank(c.ackToken) && c.ackMaxChars >= 0
  }

  /** HeartbeatConfig's validation, in order; the fields are stored as given. */
  function NewHeartbeatConfig(c: HeartbeatConfig): (r: Result<HeartbeatConfig, string>)
    ensures r.Ok? <==> ValidConfig(c)
    ensures r.Ok? ==> r.value == c
    ensures Text.IsBlank(c.heartbeatFile) ==> r == Err("heartbeat_file must be a non-empty string")
    ensures !Text.IsBlank(c.heartbeatFile) && Text.IsBlank(c.ackToken) ==> r == Err("ack_token must be a non-empty string")
    ensures !Text.IsBlank(c.heartbeatFile) && !Text.IsBlank(c.ackToken) && c.ackMaxChars < 0 ==>
              r == Err("ack_max_chars must be >= 0")
  {
    if Text.Strip(c.heartbeatFile) == "" then Err("heartbeat_file must be a non-empty string")
    else if Text.Strip(c.ackToken) == "" then Err("ack_token must be a non-empty string")
    else if c.ackMaxChars < 0 then Err("ack_max_chars must be >= 0")
    else Ok(c)
  }

  lemma DefaultConfigValid()
    ensures NewHeartbeatConfig(DefaultConfig) == Ok(DefaultConfig)
  {
    assert !Text.IsSpace(DefaultConfig.heartbeatFile[0]);
    assert !Text.IsSpace(DefaultConfig.ackToken[0]);
  }

  /** The configuration as `run_heartbeat_once` reads it: a HeartbeatConfig, or a mapping
      in which any of these keys may be absent. */
  datatype ConfigView = ConfigView(
    enabled: Option<bool>, heartbeatFile: Option<string>, ackToken: Option<string>, ackMaxChars: Option<int>)

  function ViewOf(c: HeartbeatConfig): ConfigView {
    ConfigView(Some(c.enabled), Some(c.heartbeatFile), Some(c.ackToken), Some(c.ackMaxChars))
  }

  function EnabledOf(v: ConfigView): bool { v.enabled.GetOr(true) }
  function HeartbeatFileOf(v: ConfigView): string { v.heartbeatFile.GetOr("HEARTBEAT.md") }
  function AckTokenOf(v: ConfigView): string { v.ackToken.GetOr(HeartbeatNormalize.DefaultAckToken) }
  function AckMaxCharsOf(v: ConfigView): int { v.ackMaxChars.GetOr(HeartbeatNormalize.DefaultAckMaxChars) }

  // ---------------------------------------------------------------------------
  // adapters/null_responder.py
  // ---------------------------------------------------------------------------

  datatype NullResponder = NullResponder(ackToken: string, text: Option<string>)

  /** NullResponder's constructor: the token is stored trimmed and must not be blank. */
  function NewNullResponder(ackToken: string, text: Option<string>): (r: Result<NullResponder, string>)
    ensures r.Ok? <==> !Text.IsBlank(ackToken)
    ensures r.Err? ==> r.error == "ack_token must be a non-empty string"
    ensures r.Ok? ==> r.value.ackToken == Text.Strip(ackToken) && r.value.text == text
  {
    var token := Text.Strip(ackToken);
    if token == "" then Err("ack_token must be a non-empty string")
    else Ok(NullResponder(token, text))
  }

  /** `respond`: the configured text, else the token; the request plays no part. */
  function Respond(n: NullResponder): (text: string)
    ensures n.text.Some? ==> text == n.text.value
    ensures n.text.None? ==> text == n.ackToken
  {
    if n.text.Some? then n.text.value else n.ackToken
  }

  // ---------------------------------------------------------------------------
  // runner.py
  // ---------------------------------------------------------------------------

  datatype RunResult = RunResult(status: string, reason: string, outputText: string, error: string, runReason: string)

  /** The outcome of a run, and whether the responder was asked. */
  datatype Run = Run(result: RunResult, responderCalled: bool)

  /** `run_heartbeat_once`. `read` is what reading the prompt file gives and `response`
      what the responder returns or raises. A read error other than a missing file
      propagates. */
  function RunHeartbeatOnce(config: ConfigView, read: FileRead, response: Result<string, Exceptions.Exc>, reason: string)
    : (r: Result<Run, Exceptions.Exc>)
    ensures r.Ok? ==> r.value.result.runReason == reason && r.value.result.status in {"ran", "skipped", "failed"}
    // disabled: skipped, nothing read, responder never called
    ensures !EnabledOf(config) ==> r == Ok(Run(RunResult("skipped", "disabled", "", "", reason), false))
    ensures EnabledOf(config) ==> (r.Err? <==> read.ReadError?)
    // an empty, blank or missing prompt file: skipped, responder never called
    ensures EnabledOf(config) && (read.Missing? || (read.Contents? && Text.IsBlank(read.text))) ==>
              r == Ok(Run(RunResult("skipped", "empty-heartbeat-file", "", "", reason), false))
    // the responder is called exactly when the preflight passes
    ensures r.Ok? ==> (r.value.responderCalled <==> EnabledOf(config) && read.Contents? && !Text.IsBlank(read.text))
    // a raising responder: failed with the sanitised one-line error
    ensures r.Ok? && r.value.responderCalled && response.Err? ==>
              r.value.result == RunResult("failed", "adapter-exception", "", Exceptions.Sanitize(response.error), reason)
    // otherwise the normaliser decides
    ensures r.Ok? && r.value.responderCalled && response.Ok? ==>
              var n := HeartbeatNormalize.NormalizeHeartbeatText(Some(response.value), AckTokenOf(config), AckMaxCharsOf(config));
              r.value.result == if n.shouldDeliver then RunResult("ran", "delivered", n.text, "", reason)
                                else RunResult("skipped", n.reason, "", "", reason)
  {
    if !EnabledOf(config) then Ok(Run(RunResult("skipped", "disabled", "", "", reason), false))
    else match LoadHeartbeatPrompt(HeartbeatFileOf(config), read)
      case Err(e) => Err(e)
      case Ok(load) =>
        if load.isEmpty then Ok(Run(RunResult("skipped", "empty-heartbeat-file", "", "", reason), false))
        else match response
          case Err(e) => Ok(Run(RunResult("failed", "adapter-exception", "", Exceptions.Sanitize(e), reason), true))
          case Ok(text) =>
            var n := HeartbeatNormalize.NormalizeHeartbeatText(Some(text), AckTokenOf(config), AckMaxCharsOf(config));
            if n.shouldDeliver then Ok(Run(RunResult("ran", "delivered", n.text, "", reason), true))
            else Ok(Run(RunResult("skipped", n.reason, "", "", reason), true))
  }

  /** A run reports ran exactly when it delivers, and then its output is the normalised
      non-empty text. */
  lemma RanIffDelivered(config: ConfigView, read: FileRead, response: Result<string, Exceptions.Exc>, reason: string)
    requires RunHeartbeatOnce(config, read, response, reason).Ok?
    ensures var res := RunHeartbeatOnce(config, read, response, reason).value.result;
            (res.status == "ran" <==> res.reason == "delivered")
            && (res.status == "ran" ==> res.outputText != "" && Text.NoEdgeSpace(res.outputText))
            && (res.status != "ran" ==> res.outputText == "")
  {
  }

  lemma DefaultTokenTrimmed()
    ensures var t := HeartbeatNormalize.DefaultAckToken; t != "" && Text.NoEdgeSpace(t) && Text.Strip(t) == t
  {
    var t := HeartbeatNormalize.DefaultAckToken;
    assert t[0] == 'H' && t[|t| - 1] == 'K';
  }

  /** A null responder built with a trimmed token and no text answers with the token. */
  lemma NullResponderAnswersToken(token: string)
    requires token != "" && Text.NoEdgeSpace(token)
    ensures NewNullResponder(token, None).Ok? && Respond(NewNullResponder(token, None).value) == token
  {
    assert Text.Strip(token) == token;
  }

  /** A run whose responder answers exactly the configured token is skipped as ack-only. */
  lemma TokenAnswerAcksOnly(config: ConfigView, prompt: string, reason: string)
    requires EnabledOf(config) && !Text.IsBlank(prompt)
    requires AckTokenOf(config) != "" && Text.NoEdgeSpace(AckTokenOf(config))
    ensures RunHeartbeatOnce(config, Contents(prompt), Ok(AckTokenOf(config)), reason).value.result
            == RunResult("skipped", "ack-only", "", "", reason)
  {
    var token := AckTokenOf(config);
    assert "" + token + "" == token;
    HeartbeatNormalize.AckOnly("", token, "", AckMaxCharsOf(config));
    assert HeartbeatNormalize.NormalizeHeartbeatText(Some(token), token, AckMaxCharsOf(config))
           == HeartbeatNormalize.Skip("ack-only");
  }

  /** The default null responder under the default configuration acknowledges only. */
  lemma DefaultNullResponderAcksOnly(prompt: string, reason: string)
    requires !Text.IsBlank(prompt)
    ensures var n := NewNullResponder(HeartbeatNormalize.DefaultAckToken, None);
            && n.Ok?
            && RunHeartbeatOnce(ViewOf(DefaultConfig), Contents(prompt), Ok(Respond(n.value)), reason).value.result
               == RunResult("skipped", "ack-only", "", "", reason)
  {
    DefaultTokenTrimmed();
    NullResponderAnswersToken(HeartbeatNormalize.DefaultAckToken);
    TokenAnswerAcksOnly(ViewOf(DefaultConfig), prompt, reason);
  }
}
