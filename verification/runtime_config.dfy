/** The channel runtime's configuration: environment values, overridden by a few
    command-line flags, parsed into typed fields and validated as a whole. */
module RuntimeConfig {
  import opened Wrappers
  import Text
  import Numbers

  /** A raw configuration value: text from the environment or the command line, or
      the boolean `--once` stores. */
  datatype Raw = Str(s: string) | Bool(b: bool)

  /** Python's `str()` of a raw value. */
  function PyStr(v: Raw): string {
    match v
    case Str(s) => s
    case Bool(b) => if b then "True" else "False"
  }

  // ---------------------------------------------------------------------------
  // Scalar parsers
  // ---------------------------------------------------------------------------

  const TrueWords: set<string> := {"1", "true", "yes", "on"}
  const FalseWords: set<string> := {"0", "false", "no", "off", ""}

  /** The word `_parse_bool` compares: trimmed, then lower-cased. */
  function BoolWord(v: Raw): string {
    Text.Lower(Text.Strip(PyStr(v)))
  }

  /** No word is both a true word and a false word. */
  lemma WordsApart()
    ensures forall w :: w in TrueWords ==> w !in FalseWords
  {
    assert "1"[0] != "0"[0] && "on"[0] != "no"[0] && "yes"[0] != "off"[0];
  }

  /** `_parse_bool`. */
  function ParseBool(raw: Raw, field: string): (r: Result<bool, string>)
    ensures raw.Bool? ==> r == Ok(raw.b)
    ensures raw.Str? ==> (r == Ok(true) <==> BoolWord(raw) in TrueWords)
    ensures raw.Str? ==> (r == Ok(false) <==> BoolWord(raw) in FalseWords)
    ensures r.Err? ==> r.error == field + " must be a boolean"
  {
    match raw
    case Bool(b) => Ok(b)
    case Str(_) =>
      WordsApart();
      var w := BoolWord(raw);
      if w in TrueWords then Ok(true)
      else if w in FalseWords then Ok(false)
      else Err(field + " must be a boolean")
  }

  lemma LowerKeepsSpace(s: string)
    ensures forall i :: 0 <= i < |s| ==> (Text.IsSpace(Text.Lower(s)[i]) <==> Text.IsSpace(s[i]))
  {
  }

  /** The case and the surrounding whitespace of a boolean word do not matter. */
  lemma ParseBoolIgnoresCaseAndSpace(a: string, w: string, b: string, field: string)
    requires Text.AllSpace(a) && Text.AllSpace(b) && Text.NoEdgeSpace(w)
    ensures ParseBool(Str(a + w + b), field) == ParseBool(Str(Text.Lower(w)), field)
  {
    Text.StripIgnoresSurroundingSpace(a, w, b);
    LowerKeepsSpace(w);
    var l := Text.Lower(w);
    assert Text.NoEdgeSpace(l);
    assert Text.Strip(l) == l;
    Text.LowerIdempotent(w);
  }

  /** Python's `str()` of a boolean parses back to that boolean. */
  lemma ParseBoolOfPyStr(b: bool, field: string)
    ensures ParseBool(Str(PyStr(Bool(b))), field) == Ok(b)
  {
    var s := PyStr(Bool(b));
    assert Text.Strip(s) == s;
    if b {
      assert Text.Lower(s) == "true";
    } else {
      assert Text.Lower(s) == "false";
    }
  }

  /** Python's `int()` of a raw value; `int(True)` is 1. */
  function PyInt(v: Raw): Option<int> {
    match v
    case Str(s) => Numbers.PyIntOfText(s)
    case Bool(b) => Some(if b then 1 else 0)
  }

  /** `_parse_positive_int`. */
  function ParsePositiveInt(raw: Raw, field: string): (r: Result<int, string>)
    ensures r.Ok? <==> PyInt(raw).Some? && PyInt(raw).value >= 1
    ensures r.Ok? ==> r.value >= 1 && PyInt(raw) == Some(r.value)
    ensures r.Err? ==> r.error == field + " must be an integer >= 1"
  {
    match PyInt(raw)
    case None => Err(field + " must be an integer >= 1")
    case Some(v) => if v < 1 then Err(field + " must be an integer >= 1") else Ok(v)
  }

  /** The decimal text of a positive integer, with any surrounding whitespace, parses
      back to it. */
  lemma ParsePositiveIntRoundTrip(a: string, n: int, b: string, field: string)
    requires Text.AllSpace(a) && Text.AllSpace(b) && n >= 1
    ensures ParsePositiveInt(Str(a + Numbers.IntToString(n) + b), field) == Ok(n)
  {
    Numbers.PyIntOfTextRoundTrip(a, n, b);
  }

  /** Python's `float()` of a raw value, given the text conversion; `float(True)` is 1.0. */
  function PyFloat(v: Raw, toReal: string -> Option<real>): Option<real> {
    match v
    case Str(s) => toReal(s)
    case Bool(b) => Some(if b then 1.0 else 0.0)
  }

  /** `_parse_positive_float`, with the text conversion as a parameter. */
  function ParsePositiveFloat(raw: Raw, field: string, toReal: string -> Option<real>): (r: Result<real, string>)
    ensures r.Ok? <==> PyFloat(raw, toReal).Some? && PyFloat(raw, toReal).value > 0.0
    ensures r.Ok? ==> r.value > 0.0 && PyFloat(raw, toReal) == Some(r.value)
    ensures r.Err? ==> r.error == field + " must be a positive number"
  {
    match PyFloat(raw, toReal)
    case None => Err(field + " must be a positive number")
    case Some(v) => if v <= 0.0 then Err(field + " must be a positive number") else Ok(v)
  }

  const EmptyChatId := "allowed_chat_ids must not contain empty values"

  /** The trimmed comma-separated parts of a non-blank allowlist text. */
  function AllowlistParts(text: string): (ids: seq<string>)
    ensures |ids| == |Text.SplitOn(Text.Strip(text), ',')|
    ensures forall k :: 0 <= k < |ids| ==> ids[k] == Text.Strip(Text.SplitOn(Text.Strip(text), ',')[k])
  {
    var parts := Text.SplitOn(Text.Strip(text), ',');
    seq(|parts|, k requires 0 <= k < |parts| => Text.Strip(parts[k]))
  }

  predicate NoneEmpty(ids: seq<string>) {
    forall k :: 0 <= k < |ids| ==> ids[k] != ""
  }

  /** `_parse_allowlist` for the values it receives here, None or text. */
  function ParseAllowlist(raw: Option<string>): (r: Result<seq<string>, string>)
    ensures raw.None? || Text.IsBlank(raw.value) ==> r == Ok([])
    ensures raw.Some? && !Text.IsBlank(raw.value) ==>
              (r.Ok? <==> forall k :: 0 <= k < |AllowlistParts(raw.value)| ==> AllowlistParts(raw.value)[k] != "")
    ensures raw.Some? && !Text.IsBlank(raw.value) && r.Ok? ==> r.value == AllowlistParts(raw.value)
    // every accepted id is non-empty, trimmed and free of commas
    ensures r.Ok? ==> forall k :: 0 <= k < |r.value| ==>
              r.value[k] != "" && Text.NoEdgeSpace(r.value[k]) && ',' !in r.value[k]
    ensures r.Err? ==> r.error == EmptyChatId
  {
    if raw.None? || Text.IsBlank(raw.value) then Ok([])
    else
      var ids := AllowlistParts(raw.value);
      var parts := Text.SplitOn(Text.Strip(raw.value), ',');
      assert forall k :: 0 <= k < |ids| ==> ',' !in ids[k] by {
        forall k | 0 <= k < |ids| ensures ',' !in ids[k] {
          StripKeepsOut(parts[k], ',');
        }
      }
      if !NoneEmpty(ids) then Err(EmptyChatId) else Ok(ids)
  }

  /** Stripping only removes characters. */
  lemma StripKeepsOut(s: string, c: char)
    requires c !in s
    ensures c !in Text.Strip(s)
  {
    var t := Text.Strip(s);
    var l := Text.LStrip(s);
    assert forall i :: 0 <= i < |l| ==> l[i] == s[i + Text.LeadingSpaces(s)];
    assert forall i :: 0 <= i < |t| ==> t[i] == l[i];
  }

  /** A comma-join of ids that do not start or end with whitespace is already trimmed. */
  lemma JoinTrimmed(ids: seq<string>)
    requires |ids| >= 1 && ids[0] != "" && ids[|ids| - 1] != ""
    requires Text.NoEdgeSpace(ids[0]) && Text.NoEdgeSpace(ids[|ids| - 1])
    ensures !Text.IsBlank(Text.Join(',', ids))
    ensures Text.Strip(Text.Join(',', ids)) == Text.Join(',', ids)
  {
    Text.JoinEdges(',', ids);
  }

  /** Stripping parts that are already trimmed changes nothing. */
  lemma StripTrimmedParts(parts: seq<string>)
    requires forall k :: 0 <= k < |parts| ==> Text.NoEdgeSpace(parts[k])
    ensures seq(|parts|, k requires 0 <= k < |parts| => Text.Strip(parts[k])) == parts
  {
  }

  /** The parts of a comma-join of trimmed, non-empty, comma-free ids are those ids. */
  lemma AllowlistPartsOfJoin(ids: seq<string>)
    requires |ids| >= 1
    requires forall k :: 0 <= k < |ids| ==> ids[k] != "" && Text.NoEdgeSpace(ids[k]) && ',' !in ids[k]
    ensures !Text.IsBlank(Text.Join(',', ids))
    ensures AllowlistParts(Text.Join(',', ids)) == ids
  {
    var text := Text.Join(',', ids);
    JoinTrimmed(ids);
    Text.SplitJoin(ids, ',');
    StripTrimmedParts(ids);
  }

  /** A comma-join of trimmed, non-empty, comma-free ids parses back to those ids. */
  lemma AllowlistRoundTrip(ids: seq<string>)
    requires |ids| >= 1
    requires forall k :: 0 <= k < |ids| ==> ids[k] != "" && Text.NoEdgeSpace(ids[k]) && ',' !in ids[k]
    ensures ParseAllowlist(Some(Text.Join(',', ids))) == Ok(ids)
  {
    AllowlistPartsOfJoin(ids);
    assert NoneEmpty(ids);
  }

  // ---------------------------------------------------------------------------
  // RuntimeConfig and its validation
  // ---------------------------------------------------------------------------

  datatype Config = Config(
    token: string,
    mode: string,
    ackPolicy: string,
    orchestratorMode: string,
    codexTimeoutS: real,
    notifyOnOrchestratorError: bool,
    codexSessionMax: int,
    codexSessionIdleTtlS: real,
    pollIntervalS: real,
    allowedChatIds: seq<string>,
    cursorStatePath: string,
    strictCursorStateIo: bool,
    liveMode: bool,
    once: bool)

  const AckPolicies: set<string> := {"always", "on-success"}
  const OrchestratorModes: set<string> := {"default", "codex"}
  const DefaultCursorStatePath := ".channel_runtime/telegram_cursor_state.json"

  /** The dataclass defaults around a given token. */
  function Defaults(token: string): Config {
    Config(token, "poll", "always", "default", 20.0, false, 128, 900.0, 2.0, [],
           DefaultCursorStatePath, false, false, false)
  }

  /** The field checks of `__post_init__`, on already normalised fields. */
  predicate FieldsValid(c: Config) {
    && c.token != ""
    && c.mode == "poll"
    && c.ackPolicy in AckPolicies
    && c.orchestratorMode in OrchestratorModes
    && c.codexTimeoutS > 0.0
    && c.codexSessionMax >= 1
    && c.codexSessionIdleTtlS > 0.0
    && c.pollIntervalS > 0.0
    && (forall k :: 0 <= k < |c.allowedChatIds| ==> !Text.IsBlank(c.allowedChatIds[k]))
    && (c.liveMode ==> |c.allowedChatIds| > 0)
  }

  /** A configuration `__post_init__` accepts and leaves as it is. */
  predicate Valid(c: Config) {
    FieldsValid(c) && Text.NoEdgeSpace(c.token)
  }

  function NormalAckPolicy(s: string): string {
    Text.Lower(Text.Strip(s))
  }

  /** The four text fields as `__post_init__` stores them. */
  function Normalize(c: Config): Config {
    c.(token := Text.Strip(c.token), mode := Text.Strip(c.mode),
       ackPolicy := NormalAckPolicy(c.ackPolicy), orchestratorMode := Text.Strip(c.orchestratorMode))
  }

  /** The first three checks of `__post_init__` pass. */
  predicate TextFieldsValid(n: Config) {
    n.token != "" && n.mode == "poll" && n.ackPolicy in AckPolicies
  }

  /** The first six checks of `__post_init__` pass. */
  predicate ScalarFieldsValid(n: Config) {
    && TextFieldsValid(n) && n.orchestratorMode in OrchestratorModes
    && n.codexTimeoutS > 0.0 && n.codexSessionMax >= 1
  }

  /** The first failing check of `__post_init__`, in source order, on normalised fields. */
  function Violation(n: Config): (r: Option<string>)
    ensures r.None? <==> FieldsValid(n)
    ensures n.token == "" ==> r == Some("token must be a non-empty string")
    ensures n.token != "" && n.mode != "poll" ==> r == Some("mode must be 'poll' for TG-P0")
    ensures n.token != "" && n.mode == "poll" && n.ackPolicy !in AckPolicies ==>
              r == Some("ack_policy must be 'always' or 'on-success'")
    ensures TextFieldsValid(n) && n.orchestratorMode !in OrchestratorModes ==>
              r == Some("orchestrator_mode must be 'default' or 'codex'")
    ensures TextFieldsValid(n) && n.orchestratorMode in OrchestratorModes && n.codexTimeoutS <= 0.0 ==>
              r == Some("codex_timeout_s must be a positive number")
    ensures (TextFieldsValid(n) && n.orchestratorMode in OrchestratorModes && n.codexTimeoutS > 0.0
             && n.codexSessionMax < 1) ==> r == Some("codex_session_max must be an integer >= 1")
    ensures ScalarFieldsValid(n) && n.codexSessionIdleTtlS <= 0.0 ==>
              r == Some("codex_session_idle_ttl_s must be a positive number")
    ensures ScalarFieldsValid(n) && n.codexSessionIdleTtlS > 0.0 && n.pollIntervalS <= 0.0 ==>
              r == Some("poll_interval_s must be a positive number")
    ensures r == Some(EmptyChatId) <==>
              (&& ScalarFieldsValid(n) && n.codexSessionIdleTtlS > 0.0 && n.pollIntervalS > 0.0
               && exists k :: 0 <= k < |n.allowedChatIds| && Text.IsBlank(n.allowedChatIds[k]))
  {
    if n.token == "" then Some("token must be a non-empty string")
    else if n.mode != "poll" then Some("mode must be 'poll' for TG-P0")
    else if n.ackPolicy !in AckPolicies then Some("ack_policy must be 'always' or 'on-success'")
    else if n.orchestratorMode !in OrchestratorModes then Some("orchestrator_mode must be 'default' or 'codex'")
    else if n.codexTimeoutS <= 0.0 then Some("codex_timeout_s must be a positive number")
    else if n.codexSessionMax < 1 then Some("codex_session_max must be an integer >= 1")
    else if n.codexSessionIdleTtlS <= 0.0 then Some("codex_session_idle_ttl_s must be a positive number")
    else if n.pollIntervalS <= 0.0 then Some("poll_interval_s must be a positive number")
    else if exists k :: 0 <= k < |n.allowedChatIds| && Text.IsBlank(n.allowedChatIds[k]) then Some(EmptyChatId)
    else if n.liveMode && |n.allowedChatIds| == 0 then Some("allowed_chat_ids must be non-empty when live_mode is enabled")
    else None
  }

  /** `RuntimeConfig.__post_init__`: trims the token, mode and orchestrator mode,
      trims and lower-cases the ack policy, and checks the fields in a fixed order. */
  function Validate(c: Config): (r: Result<Config, string>)
    ensures r.Ok? <==> FieldsValid(Normalize(c))
    ensures r.Ok? ==> Valid(r.value) && r.value == Normalize(c)
    ensures r.Err? ==> Violation(Normalize(c)) == Some(r.error)
  {
    var n := Normalize(c);
    match Violation(n)
    case Some(e) => Err(e)
    case None => Ok(n)
  }

  /** Normalising a valid configuration changes nothing. */
  lemma ValidIsNormal(c: Config)
    requires Valid(c)
    ensures Normalize(c) == c
  {
    assert Text.Strip(c.token) == c.token;
    AckPolicyNormal(c.ackPolicy);
    OrchestratorModeNormal(c.orchestratorMode);
    assert Text.Strip(c.mode) == c.mode by { assert Text.NoEdgeSpace("poll"); }
  }

  lemma OrchestratorModeNormal(m: string)
    requires m in OrchestratorModes
    ensures Text.Strip(m) == m
  {
    assert Text.NoEdgeSpace(m);
  }

  /** Validation accepts every valid configuration unchanged. */
  lemma ValidIsFixpoint(c: Config)
    requires Valid(c)
    ensures Validate(c) == Ok(c)
  {
    ValidIsNormal(c);
  }

  lemma AckPolicyNormal(p: string)
    requires p in AckPolicies
    ensures NormalAckPolicy(p) == p
  {
    assert Text.NoEdgeSpace(p);
    Text.LowerOfNoUpper(p);
  }

  /** Validating an already validated configuration changes nothing. */
  lemma ValidateIdempotent(c: Config)
    requires Validate(c).Ok?
    ensures Validate(Validate(c).value) == Validate(c)
  {
    ValidIsFixpoint(Validate(c).value);
  }

  /** The defaults are valid around any non-blank token. */
  lemma DefaultsValid(token: string)
    requires !Text.IsBlank(token)
    ensures Validate(Defaults(token)) == Ok(Defaults(Text.Strip(token)))
  {
    assert Text.Strip("poll") == "poll";
    assert Text.Strip("always") == "always";
    assert Text.Lower("always") == "always";
    assert Text.Strip("default") == "default";
  }

  // ---------------------------------------------------------------------------
  // Command-line overrides
  // ---------------------------------------------------------------------------

  /** The flags that take a value, and the configuration key each sets. */
  const ValueFlags: map<string, string> := map[
    "--token" := "token",
    "--mode" := "mode",
    "--ack-policy" := "ack_policy",
    "--orchestrator-mode" := "orchestrator_mode",
    "--codex-timeout-s" := "codex_timeout_s",
    "--notify-on-orchestrator-error" := "notify_on_orchestrator_error",
    "--codex-session-max" := "codex_session_max",
    "--codex-session-idle-ttl-s" := "codex_session_idle_ttl_s",
    "--poll-interval-s" := "poll_interval_s",
    "--allowed-chat-ids" := "allowed_chat_ids",
    "--cursor-state-path" := "cursor_state_path",
    "--strict-cursor-state-io" := "strict_cursor_state_io",
    "--live-mode" := "live_mode"]

  /** Every key a command-line flag can set. */
  const OverridableKeys: set<string> := ValueFlags.Values + {"once"}

  /** `_apply_cli_overrides` as a scan over the arguments: `--once` takes no value,
      every other known flag consumes the next argument, and anything else is an error. */
  function Overrides(values: map<string, Raw>, args: seq<string>): (r: Result<map<string, Raw>, string>)
    // only overridable keys are added or changed
    ensures r.Ok? ==> values.Keys <= r.value.Keys <= values.Keys + OverridableKeys
    ensures r.Ok? ==> forall k :: k in values && k !in OverridableKeys ==> r.value[k] == values[k]
  {
    Scan(ValueFlags, values, args)
  }

  /** The scan of `Overrides` for any table of value flags. */
  function Scan(flags: map<string, string>, values: map<string, Raw>, args: seq<string>)
    : (r: Result<map<string, Raw>, string>)
    ensures r.Ok? ==> values.Keys <= r.value.Keys <= values.Keys + flags.Values + {"once"}
    ensures r.Ok? ==> forall k :: k in values && k !in flags.Values + {"once"} ==> r.value[k] == values[k]
    decreases |args|
  {
    if |args| == 0 then Ok(values)
    else if args[0] == "--once" then Scan(flags, values["once" := Bool(true)], args[1..])
    else if args[0] in flags then
      if |args| < 2 then Err("missing value for " + args[0])
      else Scan(flags, values[flags[args[0]] := Str(args[1])], args[2..])
    else Err("unknown argument: " + args[0])
  }

  /** `_apply_cli_overrides` as written, a loop over an index. */
  method ApplyCliOverrides(values: map<string, Raw>, args: seq<string>) returns (r: Result<map<string, Raw>, string>)
    ensures r == Overrides(values, args)
  {
    var i := 0;
    var current := values;
    while i < |args|
      invariant 0 <= i <= |args|
      invariant Overrides(values, args) == Overrides(current, args[i..])
      decreases |args| - i
    {
      var arg := args[i];
      if arg == "--once" {
        current := current["once" := Bool(true)];
        i := i + 1;
        continue;
      }
      if arg in ValueFlags {
        if i + 1 >= |args| {
          return Err("missing value for " + arg);
        }
        current := current[ValueFlags[arg] := Str(args[i + 1])];
        assert args[i..][2..] == args[i + 2..];
        i := i + 2;
        continue;
      }
      return Err("unknown argument: " + arg);
    }
    assert args[i..] == [];
    return Ok(current);
  }

  /** Arguments processed without error leave the scan on an argument boundary, so the
      overrides of a concatenation compose. */
  lemma OverridesConcat(values: map<string, Raw>, pre: seq<string>, post: seq<string>)
    requires Overrides(values, pre).Ok?
    ensures Overrides(values, pre + post) == Overrides(Overrides(values, pre).value, post)
  {
    ScanConcat(ValueFlags, values, pre, post);
  }

  lemma {:induction false} ScanConcat(flags: map<string, string>, values: map<string, Raw>,
                                      pre: seq<string>, post: seq<string>)
    requires Scan(flags, values, pre).Ok?
    ensures Scan(flags, values, pre + post) == Scan(flags, Scan(flags, values, pre).value, post)
    decreases |pre|
  {
    if |pre| == 0 {
      assert pre + post == post;
    } else if pre[0] == "--once" {
      assert (pre + post)[1..] == pre[1..] + post;
      ScanConcat(flags, values["once" := Bool(true)], pre[1..], post);
    } else {
      assert |pre| >= 2;
      assert (pre + post)[2..] == pre[2..] + post;
      ScanConcat(flags, values[flags[pre[0]] := Str(pre[1])], pre[2..], post);
    }
  }

  lemma OnceTakesNoFlagValue()
    ensures "--once" !in ValueFlags
  {
  }

  /** A value flag with its value sets that key to the text, replacing the environment's. */
  lemma FlagValueApplied(values: map<string, Raw>, pre: seq<string>, flag: string, v: string)
    requires Overrides(values, pre).Ok? && flag in ValueFlags
    ensures Overrides(values, pre + [flag, v]) == Ok(Overrides(values, pre).value[ValueFlags[flag] := Str(v)])
  {
    OverridesConcat(values, pre, [flag, v]);
    OnceTakesNoFlagValue();
    var m := Overrides(values, pre).value;
    assert [flag, v][2..] == [];
    assert Scan(ValueFlags, m, [flag, v]) == Scan(ValueFlags, m[ValueFlags[flag] := Str(v)], []);
  }

  /** `--once` consumes no value: what follows it is read as the next flag. */
  lemma OnceTakesNoValue(values: map<string, Raw>, pre: seq<string>, post: seq<string>)
    requires Overrides(values, pre).Ok?
    ensures Overrides(values, pre + ["--once"] + post)
         == Overrides(Overrides(values, pre).value["once" := Bool(true)], post)
  {
    assert pre + ["--once"] + post == pre + (["--once"] + post);
    OverridesConcat(values, pre, ["--once"] + post);
    assert (["--once"] + post)[1..] == post;
  }

  /** A value flag at the very end is missing its value. */
  lemma TrailingFlagMissingValue(values: map<string, Raw>, pre: seq<string>, flag: string)
    requires Overrides(values, pre).Ok? && flag in ValueFlags
    ensures Overrides(values, pre + [flag]) == Err("missing value for " + flag)
  {
    OverridesConcat(values, pre, [flag]);
    OnceTakesNoFlagValue();
  }

  /** An unrecognised argument in flag position stops the scan with an error. */
  lemma UnknownArgumentRejected(values: map<string, Raw>, pre: seq<string>, arg: string, post: seq<string>)
    requires Overrides(values, pre).Ok? && arg != "--once" && arg !in ValueFlags
    ensures Overrides(values, pre + [arg] + post) == Err("unknown argument: " + arg)
  {
    assert pre + [arg] + post == pre + ([arg] + post);
    OverridesConcat(values, pre, [arg] + post);
  }

  // ---------------------------------------------------------------------------
  // parse_runtime_config
  // ---------------------------------------------------------------------------

  function EnvOr(env: map<string, string>, key: string, default: string): Raw {
    Str(if key in env then env[key] else default)
  }

  /** The keys the environment always supplies. */
  const EnvKeys: set<string> := {"token", "mode", "ack_policy", "orchestrator_mode", "codex_timeout_s",
    "notify_on_orchestrator_error", "codex_session_max", "codex_session_idle_ttl_s", "poll_interval_s",
    "allowed_chat_ids", "cursor_state_path", "strict_cursor_state_io", "live_mode", "once"}

  /** The environment variable a key is read from, and its default. */
  function EnvSource(key: string): (string, string) {
    match key
    case "token" => ("CHANNEL_TOKEN", "")
    case "mode" => ("CHANNEL_MODE", "poll")
    case "ack_policy" => ("CHANNEL_ACK_POLICY", "always")
    case "orchestrator_mode" => ("CHANNEL_ORCHESTRATOR_MODE", "default")
    case "codex_timeout_s" => ("CHANNEL_CODEX_TIMEOUT_S", "20.0")
    case "notify_on_orchestrator_error" => ("CHANNEL_NOTIFY_ON_ORCHESTRATOR_ERROR", "false")
    case "codex_session_max" => ("CHANNEL_CODEX_SESSION_MAX", "128")
    case "codex_session_idle_ttl_s" => ("CHANNEL_CODEX_SESSION_IDLE_TTL_S", "900.0")
    case "poll_interval_s" => ("CHANNEL_POLL_INTERVAL_S", "2.0")
    case "allowed_chat_ids" => ("CHANNEL_ALLOWED_CHAT_IDS", "")
    case "cursor_state_path" => ("CHANNEL_CURSOR_STATE_PATH", DefaultCursorStatePath)
    case "strict_cursor_state_io" => ("CHANNEL_STRICT_CURSOR_STATE_IO", "false")
    case "live_mode" => ("CHANNEL_LIVE_MODE", "false")
    case "once" => ("CHANNEL_ONCE", "false")
    case _ => ("", "")
  }

  /** The raw values taken from the environment, with their defaults. */
  function EnvValues(env: map<string, string>): (m: map<string, Raw>)
    ensures m.Keys == EnvKeys
  {
    map k | k in EnvKeys :: EnvOr(env, EnvSource(k).0, EnvSource(k).1)
  }

  /** Every field of `c` is what its parser made of the merged raw value, and the four
      text fields are stored as `__post_init__` normalises them. */
  predicate ParsedFrom(values: map<string, Raw>, toReal: string -> Option<real>, c: Config)
    requires EnvKeys <= values.Keys
  {
    && c.token == Text.Strip(PyStr(values["token"]))
    && c.mode == Text.Strip(PyStr(values["mode"]))
    && c.ackPolicy == NormalAckPolicy(PyStr(values["ack_policy"]))
    && c.orchestratorMode == Text.Strip(PyStr(values["orchestrator_mode"]))
    && ParsePositiveFloat(values["codex_timeout_s"], "codex_timeout_s", toReal) == Ok(c.codexTimeoutS)
    && ParseBool(values["notify_on_orchestrator_error"], "notify_on_orchestrator_error")
       == Ok(c.notifyOnOrchestratorError)
    && ParsePositiveInt(values["codex_session_max"], "codex_session_max") == Ok(c.codexSessionMax)
    && ParsePositiveFloat(values["codex_session_idle_ttl_s"], "codex_session_idle_ttl_s", toReal)
       == Ok(c.codexSessionIdleTtlS)
    && ParsePositiveFloat(values["poll_interval_s"], "poll_interval_s", toReal) == Ok(c.pollIntervalS)
    && ParseAllowlist(Some(PyStr(values["allowed_chat_ids"]))) == Ok(c.allowedChatIds)
    && c.cursorStatePath == Text.Strip(PyStr(values["cursor_state_path"]))
    && ParseBool(values["strict_cursor_state_io"], "strict_cursor_state_io") == Ok(c.strictCursorStateIo)
    && ParseBool(values["live_mode"], "live_mode") == Ok(c.liveMode)
    && ParseBool(values["once"], "once") == Ok(c.once)
  }

  /** What each typed parser made of its merged raw value, in source order: the codex
      timeout, the notify flag, the session maximum, the idle ttl, the poll interval,
      the allowlist, then the three trailing booleans. */
  datatype Parsed = Parsed(
    codexTimeoutS: Result<real, string>,
    notify: Result<bool, string>,
    codexSessionMax: Result<int, string>,
    idleTtlS: Result<real, string>,
    pollIntervalS: Result<real, string>,
    allowedChatIds: Result<seq<string>, string>,
    strict: Result<bool, string>,
    liveMode: Result<bool, string>,
    once: Result<bool, string>)

  function ParseEach(values: map<string, Raw>, toReal: string -> Option<real>): Parsed
    requires EnvKeys <= values.Keys
  {
    Parsed(ParsePositiveFloat(values["codex_timeout_s"], "codex_timeout_s", toReal),
           ParseBool(values["notify_on_orchestrator_error"], "notify_on_orchestrator_error"),
           ParsePositiveInt(values["codex_session_max"], "codex_session_max"),
           ParsePositiveFloat(values["codex_session_idle_ttl_s"], "codex_session_idle_ttl_s", toReal),
           ParsePositiveFloat(values["poll_interval_s"], "poll_interval_s", toReal),
           ParseAllowlist(Some(PyStr(values["allowed_chat_ids"]))),
           ParseBool(values["strict_cursor_state_io"], "strict_cursor_state_io"),
           ParseBool(values["live_mode"], "live_mode"),
           ParseBool(values["once"], "once"))
  }

  /** The error of the first parser, in source order, that failed. */
  function FirstError(p: Parsed): Option<string> {
    if p.codexTimeoutS.Err? then Some(p.codexTimeoutS.error)
    else if p.notify.Err? then Some(p.notify.error)
    else if p.codexSessionMax.Err? then Some(p.codexSessionMax.error)
    else if p.idleTtlS.Err? then Some(p.idleTtlS.error)
    else if p.pollIntervalS.Err? then Some(p.pollIntervalS.error)
    else if p.allowedChatIds.Err? then Some(p.allowedChatIds.error)
    else if p.strict.Err? then Some(p.strict.error)
    else if p.liveMode.Err? then Some(p.liveMode.error)
    else if p.once.Err? then Some(p.once.error)
    else None
  }

  /** The `RuntimeConfig(...)` call once every typed parser has accepted: the four text
      fields as given, the cursor state path trimmed, the rest as parsed. */
  function Assemble(values: map<string, Raw>, p: Parsed): Config
    requires EnvKeys <= values.Keys && FirstError(p).None?
  {
    Config(PyStr(values["token"]), PyStr(values["mode"]), PyStr(values["ack_policy"]),
           PyStr(values["orchestrator_mode"]), p.codexTimeoutS.value, p.notify.value, p.codexSessionMax.value,
           p.idleTtlS.value, p.pollIntervalS.value, p.allowedChatIds.value,
           Text.Strip(PyStr(values["cursor_state_path"])), p.strict.value, p.liveMode.value, p.once.value)
  }

  /** The typed parsers in source order, then `__post_init__`, on the merged values. */
  function ParseValues(values: map<string, Raw>, toReal: string -> Option<real>): (r: Result<Config, string>)
    requires EnvKeys <= values.Keys
    ensures r.Ok? ==> Valid(r.value) && ParsedFrom(values, toReal, r.value)
    // the first parser to fail decides the error
    ensures FirstError(ParseEach(values, toReal)).Some? ==> r == Err(FirstError(ParseEach(values, toReal)).value)
    // when every parser accepts, `__post_init__` alone decides
    ensures FirstError(ParseEach(values, toReal)).None? ==> r == Validate(Assemble(values, ParseEach(values, toReal)))
    ensures r.Ok? <==> (&& FirstError(ParseEach(values, toReal)).None?
                        && FieldsValid(Normalize(Assemble(values, ParseEach(values, toReal)))))
  {
    var p := ParseEach(values, toReal);
    var codexTimeoutS :- p.codexTimeoutS;
    var notify :- p.notify;
    var codexSessionMax :- p.codexSessionMax;
    var ttl :- p.idleTtlS;
    var poll :- p.pollIntervalS;
    var allowed :- p.allowedChatIds;
    ParseFlags(p, Config(PyStr(values["token"]), PyStr(values["mode"]), PyStr(values["ack_policy"]),
                         PyStr(values["orchestrator_mode"]), codexTimeoutS, notify, codexSessionMax, ttl, poll,
                         allowed, Text.Strip(PyStr(values["cursor_state_path"])), false, false, false))
  }

  /** The three trailing booleans, then `__post_init__`. */
  function ParseFlags(p: Parsed, c: Config): (r: Result<Config, string>)
    ensures r.Ok? ==>
              && Valid(r.value)
              && p.strict == Ok(r.value.strictCursorStateIo) && p.liveMode == Ok(r.value.liveMode)
              && p.once == Ok(r.value.once)
              && r.value == Normalize(c).(strictCursorStateIo := r.value.strictCursorStateIo,
                                          liveMode := r.value.liveMode, once := r.value.once)
    // the first boolean to fail decides the error
    ensures p.strict.Err? ==> r == Err(p.strict.error)
    ensures p.strict.Ok? && p.liveMode.Err? ==> r == Err(p.liveMode.error)
    ensures p.strict.Ok? && p.liveMode.Ok? && p.once.Err? ==> r == Err(p.once.error)
    // with all three parsed, the configuration is accepted exactly when `__post_init__` accepts it
    ensures p.strict.Ok? && p.liveMode.Ok? && p.once.Ok? ==>
              var full := c.(strictCursorStateIo := p.strict.value, liveMode := p.liveMode.value, once := p.once.value);
              && (r.Ok? <==> FieldsValid(Normalize(full)))
              && (r.Err? ==> Violation(Normalize(full)) == Some(r.error))
  {
    var strict :- p.strict;
    var liveMode :- p.liveMode;
    var once :- p.once;
    Validate(c.(strictCursorStateIo := strict, liveMode := liveMode, once := once))
  }

  /** `env or os.environ`: a missing or empty mapping falls back to the process
      environment. */
  function SourceEnv(env: Option<map<string, string>>, osEnviron: map<string, string>): (m: map<string, string>)
    ensures env.Some? && env.value != map[] ==> m == env.value
    ensures env.None? || env.value == map[] ==> m == osEnviron
  {
    if env.Some? && env.value != map[] then env.value else osEnviron
  }

  /** The merged raw values: the chosen environment with its defaults, then the
      command-line overrides. */
  function MergedValues(env: Option<map<string, string>>, osEnviron: map<string, string>, args: seq<string>)
    : Result<map<string, Raw>, string>
  {
    Overrides(EnvValues(SourceEnv(env, osEnviron)), args)
  }

  /** `parse_runtime_config`: environment values, command-line overrides, the typed
      parsers in source order, then `__post_init__`. `osEnviron` is the process
      environment and `toReal` is Python's `float()` on text. */
  function ParseRuntimeConfig(env: Option<map<string, string>>, osEnviron: map<string, string>, args: seq<string>,
                              toReal: string -> Option<real>)
    : (r: Result<Config, string>)
    ensures r.Ok? ==> Valid(r.value)
    // a command-line error comes first
    ensures MergedValues(env, osEnviron, args).Err? ==> r == Err(MergedValues(env, osEnviron, args).error)
    // the stored token is the trimmed text of the last override, else the environment's
    ensures r.Ok? ==> MergedValues(env, osEnviron, args).Ok?
                      && ParsedFrom(MergedValues(env, osEnviron, args).value, toReal, r.value)
    // then the first typed parser to fail, then `__post_init__`
    ensures MergedValues(env, osEnviron, args).Ok? ==>
              var values := MergedValues(env, osEnviron, args).value;
              var p := ParseEach(values, toReal);
              && (FirstError(p).Some? ==> r == Err(FirstError(p).value))
              && (FirstError(p).None? ==> r == Validate(Assemble(values, p)))
  {
    var values :- MergedValues(env, osEnviron, args);
    ParseValues(values, toReal)
  }

  lemma TokenFlag(values: map<string, Raw>, t: string)
    ensures Overrides(values, ["--token", t]) == Ok(values["token" := Str(t)])
  {
    var args := ["--token", t];
    assert args[0] == "--token";
    assert ValueFlags["--token"] == "token";
    assert args[2..] == [];
    assert Scan(ValueFlags, values, args) == Scan(ValueFlags, values["token" := Str(t)], []);
  }

  /** A token given on the command line replaces the environment's and is stored trimmed. */
  lemma CliTokenWins(env: Option<map<string, string>>, osEnviron: map<string, string>, t: string,
                     toReal: string -> Option<real>)
    requires ParseRuntimeConfig(env, osEnviron, ["--token", t], toReal).Ok?
    ensures ParseRuntimeConfig(env, osEnviron, ["--token", t], toReal).value.token == Text.Strip(t)
  {
    TokenFlag(EnvValues(SourceEnv(env, osEnviron)), t);
  }

  /** With only a non-blank token in the environment and no arguments, the defaults are
      parsed and accepted, the token stored trimmed; `float()` is assumed to read the
      three default texts as their values. */
  lemma DefaultEnvironmentParses(token: string, osEnviron: map<string, string>, toReal: string -> Option<real>)
    requires !Text.IsBlank(token)
    requires toReal("20.0") == Some(20.0) && toReal("900.0") == Some(900.0) && toReal("2.0") == Some(2.0)
    ensures ParseRuntimeConfig(Some(map["CHANNEL_TOKEN" := token]), osEnviron, [], toReal) == Ok(Defaults(Text.Strip(token)))
  {
    var env := map["CHANNEL_TOKEN" := token];
    var values := EnvValues(env);
    assert MergedValues(Some(env), osEnviron, []) == Ok(values) by {
      assert SourceEnv(Some(env), osEnviron) == env by { assert "CHANNEL_TOKEN" in env; }
    }
    DefaultValues(token, values);
    DefaultsAssemble(token, values, toReal);
    DefaultsValid(token);
  }

  /** The default raw values pass every parser and assemble into the defaults. */
  lemma DefaultsAssemble(token: string, values: map<string, Raw>, toReal: string -> Option<real>)
    requires EnvKeys <= values.Keys
    requires values["token"] == Str(token) && values["mode"] == Str("poll") && values["ack_policy"] == Str("always")
    requires values["orchestrator_mode"] == Str("default") && values["codex_timeout_s"] == Str("20.0")
    requires values["notify_on_orchestrator_error"] == Str("false") && values["codex_session_max"] == Str("128")
    requires values["codex_session_idle_ttl_s"] == Str("900.0") && values["poll_interval_s"] == Str("2.0")
    requires values["allowed_chat_ids"] == Str("") && values["cursor_state_path"] == Str(DefaultCursorStatePath)
    requires values["strict_cursor_state_io"] == Str("false") && values["live_mode"] == Str("false")
    requires values["once"] == Str("false")
    requires toReal("20.0") == Some(20.0) && toReal("900.0") == Some(900.0) && toReal("2.0") == Some(2.0)
    ensures FirstError(ParseEach(values, toReal)).None?
    ensures Assemble(values, ParseEach(values, toReal)) == Defaults(token)
  {
    DefaultFieldsParse(values, toReal);
    DefaultPathTrimmed();
  }

  lemma DefaultPathTrimmed()
    ensures Text.Strip(DefaultCursorStatePath) == DefaultCursorStatePath
  {
    var s := DefaultCursorStatePath;
    assert s[0] == '.' && s[|s| - 1] == 'n';
    assert Text.NoEdgeSpace(s);
  }

  /** The raw values of an environment holding only the token. */
  lemma DefaultValues(token: string, values: map<string, Raw>)
    requires values == EnvValues(map["CHANNEL_TOKEN" := token])
    ensures values["token"] == Str(token) && values["mode"] == Str("poll") && values["ack_policy"] == Str("always")
    ensures values["orchestrator_mode"] == Str("default") && values["codex_timeout_s"] == Str("20.0")
    ensures values["notify_on_orchestrator_error"] == Str("false") && values["codex_session_max"] == Str("128")
    ensures values["codex_session_idle_ttl_s"] == Str("900.0") && values["poll_interval_s"] == Str("2.0")
    ensures values["allowed_chat_ids"] == Str("") && values["cursor_state_path"] == Str(DefaultCursorStatePath)
    ensures values["strict_cursor_state_io"] == Str("false") && values["live_mode"] == Str("false")
    ensures values["once"] == Str("false")
  {
    DefaultTextValues(token, values);
    DefaultNumberValues(token, values);
    DefaultFlagValues(token, values);
    DefaultModeValues(token, values);
  }

  lemma DefaultTextValues(token: string, values: map<string, Raw>)
    requires values == EnvValues(map["CHANNEL_TOKEN" := token])
    ensures values["token"] == Str(token) && values["mode"] == Str("poll") && values["ack_policy"] == Str("always")
    ensures values["orchestrator_mode"] == Str("default") && values["allowed_chat_ids"] == Str("")
  {
    assert "CHANNEL_MODE" != "CHANNEL_TOKEN";
  }

  lemma DefaultNumberValues(token: string, values: map<string, Raw>)
    requires values == EnvValues(map["CHANNEL_TOKEN" := token])
    ensures values["codex_timeout_s"] == Str("20.0") && values["codex_session_max"] == Str("128")
    ensures values["codex_session_idle_ttl_s"] == Str("900.0") && values["poll_interval_s"] == Str("2.0")
  {
    assert "CHANNEL_MODE" != "CHANNEL_TOKEN";
  }

  lemma DefaultFlagValues(token: string, values: map<string, Raw>)
    requires values == EnvValues(map["CHANNEL_TOKEN" := token])
    ensures values["notify_on_orchestrator_error"] == Str("false") && values["cursor_state_path"] == Str(DefaultCursorStatePath)
    ensures values["strict_cursor_state_io"] == Str("false")
  {
  }

  lemma DefaultModeValues(token: string, values: map<string, Raw>)
    requires values == EnvValues(map["CHANNEL_TOKEN" := token])
    ensures values["live_mode"] == Str("false") && values["once"] == Str("false")
  {
  }

  /** The default texts pass every typed parser. */
  lemma DefaultFieldsParse(values: map<string, Raw>, toReal: string -> Option<real>)
    requires EnvKeys <= values.Keys
    requires values["codex_timeout_s"] == Str("20.0") && values["notify_on_orchestrator_error"] == Str("false")
    requires values["codex_session_max"] == Str("128") && values["codex_session_idle_ttl_s"] == Str("900.0")
    requires values["poll_interval_s"] == Str("2.0") && values["allowed_chat_ids"] == Str("")
    requires values["strict_cursor_state_io"] == Str("false") && values["live_mode"] == Str("false")
    requires values["once"] == Str("false")
    requires toReal("20.0") == Some(20.0) && toReal("900.0") == Some(900.0) && toReal("2.0") == Some(2.0)
    ensures FirstError(ParseEach(values, toReal)).None?
    ensures ParsePositiveFloat(values["codex_timeout_s"], "codex_timeout_s", toReal) == Ok(20.0)
    ensures ParsePositiveInt(values["codex_session_max"], "codex_session_max") == Ok(128)
    ensures ParsePositiveFloat(values["codex_session_idle_ttl_s"], "codex_session_idle_ttl_s", toReal) == Ok(900.0)
    ensures ParsePositiveFloat(values["poll_interval_s"], "poll_interval_s", toReal) == Ok(2.0)
    ensures ParseAllowlist(Some(PyStr(values["allowed_chat_ids"]))) == Ok([])
    ensures ParseBool(values["notify_on_orchestrator_error"], "notify_on_orchestrator_error") == Ok(false)
    ensures ParseBool(values["strict_cursor_state_io"], "strict_cursor_state_io") == Ok(false)
    ensures ParseBool(values["live_mode"], "live_mode") == Ok(false)
    ensures ParseBool(values["once"], "once") == Ok(false)
  {
    FalseParses(values["notify_on_orchestrator_error"], "notify_on_orchestrator_error");
    FalseParses(values["strict_cursor_state_io"], "strict_cursor_state_io");
    FalseParses(values["live_mode"], "live_mode");
    FalseParses(values["once"], "once");
    PositiveFloatParses(values["codex_timeout_s"], "codex_timeout_s", toReal, 20.0);
    PositiveFloatParses(values["codex_session_idle_ttl_s"], "codex_session_idle_ttl_s", toReal, 900.0);
    PositiveFloatParses(values["poll_interval_s"], "poll_interval_s", toReal, 2.0);
    DefaultSessionMaxParses(values["codex_session_max"]);
    assert Text.IsBlank(PyStr(values["allowed_chat_ids"]));
  }

  lemma FalseParses(raw: Raw, field: string)
    requires raw == Str("false")
    ensures ParseBool(raw, field) == Ok(false)
  {
    assert Text.Strip("false") == "false" && Text.Lower("false") == "false";
  }

  lemma PositiveFloatParses(raw: Raw, field: string, toReal: string -> Option<real>, v: real)
    requires raw.Str? && toReal(raw.s) == Some(v) && v > 0.0
    ensures ParsePositiveFloat(raw, field, toReal) == Ok(v)
  {
  }

  lemma DefaultSessionMaxParses(raw: Raw)
    requires raw == Str("128")
    ensures ParsePositiveInt(raw, "codex_session_max") == Ok(128)
  {
    ParsePositiveIntRoundTrip("", 128, "", "codex_session_max");
    assert "" + Numbers.IntToString(128) + "" == "128" by {
      assert Numbers.NatToString(1) == "1" && Numbers.NatToString(12) == "12";
    }
  }
}
