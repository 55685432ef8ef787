# agent_skills core, modelled in Dafny

This project models the core of `agent_skills`, a Python toolkit that connects a
Telegram bot to a conversational back end, runs a periodic "heartbeat" agent, and
serves a searchable Markdown memory. It has four parts. Most Python modules of the
core become one Dafny module each; `channel_runtime/runner.py` is split between
`runner.dfy` and `error_details.dfy`, and `heartbeat_runner.dfy` gathers the
heartbeat runner with its prompt file, configuration and null responder
(`runner.py`, `heartbeat_file.py`, `config.py`, `null_responder.py`):

- **Telegram channel** (`telegram_api.dfy`, `adapter.dfy`, `update_parser.dfy`,
  `cursor_state.dfy`). The Bot API client retries transient failures, sleeping
  between attempts for the configured delays (by default 0.25 s, then 0.5 s), and
  repeats the last delay once they run out. The parser turns raw updates into inbound messages. The
  adapter tracks pending and acknowledged update ids, and it commits a durable
  cursor floor so that unacknowledged updates are delivered again after a restart.
- **Channel core and runtime** (`contracts.dfy`, `exceptions.dfy`,
  `session_map.dfy`, `service.dfy`, `runtime_config.dfy`, `runner.dfy`,
  `error_details.dfy`, `codex.dfy`). This covers the inbound and outbound message
  contracts, the `process_once` fetch/handle/send/ack cycle, parsing the runtime
  configuration from the environment and the CLI, one runtime cycle with its
  diagnostics merge and error de-duplication, the chat allow-list gate, the echo
  orchestrator, and the Codex session manager with its idle and capacity eviction.
- **Heartbeat system** (`wake.dfy`, `normalize.dfy`, `heartbeat_runner.dfy`,
  `system_events.dfy`, `heartbeat_store.dfy`, `events.dfy`, `scheduler.dfy`,
  `heartbeat_api.dfy`). This covers wake coalescing by priority, reply
  normalisation, one heartbeat run, per-session system-event queues, the state
  store with its JSON round trip, event ingestion with de-duplication, the
  scheduler loop as a step function, and the public API's payload normalisation.
- **Memory system** (`paths.dfy`, `chunker.dfy`, `memory_api.dfy`). This covers
  source-root normalisation, the path allow-check, Markdown discovery, token-budget
  chunking with overlap, and the `memory_search` and `memory_get` entry points.

The shared modules `Wrappers` (Option/Result), `Text` (strip, split, join,
replace, lower, ordering), `Numbers` (decimal integers), `JsonValue` (JSON
values and Python's `str()`/`int()`/`bool()` coercions) and `IntSets` model
Python built-ins that the core relies on. They have no rows of their own.

Mutable objects are modelled as immutable records. Each method becomes a function
that returns the new record together with its result. Clocks, sleeping, the
network, the filesystem and hashes are passed in as parameters.

## Model

| member | source | states |
|---|---|---|
| Contracts.NewInbound | channel_core/contracts.py:19-39 | an InboundMessage is built only when update_id, chat_id, user_id and text are all non-blank after trimming; the first blank one, in that order, is the one reported, and an accepted message stores every field exactly as given (text untrimmed, optional fields unchecked) |
| Contracts.NewOutbound | channel_core/contracts.py:42-55 | an OutboundMessage needs a non-blank chat_id, then a non-blank text; an accepted one stores its fields as given |
| Contracts.NewInboundAcceptsValid | channel_core/contracts.py:31-39 | construction succeeds on exactly the valid records and gives them back unchanged; an invalid one is refused naming its first blank field |
| Contracts.NewOutboundAcceptsValid | channel_core/contracts.py:51-55 | construction of an outbound message succeeds iff it is valid, and then rebuilds it unchanged |
| SessionMap.TelegramSessionId | channel_core/session_map.py:6-11 | the session id is "telegram:" followed by the trimmed chat id; a blank chat id is refused with the chat_id validation message |
| SessionMap.SessionIdForInbound | channel_core/session_map.py:14-16 | the session of a valid inbound message is the session of its trimmed chat id |
| SessionMap.SessionIdRecoversChat | channel_core/session_map.py:8-11 | the trimmed chat id can be read back from its session id (the mapping has an inverse) |
| SessionMap.SameSessionIffSameTrimmedChat | channel_core/session_map.py:8-11 | two non-blank chat ids share a session exactly when they agree after trimming |
| SessionMap.SurroundingSpaceSameSession | channel_core/session_map.py:8 | whitespace around a chat id does not change its session |
| Exceptions.Sanitize | channel_core/service.py:99-102 | the sanitised description is at most 500 characters, one line whose only whitespace is single inner spaces, and a prefix of the whitespace-collapsed description (all of it when that fits) |
| Exceptions.SanitizeKeepsCompact | channel_core/service.py:99-102 | a description that is already one compact line of at most 500 characters comes through unchanged |
| UpdateParser.CoerceId | telegram_channel/update_parser.py:51-66 | None gives None; any other value gives its trimmed str() text, or None when that is blank; a result is never blank and has no edge whitespace |
| UpdateParser.CoerceOptionalInt | telegram_channel/update_parser.py:69-75 | None, lists and objects give None; an integer gives itself, a boolean 0 or 1, a string what int() makes of it (None when int() raises) |
| UpdateParser.ParseUpdate | telegram_channel/update_parser.py:18-48 | exactly one of inbound and skip reason is set; the checks run update id, message type, text, then chat and sender ids, each failure with its own reason; a parsed message is valid, carries trimmed ids, the untouched text, the coerced message id and date, and the Telegram metadata, and its update id is the result's |
| UpdateParser.ParseAccepts | telegram_channel/update_parser.py:18-48 | an update that passes every check parses to the inbound message built field by field: trimmed update, chat and sender ids, the text unchanged, the coerced message id and date, and the Telegram metadata |
| UpdateParser.ParseRenderRoundTrip | telegram_channel/update_parser.py:18-48 | parsing the update Telegram would deliver for a message with trimmed ids and Telegram metadata gives that message back |
| UpdateParser.ParseWellFormedFields | telegram_channel/update_parser.py:18-48 | any raw update whose fields hold a message's values parses to that message |
| UpdateParser.CoercedFields | telegram_channel/update_parser.py:51-75 | the id and date coercions return trimmed ids and dates unchanged |
| UpdateParser.RenderedFields | telegram_channel/update_parser.py:20-45 | a rendered update holds each field where the parser reads it |
| UpdateParser.IntegerIdsParseToDecimal | telegram_channel/update_parser.py:18-57 | an integer update id is reported as its decimal text |
| CursorState.Detail | telegram_channel/cursor_state.py:14 | an error detail is the trimmed text, or "unknown" when that is blank; never blank, never edge whitespace |
| CursorState.NewError | telegram_channel/cursor_state.py:9-15 | an error's kind is the trimmed kind, or "state-error" when blank; its detail as Detail; both non-blank and trimmed |
| CursorState.NormalKindKept | telegram_channel/cursor_state.py:13 | a kind that is already trimmed and non-empty is kept unchanged |
| CursorState.Load | telegram_channel/cursor_state.py:33-59 | a missing file, or an object whose committed_floor is absent or null, gives no floor; an unreadable file gives state-load-io, malformed JSON state-load-json, a non-object root state-load-shape, a floor int(str(x).strip()) rejects or a negative floor state-load-floor, each with its detail; otherwise the floor |
| CursorState.Save | telegram_channel/cursor_state.py:61-83 | a floor int() rejects or a negative one raises state-save-floor and writes nothing; a failed write raises state-save-io and leaves the previous document; a save succeeds exactly otherwise and writes {"version": 1, "committed_floor": n} |
| CursorState.SaveThenLoad | telegram_channel/cursor_state.py:33-81 | saving any floor n >= 0 and loading gives n back |
| CursorState.FailedSavePreservesLoad | telegram_channel/cursor_state.py:61-83 | a save that raises leaves what load returns unchanged |
| CursorState.LoadAcceptsStringFloor | telegram_channel/cursor_state.py:51-59 | a floor stored as decimal text with surrounding whitespace loads as that integer |
| TelegramApi.NewClient | telegram_channel/api.py:54-69 | the client is built exactly when the stripped token is non-blank, the timeout positive, the retry count non-negative and every backoff non-negative; each failure yields its own message in the source's check order; the stored token is stripped and an empty backoff schedule becomes `[0.0]` |
| TelegramApi.Attempt | telegram_channel/api.py:155-226 | HTTP errors carry the status code and the body's error code and are transient exactly for 5xx and 429; URL, OS and timeout failures are transient network/timeout errors carrying their reason; undecodable bodies are `invalid-json`, non-object bodies `invalid-response-shape`; `ok` other than true is an `api-error` transient exactly when its error code is 5xx or 429; otherwise the `result` field is returned |
| TelegramApi.Backoff | telegram_channel/api.py:228-231 | the sleep before retry `attempt` is that entry of the schedule, or its last entry past the end, and is never negative |
| TelegramApi.RequestFromShape | telegram_channel/api.py:118-141 | the retry loop makes between one and `max_retries + 1` attempts; every attempt but the last failed transiently and is followed by its scheduled backoff; the last attempt's outcome is the request's; it stops before the limit only on success or a non-transient error |
| TelegramApi.Request | telegram_channel/api.py:118-141 | the loop computes the reference retry outcome and so has the retry shape above |
| TelegramApi.AllTransientExhaustsRetries | telegram_channel/api.py:122-132 | when every attempt fails transiently, exactly `max_retries + 1` attempts are made and the last attempt's error is raised |
| TelegramApi.NonTransientStopsAtOnce | telegram_channel/api.py:127-131 | a non-transient error is raised at the attempt that produced it, with no sleep |
| TelegramApi.GetUpdatesPayload | telegram_channel/api.py:81-85 | `timeout` and `limit` are always sent; `offset` and `allowed_updates` are present exactly when supplied, with the supplied values; no other key is sent |
| TelegramApi.SendMessagePayload | telegram_channel/api.py:104-106 | `chat_id` and `text` are always sent; `reply_to_message_id` is present exactly when supplied |
| TelegramApi.Objects | telegram_channel/api.py:95 | the kept items are exactly the object items of the list |
| TelegramApi.ObjectsAppend | telegram_channel/api.py:95 | filtering distributes over concatenation, so the objects keep their relative order |
| TelegramApi.ObjectsKeepsAllObjects | telegram_channel/api.py:95 | a list made only of objects passes through unchanged |
| TelegramApi.GetUpdatesResult | telegram_channel/api.py:87-95 | a request error propagates unchanged; a non-list result is the non-transient `invalid-result-shape` error "result must be a list"; a list yields its object items |
| TelegramApi.SendMessageResult | telegram_channel/api.py:108-116 | a request error propagates unchanged; a non-object result is the non-transient `invalid-result-shape` error "result must be an object"; an object is returned as is |
| TelegramAdapter.HandleStateError | telegram_channel/adapter.py:140-147 | exactly one diagnostic is appended, coded `cursor-state-<operation>-error`, with no update id and the message `cursor_state_<operation> failed: <error>`; nothing else changes; the same message is raised exactly in strict mode |
| TelegramAdapter.Init | telegram_channel/adapter.py:15-30 | a fresh adapter has empty id sets and the invariant; without a store there is no floor; a loadable store's floor is resumed from with no diagnostic; an unloadable one leaves no floor and one load-error diagnostic, fatal only in strict mode |
| TelegramAdapter.Resume | telegram_channel/adapter.py:122-130 | loading the floor touches only the floor, the offset (set to the floor) and the diagnostics; a load error gives no floor and one diagnostic, raised only in strict mode |
| TelegramAdapter.Target | telegram_channel/adapter.py:104-114 | the candidate floor is never below the committed floor; with pending ids it is the smallest pending id, or the floor exactly when some pending id lies below the floor; with none pending it lies just past the largest seen id, or at a floor beyond that; with nothing seen it is the floor |
| TelegramAdapter.Persist | telegram_channel/adapter.py:132-138 | without a store nothing happens; with one the floor is saved, the state file takes the save's outcome, and a failed save goes through the state-error handling as `save` |
| TelegramAdapter.Recompute | telegram_channel/adapter.py:103-120 | afterwards the offset equals the floor, the floor is the candidate and never lower than before, the id sets are untouched, and a save happens exactly when the floor rises |
| TelegramAdapter.ParseAll | telegram_channel/adapter.py:40-41 | each raw update is parsed on its own, and an emitted message always carries the update id it was parsed with |
| TelegramAdapter.ScanStep | telegram_channel/adapter.py:41-73 | one loop iteration: an update without an integer id is skipped; a repeat within the batch is only marked processed; an id below the floor is dropped with one `stale-drop` diagnostic; an id already handled and not pending is not emitted again; otherwise it is seen and, when it parsed to a message, emitted and made pending, else marked processed |
| TelegramAdapter.ScanIds | telegram_channel/adapter.py:39-52 | the ids met in a batch are exactly the integer ids of its updates |
| TelegramAdapter.ScanSets | telegram_channel/adapter.py:40-73 | over a batch the seen and processed sets only grow; pending becomes the old pending plus the emitted ids; seen becomes the old seen plus every non-stale batch id; pending stays within seen |
| TelegramAdapter.ScanEmitted | telegram_channel/adapter.py:40-73 | emitted messages carry distinct ids, one per message in order, each from the batch, not stale, and either never seen before or still pending |
| TelegramAdapter.ScanDropped | telegram_channel/adapter.py:54-61 | the dropped ids are exactly the distinct stale ids of the batch, each with its `stale-drop` diagnostic in order |
| TelegramAdapter.Fetch | telegram_channel/adapter.py:32-76 | an API error is raised as `fetch_updates failed: <error dict>` with no state change; otherwise the batch is scanned, the offset recomputed, and the emitted messages returned unless saving the new floor raised in strict mode |
| TelegramAdapter.SendMessage | telegram_channel/adapter.py:78-86 | sending succeeds exactly when the API call does; an API error is raised as `send_message failed: <error dict>` |
| TelegramAdapter.Ack | telegram_channel/adapter.py:88-96 | a non-numeric id is refused with no state change; a numeric one becomes seen and processed, leaves pending, and the offset is recomputed |
| TelegramAdapter.Drain | telegram_channel/adapter.py:98-101 | the buffered diagnostics are returned in order and the buffer is emptied, nothing else changes |
| TelegramAdapter.ApplyPreserves | telegram_channel/adapter.py:32-120 | every fetch, ack or drain keeps the offset equal to the floor and pending within seen, and never lowers the floor |
| TelegramAdapter.RunPreserves | telegram_channel/adapter.py:103-120 | across any sequence of calls the committed floor never decreases and the invariant holds |
| TelegramAdapter.RestartResumesFloor | telegram_channel/adapter.py:118-130 | a floor that rose and was saved is the floor a new adapter over the same state file starts from |
| TelegramAdapter.PendingRedelivered | telegram_channel/adapter.py:63-73 | an update still awaiting acknowledgement is emitted again when it is redelivered |
| TelegramAdapter.AckedNotReemitted | telegram_channel/adapter.py:63-65 | an acknowledged update that is redelivered is not emitted again and changes neither seen nor pending |
| TelegramAdapter.AckSettles | telegram_channel/adapter.py:88-96 | after acknowledging, the id is seen and processed, no longer pending, and the invariant holds |
| ChannelService.AckedIdsAppend | channel_core/service.py:63-83 | the acks and sends of consecutive stretches of calls are the concatenation of each stretch's |
| ChannelService.CallsForTrace | channel_core/service.py:64-83 | handling one update makes exactly one ack, of that update's id, and one send exactly when the handler returned a reply |
| ChannelService.Step | channel_core/service.py:63-83 | one update adds its own ack and its reply's send to the calls, counts a send only when sending did not raise and an ack only when acking did not raise, and appends exactly one error for a failed handling and one for a failed ack, none exactly when nothing raised |
| ChannelService.StepErrorWords | channel_core/service.py:65-83 | the error a failed handling appends is `update <id>: ` and the sanitized exception of the handler, of the send, or the `ChannelRuntimeError: orchestrator returned unsupported output type: <T>` for any other result; a failed ack appends `update <id>: ack failed: ` and its sanitized exception, last |
| ChannelService.StepErrors | channel_core/service.py:63-83 | one update reports one error per failed step, and none exactly when nothing raised |
| ChannelService.HandleErrorWords | channel_core/service.py:65-78 | a handler exception, a send exception or an unsupported result is reported as `update <id>: ` and the sanitized exception; a `None` or a sent reply reports nothing |
| ChannelService.AckErrorWords | channel_core/service.py:79-83 | a raising ack is reported as `update <id>: ack failed: ` and the sanitized exception, a succeeding one reports nothing |
| ChannelService.ErrorsOfSnoc | channel_core/service.py:63-83 | the cycle's errors are those of all updates but the last, followed by the last update's |
| ChannelService.ErrorsOfContains | channel_core/service.py:63-83 | every error reported for one update is among the cycle's errors |
| ChannelService.UnsupportedRecordedNotSent | channel_core/service.py:67-78 | a handler result of an unsupported type is recorded as `update <id>: ChannelRuntimeError: orchestrator returned unsupported output type: <T>`, the cycle completes with errors, and nothing is sent for that update: the sends are the other updates' replies |
| ChannelService.Loop | channel_core/service.py:63-83 | every fetched update is acked exactly once in fetch order whatever handling raised; exactly the replies are sent, in order; the sent count is the number of successful sends; acked plus failed acks is the number of updates; the error list is empty exactly when every update went through cleanly, and it is each update's errors in fetch order (`ErrorsOf`: the handling error, then the ack error) |
| ChannelService.ProcessOnce | channel_core/service.py:29-96 | a raising fetch is a `failed`/`adapter-fetch-exception` result with one sanitized error and no other call; an empty fetch is `ok`/`no-updates` with zero counts; otherwise the status is `ok`, the counts are exact, the errors are each update's errors in fetch order (`ErrorsOf`), and the reason is `processed` exactly when every update went through cleanly, else `completed-with-errors` |
| ChannelService.RepliesSkip | channel_core/service.py:67-71 | an update whose handler returned no reply contributes no send |
| ChannelService.AllHandlersRaising | channel_core/service.py:76-83 | when every handler raises, the cycle still acknowledges every update, sends nothing, and completes with errors |
| ChannelService.NoAckFailures | channel_core/service.py:79-81 | when no ack raises, no ack failure is counted |
| ChannelService.NoRepliesSentNothing | channel_core/service.py:67-71 | when no handler returns a reply, nothing is counted as sent |
| RuntimeConfig.WordsApart | channel_runtime/config.py:228-230 | no word is both a true word and a false word, so the boolean parser is well defined |
| RuntimeConfig.ParseBool | channel_runtime/config.py:223-232 | a boolean passes through; text gives true exactly for `1`/`true`/`yes`/`on` and false exactly for `0`/`false`/`no`/`off`/empty, after trimming and lower-casing; anything else is `<field> must be a boolean` |
| RuntimeConfig.ParseBoolIgnoresCaseAndSpace | channel_runtime/config.py:227 | surrounding whitespace and letter case of a boolean word do not change the result |
| RuntimeConfig.ParseBoolOfPyStr | channel_runtime/config.py:223-230 | the text `True`/`False` that `str()` makes of a boolean parses back to that boolean |
| RuntimeConfig.ParsePositiveInt | channel_runtime/config.py:193-200 | accepted exactly when `int()` accepts the value and it is at least 1, returning that integer; otherwise `<field> must be an integer >= 1` |
| RuntimeConfig.ParsePositiveIntRoundTrip | channel_runtime/config.py:193-200 | the decimal text of a positive integer, with any surrounding whitespace, parses back to it |
| RuntimeConfig.ParsePositiveFloat | channel_runtime/config.py:183-190 | accepted exactly when `float()` accepts the value and it is positive, returning it; otherwise `<field> must be a positive number` |
| RuntimeConfig.AllowlistParts | channel_runtime/config.py:208-211 | the ids are the trimmed comma-separated parts of the trimmed text, one per part |
| RuntimeConfig.ParseAllowlist | channel_runtime/config.py:203-220 | None or blank text is the empty allowlist; otherwise the trimmed parts are accepted exactly when none is empty; accepted ids are non-empty, trimmed and comma-free; the one error is "allowed_chat_ids must not contain empty values" |
| RuntimeConfig.StripKeepsOut | channel_runtime/config.py:211 | trimming a part never introduces a character it did not have |
| RuntimeConfig.AllowlistPartsOfJoin | channel_runtime/config.py:208-211 | the parts of a comma-join of trimmed, non-empty, comma-free ids are those ids |
| RuntimeConfig.AllowlistRoundTrip | channel_runtime/config.py:203-220 | a comma-join of trimmed, non-empty, comma-free ids parses back to exactly those ids |
| RuntimeConfig.Violation | channel_runtime/config.py:33-53 | no message exactly when every field check passes; otherwise the message of the first failing check in source order (token, mode, ack policy, orchestrator mode, timeout, session max, idle ttl, poll interval, empty chat id, live mode without allowlist) |
| RuntimeConfig.Validate | channel_runtime/config.py:27-58 | accepted exactly when the normalised fields pass every check; the stored configuration is the normalised one (token, mode, orchestrator mode trimmed; ack policy trimmed and lower-cased) and satisfies the invariant; a rejection carries the first failing check's message |
| RuntimeConfig.ValidIsNormal | channel_runtime/config.py:55-58 | normalising an accepted configuration changes nothing |
| RuntimeConfig.ValidIsFixpoint | channel_runtime/config.py:27-58 | validation accepts every valid configuration unchanged |
| RuntimeConfig.ValidateIdempotent | channel_runtime/config.py:27-58 | validating an already validated configuration gives the same result |
| RuntimeConfig.DefaultsValid | channel_runtime/config.py:11-25 | the dataclass defaults are valid around any non-blank token, which is stored trimmed |
| RuntimeConfig.Overrides | channel_runtime/config.py:124-180 | command-line overrides only add or change the keys a flag can set, and keep every other key |
| RuntimeConfig.ApplyCliOverrides | channel_runtime/config.py:124-180 | the index loop computes the same result as the flag-by-flag scan |
| RuntimeConfig.OverridesConcat | channel_runtime/config.py:124-180 | overrides of a concatenation compose when the first part is accepted, since the scan ends on an argument boundary |
| RuntimeConfig.FlagValueApplied | channel_runtime/config.py:148-178 | a value flag followed by a value sets that flag's key to the text, replacing the environment's |
| RuntimeConfig.OnceTakesNoValue | channel_runtime/config.py:128-131 | `--once` sets `once` to true and consumes no value: what follows it is read as the next flag |
| RuntimeConfig.TrailingFlagMissingValue | channel_runtime/config.py:148-149 | a value flag at the very end is `missing value for <flag>` |
| RuntimeConfig.UnknownArgumentRejected | channel_runtime/config.py:180 | an unrecognised argument in flag position stops the scan with `unknown argument: <arg>` |
| RuntimeConfig.SourceEnv | channel_runtime/config.py:68 | the given environment is used when it is present and non-empty; a missing or empty one falls back to the process environment |
| RuntimeConfig.EnvValues | channel_runtime/config.py:70-85 | the environment, with its defaults, supplies every one of the fourteen configuration keys |
| RuntimeConfig.ParseValues | channel_runtime/config.py:89-121 | when a typed parser fails, the first failing one in source order (timeout, notify flag, session max, idle ttl, poll interval, allowlist, strict flag, live mode, once) decides the error; when all accept, the result is exactly the validation of the configuration they assemble, so it is accepted exactly when every parser and every field check passes; an accepted configuration is valid and each field is what its parser made of the merged raw value |
| RuntimeConfig.ParseFlags | channel_runtime/config.py:102-121 | the first of the three trailing booleans to fail decides the error; with all three parsed, the configuration is accepted exactly when its normalised fields pass every check, else the first failing check's message is the error; an accepted configuration stores the three parsed booleans |
| RuntimeConfig.ParseRuntimeConfig | channel_runtime/config.py:61-121 | a command-line error is the result's error; otherwise the first failing typed parser decides the error, and when all accept the result is the validation of the assembled configuration; an accepted configuration is valid and each field is parsed from the environment value overridden by the command line |
| RuntimeConfig.TokenFlag | channel_runtime/config.py:151-152 | `--token t` on its own sets the token to `t` and nothing else |
| RuntimeConfig.CliTokenWins | channel_runtime/config.py:87-107 | a token given on the command line replaces the environment's and is stored trimmed |
| RuntimeConfig.DefaultEnvironmentParses | channel_runtime/config.py:61-121 | an environment holding only a non-blank token, with no arguments, yields the dataclass defaults with the token trimmed, given that `float()` reads `20.0`, `900.0` and `2.0` as those numbers |
| ErrorDetails.BuildDetail | channel_runtime/runner.py:754-785 | every text field is stored trimmed, `retryable` as given, and the diagnostic id is the digest of the eight fingerprint fields in fingerprint order |
| ErrorDetails.BuildDetailIgnoresSurroundingSpace | channel_runtime/runner.py:767-780 | details whose codes differ only in surrounding whitespace, or that differ in `retryable`, share a fingerprint |
| ErrorDetails.FingerprintsAppend | channel_runtime/runner.py:788-801 | the fingerprints of a list grow by exactly the appended detail's fingerprint |
| ErrorDetails.Dedupe | channel_runtime/runner.py:804-813 | the result is a subsequence of the input that keeps every fingerprint of the input and no fingerprint twice |
| ErrorDetails.DedupeErrorDetails | channel_runtime/runner.py:804-813 | the loop with its seen set computes the reference deduplication, so its output is an order-preserving selection with distinct fingerprints |
| ErrorDetails.DedupePrefix | channel_runtime/runner.py:807-813 | a detail kept from a prefix of the list is still kept from the whole list |
| ErrorDetails.FirstOccurrenceKept | channel_runtime/runner.py:807-813 | the first detail with a given fingerprint is the one kept |
| ErrorDetails.DedupeDistinct | channel_runtime/runner.py:804-813 | a list whose fingerprints are already distinct passes through unchanged |
| ErrorDetails.DedupeIdempotent | channel_runtime/runner.py:804-813 | deduplicating twice is deduplicating once |
| ChannelRunner.NormalizeChatId | channel_runtime/runner.py:578-585 | None exactly for blank text; an integer is written in canonical decimal; any other text is trimmed; a result is never empty and never has surrounding whitespace |
| ChannelRunner.NormalizeChatIdIdempotent | channel_runtime/runner.py:578-585 | normalising a normalised chat id changes nothing |
| ChannelRunner.ZeroPaddedChatId | channel_runtime/runner.py:582-583 | leading zeros do not make a different chat: `0042` and `42` normalise alike |
| ChannelRunner.NewGate | channel_runtime/runner.py:114-121 | the allowed set is exactly the normalised non-blank allowlist entries, and the gate starts with no diagnostics |
| ChannelRunner.GateHandle | channel_runtime/runner.py:123-135 | a chat not on a non-empty allowlist gets no reply, one `allowlist-drop` record and no delegate call; any other chat gets the delegate's reply and nothing is recorded |
| ChannelRunner.ListedChatAdmitted | channel_runtime/runner.py:116-125 | a chat listed in the allowlist, in any spelling that normalises alike, is let through |
| ChannelRunner.UnlistedChatDropped | channel_runtime/runner.py:123-134 | a chat matching no entry of an allowlist with a non-blank entry is dropped |
| ChannelRunner.GateDrain | channel_runtime/runner.py:137-144 | draining returns the gate's own records then the delegate's, and empties the gate's buffer |
| ChannelRunner.GateDrainEmpties | channel_runtime/runner.py:137-140 | a second drain right after the first returns nothing of the gate's own |
| ChannelRunner.EchoTextNotBlank | channel_runtime/runner.py:82-87 | the reply text always starts with `echo: ` and is never blank |
| ChannelRunner.EchoReply | channel_runtime/runner.py:80-94 | a reply goes to the same chat, in reply to the inbound message, tagged with the session id, with the memory note only when the hook is on and the lookup found text; a raising lookup is the failure caught; otherwise it fails only for a blank chat id |
| ChannelRunner.EchoHandle | channel_runtime/runner.py:80-103 | a reply leaves the orchestrator unchanged and is a valid outbound message; a caught failure returns None and appends one `orchestrator-error` record for the update; a valid inbound message without a failing lookup is always answered |
| ChannelRunner.EchoRecoversText | channel_runtime/runner.py:82 | with the memory hook off, the reply text is exactly the inbound text behind the `echo: ` prefix |
| ChannelRunner.EmitFailure | channel_runtime/runner.py:44-64 | a failure event counts as emitted exactly when the emitter is enabled and the publisher did not raise; it never raises |
| ChannelRunner.CountEmits | channel_runtime/runner.py:188-216 | an enabled emitter counts one attempt per emit and a disabled one none; failures never exceed attempts |
| ChannelRunner.FailuresIffSomeRaise | channel_runtime/runner.py:209-216 | an enabled emitter has counted a failure exactly when some publish raised |
| ChannelRunner.EmitStateAfter | channel_runtime/runner.py:423-428 | the emit state is `disabled` when the emitter is off or nothing was emitted, `emit-failed` when any publish raised, else `emitted` |
| ChannelRunner.Drops | channel_runtime/runner.py:295-308 | the dropped updates are drawn from the diagnostics, at most one each |
| ChannelRunner.DiagnosticErrors | channel_runtime/runner.py:295-309 | every diagnostic is either a dropped update or an error, never both |
| ChannelRunner.OnlyDropsNoErrors | channel_runtime/runner.py:300-308 | diagnostics that are all drops add no error and are all listed as dropped |
| ChannelRunner.Merge | channel_runtime/runner.py:295-326 | merging keeps status and counts; appends one error per non-drop diagnostic after the service's errors and counts them; lists the drops; switches an ok result to `completed-with-errors` exactly when a diagnostic error was added |
| ChannelRunner.DropsAreNotErrors | channel_runtime/runner.py:300-308 | with only drop diagnostics the errors, error count and reason are those of the service |
| ChannelRunner.MergeKeepsCycleInvariants | channel_runtime/runner.py:318-323 | after the merge of a completed cycle the error count is the number of errors and the reason is `processed` exactly when there are none |
| ChannelRunner.FailureEmittedIffUnclean | channel_runtime/runner.py:281-316 | a cycle emits a failure event exactly when its merged result is not a clean ok |
| ChannelRunner.RunCycleAsWritten | channel_runtime/runner.py:219-270 | as written, every cycle fails with `runtime-process-once-exception`, one error, and no call on the adapter |
| ChannelRunner.AsWrittenNeverAcks | channel_runtime/runner.py:220 | whatever the adapter would return, the cycle as written acknowledges nothing while the intended call acknowledges every fetched update, and even an empty fetch is reported as failed |
| ChannelRunner.RunCycle | channel_runtime/runner.py:272-326 | as intended, every fetched update is acknowledged once in order; a raising fetch fails with `adapter-fetch-exception`; a completed fetch is `ok`; the errors are the service's then the diagnostic errors, counted exactly; a non-empty cycle reads `processed` exactly when there is no error |
| ChannelRunner.IntendedEmptyCycle | channel_runtime/runner.py:219-220 | with the call made as intended, an empty fetch is a clean `no-updates` cycle |
| ChannelRunner.RunLoop | channel_runtime/runner.py:344-405 | at least one cycle runs; each cycle's result or raised error (as `runtime-loop-cycle-exception`) is observed in order; the poll interval is slept between cycles and never after the last; the loop returns exactly after one cycle with `--once`, or after `max_cycles` cycles (at least one) |
| CodexOrchestrator.NewPolicy | channel_runtime/codex_orchestrator.py:42-46 | a policy is accepted exactly when `max_sessions` is at least 1 and `idle_ttl_s` positive, in that order of checking, with the source's two messages |
| CodexOrchestrator.DefaultPolicyAccepted | channel_runtime/codex_orchestrator.py:39-46 | the default policy, 128 sessions and 900 seconds, is accepted |
| CodexOrchestrator.BeforeAsymmetric | channel_runtime/codex_orchestrator.py:156-159 | the victim order (last activity, then creation time, then id) is asymmetric |
| CodexOrchestrator.BeforeTransitive | channel_runtime/codex_orchestrator.py:156-159 | the victim order is transitive |
| CodexOrchestrator.BeforeTotal | channel_runtime/codex_orchestrator.py:156-159 | any two distinct sessions are ordered, since the id breaks every tie |
| CodexOrchestrator.OldestExists | channel_runtime/codex_orchestrator.py:156-159 | every non-empty candidate set has a least element in the victim order |
| CodexOrchestrator.OldestUnique | channel_runtime/codex_orchestrator.py:156-159 | that least element is unique, so the victim is well defined |
| CodexOrchestrator.Oldest | channel_runtime/codex_orchestrator.py:156-159 | the chosen victim precedes every other candidate |
| CodexOrchestrator.EvictIdle | channel_runtime/codex_orchestrator.py:138-145 | exactly the sessions idle for at least the ttl are removed; the rest are unchanged |
| CodexOrchestrator.Candidates | channel_runtime/codex_orchestrator.py:149-155 | the candidates are sessions of the map; when another session exists they are exactly the sessions other than the preferred one; a non-empty map always yields a candidate |
| CodexOrchestrator.Remove | channel_runtime/codex_orchestrator.py:160 | removing the victim drops exactly that session |
| CodexOrchestrator.EvictOverCapacity | channel_runtime/codex_orchestrator.py:147-160 | afterwards exactly `min(size, max_sessions)` sessions remain, unchanged; the preferred session survives; every evicted session precedes every surviving session other than the preferred one |
| CodexOrchestrator.NewManager | channel_runtime/codex_orchestrator.py:70-78 | a new manager holds no session and is within capacity |
| CodexOrchestrator.Begin | channel_runtime/codex_orchestrator.py:80-89 | idle sessions are evicted first; the session then exists with activity `now`, keeping its creation time and counters when it was live, else fresh; every other surviving session was live and is unchanged; exactly `min(n, max_sessions)` sessions remain, where `n` counts the live sessions and this one, and every evicted live session precedes every surviving other session in victim order |
| CodexOrchestrator.Record | channel_runtime/codex_orchestrator.py:91-136 | success adds an invocation, a timeout adds a timeout and a failure, a failure adds a failure; activity becomes `now`; an existing session is updated in place and nothing else changes; a missing session is created first, after which exactly `min(size + 1, max_sessions)` sessions remain and every evicted session precedes every surviving other session in victim order |
| CodexOrchestrator.EvictAfterInsert | channel_runtime/codex_orchestrator.py:84-89 | inserting a session and restoring the capacity keeps it as inserted and the survivors unchanged, leaves `min(n, max_sessions)` sessions, and evicts only sessions older than every surviving other one |
| CodexOrchestrator.Cleanup | channel_runtime/codex_orchestrator.py:107-110 | idle sessions are removed and their ids returned exactly once each, in sorted order |
| CodexOrchestrator.CleanupIdempotent | channel_runtime/codex_orchestrator.py:107-110 | a second cleanup at the same time removes nothing |
| CodexOrchestrator.ListSessionIds | channel_runtime/codex_orchestrator.py:125-126 | the ids of the sessions, each once, in sorted order |
| CodexOrchestrator.BeginLiveEvictsOnlyIdle | channel_runtime/codex_orchestrator.py:80-89 | beginning a live session within capacity evicts exactly the idle sessions |
| CodexOrchestrator.Classify | channel_runtime/codex_orchestrator.py:256-265 | timeouts are `codex-timeout`, retryable and tracked as timeouts; contract violations and invalid responses are their own non-retryable codes; every other exception is a retryable `codex-exec-failed` |
| CodexOrchestrator.HandleMessage | channel_runtime/codex_orchestrator.py:178-217 | a reply is the trimmed non-blank response sent to the same chat in reply to the message, with no diagnostic; None or blank text gives no reply and no diagnostic; a non-string or raised response gives no reply and exactly one classified diagnostic for the update and session; the manager stays within capacity |
| CodexOrchestrator.HandleMessageReplies | channel_runtime/codex_orchestrator.py:185-202 | a non-blank response to a message with a chat is the reply, trimmed, to that chat, in reply to the message, with the session id and `codex` mode; for a blank chat nothing is sent and one non-retryable `codex-contract-violation` diagnostic names the missing `chat_id` |
| CodexOrchestrator.RecordPresent | channel_runtime/codex_orchestrator.py:91-105 | recording on a present session updates its counters for the outcome and its activity time |
| CodexOrchestrator.HandleCountsOutcome | channel_runtime/codex_orchestrator.py:178-217 | across handling, the session keeps its creation time, its activity becomes `now`, a timeout adds a timeout, a returned response adds an invocation, and any raised or invalid response adds a failure |
| CodexOrchestrator.HandleCountsFailure | channel_runtime/codex_orchestrator.py:186-207 | a raised or non-string response adds one failure and no invocation |
| CodexOrchestrator.HandleCountsReturned | channel_runtime/codex_orchestrator.py:182-201 | a returned response adds one invocation, no timeout, and no failure when the chat id is valid |
| CodexOrchestrator.HandleReplyManager | channel_runtime/codex_orchestrator.py:195-207 | a non-blank response is recorded as a success; if the reply then fails validation for a blank chat id, a failure is recorded on top |
| WakeQueue.Priority | heartbeat_system/wake.py:17-24 | manual, exec-event and hook rank highest (3), then other (2), interval (1) and retry (0); each rank is reached by exactly those reasons |
| WakeQueue.RequestWake | heartbeat_system/wake.py:47-68 | an invalid reason is an error naming it; otherwise an empty slot takes the request, an equal or higher priority replaces the pending request and reports it, a lower one is rejected leaving the slot unchanged; the decision always reports one queued request |
| WakeQueue.PopNext | heartbeat_system/wake.py:70-73 | popping returns the pending request and leaves the slot empty |
| WakeQueue.Peek | heartbeat_system/wake.py:75-76 | peeking returns the pending request without consuming it |
| WakeQueue.Clear | heartbeat_system/wake.py:78-79 | clearing leaves the slot empty |
| WakeQueue.PopTwice | heartbeat_system/wake.py:70-73 | a second pop finds nothing |
| WakeQueue.CoalescesToHighestPriority | heartbeat_system/wake.py:47-68 | after a run of requests the slot holds a request whenever any was valid or one was pending; the survivor's priority is at least that of every valid request and of the initially pending one; it is either the initial request or one of the requested reasons |
| HeartbeatNormalize.NormalizeHeartbeatText | heartbeat_system/normalize.py:17-63 | None or blank text is `empty-response`; with the token present the trimmed text minus every occurrence of the token decides: nothing left is `ack-only`, at most `ack_max_chars` left is `ack-short-remainder`, more is delivered; without the token the trimmed text is delivered; delivered text is non-empty and trimmed, skipped text is empty |
| HeartbeatNormalize.AckOnly | heartbeat_system/normalize.py:39-46 | the bare token, with any surrounding whitespace, is always `ack-only` |
| HeartbeatNormalize.DeliveredTokenFreeIsStable | heartbeat_system/normalize.py:53-63 | normalizing a delivered text that carries no token again delivers it unchanged |
| HeartbeatNormalize.ShortTextWithTokenNeverDelivered | heartbeat_system/normalize.py:39-52 | a text carrying the token that is no longer than `ack_max_chars` is never delivered |
| HeartbeatRun.ContentEmptyIffBlank | heartbeat_system/heartbeat_file.py:18-20 | prompt content is empty exactly when it is missing, empty or whitespace only |
| HeartbeatRun.LoadHeartbeatPrompt | heartbeat_system/heartbeat_file.py:23-38 | a readable file yields its content verbatim with its emptiness; a missing file counts as empty text; any other read error is raised |
| HeartbeatRun.NewHeartbeatConfig | heartbeat_system/config.py:16-24 | a configuration is accepted exactly when the file name and token are non-blank and `ack_max_chars` is not negative, with the source's first failing message |
| HeartbeatRun.DefaultConfigValid | heartbeat_system/config.py:10-14 | the default configuration is accepted |
| HeartbeatRun.NewNullResponder | heartbeat_system/adapters/null_responder.py:9-14 | the null responder needs a non-blank token and keeps it trimmed, with its fixed text if any |
| HeartbeatRun.Respond | heartbeat_system/adapters/null_responder.py:16-22 | the null responder answers its fixed text when it has one and its token otherwise |
| HeartbeatRun.RunHeartbeatOnce | heartbeat_system/runner.py:29-93 | disabled is skipped without reading; a read error propagates; an empty prompt file is skipped; the responder is called exactly when these checks pass; a raising responder fails with its sanitised error; otherwise the normaliser decides between `ran` with its text and `skipped` with its reason; the run reason is carried through |
| HeartbeatRun.RanIffDelivered | heartbeat_system/runner.py:77-93 | a run is `ran` exactly when its reason is `delivered`, and only then carries output, which is non-empty and trimmed |
| HeartbeatRun.DefaultTokenTrimmed | heartbeat_system/config.py:12 | the default token is non-empty and already trimmed |
| HeartbeatRun.NullResponderAnswersToken | heartbeat_system/adapters/null_responder.py:9-22 | a null responder without text answers exactly its token |
| HeartbeatRun.TokenAnswerAcksOnly | heartbeat_system/runner.py:77-93 | a responder that answers the configured token alone produces an `ack-only` skip |
| HeartbeatRun.DefaultNullResponderAcksOnly | heartbeat_system/runner.py:29-93 | with the default configuration and a non-blank prompt, the default null responder's run is an `ack-only` skip |
| SystemEvents.EventIdInjective | heartbeat_system/system_events.py:61-68 | events with different serials get different `se-` ids, so an id is never reused |
| SystemEvents.NewQueue | heartbeat_system/system_events.py:27-33 | a queue needs `max_items` of at least 1 and starts empty |
| SystemEvents.Publish | heartbeat_system/system_events.py:36-81 | an event repeating the last one (text, source and context) is rejected as deduplicated with the queue unchanged when deduplication is on; otherwise it is appended with the next serial, the oldest events are dropped to keep at most `max_items`, and the result reports how many were dropped and the new size |
| SystemEvents.Drain | heartbeat_system/system_events.py:83-96 | drained events followed by the remaining queue are the old queue; no limit drains all, a non-positive limit drains nothing, a positive limit drains the oldest `min(limit, size)` |
| SystemEvents.Peek | heartbeat_system/system_events.py:98-102 | peeking returns the oldest `min(limit, size)` events, none for a non-positive limit |
| SystemEvents.DrainInSteps | heartbeat_system/system_events.py:83-96 | draining a prefix and then the rest yields the same events in the same order as one full drain |
| SystemEvents.PublishThenDrain | heartbeat_system/system_events.py:36-96 | below capacity, a published non-repeat event is drained last, after every earlier event |
| SystemEvents.GetQueue | heartbeat_system/system_events.py:116-125 | a known key returns its queue untouched; an unknown key gets an empty queue with the bus's settings, failing only if those settings are invalid |
| SystemEvents.BusPublish | heartbeat_system/system_events.py:127-136 | publishing on the bus behaves exactly like publishing on the key's queue, creates the queue if needed, and leaves every other key's queue unchanged |
| SystemEvents.BusDrain | heartbeat_system/system_events.py:138-140 | draining on the bus behaves like draining the key's queue, yields nothing for a new key, and leaves every other key's queue unchanged |
| SystemEvents.KeysIndependent | heartbeat_system/system_events.py:127-140 | publishing under one key never changes what another key drains |
| HeartbeatStore.NewStore | heartbeat_system/store.py:84-89 | a fresh store is enabled, with zero counters, no last event, no dedupe records and no load warning |
| HeartbeatStore.LoadWarning | heartbeat_system/store.py:170-173 | a warning exists exactly when loading recorded an error, and it is that error behind the `persistent-state-load-warning: ` prefix |
| HeartbeatStore.SetEnabled | heartbeat_system/store.py:179-184 | setting the flag returns the previous one and changes nothing else |
| HeartbeatStore.SetEnabledRestores | heartbeat_system/store.py:179-184 | setting the flag back to the value it returned restores the store exactly |
| HeartbeatStore.GetDedupe | heartbeat_system/store.py:204-206 | a dedupe record is found exactly when one is stored under the key |
| HeartbeatStore.SetDedupe | heartbeat_system/store.py:208-211 | the record is then found under its own key, every other key reads as before, and nothing else changes |
| HeartbeatStore.SetDedupeReplaces | heartbeat_system/store.py:208-211 | a second record with the same key replaces the first entirely |
| HeartbeatStore.PruneDedupe | heartbeat_system/store.py:213-224 | exactly the records whose suppression ended at or before `now` are removed, the rest are unchanged, and the count returned is the number removed |
| HeartbeatStore.PruneIdempotent | heartbeat_system/store.py:213-224 | pruning again at the same time removes nothing |
| HeartbeatStore.CoerceBool | heartbeat_system/store.py:314-317 | a JSON boolean is kept; anything else is the default |
| HeartbeatStore.CoerceInt | heartbeat_system/store.py:320-325 | a JSON integer is kept; anything else, booleans included, is the default |
| HeartbeatStore.CoerceStr | heartbeat_system/store.py:328-331 | a JSON string is kept; anything else is the default |
| HeartbeatStore.CoerceCounters | heartbeat_system/store.py:334-342 | a non-object decodes to zero counters |
| HeartbeatStore.CoerceLastEvent | heartbeat_system/store.py:345-363 | a last event is restored exactly when the value is an object whose id and status are non-empty strings |
| HeartbeatStore.CoerceDedupeEntry | heartbeat_system/store.py:371-384 | a non-object entry is skipped; the record key defaults to the entry's key and an empty one skips the entry |
| HeartbeatStore.CoerceEntries | heartbeat_system/store.py:370-385 | every restored record sits under its own non-empty key and comes from one of the entries |
| HeartbeatStore.CoerceDedupeMap | heartbeat_system/store.py:366-385 | a non-object decodes to no records; every record sits under its own non-empty key |
| HeartbeatStore.Load | heartbeat_system/store.py:235-259 | a missing file leaves the defaults with no warning; an unreadable or non-JSON file leaves the defaults and records the error; a non-object payload records the fixed type error; an object payload is decoded field by field with no error |
| HeartbeatStore.CountersRoundTrip | heartbeat_system/store.py:277-342 | counters written to the payload decode back unchanged |
| HeartbeatStore.LastEventRoundTrip | heartbeat_system/store.py:284-363 | a last event with non-empty id and status, or its absence, decodes back unchanged |
| HeartbeatStore.RecordRoundTrip | heartbeat_system/store.py:297-384 | a dedupe record with a non-empty key decodes back unchanged |
| HeartbeatStore.EntriesRoundTrip | heartbeat_system/store.py:366-385 | decoding the written dedupe entries, in any order covering some keys, restores exactly those records |
| HeartbeatStore.DedupeMapRoundTrip | heartbeat_system/store.py:297-385 | a dedupe map whose records sit under their own non-empty keys decodes back unchanged |
| HeartbeatStore.PayloadRoundTrip | heartbeat_system/store.py:235-311 | every restorable snapshot, once persisted, is loaded back as the same store with no warning |
| HeartbeatStore.PayloadFields | heartbeat_system/store.py:306-311 | the payload is an object with the four fields `enabled`, `counters`, `last_event` and `dedupe` |
| HeartbeatStore.EmptyKeyRecordLost | heartbeat_system/store.py:376-378 | a record stored under the empty key does not survive a reload |
| HeartbeatEvents.NewService | heartbeat_system/events.py:31-42 | a negative dedupe window is clamped to zero; any other window and the store are kept |
| HeartbeatEvents.Field | heartbeat_system/events.py:48-52 | a missing run-result field reads as the empty string, a string field as itself |
| HeartbeatEvents.Count | heartbeat_system/events.py:54-60 | ran, skipped and failed each increment their own counter and nothing else |
| HeartbeatEvents.EventId | heartbeat_system/events.py:133-155 | an event id is `evt_` followed by at most 20 digest characters |
| HeartbeatEvents.Ingest | heartbeat_system/events.py:44-120 | an unsupported trimmed status is an error naming it, before anything is written; otherwise a ran run with output gets the output's dedupe key; it is suppressed exactly when a record for that key is still inside a positive window and delivered exactly when keyed and not suppressed; counters add the status's own and, on suppression, a dedupe; the key's record is rewritten with `now`, the new window end and one more hit; other records are untouched; the last event echoes the input stamped `now` |
| HeartbeatEvents.ZeroWindowNeverSuppresses | heartbeat_system/events.py:71-81 | with a zero window nothing is suppressed and every keyed run is delivered |
| HeartbeatEvents.RepeatWithinWindowSuppressed | heartbeat_system/events.py:68-90 | the same ran output again before the window ends is suppressed, counted as a dedupe and adds a hit to its record |
| HeartbeatEvents.OnlyRanIsDeduped | heartbeat_system/events.py:64-68 | a skipped or failed run leaves the dedupe records alone and is never delivered or suppressed |
| HeartbeatScheduler.Start | heartbeat_system/scheduler.py:96-114 | a new scheduler runs, not stopped, idle, with no pending wake and zero counts; the interval is the configured one (60000 ms by default) raised to at least 1 ms; when enabled the first run is due one interval from now |
| HeartbeatScheduler.Wake | heartbeat_system/scheduler.py:118-133 | once stopped a wake is ignored with queue size 0 and nothing changes; otherwise an invalid reason raises and a valid one gets the wake queue's decision, reported `accepted` exactly when accepted; only the pending wake changes |
| HeartbeatScheduler.Stop | heartbeat_system/scheduler.py:164-174 | stopping leaves the scheduler stopped, not running, idle and with no pending wake; stopping a stopped scheduler changes nothing |
| HeartbeatScheduler.StopTwice | heartbeat_system/scheduler.py:164-167 | stopping is idempotent |
| HeartbeatScheduler.WakeAfterStopIgnored | heartbeat_system/scheduler.py:118-127 | every wake after a stop is ignored and changes nothing |
| HeartbeatScheduler.SetEnabled | heartbeat_system/scheduler.py:176-187 | the previous flag is returned; enabling schedules the next run one interval from now and keeps the pending wake; disabling clears both the due time and the pending wake; nothing else changes |
| HeartbeatScheduler.NextDue | heartbeat_system/scheduler.py:267-268 | advancing the due time by whole intervals ends strictly after `now` and at most one interval later; a due time already in the future is kept |
| HeartbeatScheduler.AdvanceDue | heartbeat_system/scheduler.py:267-268 | the loop that adds intervals until the due time passes `now` computes the same due time, strictly after `now` and within one interval |
| HeartbeatScheduler.EnqueueIntervalWake | heartbeat_system/scheduler.py:261-268 | nothing happens unless enabled and due; then an `interval` wake is requested and the due time moves past `now` by whole intervals; nothing else changes |
| HeartbeatScheduler.Health | heartbeat_system/scheduler.py:282-291 | stopped, then a dead thread (degraded), then in flight (busy), then consecutive failures (degraded), else ok; a reason is given exactly when degraded |
| HeartbeatScheduler.GetStatus | heartbeat_system/scheduler.py:135-162 | the report mirrors the state and its health; a thread that died while running leaves the scheduler not running, and that is the only change |
| HeartbeatScheduler.ResultValue | heartbeat_system/scheduler.py:308-312 | a non-mapping result or missing key gives the default, otherwise the value's string form |
| HeartbeatScheduler.RecordRun | heartbeat_system/scheduler.py:209-257 | every run counts an attempt and records its reason and times and clears in-flight; a returned result resets the failure streak and records status, reason and error (none when empty) with the defaults `ran` and `delivered`, adding a callback failure only if the hook raised; a raising run adds a run failure and extends the streak, recorded as `failed` / `scheduler-exception` with the exception's message or type name; nothing else changes |
| HeartbeatScheduler.LoopStep | heartbeat_system/scheduler.py:189-259 | a stopped scheduler exits; otherwise it runs exactly when a wake was pending or the interval was due, for the pending wake's reason unless a due interval wake of at least its priority displaced it, and otherwise waits until the due time (at least 1 ms) or 25 ms when disabled |
| HeartbeatScheduler.NoDoubleIntervalRun | heartbeat_system/scheduler.py:261-268 | after a pass that ran a due interval wake, a second pass at the same time only waits |
| HeartbeatApi.InferOk | heartbeat_system/api.py:497-504 | a payload is not ok exactly when it has an error code other than None or "" or its trimmed lower-cased status is failed, error, not-running or degraded |
| HeartbeatApi.WithOperatorContract | heartbeat_system/api.py:483-494 | the payload keeps its own fields, gains the contract name, version and metadata, null error code and reason when absent, and an `ok` inferred from the payload when absent |
| HeartbeatApi.StampKeepsOk | heartbeat_system/api.py:483-494 | stamping the contract fields and the error defaults never changes the inferred `ok` |
| HeartbeatApi.WithOperatorContractIdempotent | heartbeat_system/api.py:483-494 | wrapping an already wrapped payload changes nothing |
| HeartbeatApi.NormalizeRunResult | heartbeat_system/api.py:461-480 | a mapping result keeps every field and gains the defaults (status `ran`, reason `delivered`, empty output and error, the run reason, null error code and reason) only where absent; any other result becomes a delivered run whose output is its string form |
| HeartbeatApi.NormalizeRunResultIdempotent | heartbeat_system/api.py:461-480 | normalising a normalised result again, whatever the run reason, changes nothing |
| HeartbeatApi.NewDiagnostics | heartbeat_system/api.py:48-58 | the history limit is at least 1, the history starts empty and the five counters at zero |
| HeartbeatApi.Tally | heartbeat_system/api.py:80-85 | a record adds one to the total and to its source, and one to delivered or suppressed when flagged; no other counter changes |
| HeartbeatApi.Push | heartbeat_system/api.py:50 | appending to the bounded history keeps the newest entries, at most the limit, with the new entry last |
| HeartbeatApi.Record | heartbeat_system/api.py:60-85 | the newest history entry describes the decision (source, event id and time, status, delivery and suppression, dedupe key); older entries are kept up to the limit; the counters are tallied |
| HeartbeatApi.RecordKeepsCountersConsistent | heartbeat_system/api.py:60-85 | recording manual or scheduler decisions keeps the total equal to manual plus scheduler and delivered plus suppressed within the total |
| HeartbeatApi.FormatDrained | heartbeat_system/api.py:543-553 | at most 20 events are formatted; past 20, the first 19 are kept and the last line reports how many were dropped |
| HeartbeatApi.DrainFormattedSystemEvents | heartbeat_system/api.py:537-553 | the session's queue is emptied and its events formatted in order, with the overflow marker past 20; other sessions are untouched |
| HeartbeatApi.StatePath | heartbeat_system/api.py:607-616 | a state path override exists exactly for a mapping configuration whose `state_path` is a non-blank string, and is that string trimmed |
| HeartbeatApi.SelectStoreBackend | heartbeat_system/api.py:569-604 | a state path override selects a file store at that path; otherwise a JSON alias selects a file store at the configured file (the default when blank) and anything else selects memory; the current store is reused exactly when it is the one selected |
| HeartbeatApi.DataclassConfigSelectsMemory | heartbeat_system/api.py:569-604 | a configuration object that is not a mapping always selects the memory store |
| HeartbeatApi.NormalizeWakePayload | heartbeat_system/api.py:507-518 | a wake payload keeps its own fields, gains a null error code when absent and an inferred `ok` |
| HeartbeatApi.ResponsePayload | heartbeat_system/scheduler.py:130-133 | the scheduler's wake answer carries its status and acceptance and no error code or `ok` |
| HeartbeatApi.SchedulerAnswer | heartbeat_system/api.py:367-369 | a wake answered by a running scheduler is ok with no error code, whether accepted or ignored |
| HeartbeatApi.NotRunningAnswer | heartbeat_system/api.py:385-397 | with no running scheduler the answer is `not-running`, not accepted, `runtime-not-started`, not ok |
| HeartbeatApi.InvalidReasonAnswer | heartbeat_system/api.py:370-383 | an invalid wake reason answers `failed`, not accepted, `invalid-wake-reason`, not ok |
| HeartbeatApi.ApiWake | heartbeat_system/api.py:363-397 | without a running scheduler the answer is `not-running`, noting a dead thread; with one, an invalid reason answers `invalid-wake-reason` and changes nothing, and a valid reason updates only the pending wake per the wake queue and answers ok |
| MemoryIndex.Lines | memory_system/index.py:397-399 | an empty text has no lines and no line contains a newline |
| MemoryIndex.LinesJoin | memory_system/index.py:397 | the lines joined with newlines give back the text, less its final newline when it has one |
| MemoryIndex.TokenCount | memory_system/index.py:401 | a line counts as its whitespace-separated words, and at least one token |
| MemoryIndex.Tokens | memory_system/index.py:401 | one token count per line, each at least 1 |
| MemoryIndex.EndIsFirst | memory_system/index.py:406-412 | a chunk stops at the first line where its tokens reach the budget: every shorter prefix is below it |
| MemoryIndex.ChunkEnd | memory_system/index.py:407-412 | a chunk takes at least one line and stops exactly when its tokens reach the budget or the lines run out |
| MemoryIndex.NextStart | memory_system/index.py:426-435 | the next chunk backs up over the fewest trailing lines whose tokens reach the overlap, or starts right after the chunk when that would reach its start; it always moves forward |
| MemoryIndex.ChunkLines | memory_system/index.py:402-437 | no chunks for no lines; otherwise at most one chunk per line, the first starting at line 1 and the last ending at the last line; each chunk is a budget-bounded run of lines with their text joined by newlines; consecutive chunks follow the overlap rule and start strictly later without leaving a gap |
| MemoryIndex.ChunkText | memory_system/index.py:396-437 | chunking a text is chunking its lines with their token counts |
| MemoryIndex.ChunksCoverEveryLine | memory_system/index.py:406-435 | a gap-free run of chunks from the first to the last line covers every line in between |
| MemoryIndex.ChunkingCoversEveryLine | memory_system/index.py:396-437 | every line of the text lies in some chunk |
| MemoryIndex.StalePaths | memory_system/index.py:288-291 | the stale paths are exactly the indexed paths no longer active, each once, sorted |
| MemoryPaths.RootAliasInjective | memory_system/paths.py:51-53 | the aliases `workspace`, `root1`, `root2`, ... are pairwise different |
| MemoryPaths.AddDistinct | memory_system/paths.py:45-48 | each resolved candidate not already present is appended in order: the existing roots stay first, no path repeats, and every candidate is present |
| MemoryPaths.Resolved | memory_system/paths.py:45-46 | every configured root is resolved, in order |
| MemoryPaths.NormalizeSourceRoots | memory_system/paths.py:43-54 | the resolved workspace is the first root, aliased `workspace`; the root at position i is aliased by that position; no path repeats; every configured root appears, and nothing else does |
| MemoryPaths.Labelled | memory_system/paths.py:50-54 | each path gets the alias of its position |
| MemoryPaths.LabelledCovers | memory_system/paths.py:43-54 | every configured root is among the labelled roots |
| MemoryPaths.Push | memory_system/paths.py:76 | one step of path normalisation keeps the segment stack collapsed: no empty or `.` segments, `..` only leading, none under an absolute path |
| MemoryPaths.CollapseAll | memory_system/paths.py:76 | normalising all segments keeps the stack collapsed |
| MemoryPaths.NormSegments | memory_system/paths.py:76 | a normalised path's segments are collapsed |
| MemoryPaths.RelativeNormPathStaysInside | memory_system/paths.py:76-78 | a relative normalised path other than `.`, `..` and `../...` has no `..` segment, so it cannot climb out of its root |
| MemoryPaths.CanonicalKey | memory_system/paths.py:158-161 | with several roots a file's key is its root alias, a colon and its relative path; with one root it is the relative path |
| MemoryPaths.ForwardSlashes | memory_system/paths.py:58 | backslashes become forward slashes and nothing else changes |
| MemoryPaths.Before | memory_system/paths.py:69 | the text before the first occurrence of the character, or all of it when absent |
| MemoryPaths.FindAlias | memory_system/paths.py:70-74 | the first root with the alias, or none when no root has it |
| MemoryPaths.SelectRoot | memory_system/paths.py:65-74 | a request without a colon uses the first root and the whole text |
| MemoryPaths.AliasSelectsRoot | memory_system/paths.py:68-74 | a request prefixed with a root's alias and a colon selects that root (the first with that alias) and the text after the colon |
| MemoryPaths.UnknownAliasUsesFirstRoot | memory_system/paths.py:66-74 | a prefix that names no root leaves the first root and the whole text |
| MemoryPaths.RequestText | memory_system/paths.py:58 | the trimmed request uses forward slashes only |
| MemoryPaths.CheckAllowedPath | memory_system/paths.py:57-94 | a blank or absolute request is denied; otherwise the selected text is normalised and denied when it is empty, `.`, `..`, climbs out, is not markdown or fails the filesystem checks; an allowed path is keyed canonically with its target under the root |
| MemoryPaths.NotDeniedIsAllowed | memory_system/paths.py:71-94 | a relative request to which none of those denials applies is allowed, so with the contract above a relative request is allowed exactly when no denial applies |
| MemoryPaths.AllowedIsMarkdownInside | memory_system/paths.py:76-94 | an allowed path is a markdown path with no `..` segment |
| MemoryPaths.Insert | memory_system/paths.py:126 | inserting a file adds exactly that file |
| MemoryPaths.InsertSorted | memory_system/paths.py:126 | inserting into a key-sorted list keeps it sorted |
| MemoryPaths.InsertDistinct | memory_system/paths.py:119-126 | inserting a file with a new absolute path keeps the paths distinct |
| MemoryPaths.SortByKey | memory_system/paths.py:126 | sorting is a permutation of the files |
| MemoryPaths.SortByKeySorted | memory_system/paths.py:126 | sorting orders the files by key |
| MemoryPaths.SortByKeyDistinct | memory_system/paths.py:126 | sorting keeps the absolute paths distinct |
| MemoryPaths.Gather | memory_system/paths.py:103-124 | gathered files have distinct absolute paths, none seen before |
| MemoryPaths.GatherSound | memory_system/paths.py:112-124 | every gathered file is a kept markdown file of the walk, keyed canonically |
| MemoryPaths.GatherComplete | memory_system/paths.py:112-124 | every kept markdown file of the walk is gathered under its absolute path, unless that path was already seen |
| MemoryPaths.DiscoverMarkdownFiles | memory_system/paths.py:97-127 | the discovered files are sorted by key, have distinct absolute paths and are a permutation of the gathered files |
| MemoryPaths.DiscoverReportsKeptFiles | memory_system/paths.py:97-127 | discovery reports exactly the kept markdown files: each reported file is one of them, and each of them is reported |
| MemoryApi.UnavailableReply | memory_system/api.py:36-43 | the unavailable answer carries no results, the prefixed reason, and the fixed warning and action |
| MemoryApi.MemorySearch | memory_system/api.py:13-63 | a blank query, a result count outside 1..50 (default 10) or a minimum score outside [0, 1] (default 0) is refused, checked in that order with the source's messages; an unavailable or failing index gives the unavailable answer with its reason; otherwise the index's rows for the trimmed query are returned with the fixed provider, model, citations and mode |
| MemoryApi.SearchDefaults | memory_system/api.py:26-27 | omitting the count and score is the same as asking for 10 and 0 |
| MemoryApi.SearchIgnoresSurroundingSpace | memory_system/api.py:22 | surrounding whitespace in the query changes nothing |
| MemoryApi.SearchRowsComeFromIndex | memory_system/api.py:45-63 | returned rows are exactly what the available index answered for the trimmed query and bounds |
| MemoryApi.SplitLinesKeepEnds | memory_system/api.py:130 | the lines, each keeping its newline, concatenate back to the text, and only the last may lack a newline |
| MemoryApi.SliceIsSubstring | memory_system/api.py:130-140 | a run of consecutive lines is the matching substring of the text |
| MemoryApi.ExtraKeywords | memory_system/api.py:75-77 | a `from` keyword stands in for a missing `from_`; every other keyword is left over |
| MemoryApi.JoinWith | memory_system/api.py:78 | joining no names gives the empty string and one name gives itself |
| MemoryApi.SliceEnd | memory_system/api.py:135-138 | the slice ends `lines` after its start, or at the end of the file when there are fewer lines or no count |
| MemoryApi.SliceArgsError | memory_system/api.py:118-128 | a start below 1, then a count below 1, then a count above 2000 is refused with its message; anything else is accepted |
| MemoryApi.SliceItems | memory_system/api.py:118-140 | bad arguments are refused; otherwise the text is the lines from the start for the count, empty when the start is past the end |
| MemoryApi.ReadChecked | memory_system/api.py:83-140 | a denied path reads nothing and is reported as checked, or as requested when the check gave no path; an allowed path without target is denied; a missing file gives empty text; a failed read reports its reason; a readable file gives its whole text, or the requested lines, or the argument error |
| MemoryApi.MemoryGet | memory_system/api.py:66-140 | unknown keywords are refused with their sorted names before anything else; otherwise the path is checked against the normalised roots and read |
| MemoryApi.WholeFileFromFirstLine | memory_system/api.py:130-140 | reading from line 1 without a count gives the whole file |
| MemoryApi.TakeLinesJoin | memory_system/api.py:135-140 | two adjacent runs of lines concatenate to the combined run |
| MemoryApi.ConsecutiveSlicesJoin | memory_system/api.py:118-140 | reading n lines from a and then m lines from a + n gives the same text as reading n + m lines from a |
| MemoryApi.ConsecutiveItemsJoin | memory_system/api.py:118-140 | the same holds for slicing an already split list of lines |
| MemoryApi.FromKeywordIsFrom | memory_system/api.py:75-76 | passing the start as the `from` keyword is the same as passing `from_` |
| MemoryApi.AllowedReadReturnsFile | memory_system/api.py:102-116 | an allowed, readable path asked for without lines returns the file's whole text under its checked path |

## Left out

- Network transport (`urllib` requests in the Telegram client), real sleeping and wall clocks: the transport's answers, the current time and the sleep durations are parameters and outputs of the model.
- File and JSON text I/O: reading and writing the heartbeat state file, the cursor state file and `HEARTBEAT.md` are modelled as their decoded values (JSON objects as maps); JSON text encoding and decoding is not part of this model.
- Threads, locks and events (the scheduler thread, `_get_sync_lock`, store locks): each scheduler loop iteration is one step function, and thread liveness is an observed boolean.
- SQLite, FTS5 and scoring in `MemoryIndex.sync`/`search`/`is_available`, `_requires_rebuild`, `_build_manifest`, `_full_rebuild`, `_replace_path_content`, `_init_schema` and the meta helpers: only `_chunk_text` and the stale-path query are modelled; the index seen by `memory_search` is a parameter.
- Filesystem questions (is a file, is a symlink, resolve, walk) are oracle parameters of the path and discovery functions.
- SHA-256 (`_stable_dedupe_key`, `_event_id`, `_sha256_hex`, `_hash_file`) is an uninterpreted function parameter.
- `_default_codex_invoke` (the `codex exec` subprocess) and `CodexInvocationRequest`: the invocation outcome is a parameter of `HandleMessage`.
- `_default_memory_lookup`, `_default_publish_system_event`, `_resolve_memory_hook_flag`, `_resolve_default_orchestrator`, `_resolve_cursor_state_store` and the importlib `_resolve_runner_function`/`_invoke_runner` wiring: these are module loading and foreign calls.
- `perf_counter` telemetry: `_elapsed_ms`, `_build_telemetry_digest`, `_build_failure_event_context` and `_build_runtime_telemetry` only report timings and counts.
- `_map_process_once_errors`, `_map_process_once_error_message`, `_infer_service_operation`, `_infer_retryable_service_error` and `_map_runtime_diagnostic`: these classify error messages into detail records by substring matching. Their output feeds the modelled `_build_error_detail`/`_dedupe_error_details`, which take the records as input.
- Floating-point values (timeouts, intervals, backoff, scores) are `real`, so rounding is not modelled.
- Whitespace and case in `Text` are ASCII only: Python's `str.strip` and `str.split` also treat `'\x1c'`-`'\x1f'`, `'\x85'`, `'\xa0'`, `'\u2028'` and other Unicode spaces as whitespace, and `str.lower` also folds non-ASCII letters; such text is trimmed, split and compared differently in the model.
- `JsonValue` has no floating-point numbers. A cursor state file holding `{"committed_floor": 5.0}` is rejected by the source with `state-load-floor` (telegram_channel/cursor_state.py:51-54), and an update whose `date` is a float is truncated by `int()` (telegram_channel/update_parser.py:69-75); neither input can be written in the model.
- `RuntimeConfig.ParseRuntimeConfig`: the process environment `os.environ` and Python's `float()` on text are parameters (`osEnviron`, `toReal`).
- The command-line front ends (`heartbeat_system/cli.py`, `memory_system/cli.py`, `channel_runtime/__main__.py`) and the package `__init__` re-exports are not part of this model.
- `str.splitlines` is modelled as splitting on `'\n'` only; the other Unicode line breaks are not treated as separators.
- Python `int(str)` is modelled as optional surrounding whitespace, an optional sign and ASCII digits; underscores and non-ASCII digits are not accepted.
- `os.path.normpath` is modelled on `/`-separated segments (`.`, `..` and empty segments), without drive letters or a leading `//`.
- MemoryPaths.SortByKey: like Python's stable sort, it keeps files with equal keys in their input order, but no lemma states that; only the permutation, the key order and the distinct paths are proved.
- `str()` of a list or a dict, and `repr` escaping in messages, are modelled as opaque text.
- The stored dedupe map is read back in sorted key order, while the source iterates in file order. The results differ only for a hand-edited file with colliding inner keys.
- `_resolve_default_orchestrator` passes `notify_on_error` to the `CodexOrchestrator` constructor, which takes no such keyword (channel_runtime/codex_orchestrator.py:166-172). Orchestrator wiring is not part of this model, so the error this raises in codex mode is not modelled either.
- `MemoryApi.MemoryGet`: `from`/`lines` values are already integers, so Python's conversion of non-integer arguments is not modelled.
- `HeartbeatRun.LoadHeartbeatPrompt`: the returned path is the given text, while the source returns `str(Path(path))`, which drops `.` segments, repeated and trailing slashes (`./HEARTBEAT.md` becomes `HEARTBEAT.md`); the two agree only for a path already in that form.
- `ChannelRunner.RunLoop`: an unbounded `run_loop` (no `max_cycles`, not `once`) is observed only for its first `budget` cycles.
- The unreachable trailing "unknown" error after the retry loop in `TelegramClient._request` is not modelled.
- `CodexSessionManager.describe` is a read-only projection of a session record and is not modelled.
- Heartbeat API entry points outside the modelled helpers (`run_once`, `start_heartbeat_runner`, `stop_heartbeat_runner`, `request_heartbeat_now`, `get_status`, `get_last_event`, `enable_heartbeat`, `disable_heartbeat`, `publish_system_event`, `_set_heartbeat_enabled`, `reset_runtime_for_tests`, the `_RuntimeManager`, and the `*_as_dict` converters) wire the store, the scheduler and the event service together through module globals. Their parts are modelled in `HeartbeatStore`, `HeartbeatScheduler`, `HeartbeatEvents` and `SystemEvents`.
- `_IngestDecisionDiagnostics.snapshot` is a plain read of the recorded diagnostics.
- The store's `get_last_event`, `set_last_event`, `get_counters`, `set_counters` and `snapshot` are plain field reads and updates of the store record.
- `SystemEventQueue.size` is the length of the queue's item sequence.

## Findings

| source | as written | input that shows it | evidently intended | confidence | as-written member | corrected member |
|---|---|---|---|---|---|---|
| channel_runtime/runner.py:220 | `run_cycle` calls `process_once(..., ack_policy=ack_policy)`, but `process_once` (channel_core/service.py:29-34) takes no `ack_policy` keyword, so every call raises `TypeError` before any update is fetched | any cycle, for example one whose adapter holds one valid update: the `TypeError` is caught as a runtime process-once exception, nothing is sent and nothing is acknowledged | pass only the keywords `process_once` accepts, so a cycle handles, sends and acknowledges its updates | not executed | ChannelRunner.RunCycleAsWritten, ChannelRunner.AsWrittenNeverAcks | ChannelRunner.RunCycle |
