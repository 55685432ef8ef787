/** The total parser from one raw Telegram update object to either an inbound text
    message or a named skip reason. Only `message.text` updates are supported. */
module UpdateParser {
  import opened Wrappers
  import Text
  import opened JsonValue
  import Contracts
  import Numbers

  /** Why an update was skipped. */
  datatype SkipReason =
    | InvalidUpdateId
    | UnsupportedUpdateType
    | UnsupportedMessageText
    | MissingChatOrUserId
  {
    /** The reason string the parser reports. */
    function Name(): string {
      match this
      case InvalidUpdateId => "invalid-update-id"
      case UnsupportedUpdateType => "unsupported-update-type"
      case UnsupportedMessageText => "unsupported-message-text"
      case MissingChatOrUserId => "missing-chat-or-user-id"
    }
  }

  /** The parser's output: exactly one of `inbound` and `skipReason` is set. */
  datatype ParsedUpdate = ParsedUpdate(
    updateId: Option<string>,
    inbound: Option<Contracts.InboundMessage>,
    skipReason: Option<SkipReason>)

  /** Metadata attached to every parsed inbound message. */
  const TelegramMetadata: map<string, string> := map["source" := "telegram", "update_type" := "message"]

  /** An id field: None stays None, anything else becomes its trimmed `str()` text,
      and a blank text becomes None. Used for both required and optional ids. */
  function CoerceId(v: Json): (r: Option<string>)
    ensures r.Some? ==> !Text.IsBlank(r.value) && Text.NoEdgeSpace(r.value)
    ensures r.Some? <==> !v.JNull? && !Text.IsBlank(PyStr(v))
    ensures v.JStr? && !Text.IsBlank(v.s) ==> r == Some(Text.Strip(v.s))
  {
    if v.JNull? then None
    else
      var text := Text.Strip(PyStr(v));
      if text == "" then None else Some(text)
  }

  /** An optional integer field: None, or `int(value)` with failures mapped to None. */
  function CoerceOptionalInt(v: Json): (r: Option<int>)
    ensures v.JNull? || v.JArray? || v.JObject? ==> r.None?
    ensures v.JInt? ==> r == Some(v.i)
    ensures v.JBool? ==> r == Some(if v.b then 1 else 0)
    ensures v.JStr? ==> r == Numbers.PyIntOfText(v.s)
  {
    if v.JNull? then None else PyInt(v)
  }

  /** Python's `parse_update`. The checks run in a fixed order: update id, message
      type, text, then chat and sender ids. */
  function ParseUpdate(raw: map<string, Json>): (p: ParsedUpdate)
    // exactly one of the two outcomes
    ensures p.inbound.Some? != p.skipReason.Some?
    // the update id
    ensures CoerceId(Get(raw, "update_id")).None? ==> p == ParsedUpdate(None, None, Some(InvalidUpdateId))
    ensures CoerceId(Get(raw, "update_id")).Some? ==> p.updateId == CoerceId(Get(raw, "update_id"))
    // the message
    ensures (CoerceId(Get(raw, "update_id")).Some? && !Get(raw, "message").JObject?)
            ==> p.skipReason == Some(UnsupportedUpdateType)
    ensures (CoerceId(Get(raw, "update_id")).Some? && Get(raw, "message").JObject?
             && !(GetIn(Get(raw, "message"), "text").JStr? && !Text.IsBlank(GetIn(Get(raw, "message"), "text").s)))
            ==> p.skipReason == Some(UnsupportedMessageText)
    ensures p.skipReason == Some(MissingChatOrUserId) <==>
            (&& CoerceId(Get(raw, "update_id")).Some?
             && Get(raw, "message").JObject?
             && GetIn(Get(raw, "message"), "text").JStr?
             && !Text.IsBlank(GetIn(Get(raw, "message"), "text").s)
             && (|| CoerceId(GetIn(GetIn(Get(raw, "message"), "chat"), "id")).None?
                 || CoerceId(GetIn(GetIn(Get(raw, "message"), "from"), "id")).None?))
    // a successful parse
    ensures p.inbound.Some? ==>
            && Contracts.ValidInbound(p.inbound.value)
            && p.updateId == Some(p.inbound.value.updateId)
            && Text.NoEdgeSpace(p.inbound.value.chatId)
            && Text.NoEdgeSpace(p.inbound.value.userId)
            && Get(raw, "message").JObject?
            && GetIn(Get(raw, "message"), "text") == JStr(p.inbound.value.text)
            && p.inbound.value.messageId == CoerceId(GetIn(Get(raw, "message"), "message_id"))
            && p.inbound.value.timestampS == CoerceOptionalInt(GetIn(Get(raw, "message"), "date"))
            && p.inbound.value.metadata == TelegramMetadata
  {
    var updateId := CoerceId(Get(raw, "update_id"));
    if updateId.None? then ParsedUpdate(None, None, Some(InvalidUpdateId))
    else
      var message := Get(raw, "message");
      if !message.JObject? then ParsedUpdate(updateId, None, Some(UnsupportedUpdateType))
      else
        var text := Get(message.fields, "text");
        if !text.JStr? || Text.IsBlank(text.s) then ParsedUpdate(updateId, None, Some(UnsupportedMessageText))
        else
          var chatId := CoerceId(GetIn(Get(message.fields, "chat"), "id"));
          var userId := CoerceId(GetIn(Get(message.fields, "from"), "id"));
          if chatId.None? || userId.None? then ParsedUpdate(updateId, None, Some(MissingChatOrUserId))
          else
            // every field the InboundMessage constructor validates was checked above
            var inbound := Contracts.InboundMessage(
              updateId.value, chatId.value, userId.value, text.s,
              CoerceId(Get(message.fields, "message_id")),
              CoerceOptionalInt(Get(message.fields, "date")),
              TelegramMetadata);
            ParsedUpdate(updateId, Some(inbound), None)
  }

  /** The raw update Telegram would deliver for an inbound message: string ids,
      `message_id` and `date` only when present. */
  function RenderUpdate(m: Contracts.InboundMessage): map<string, Json> {
    var base := map["text" := JStr(m.text),
                    "chat" := JObject(map["id" := JStr(m.chatId)]),
                    "from" := JObject(map["id" := JStr(m.userId)])];
    var withId := if m.messageId.Some? then base["message_id" := JStr(m.messageId.value)] else base;
    var message := if m.timestampS.Some? then withId["date" := JInt(m.timestampS.value)] else withId;
    map["update_id" := JStr(m.updateId), "message" := JObject(message)]
  }

  /** Every message the parser can produce is recovered from its rendering: parse
      inverts render on messages with trimmed ids and Telegram metadata. */
  lemma {:induction false} ParseRenderRoundTrip(m: Contracts.InboundMessage)
    requires Contracts.ValidInbound(m)
    requires Text.NoEdgeSpace(m.updateId) && Text.NoEdgeSpace(m.chatId) && Text.NoEdgeSpace(m.userId)
    requires m.messageId.Some? ==> !Text.IsBlank(m.messageId.value) && Text.NoEdgeSpace(m.messageId.value)
    requires m.metadata == TelegramMetadata
    ensures ParseUpdate(RenderUpdate(m)) == ParsedUpdate(Some(m.updateId), Some(m), None)
  {
    RenderedFields(m);
    ParseWellFormedFields(RenderUpdate(m), m);
  }

  /** The parse of any raw update whose fields read back as `m`'s. */
  lemma {:induction false} ParseWellFormedFields(raw: map<string, Json>, m: Contracts.InboundMessage)
    requires Contracts.ValidInbound(m)
    requires Text.NoEdgeSpace(m.updateId) && Text.NoEdgeSpace(m.chatId) && Text.NoEdgeSpace(m.userId)
    requires m.messageId.Some? ==> !Text.IsBlank(m.messageId.value) && Text.NoEdgeSpace(m.messageId.value)
    requires Get(raw, "update_id") == JStr(m.updateId)
    requires Get(raw, "message").JObject?
    requires var f := Get(raw, "message").fields;
             && Get(f, "text") == JStr(m.text)
             && GetIn(Get(f, "chat"), "id") == JStr(m.chatId)
             && GetIn(Get(f, "from"), "id") == JStr(m.userId)
             && Get(f, "message_id") == (if m.messageId.Some? then JStr(m.messageId.value) else JNull)
             && Get(f, "date") == (if m.timestampS.Some? then JInt(m.timestampS.value) else JNull)
    requires m.metadata == TelegramMetadata
    ensures ParseUpdate(raw) == ParsedUpdate(Some(m.updateId), Some(m), None)
  {
    CoercedFields(raw, m);
    assert !Text.IsBlank(m.text);
    ParseAccepts(raw);
  }

  /** The parse of an update that passes every check, written out field by field. */
  lemma ParseAccepts(raw: map<string, Json>)
    requires CoerceId(Get(raw, "update_id")).Some?
    requires Get(raw, "message").JObject?
    requires var f := Get(raw, "message").fields;
             && Get(f, "text").JStr? && !Text.IsBlank(Get(f, "text").s)
             && CoerceId(GetIn(Get(f, "chat"), "id")).Some?
             && CoerceId(GetIn(Get(f, "from"), "id")).Some?
    ensures var f := Get(raw, "message").fields;
            ParseUpdate(raw) == ParsedUpdate(
              CoerceId(Get(raw, "update_id")),
              Some(Contracts.InboundMessage(
                CoerceId(Get(raw, "update_id")).value,
                CoerceId(GetIn(Get(f, "chat"), "id")).value,
                CoerceId(GetIn(Get(f, "from"), "id")).value,
                Get(f, "text").s,
                CoerceId(Get(f, "message_id")), CoerceOptionalInt(Get(f, "date")), TelegramMetadata)),
              None)
  {
  }

  lemma {:induction false} CoercedFields(raw: map<string, Json>, m: Contracts.InboundMessage)
    requires Contracts.ValidInbound(m)
    requires Text.NoEdgeSpace(m.updateId) && Text.NoEdgeSpace(m.chatId) && Text.NoEdgeSpace(m.userId)
    requires m.messageId.Some? ==> !Text.IsBlank(m.messageId.value) && Text.NoEdgeSpace(m.messageId.value)
    requires Get(raw, "update_id") == JStr(m.updateId)
    requires Get(raw, "message").JObject?
    requires var f := Get(raw, "message").fields;
             && Get(f, "text") == JStr(m.text)
             && GetIn(Get(f, "chat"), "id") == JStr(m.chatId)
             && GetIn(Get(f, "from"), "id") == JStr(m.userId)
             && Get(f, "message_id") == (if m.messageId.Some? then JStr(m.messageId.value) else JNull)
             && Get(f, "date") == (if m.timestampS.Some? then JInt(m.timestampS.value) else JNull)
    ensures var f := Get(raw, "message").fields;
            && CoerceId(Get(raw, "update_id")) == Some(m.updateId)
            && CoerceId(GetIn(Get(f, "chat"), "id")) == Some(m.chatId)
            && CoerceId(GetIn(Get(f, "from"), "id")) == Some(m.userId)
            && CoerceId(Get(f, "message_id")) == m.messageId
            && CoerceOptionalInt(Get(f, "date")) == m.timestampS
  {
  }

  lemma RenderedFields(m: Contracts.InboundMessage)
    ensures Get(RenderUpdate(m), "update_id") == JStr(m.updateId)
    ensures Get(RenderUpdate(m), "message").JObject?
    ensures var f := Get(RenderUpdate(m), "message").fields;
            && Get(f, "text") == JStr(m.text)
            && GetIn(Get(f, "chat"), "id") == JStr(m.chatId)
            && GetIn(Get(f, "from"), "id") == JStr(m.userId)
            && Get(f, "message_id") == (if m.messageId.Some? then JStr(m.messageId.value) else JNull)
            && Get(f, "date") == (if m.timestampS.Some? then JInt(m.timestampS.value) else JNull)
  {
    assert "text" != "message_id" && "text" != "date" && "chat" != "message_id" && "chat" != "date";
    assert "from" != "message_id" && "from" != "date";
  }

  /** Integer ids, as Telegram actually sends them, parse to their decimal text. */
  lemma IntegerIdsParseToDecimal(raw: map<string, Json>, n: int)
    requires Get(raw, "update_id") == JInt(n)
    ensures ParseUpdate(raw).updateId == Some(Numbers.IntToString(n))
  {
    assert Text.NoEdgeSpace(Numbers.IntToString(n));
  }
}
