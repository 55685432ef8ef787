/** The provider-agnostic message records exchanged between a channel adapter and an
    orchestrator, with the field validation their constructors perform. */
module Contracts {
  import opened Wrappers
  import Text

  /** One inbound chat message. Optional fields are never validated. */
  datatype InboundMessage = InboundMessage(
    updateId: string,
    chatId: string,
    userId: string,
    text: string,
    messageId: Option<string>,
    timestampS: Option<int>,
    metadata: map<string, string>)

  /** One reply to send. */
  datatype OutboundMessage = OutboundMessage(
    chatId: string,
    text: string,
    replyToMessageId: Option<string>,
    metadata: map<string, string>)

  /** The message of the ContractValidationError raised for a blank field. */
  function Required(field: string): string {
    field + " must be a non-empty string"
  }

  predicate ValidInbound(m: InboundMessage) {
    !Text.IsBlank(m.updateId) && !Text.IsBlank(m.chatId) && !Text.IsBlank(m.userId)
    && !Text.IsBlank(m.text)
  }

  predicate ValidOutbound(m: OutboundMessage) {
    !Text.IsBlank(m.chatId) && !Text.IsBlank(m.text)
  }

  /** Constructing an InboundMessage: the four required fields are checked in order,
      the first blank one is reported, and the fields are stored as given. */
  function NewInbound(
    updateId: string, chatId: string, userId: string, text: string,
    messageId: Option<string>, timestampS: Option<int>, metadata: map<string, string>
  ): (r: Result<InboundMessage, string>)
    ensures r.Ok? ==> ValidInbound(r.value)
    ensures r.Ok? ==> r.value == InboundMessage(updateId, chatId, userId, text, messageId, timestampS, metadata)
    ensures Text.IsBlank(updateId) ==> r == Err(Required("update_id"))
    ensures !Text.IsBlank(updateId) && Text.IsBlank(chatId) ==> r == Err(Required("chat_id"))
    ensures (!Text.IsBlank(updateId) && !Text.IsBlank(chatId) && Text.IsBlank(userId))
            ==> r == Err(Required("user_id"))
    ensures (!Text.IsBlank(updateId) && !Text.IsBlank(chatId) && !Text.IsBlank(userId)
             && Text.IsBlank(text)) ==> r == Err(Required("text"))
  {
    if Text.IsBlank(updateId) then Err(Required("update_id"))
    else if Text.IsBlank(chatId) then Err(Required("chat_id"))
    else if Text.IsBlank(userId) then Err(Required("user_id"))
    else if Text.IsBlank(text) then Err(Required("text"))
    else Ok(InboundMessage(updateId, chatId, userId, text, messageId, timestampS, metadata))
  }

  /** Constructing an OutboundMessage: chat id, then text, must be non-blank. */
  function NewOutbound(chatId: string, text: string, replyTo: Option<string>, metadata: map<string, string>)
    : (r: Result<OutboundMessage, string>)
    ensures r.Ok? ==> ValidOutbound(r.value)
    ensures r.Ok? ==> r.value == OutboundMessage(chatId, text, replyTo, metadata)
    ensures Text.IsBlank(chatId) ==> r == Err(Required("chat_id"))
    ensures !Text.IsBlank(chatId) && Text.IsBlank(text) ==> r == Err(Required("text"))
  {
    if Text.IsBlank(chatId) then Err(Required("chat_id"))
    else if Text.IsBlank(text) then Err(Required("text"))
    else Ok(OutboundMessage(chatId, text, replyTo, metadata))
  }

  /** Construction accepts exactly the valid records and rebuilds them unchanged. */
  lemma NewInboundAcceptsValid(m: InboundMessage)
    ensures NewInbound(m.updateId, m.chatId, m.userId, m.text, m.messageId, m.timestampS, m.metadata)
            == (if ValidInbound(m) then Ok(m) else
                  Err(Required(
                    if Text.IsBlank(m.updateId) then "update_id"
                    else if Text.IsBlank(m.chatId) then "chat_id"
                    else if Text.IsBlank(m.userId) then "user_id"
                    else "text")))
  {
  }

  lemma NewOutboundAcceptsValid(m: OutboundMessage)
    ensures NewOutbound(m.chatId, m.text, m.replyToMessageId, m.metadata).Ok? <==> ValidOutbound(m)
    ensures ValidOutbound(m) ==> NewOutbound(m.chatId, m.text, m.replyToMessageId, m.metadata) == Ok(m)
  {
  }
}
