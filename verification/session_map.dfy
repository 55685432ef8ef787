/** The default mapping from a Telegram chat to an orchestrator session id. */
module SessionMap {
  import opened Wrappers
  import Text
  import Contracts

  const Prefix: string := "telegram:"

  /** `"telegram:" + chat id` with the chat id trimmed; a blank chat id is rejected. */
  function TelegramSessionId(chatId: string): (r: Result<string, string>)
    ensures r.Ok? <==> !Text.IsBlank(chatId)
    ensures r.Ok? ==> r.value == Prefix + Text.Strip(chatId)
    ensures r.Err? ==> r.error == Contracts.Required("chat_id")
  {
    var value := Text.Strip(chatId);
    if value == "" then Err(Contracts.Required("chat_id")) else Ok(Prefix + value)
  }

  /** The session of an inbound message is the session of its chat; a validated
      message always has one. */
  function SessionIdForInbound(m: Contracts.InboundMessage): (r: Result<string, string>)
    ensures Contracts.ValidInbound(m) ==> r == Ok(Prefix + Text.Strip(m.chatId))
  {
    TelegramSessionId(m.chatId)
  }

  /** The chat part of a session id: inverse of TelegramSessionId on non-blank ids. */
  function ChatOfSession(sessionId: string): Option<string> {
    if Text.StartsWith(sessionId, Prefix) then Some(sessionId[|Prefix|..]) else None
  }

  lemma {:induction false} SessionIdRecoversChat(chatId: string)
    requires !Text.IsBlank(chatId)
    ensures ChatOfSession(TelegramSessionId(chatId).value) == Some(Text.Strip(chatId))
  {
    var s := Prefix + Text.Strip(chatId);
    assert s[..|Prefix|] == Prefix;
    assert s[|Prefix|..] == Text.Strip(chatId);
  }

  /** Two chat ids share a session exactly when they agree after trimming. */
  lemma SameSessionIffSameTrimmedChat(a: string, b: string)
    requires !Text.IsBlank(a) && !Text.IsBlank(b)
    ensures TelegramSessionId(a) == TelegramSessionId(b) <==> Text.Strip(a) == Text.Strip(b)
  {
    if TelegramSessionId(a) == TelegramSessionId(b) {
      SessionIdRecoversChat(a);
      SessionIdRecoversChat(b);
    }
  }

  /** Surrounding whitespace on a chat id does not change its session. */
  lemma SurroundingSpaceSameSession(pre: string, chatId: string, post: string)
    requires Text.AllSpace(pre) && Text.AllSpace(post)
    ensures TelegramSessionId(pre + chatId + post) == TelegramSessionId(chatId)
  {
    Text.StripIgnoresSurroundingSpace(pre, chatId, post);
  }
}
