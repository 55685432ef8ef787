/** The heartbeat acknowledgement contract: whether a responder's text is delivered, and
    what is left of it once the acknowledgement token is taken out. */
module HeartbeatNormalize {
  import opened Wrappers
  import Text

  const DefaultAckToken := "HEARTBEAT_OK"
  const DefaultAckMaxChars := 300

  datatype NormalizeResult = NormalizeResult(shouldDeliver: bool, text: string, reason: string)

  const Reasons := {"empty-response", "ack-only", "ack-short-remainder", "delivered"}

  function Skip(reason: string): NormalizeResult {
    NormalizeResult(false, "", reason)
  }

  /** The text with every occurrence of the token deleted, trimmed. */
  function Remainder(normalized: string, ackToken: string): string
    requires ackToken != ""
  {
    Text.Strip(Text.ReplaceAll(normalized, ackToken, ""))
  }

  /** `normalize_heartbeat_text`. */
  function NormalizeHeartbeatText(text: Option<string>, ackToken: string, ackMaxChars: int): (r: NormalizeResult)
    ensures r.reason in Reasons
    // delivered exactly when the reason says so, and only non-empty trimmed text
    ensures r.shouldDeliver <==> r.reason == "delivered"
    ensures !r.shouldDeliver ==> r.text == ""
    ensures r.shouldDeliver ==> r.text != "" && Text.NoEdgeSpace(r.text)
    // None, empty or whitespace-only text
    ensures (text.None? || Text.IsBlank(text.value)) <==> r.reason == "empty-response"
    // with the token present, the decision is on what remains without it
    ensures text.Some? && !Text.IsBlank(text.value) && ackToken != "" && Text.Contains(Text.Strip(text.value), ackToken) ==>
              var rest := Remainder(Text.Strip(text.value), ackToken);
              r == if rest == "" then Skip("ack-only")
                   else if |rest| <= ackMaxChars then Skip("ack-short-remainder")
                   else NormalizeResult(true, rest, "delivered")
    // without it, the trimmed text is delivered
    ensures text.Some? && !Text.IsBlank(text.value) && (ackToken == "" || !Text.Contains(Text.Strip(text.value), ackToken)) ==>
              r == NormalizeResult(true, Text.Strip(text.value), "delivered")
  {
    var normalized := Text.Strip(text.GetOr(""));
    if normalized == "" then Skip("empty-response")
    else if ackToken != "" && Text.Contains(normalized, ackToken) then
      var rest := Remainder(normalized, ackToken);
      if rest == "" then Skip("ack-only")
      else if |rest| <= ackMaxChars then Skip("ack-short-remainder")
      else NormalizeResult(true, rest, "delivered")
    else NormalizeResult(true, normalized, "delivered")
  }

  lemma {:induction false} ContainsSelf(t: string)
    ensures Text.Contains(t, t)
  {
    assert t[..|t|] == t;
  }

  lemma ReplaceSelf(t: string)
    requires t != ""
    ensures Text.ReplaceAll(t, t, "") == ""
  {
    assert t[..|t|] == t;
    assert t[|t|..] == [];
  }

  /** A response that is the token, surrounded by whitespace, is an acknowledgement only. */
  lemma AckOnly(a: string, token: string, b: string, ackMaxChars: int)
    requires Text.AllSpace(a) && Text.AllSpace(b)
    requires token != "" && Text.NoEdgeSpace(token)
    ensures NormalizeHeartbeatText(Some(a + token + b), token, ackMaxChars) == Skip("ack-only")
  {
    Text.StripIgnoresSurroundingSpace(a, token, b);
    assert Text.Strip(token) == token;
    ContainsSelf(token);
    ReplaceSelf(token);
    assert !Text.IsBlank(a + token + b) by {
      assert (a + token + b)[|a|] == token[0];
    }
  }

  /** A delivered text without the token is delivered unchanged when normalised again. */
  lemma DeliveredTokenFreeIsStable(text: Option<string>, ackToken: string, ackMaxChars: int)
    requires var r := NormalizeHeartbeatText(text, ackToken, ackMaxChars);
             r.shouldDeliver && (ackToken == "" || !Text.Contains(r.text, ackToken))
    ensures var r := NormalizeHeartbeatText(text, ackToken, ackMaxChars);
            NormalizeHeartbeatText(Some(r.text), ackToken, ackMaxChars) == r
  {
    var r := NormalizeHeartbeatText(text, ackToken, ackMaxChars);
    assert Text.Strip(r.text) == r.text;
  }

  /** The remainder the token leaves is never longer than the text, so a text of at most
      `ack_max_chars` characters that carries the token is never delivered. */
  lemma ShortTextWithTokenNeverDelivered(text: string, ackToken: string, ackMaxChars: int)
    requires ackToken != "" && Text.Contains(Text.Strip(text), ackToken) && |text| <= ackMaxChars
    ensures !NormalizeHeartbeatText(Some(text), ackToken, ackMaxChars).shouldDeliver
  {
    Text.ReplaceDeleteShortens(Text.Strip(text), ackToken);
  }
}
