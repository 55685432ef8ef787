/** A raised Python exception as the code observes it: the name of its type and
    its `str()`, and `_sanitize_exception`, which the channel service, the channel
    runtime, the codex orchestrator and the heartbeat runner share word for word. */
module Exceptions {
  import Text

  datatype Exc = Exc(typeName: string, message: string)

  /** The longest sanitised text. */
  const MaxSanitized := 500

  /** `f"{type(exc).__name__}: {exc}"`. */
  function Describe(e: Exc): string {
    e.typeName + ": " + e.message
  }

  /** `_sanitize_exception`: the description on one line, whitespace runs collapsed
      to single spaces, trimmed, and cut to at most 500 characters. */
  function Sanitize(e: Exc): (r: string)
    ensures |r| <= MaxSanitized
    // a single line: the only whitespace is single spaces, none leading
    ensures forall i :: 0 <= i < |r| && Text.IsSpace(r[i]) ==> r[i] == ' '
    ensures forall i :: 0 <= i < |r| - 1 ==> !(Text.IsSpace(r[i]) && Text.IsSpace(r[i + 1]))
    ensures |r| > 0 ==> !Text.IsSpace(r[0])
    // only the tail beyond the limit is lost
    ensures |r| <= |Text.CollapseWhitespace(Describe(e))| && r == Text.CollapseWhitespace(Describe(e))[..|r|]
    ensures |Text.CollapseWhitespace(Describe(e))| <= MaxSanitized ==> r == Text.CollapseWhitespace(Describe(e))
    ensures |Text.CollapseWhitespace(Describe(e))| > MaxSanitized ==> |r| == MaxSanitized
  {
    var compact := Text.CollapseWhitespace(Describe(e));
    if |compact| <= MaxSanitized then compact else compact[..MaxSanitized]
  }

  /** An exception whose description is already one compact line of at most 500
      characters is reported verbatim. */
  lemma SanitizeKeepsCompact(e: Exc)
    requires Text.Compact(Describe(e)) && |Describe(e)| <= MaxSanitized
    ensures Sanitize(e) == Describe(e)
  {
    Text.CollapseCompact(Describe(e));
  }
}
