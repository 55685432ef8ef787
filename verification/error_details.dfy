/** The runtime's structured error details: how one is built, and how a list of them
    is deduplicated by fingerprint. The diagnostic id is a digest of the fingerprint;
    the digest is a parameter. */
module ErrorDetails {
  import Text

  datatype Context = Context(updateId: string, chatId: string, sessionId: string, layer: string, operation: string)

  datatype Detail = Detail(
    code: string,
    message: string,
    retryable: bool,
    context: Context,
    source: string,
    category: string,
    diagnosticId: string)

  /** The fields that identify a detail. `retryable`, `source` and the id are not part of it. */
  datatype Fingerprint = Fingerprint(
    code: string, message: string, updateId: string, chatId: string,
    sessionId: string, layer: string, operation: string, category: string)

  function FingerprintOf(d: Detail): Fingerprint {
    Fingerprint(d.code, d.message, d.context.updateId, d.context.chatId,
                d.context.sessionId, d.context.layer, d.context.operation, d.category)
  }

  function FingerprintFields(f: Fingerprint): seq<string> {
    [f.code, f.message, f.updateId, f.chatId, f.sessionId, f.layer, f.operation, f.category]
  }

  /** `_build_error_detail`: every text field is stored trimmed, and the id is the digest
      of the fingerprint's fields. */
  function BuildDetail(
    code: string, message: string, retryable: bool, source: string, category: string,
    layer: string, operation: string, updateId: string, chatId: string, sessionId: string,
    digest: seq<string> -> string
  ): (d: Detail)
    ensures FingerprintOf(d) == Fingerprint(Text.Strip(code), Text.Strip(message), Text.Strip(updateId),
                                            Text.Strip(chatId), Text.Strip(sessionId), Text.Strip(layer),
                                            Text.Strip(operation), Text.Strip(category))
    ensures d.source == Text.Strip(source) && d.retryable == retryable
    ensures d.diagnosticId == digest(FingerprintFields(FingerprintOf(d)))
  {
    var context := Context(Text.Strip(updateId), Text.Strip(chatId), Text.Strip(sessionId),
                           Text.Strip(layer), Text.Strip(operation));
    var d := Detail(Text.Strip(code), Text.Strip(message), retryable, context, Text.Strip(source),
                    Text.Strip(category), "");
    d.(diagnosticId := digest(FingerprintFields(FingerprintOf(d))))
  }

  /** Details built from texts that differ only in surrounding whitespace share a
      fingerprint, so one of them is dropped by deduplication. */
  lemma BuildDetailIgnoresSurroundingSpace(
    a: string, b: string, code: string, message: string, retryable1: bool, retryable2: bool,
    source: string, category: string, layer: string, operation: string,
    updateId: string, chatId: string, sessionId: string, digest: seq<string> -> string)
    requires Text.AllSpace(a) && Text.AllSpace(b)
    ensures FingerprintOf(BuildDetail(a + code + b, message, retryable1, source, category, layer, operation,
                                      updateId, chatId, sessionId, digest))
         == FingerprintOf(BuildDetail(code, message, retryable2, source, category, layer, operation,
                                      updateId, chatId, sessionId, digest))
  {
    Text.StripIgnoresSurroundingSpace(a, code, b);
  }

  // ---------------------------------------------------------------------------
  // Subsequences
  // ---------------------------------------------------------------------------

  /** `a` is `b` with some elements removed, order kept. */
  predicate IsSubseq<T(==)>(a: seq<T>, b: seq<T>)
    decreases |b|
  {
    |a| == 0
    || (|b| > 0 &&
        if a[|a| - 1] == b[|b| - 1] then IsSubseq(a[..|a| - 1], b[..|b| - 1])
        else IsSubseq(a, b[..|b| - 1]))
  }

  lemma {:induction false} SubseqAppend<T>(a: seq<T>, b: seq<T>, x: T)
    requires IsSubseq(a, b)
    ensures IsSubseq(a, b + [x])
    decreases |b|, 1
  {
    var bx := b + [x];
    assert bx[..|bx| - 1] == b;
    if |a| > 0 && a[|a| - 1] == x {
      SubseqDropLast(a, b);
    }
  }

  lemma {:induction false} SubseqDropLast<T>(a: seq<T>, b: seq<T>)
    requires |a| > 0 && IsSubseq(a, b)
    ensures IsSubseq(a[..|a| - 1], b)
    decreases |b|, 0
  {
    var a' := a[..|a| - 1];
    var b' := b[..|b| - 1];
    assert b == b' + [b[|b| - 1]];
    if a[|a| - 1] == b[|b| - 1] {
      SubseqAppend(a', b', b[|b| - 1]);
    } else if |a'| > 0 {
      SubseqDropLast(a, b');
      SubseqAppend(a', b', b[|b| - 1]);
    }
  }

  // ---------------------------------------------------------------------------
  // Deduplication
  // ---------------------------------------------------------------------------

  function Fingerprints(ds: seq<Detail>): set<Fingerprint> {
    set k | 0 <= k < |ds| :: FingerprintOf(ds[k])
  }

  predicate DistinctFingerprints(ds: seq<Detail>) {
    forall i, j :: 0 <= i < j < |ds| ==> FingerprintOf(ds[i]) != FingerprintOf(ds[j])
  }

  lemma FingerprintsAppend(ds: seq<Detail>, d: Detail)
    ensures Fingerprints(ds + [d]) == Fingerprints(ds) + {FingerprintOf(d)}
  {
    var e := ds + [d];
    assert forall k :: 0 <= k < |ds| ==> e[k] == ds[k];
    assert e[|ds|] == d;
  }

  /** `_dedupe_error_details`: the first detail of each fingerprint, in input order. */
  function Dedupe(ds: seq<Detail>): (r: seq<Detail>)
    ensures Fingerprints(r) == Fingerprints(ds)
    ensures DistinctFingerprints(r)
    ensures IsSubseq(r, ds)
    decreases |ds|
  {
    if |ds| == 0 then []
    else
      var init := ds[..|ds| - 1];
      var d := ds[|ds| - 1];
      var prev := Dedupe(init);
      assert ds == init + [d];
      FingerprintsAppend(init, d);
      if FingerprintOf(d) in Fingerprints(prev) then
        SubseqAppend(prev, init, d);
        prev
      else
        FingerprintsAppend(prev, d);
        DistinctSnoc(prev, d);
        SubseqSnoc(prev, init, d);
        prev + [d]
  }

  lemma DistinctSnoc(ds: seq<Detail>, d: Detail)
    requires DistinctFingerprints(ds) && FingerprintOf(d) !in Fingerprints(ds)
    ensures DistinctFingerprints(ds + [d])
  {
    var e := ds + [d];
    forall i, j | 0 <= i < j < |e|
      ensures FingerprintOf(e[i]) != FingerprintOf(e[j])
    {
      if j == |ds| {
        assert FingerprintOf(ds[i]) in Fingerprints(ds);
      }
    }
  }

  lemma SubseqSnoc<T>(a: seq<T>, b: seq<T>, x: T)
    requires IsSubseq(a, b)
    ensures IsSubseq(a + [x], b + [x])
  {
    var ax := a + [x];
    var bx := b + [x];
    assert ax[..|ax| - 1] == a && bx[..|bx| - 1] == b;
  }

  /** The loop of `_dedupe_error_details`, with its `seen` set. */
  method DedupeErrorDetails(details: seq<Detail>) returns (unique: seq<Detail>)
    ensures unique == Dedupe(details)
    ensures DistinctFingerprints(unique) && IsSubseq(unique, details)
  {
    unique := [];
    var seen: set<Fingerprint> := {};
    var i := 0;
    while i < |details|
      invariant 0 <= i <= |details|
      invariant unique == Dedupe(details[..i])
      invariant seen == Fingerprints(unique)
    {
      var detail := details[i];
      assert details[..i + 1][..i] == details[..i];
      var fingerprint := FingerprintOf(detail);
      if fingerprint !in seen {
        FingerprintsAppend(unique, detail);
        seen := seen + {fingerprint};
        unique := unique + [detail];
      }
      i := i + 1;
    }
    assert details[..i] == details;
  }

  /** Deduplication only ever adds details at the end as the input grows. */
  lemma {:induction false} DedupePrefix(ds: seq<Detail>, n: nat)
    requires n <= |ds|
    ensures forall x :: x in Dedupe(ds[..n]) ==> x in Dedupe(ds)
    decreases |ds| - n
  {
    if n < |ds| {
      DedupePrefix(ds, n + 1);
      var next := ds[..n + 1];
      assert next[..|next| - 1] == ds[..n];
    } else {
      assert ds[..n] == ds;
    }
  }

  /** A detail whose fingerprint has not occurred earlier is kept; with distinct
      fingerprints in the result, it is the one kept for its fingerprint. */
  lemma {:induction false} FirstOccurrenceKept(ds: seq<Detail>, j: nat)
    requires j < |ds|
    requires forall k :: 0 <= k < j ==> FingerprintOf(ds[k]) != FingerprintOf(ds[j])
    ensures ds[j] in Dedupe(ds)
  {
    var prefix := ds[..j + 1];
    var init := prefix[..j];
    assert init == ds[..j];
    assert FingerprintOf(ds[j]) !in Fingerprints(init);
    assert prefix[|prefix| - 1] == ds[j];
    assert ds[j] in Dedupe(prefix);
    DedupePrefix(ds, j + 1);
  }

  /** A list with distinct fingerprints is left as it is. */
  lemma {:induction false} DedupeDistinct(ds: seq<Detail>)
    requires DistinctFingerprints(ds)
    ensures Dedupe(ds) == ds
    decreases |ds|
  {
    if |ds| > 0 {
      var init := ds[..|ds| - 1];
      var d := ds[|ds| - 1];
      DedupeDistinct(init);
      assert FingerprintOf(d) !in Fingerprints(init);
      assert ds == init + [d];
    }
  }

  /** Deduplicating twice is deduplicating once. */
  lemma DedupeIdempotent(ds: seq<Detail>)
    ensures Dedupe(Dedupe(ds)) == Dedupe(ds)
  {
    DedupeDistinct(Dedupe(ds));
  }
}
