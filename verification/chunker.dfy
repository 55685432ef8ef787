/** The memory index's line chunker, which cuts a file's lines into overlapping chunks
    under a token budget, and the stale-path query run before a sync. */
module MemoryIndex {
  import Text

  /** A chunk row: 1-based inclusive line range and the text of those lines. */
  datatype Chunk = Chunk(startLine: int, endLine: int, text: string)

  /** `text.splitlines()` for "\n" line ends: no lines for empty text, and a final
      newline does not open another line. */
  function Lines(text: string): (lines: seq<string>)
    ensures text == "" ==> lines == []
    ensures forall k :: 0 <= k < |lines| ==> '\n' !in lines[k]
  {
    var parts := Text.SplitOn(text, '\n');
    if parts[|parts| - 1] == "" then parts[..|parts| - 1] else parts
  }

  /** The lines joined back with newlines give the text, less the final newline if
      it has one. */
  lemma LinesJoin(text: string)
    ensures var j := Text.Join('\n', Lines(text));
            if |text| > 0 && text[|text| - 1] == '\n' then j + "\n" == text else j == text
  {
    var parts := Text.SplitOn(text, '\n');
    Text.JoinSplit(text, '\n');
    if parts[|parts| - 1] == "" {
      assert parts == parts[..|parts| - 1] + [""];
      DropEmptyLast(text, parts[..|parts| - 1]);
    } else {
      KeepLast(text, parts);
    }
  }

  /** A split whose last part is empty comes from empty text or text ending in a newline. */
  lemma DropEmptyLast(text: string, init: seq<string>)
    requires Text.Join('\n', init + [""]) == text
    ensures var j := Text.Join('\n', init);
            if |text| > 0 && text[|text| - 1] == '\n' then j + "\n" == text else j == text
  {
    if init == [] {
      assert init + [""] == [""];
    } else {
      Text.JoinSnoc('\n', init, "");
    }
  }

  /** A split whose last part is a non-empty line comes from text not ending in a newline. */
  lemma KeepLast(text: string, parts: seq<string>)
    requires |parts| > 0 && parts[|parts| - 1] != "" && Text.Join('\n', parts) == text
    requires forall k :: 0 <= k < |parts| ==> '\n' !in parts[k]
    ensures |text| > 0 && text[|text| - 1] != '\n'
  {
    Text.JoinLast('\n', parts);
    var last := parts[|parts| - 1];
    assert last[|last| - 1] in last;
  }

  /** A line's token count: its whitespace-separated words, at least one. */
  function TokenCount(line: string): (n: nat)
    ensures n >= 1 && n >= |Text.SplitWhitespace(line)|
  {
    var words := |Text.SplitWhitespace(line)|;
    if words < 1 then 1 else words
  }

  function Tokens(lines: seq<string>): (t: seq<int>)
    ensures |t| == |lines|
    ensures forall k :: 0 <= k < |t| ==> t[k] == TokenCount(lines[k]) && t[k] >= 1
  {
    seq(|lines|, k requires 0 <= k < |lines| => TokenCount(lines[k]))
  }

  /** The tokens of lines `a` up to but not including `b` (0-based). */
  function Sum(t: seq<int>, a: int, b: int): int
    requires 0 <= a <= b <= |t|
    decreases b - a
  {
    if a == b then 0 else Sum(t, a, b - 1) + t[b - 1]
  }

  /** Taking one more line at the front of a range. */
  lemma {:induction false} SumFront(t: seq<int>, a: int, b: int)
    requires 0 <= a < b <= |t|
    ensures Sum(t, a, b) == t[a] + Sum(t, a + 1, b)
    decreases b - a
  {
    if a + 1 < b {
      SumFront(t, a, b - 1);
    }
  }

  /** A chunk starting at 0-based line `start` ends (exclusive) at `end`: it has reached
      the budget or the end of the text, and had not reached the budget one line
      earlier; always one line at least. */
  predicate EndOK(t: seq<int>, start: int, budget: int, end: int) {
    && 0 <= start < end <= |t|
    && (end == |t| || Sum(t, start, end) >= budget)
    && (end == start + 1 || Sum(t, start, end - 1) < budget)
  }

  predicate Positive(t: seq<int>) {
    forall k :: 0 <= k < |t| ==> t[k] >= 1
  }

  /** With positive counts a longer range holds more tokens. */
  lemma {:induction false} SumGrows(t: seq<int>, a: int, b: int, c: int)
    requires Positive(t) && 0 <= a <= b <= c <= |t|
    ensures Sum(t, a, b) + (c - b) <= Sum(t, a, c)
    decreases c - b
  {
    if b < c {
      SumGrows(t, a, b, c - 1);
    }
  }

  /** So the end a chunk takes is the first line at which its tokens reach the budget:
      every shorter chunk stays below it. */
  lemma EndIsFirst(t: seq<int>, start: int, budget: int, end: int)
    requires Positive(t) && EndOK(t, start, budget, end)
    ensures forall e :: start < e < end ==> Sum(t, start, e) < budget
  {
    forall e | start < e < end
      ensures Sum(t, start, e) < budget
    {
      SumGrows(t, start, e, end - 1);
    }
  }

  /** The chunk after the one over lines [start, end) starts at `next`: backed up over
      trailing lines until their tokens reach the overlap, or right after the chunk when
      backing up would reach its start. */
  predicate NextOK(t: seq<int>, start: int, end: int, overlap: int, next: int)
    requires 0 <= start < end <= |t|
  {
    || (next == end && (overlap <= 0 || Sum(t, start + 1, end) < overlap))
    || (start < next < end && Sum(t, next, end) >= overlap && Sum(t, next + 1, end) < overlap)
  }

  predicate ChunkOK(lines: seq<string>, t: seq<int>, budget: int, c: Chunk)
    requires |t| == |lines|
  {
    && 1 <= c.startLine <= c.endLine <= |lines|
    && EndOK(t, c.startLine - 1, budget, c.endLine)
    && c.text == Text.Join('\n', lines[c.startLine - 1..c.endLine])
  }

  /** Consecutive chunks are linked by the overlap rule. */
  predicate Linked(t: seq<int>, overlap: int, c: Chunk, d: Chunk)
    requires 1 <= c.startLine <= c.endLine <= |t|
  {
    c.endLine < |t| && NextOK(t, c.startLine - 1, c.endLine, overlap, d.startLine - 1)
  }

  /** The inner loop of `_chunk_text` that takes lines until the budget is reached. */
  method ChunkEnd(t: seq<int>, start: int, budget: int) returns (end: int)
    requires 0 <= start < |t|
    ensures EndOK(t, start, budget, end)
  {
    var total := 0;
    end := start;
    while end < |t| && (total < budget || end == start)
      invariant start <= end <= |t|
      invariant total == Sum(t, start, end)
      invariant end <= start + 1 || Sum(t, start, end - 1) < budget
      decreases |t| - end
    {
      total := total + t[end];
      end := end + 1;
    }
  }

  /** The inner loop of `_chunk_text` that backs up over the overlap. */
  method NextStart(t: seq<int>, start: int, end: int, overlap: int) returns (next: int)
    requires 0 <= start < end <= |t|
    ensures NextOK(t, start, end, overlap, next) && start < next <= end
  {
    var back := 0;
    var at := end;
    while at > start && back < overlap
      invariant start <= at <= end
      invariant back == Sum(t, at, end)
      invariant at == end || Sum(t, at + 1, end) < overlap
      decreases at
    {
      at := at - 1;
      SumFront(t, at, end);
      back := back + t[at];
    }
    next := if at <= start then end else at;
  }

  /** What `_chunk_text` promises of the chunks of `lines`, whose token counts are `t`. */
  predicate Chunking(lines: seq<string>, t: seq<int>, budget: int, overlap: int, chunks: seq<Chunk>)
    requires |t| == |lines|
  {
    && (lines == [] ==> chunks == [])
    && (lines != [] ==> chunks != [] && chunks[0].startLine == 1 && chunks[|chunks| - 1].endLine == |lines|)
    && |chunks| <= |lines|
    && WellChunked(lines, t, budget, overlap, chunks)
  }

  /** Every chunk respects the budget and carries its lines' text, and neighbouring
      chunks are linked by the overlap rule and move forward. */
  predicate WellChunked(lines: seq<string>, t: seq<int>, budget: int, overlap: int, chunks: seq<Chunk>)
    requires |t| == |lines|
  {
    && (forall k :: 0 <= k < |chunks| ==> ChunkOK(lines, t, budget, chunks[k]))
    && (forall k :: 0 <= k < |chunks| - 1 ==> Linked(t, overlap, chunks[k], chunks[k + 1]))
    && (forall k :: 0 <= k < |chunks| - 1 ==>
          chunks[k].startLine < chunks[k + 1].startLine <= chunks[k].endLine + 1)
  }

  /** Appending a chunk that follows the last one keeps the chunks well formed. */
  lemma WellChunkedSnoc(lines: seq<string>, t: seq<int>, budget: int, overlap: int, chunks: seq<Chunk>, c: Chunk)
    requires |t| == |lines| && WellChunked(lines, t, budget, overlap, chunks) && ChunkOK(lines, t, budget, c)
    requires chunks != [] ==>
               && Linked(t, overlap, chunks[|chunks| - 1], c)
               && chunks[|chunks| - 1].startLine < c.startLine <= chunks[|chunks| - 1].endLine + 1
    ensures WellChunked(lines, t, budget, overlap, chunks + [c])
  {
    var all := chunks + [c];
    forall k | 0 <= k < |all|
      ensures ChunkOK(lines, t, budget, all[k])
    {
      if k < |chunks| {
        assert all[k] == chunks[k];
      }
    }
    forall k | 0 <= k < |all| - 1
      ensures Linked(t, overlap, all[k], all[k + 1])
      ensures all[k].startLine < all[k + 1].startLine <= all[k].endLine + 1
    {
      if k < |chunks| - 1 {
        assert all[k] == chunks[k] && all[k + 1] == chunks[k + 1];
      } else {
        assert all[k] == chunks[|chunks| - 1] && all[k + 1] == c;
      }
    }
  }

  /** The loop of `_chunk_text` over lines whose token counts are given. */
  method ChunkLines(lines: seq<string>, t: seq<int>, budget: int, overlap: int) returns (chunks: seq<Chunk>)
    requires |t| == |lines|
    ensures Chunking(lines, t, budget, overlap, chunks)
  {
    chunks := [];
    var n := |lines|;
    if n == 0 {
      return;
    }
    var i := 0;
    while i < n
      invariant 0 <= i <= n && |chunks| <= i
      invariant i == 0 <==> chunks == []
      invariant chunks != [] ==> chunks[0].startLine == 1
      invariant WellChunked(lines, t, budget, overlap, chunks)
      invariant chunks != [] && i < n ==>
                  var c := chunks[|chunks| - 1];
                  c.endLine < n && NextOK(t, c.startLine - 1, c.endLine, overlap, i)
                  && c.startLine - 1 < i <= c.endLine
      invariant chunks != [] && i == n ==> chunks[|chunks| - 1].endLine == n
      decreases n - i
    {
      var end := ChunkEnd(t, i, budget);
      var c := Chunk(i + 1, end, Text.Join('\n', lines[i..end]));
      assert ChunkOK(lines, t, budget, c);
      WellChunkedSnoc(lines, t, budget, overlap, chunks, c);
      chunks := chunks + [c];
      if end >= n {
        i := n;
      } else {
        i := NextStart(t, i, end, overlap);
      }
    }
  }

  /** `_chunk_text`: the lines of the text, each counted as its words and at least one
      token, cut into chunks. */
  method ChunkText(text: string, chunkTokens: int, chunkOverlap: int) returns (chunks: seq<Chunk>)
    ensures var lines := Lines(text);
            Chunking(lines, Tokens(lines), chunkTokens, chunkOverlap, chunks)
  {
    var lines := Lines(text);
    chunks := ChunkLines(lines, Tokens(lines), chunkTokens, chunkOverlap);
  }

  /** Chunks that start at the first line, end at the last, and each start no later than
      one past the previous end, cover every line. */
  lemma {:induction false} ChunksCoverEveryLine(chunks: seq<Chunk>, first: int, last: int, line: int)
    requires chunks != [] && chunks[0].startLine == first && chunks[|chunks| - 1].endLine == last
    requires forall k :: 0 <= k < |chunks| ==> chunks[k].startLine <= chunks[k].endLine
    requires forall k :: 0 <= k < |chunks| - 1 ==> chunks[k + 1].startLine <= chunks[k].endLine + 1
    requires first <= line <= last
    ensures exists k :: 0 <= k < |chunks| && chunks[k].startLine <= line <= chunks[k].endLine
    decreases |chunks|
  {
    var m := |chunks| - 1;
    if chunks[m].startLine <= line {
      assert chunks[m].startLine <= line <= chunks[m].endLine;
    } else {
      var init := chunks[..m];
      assert chunks[m].startLine <= chunks[m - 1].endLine + 1;
      ChunksCoverEveryLine(init, first, chunks[m - 1].endLine, line);
      var k :| 0 <= k < |init| && init[k].startLine <= line <= init[k].endLine;
      assert chunks[k] == init[k];
    }
  }

  /** Every line of the text is in some chunk. */
  lemma ChunkingCoversEveryLine(lines: seq<string>, t: seq<int>, budget: int, overlap: int,
                                chunks: seq<Chunk>, line: int)
    requires |t| == |lines| && Chunking(lines, t, budget, overlap, chunks)
    requires 1 <= line <= |lines|
    ensures exists k :: 0 <= k < |chunks| && chunks[k].startLine <= line <= chunks[k].endLine
  {
    assert forall k :: 0 <= k < |chunks| ==> chunks[k].startLine <= chunks[k].endLine by {
      forall k | 0 <= k < |chunks| ensures chunks[k].startLine <= chunks[k].endLine {
        assert ChunkOK(lines, t, budget, chunks[k]);
      }
    }
    ChunksCoverEveryLine(chunks, 1, |lines|, line);
  }

  /** `_get_stale_paths`: the indexed paths no longer in the active manifest, sorted. */
  function StalePaths(indexed: set<string>, active: set<string>): (r: seq<string>)
    ensures Text.SortedStrict(r)
    ensures forall p :: p in r <==> p in indexed && p !in active
    ensures |r| == |indexed - active|
  {
    Text.SortSet(indexed - active)
  }
}
