/** The memory tools an agent calls: a bounded full-text search over the local index,
    and a line-sliced read of one allowed markdown file. The index, the filesystem and
    path resolution are inputs. */
module MemoryApi {
  import opened Wrappers
  import Text
  import opened JsonValue
  import opened MemoryPaths

  /** The exception a tool call raises. */
  datatype ApiError = TypeError(message: string) | ValueError(message: string)

  // ---------------------------------------------------------------------------
  // memory_search
  // ---------------------------------------------------------------------------

  const SearchWarning := "Memory search is unavailable due to local index unavailability."
  const SearchAction := "Rebuild local memory index and retry memory_search."
  const UnavailablePrefix := "memory index unavailable: "
  const DefaultMaxResults := 10
  const MaxMaxResults := 50

  /** The search answer: either the rows with the fixed provider description, or the
      unavailable contract (no results, disabled and unavailable set). */
  datatype SearchReply =
    | Unavailable(error: string, warning: string, action: string)
    | Rows(results: seq<Json>, provider: string, model: string, citations: string, mode: string)

  /** The index as the search sees it: whether it is usable (and why not), and what a
      search with a query and bounds returns or the message it fails with. */
  datatype Index = Index(available: bool, reason: string, search: (string, int, real) -> Result<seq<Json>, string>)

  /** The unavailable answer for a reason. */
  function UnavailableReply(reason: string): (r: SearchReply)
    ensures r.Unavailable? && r.error == UnavailablePrefix + reason
    ensures r.warning == SearchWarning && r.action == SearchAction
  {
    Unavailable(UnavailablePrefix + reason, SearchWarning, SearchAction)
  }

  /** `memory_search`: a blank query, more than 50 or fewer than 1 results, or a minimum
      score outside [0, 1] are refused in that order; then an unusable index or a failing
      search gives the unavailable answer, and a working one gives its rows. */
  function MemorySearch(query: Option<string>, maxResults: Option<int>, minScore: Option<real>, index: Index)
    : (r: Result<SearchReply, ApiError>)
    ensures var q := Text.Strip(query.GetOr(""));
            var max := maxResults.GetOr(DefaultMaxResults);
            var min := minScore.GetOr(0.0);
            && (r.Err? <==> q == "" || max < 1 || max > MaxMaxResults || min < 0.0 || min > 1.0)
            && (q == "" ==> r == Err(ValueError("query must be a non-empty string")))
            && (q != "" && (max < 1 || max > MaxMaxResults) ==>
                  r == Err(ValueError("maxResults must be between 1 and 50")))
            && (q != "" && 1 <= max <= MaxMaxResults && (min < 0.0 || min > 1.0) ==>
                  r == Err(ValueError("minScore must be between 0 and 1")))
            && (r.Ok? && !index.available ==> r.value == UnavailableReply(index.reason))
            && (r.Ok? && index.available ==>
                  match index.search(q, max, min)
                  case Err(e) => r.value == UnavailableReply(e)
                  case Ok(rows) => r.value == Rows(rows, "builtin", "", "off", "fts-only"))
  {
    var q := Text.Strip(query.GetOr(""));
    if q == "" then Err(ValueError("query must be a non-empty string"))
    else
      var max := maxResults.GetOr(DefaultMaxResults);
      var min := minScore.GetOr(0.0);
      if max < 1 || max > MaxMaxResults then Err(ValueError("maxResults must be between 1 and 50"))
      else if min < 0.0 || min > 1.0 then Err(ValueError("minScore must be between 0 and 1"))
      else if !index.available then Ok(UnavailableReply(index.reason))
      else match index.search(q, max, min)
        case Err(e) => Ok(UnavailableReply(e))
        case Ok(rows) => Ok(Rows(rows, "builtin", "", "off", "fts-only"))
  }

  /** Leaving out the bounds is the same as asking for 10 results with no minimum score. */
  lemma SearchDefaults(query: Option<string>, index: Index)
    ensures MemorySearch(query, None, None, index) == MemorySearch(query, Some(10), Some(0.0), index)
  {
  }

  /** Whitespace around the query changes nothing: the same answer or the same refusal. */
  lemma SearchIgnoresSurroundingSpace(a: string, q: string, b: string, maxResults: Option<int>,
                                      minScore: Option<real>, index: Index)
    requires Text.AllSpace(a) && Text.AllSpace(b)
    ensures MemorySearch(Some(a + q + b), maxResults, minScore, index) == MemorySearch(Some(q), maxResults, minScore, index)
  {
    Text.StripIgnoresSurroundingSpace(a, q, b);
  }

  /** A search never answers with rows the index did not give. */
  lemma SearchRowsComeFromIndex(query: Option<string>, maxResults: Option<int>, minScore: Option<real>, index: Index)
    requires MemorySearch(query, maxResults, minScore, index).Ok?
    requires MemorySearch(query, maxResults, minScore, index).value.Rows?
    ensures index.available
    ensures var rows := MemorySearch(query, maxResults, minScore, index).value.results;
            index.search(Text.Strip(query.GetOr("")), maxResults.GetOr(10), minScore.GetOr(0.0)) == Ok(rows)
  {
  }

  // ---------------------------------------------------------------------------
  // Lines kept with their endings
  // ---------------------------------------------------------------------------

  /** The pieces glued back together. */
  function Concat(parts: seq<string>): (s: string)
    decreases |parts|
  {
    if parts == [] then "" else parts[0] + Concat(parts[1..])
  }

  lemma {:induction false} ConcatAppend(a: seq<string>, b: seq<string>)
    ensures Concat(a + b) == Concat(a) + Concat(b)
    decreases |a|
  {
    if a == [] {
      assert a + b == b;
    } else {
      assert (a + b)[0] == a[0] && (a + b)[1..] == a[1..] + b;
      ConcatAppend(a[1..], b);
    }
  }

  /** One line: non-empty, with a line feed at most at its end. */
  predicate IsLine(line: string) {
    line != "" && forall k :: 0 <= k < |line| - 1 ==> line[k] != '\n'
  }

  /** Lines as `splitlines(keepends=True)` gives them: each one a line, and every one
      but the last ending with its line feed. */
  predicate WellSplit(lines: seq<string>) {
    && (forall i :: 0 <= i < |lines| ==> IsLine(lines[i]))
    && (forall i :: 0 <= i < |lines| - 1 ==> lines[i][|lines[i]| - 1] == '\n')
  }

  lemma WellSplitCons(line: string, rest: seq<string>)
    requires IsLine(line) && line[|line| - 1] == '\n' && WellSplit(rest)
    ensures WellSplit([line] + rest)
  {
    var r := [line] + rest;
    forall i | 0 < i < |r| ensures r[i] == rest[i - 1] { }
  }

  /** The line up to and including the first line feed. */
  lemma FirstLine(text: string, head: string)
    requires head == Before(text, '\n') && |head| < |text|
    ensures IsLine(text[..|head| + 1]) && text[|head|] == '\n'
  {
    var line := text[..|head| + 1];
    forall k | 0 <= k < |line| - 1 ensures line[k] != '\n' {
      assert line[k] == head[k];
    }
  }

  /** `text.splitlines(keepends=True)` for line-feed endings: joining the lines gives
      the text back. */
  function SplitLinesKeepEnds(text: string): (lines: seq<string>)
    ensures Concat(lines) == text
    ensures WellSplit(lines)
    decreases |text|
  {
    if text == "" then []
    else
      var head := Before(text, '\n');
      if |head| == |text| then [text]
      else
        var line := text[..|head| + 1];
        FirstLine(text, head);
        var rest := SplitLinesKeepEnds(text[|head| + 1..]);
        WellSplitCons(line, rest);
        assert line + text[|head| + 1..] == text;
        var r := [line] + rest;
        assert r[0] == line && r[1..] == rest;
        r
  }

  /** The slice of lines `begin..end` is the stretch of the text those lines cover. */
  lemma SliceIsSubstring(lines: seq<string>, begin: nat, end: nat)
    requires begin <= end <= |lines|
    ensures var lo := |Concat(lines[..begin])|;
            var hi := |Concat(lines[..end])|;
            && lo <= hi <= |Concat(lines)|
            && Concat(lines[begin..end]) == Concat(lines)[lo..hi]
  {
    assert lines[..end] == lines[..begin] + lines[begin..end];
    assert lines == lines[..end] + lines[end..];
    ConcatAppend(lines[..begin], lines[begin..end]);
    ConcatAppend(lines[..end], lines[end..]);
  }

  // ---------------------------------------------------------------------------
  // memory_get
  // ---------------------------------------------------------------------------

  const MaxLines := 2000

  /** What reading the file at a target path gives. */
  datatype FileRead = Missing | ReadFailed(reason: string) | Contents(text: string)

  /** The answer of a read: the path as checked, the text, and an error (which the
      source reports together with `disabled`). */
  datatype GetReply = GetReply(path: string, text: string, error: Option<string>)

  /** The extra keyword arguments left after "from" was taken as `from_`. */
  function ExtraKeywords(from: Option<int>, kwargs: map<string, Option<int>>): (r: (Option<int>, set<string>))
    ensures from.Some? ==> r == (from, kwargs.Keys)
    ensures from.None? && "from" in kwargs ==> r == (kwargs["from"], kwargs.Keys - {"from"})
    ensures from.None? && "from" !in kwargs ==> r == (None, kwargs.Keys)
  {
    if from.None? && "from" in kwargs then (kwargs["from"], kwargs.Keys - {"from"}) else (from, kwargs.Keys)
  }

  /** Strings joined with a separator. */
  function JoinWith(sep: string, parts: seq<string>): (r: string)
    ensures parts == [] ==> r == ""
    ensures |parts| == 1 ==> r == parts[0]
    decreases |parts|
  {
    if parts == [] then "" else if |parts| == 1 then parts[0] else parts[0] + sep + JoinWith(sep, parts[1..])
  }

  /** Where a slice of `count` lines (all when absent) from `begin` stops in `n` lines. */
  function SliceEnd(n: nat, begin: nat, count: Option<int>): (end: nat)
    requires begin <= n
    ensures begin <= end <= n
    ensures count.None? ==> end == n
    ensures count.Some? && count.value >= 0 ==> end == if begin + count.value > n then n else begin + count.value
  {
    if count.None? || begin + count.value > n then n
    else if count.value < 0 then begin
    else begin + count.value
  }

  /** The lines from `begin` (0-based) on, `count` of them at most, glued together;
      nothing when `begin` is past the last line. */
  function TakeLines(items: seq<string>, begin: nat, count: Option<int>): string
  {
    if begin >= |items| then "" else Concat(items[begin..SliceEnd(|items|, begin, count)])
  }

  /** Why a start and a count of lines are refused: a start below 1, then a count
      below 1, then a count above 2000. */
  function SliceArgsError(from: Option<int>, lines: Option<int>): (e: Option<ApiError>)
    ensures var start := from.GetOr(1);
            && (start < 1 ==> e == Some(ValueError("from must be >= 1")))
            && (start >= 1 && lines.Some? && lines.value < 1 ==> e == Some(ValueError("lines must be >= 1")))
            && (start >= 1 && lines.Some? && lines.value > MaxLines ==> e == Some(ValueError("lines must be <= 2000")))
            && (e.None? <==> start >= 1 && (lines.Some? ==> 1 <= lines.value <= MaxLines))
  {
    if from.GetOr(1) < 1 then Some(ValueError("from must be >= 1"))
    else if lines.Some? && lines.value < 1 then Some(ValueError("lines must be >= 1"))
    else if lines.Some? && lines.value > MaxLines then Some(ValueError("lines must be <= 2000"))
    else None
  }

  /** Lines `from_`..`from_ + lines - 1` of the split lines `items`, as numbered from 1;
      all lines from `from_` when `lines` is absent, and nothing past the end. A start
      below 1 and a count outside 1..2000 are refused. */
  function SliceItems(items: seq<string>, from: Option<int>, lines: Option<int>): (r: Result<string, ApiError>)
    ensures r.Err? <==> SliceArgsError(from, lines).Some?
    ensures r.Err? ==> r.error == SliceArgsError(from, lines).value
    ensures r.Ok? ==> r.value == TakeLines(items, from.GetOr(1) - 1, lines)
  {
    match SliceArgsError(from, lines)
    case Some(e) => Err(e)
    case None => Ok(TakeLines(items, from.GetOr(1) - 1, lines))
  }

  /** The lines `from_`..`from_ + lines - 1` of a text, endings kept. */
  function SliceLines(text: string, from: Option<int>, lines: Option<int>): Result<string, ApiError>
  {
    SliceItems(SplitLinesKeepEnds(text), from, lines)
  }

  /** What reading a checked path gives: the deny answer, the empty text of a missing
      file, the read failure, or the text (sliced when lines were asked for). */
  function ReadChecked(check: PathCheck, requested: string, read: string -> FileRead, from: Option<int>,
                       lines: Option<int>): (r: Result<GetReply, ApiError>)
    // a denied path reads nothing, and is reported as checked or else as requested
    ensures !check.allowed ==>
              r == Ok(GetReply(if check.normalized != "" then check.normalized else requested, "", Some(DenyError)))
    // an allowed path is reported as checked
    ensures check.allowed && r.Ok? ==> r.value.path == check.normalized
    ensures check.allowed && check.target.Some? ==>
              match read(check.target.value)
              case Missing => r == Ok(GetReply(check.normalized, "", None))
              case ReadFailed(reason) => r == Ok(GetReply(check.normalized, "", Some("read failed: " + reason)))
              case Contents(text) =>
                && (from.None? && lines.None? ==> r == Ok(GetReply(check.normalized, text, None)))
                && (from.Some? || lines.Some? ==>
                      (r.Err? <==> SliceLines(text, from, lines).Err?)
                      && (r.Err? ==> r.error == SliceLines(text, from, lines).error)
                      && (r.Ok? ==> r.value.text == SliceLines(text, from, lines).value && r.value.error.None?))
    ensures check.allowed && check.target.None? ==> r == Ok(GetReply(check.normalized, "", Some(DenyError)))
    // a value error only for an allowed, readable file asked for by lines
    ensures r.Err? ==> r.error.ValueError? && check.allowed && check.target.Some?
                       && read(check.target.value).Contents? && (from.Some? || lines.Some?)
  {
    var normalized := if check.normalized != "" then check.normalized else requested;
    if !check.allowed then Ok(GetReply(normalized, "", Some(DenyError)))
    else match check.target
      case None => Ok(GetReply(check.normalized, "", Some(DenyError)))
      case Some(target) =>
        match read(target)
        case Missing => Ok(GetReply(check.normalized, "", None))
        case ReadFailed(reason) => Ok(GetReply(check.normalized, "", Some("read failed: " + reason)))
        case Contents(text) =>
          if from.None? && lines.None? then Ok(GetReply(check.normalized, text, None))
          else match SliceLines(text, from, lines)
            case Err(e) => Err(e)
            case Ok(sliced) => Ok(GetReply(check.normalized, sliced, None))
  }

  /** `memory_get`. The roots come from the workspace and extra roots as
      `normalize_source_roots` builds them; `safe` is the filesystem's part of the path
      check and `read` reads a target. */
  function MemoryGet(workspace: string, sourceRoots: seq<string>, resolve: string -> string, safe: FsSafe,
                     read: string -> FileRead, path: string, from: Option<int>, lines: Option<int>,
                     kwargs: map<string, Option<int>>): (r: Result<GetReply, ApiError>)
    // unknown keywords are refused before anything else
    ensures var (_, extra) := ExtraKeywords(from, kwargs);
            && (extra != {} <==> r.Err? && r.error.TypeError?)
            && (extra != {} ==> r.error.message == "unexpected keyword arguments: " + JoinWith(", ", Text.SortSet(extra)))
    // otherwise the path is checked against the roots and read
    ensures var (from', extra) := ExtraKeywords(from, kwargs);
            extra == {} ==>
              r == ReadChecked(CheckAllowedPath(NormalizeSourceRoots(workspace, sourceRoots, resolve), path, safe),
                               RequestText(path), read, from', lines)
  {
    var (from', extra) := ExtraKeywords(from, kwargs);
    if extra != {} then Err(TypeError("unexpected keyword arguments: " + JoinWith(", ", Text.SortSet(extra))))
    else
      var roots := NormalizeSourceRoots(workspace, sourceRoots, resolve);
      ReadChecked(CheckAllowedPath(roots, path, safe), RequestText(path), read, from', lines)
  }

  /** Reading from line 1 without a count gives back the whole file. */
  lemma WholeFileFromFirstLine(text: string)
    ensures SliceLines(text, Some(1), None) == Ok(text)
  {
    var items := SplitLinesKeepEnds(text);
    assert items[0..|items|] == items;
  }

  /** `n` lines from `begin` followed by `m` lines from `begin + n` are the `n + m`
      lines from `begin`. */
  lemma TakeLinesJoin(items: seq<string>, begin: nat, mid: nat, n: nat, m: nat)
    requires mid == begin + n
    ensures TakeLines(items, begin, Some(n)) + TakeLines(items, mid, Some(m)) == TakeLines(items, begin, Some(n + m))
  {
    if begin < |items| {
      var mid := SliceEnd(|items|, begin, Some(n));
      var end := SliceEnd(|items|, begin, Some(n + m));
      assert items[begin..end] == items[begin..mid] + items[mid..end];
      ConcatAppend(items[begin..mid], items[mid..end]);
      if mid < |items| {
        assert mid == begin + n && SliceEnd(|items|, mid, Some(m)) == end;
      } else {
        assert items[mid..end] == [];
      }
    }
  }

  /** Two consecutive reads, `n` lines from `a` and then `m` lines from `a + n`, give
      together what one read of `n + m` lines from `a` gives. */
  lemma ConsecutiveSlicesJoin(text: string, a: int, n: int, m: int)
    requires a >= 1 && n >= 1 && m >= 1 && n + m <= MaxLines
    ensures SliceLines(text, Some(a), Some(n)).Ok? && SliceLines(text, Some(a + n), Some(m)).Ok?
    ensures SliceLines(text, Some(a), Some(n)).value + SliceLines(text, Some(a + n), Some(m)).value
            == SliceLines(text, Some(a), Some(n + m)).value
  {
    ConsecutiveItemsJoin(SplitLinesKeepEnds(text), a, n, m);
  }

  /** The same for any split lines. */
  lemma ConsecutiveItemsJoin(items: seq<string>, a: int, n: int, m: int)
    requires a >= 1 && n >= 1 && m >= 1 && n + m <= MaxLines
    ensures SliceItems(items, Some(a), Some(n)).Ok? && SliceItems(items, Some(a + n), Some(m)).Ok?
    ensures SliceItems(items, Some(a), Some(n)).value + SliceItems(items, Some(a + n), Some(m)).value
            == SliceItems(items, Some(a), Some(n + m)).value
  {
    TakeLinesJoin(items, a - 1, a + n - 1, n, m);
  }

  /** The "from" keyword stands for `from_`. */
  lemma FromKeywordIsFrom(workspace: string, sourceRoots: seq<string>, resolve: string -> string, safe: FsSafe,
                          read: string -> FileRead, path: string, start: Option<int>, lines: Option<int>)
    ensures MemoryGet(workspace, sourceRoots, resolve, safe, read, path, None, lines, map["from" := start])
            == MemoryGet(workspace, sourceRoots, resolve, safe, read, path, start, lines, map[])
  {
    var kwargs := map["from" := start];
    assert kwargs.Keys == {"from"};
    assert kwargs.Keys - {"from"} == {};
    assert ExtraKeywords(None, kwargs) == (start, {});
  }

  /** An allowed file read in full answers with its whole text. */
  lemma AllowedReadReturnsFile(workspace: string, sourceRoots: seq<string>, resolve: string -> string, safe: FsSafe,
                               read: string -> FileRead, path: string)
    requires var check := CheckAllowedPath(NormalizeSourceRoots(workspace, sourceRoots, resolve), path, safe);
             check.allowed && read(check.target.value).Contents?
    ensures var check := CheckAllowedPath(NormalizeSourceRoots(workspace, sourceRoots, resolve), path, safe);
            MemoryGet(workspace, sourceRoots, resolve, safe, read, path, None, None, map[])
              == Ok(GetReply(check.normalized, read(check.target.value).text, None))
  {
  }
}
