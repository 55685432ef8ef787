/** The pieces of Python's `str` API that the modelled code relies on, restated over
    `seq<char>`: `strip`, `lower`, `in`, `replace`, `split(sep)`, `split()`, `join`,
    and code-point ordering of strings with `sorted`.

    Simplifications, all stated once here: whitespace is the ASCII set (space, tab,
    line feed, carriage return, vertical tab, form feed); `lower` folds only ASCII
    letters. */
module Text {

  // ---------------------------------------------------------------------------
  // Whitespace and strip()
  // ---------------------------------------------------------------------------

  /** `c.isspace()` for the ASCII whitespace characters: space, and tab through
      carriage return (tab, line feed, vertical tab, form feed, carriage return). */
  predicate IsSpace(c: char) {
    c == ' ' || '\t' <= c <= '\r'
  }

  predicate AllSpace(s: string) {
    forall i :: 0 <= i < |s| ==> IsSpace(s[i])
  }

  /** Neither end of `s` is whitespace. */
  predicate NoEdgeSpace(s: string) {
    |s| > 0 ==> !IsSpace(s[0]) && !IsSpace(s[|s| - 1])
  }

  /** The number of whitespace characters at the start of `s`. */
  function LeadingSpaces(s: string): (k: nat)
    ensures k <= |s|
    ensures forall i :: 0 <= i < k ==> IsSpace(s[i])
    ensures k < |s| ==> !IsSpace(s[k])
  {
    if |s| > 0 && IsSpace(s[0]) then 1 + LeadingSpaces(s[1..]) else 0
  }

  /** The number of whitespace characters at the end of `s`. */
  function TrailingSpaces(s: string): (k: nat)
    ensures k <= |s|
    ensures forall i :: |s| - k <= i < |s| ==> IsSpace(s[i])
    ensures k < |s| ==> !IsSpace(s[|s| - 1 - k])
  {
    if |s| > 0 && IsSpace(s[|s| - 1]) then 1 + TrailingSpaces(s[..|s| - 1]) else 0
  }

  /** Python's `s.lstrip()`. */
  function LStrip(s: string): string {
    s[LeadingSpaces(s)..]
  }

  /** Python's `s.rstrip()`. */
  function RStrip(s: string): string {
    s[..|s| - TrailingSpaces(s)]
  }

  /** Python's `s.strip()`: the longest infix of `s` with no whitespace at either end,
      obtained by removing only whitespace. */
  function Strip(s: string): (r: string)
    ensures |r| <= |s|
    ensures NoEdgeSpace(r)
    ensures r == "" <==> AllSpace(s)
    ensures NoEdgeSpace(s) ==> r == s
  {
    var l := LStrip(s);
    var r := RStrip(l);
    var k := LeadingSpaces(s);
    assert k < |s| ==> l[0] == s[k];
    assert |r| > 0 ==> r[0] == s[k] && r[|r| - 1] == l[|l| - 1 - TrailingSpaces(l)];
    r
  }

  /** `not s.strip()`: the string is empty or only whitespace (Strip's contract shows
      the two agree). */
  predicate IsBlank(s: string) {
    AllSpace(s)
  }

  lemma StripIdempotent(s: string)
    ensures Strip(Strip(s)) == Strip(s)
  {
  }

  /** Surrounding whitespace never changes the result of strip(). */
  lemma {:induction false} StripIgnoresSurroundingSpace(a: string, s: string, b: string)
    requires AllSpace(a) && AllSpace(b)
    ensures Strip(a + s + b) == Strip(s)
  {
    var x := a + s + b;
    if AllSpace(s) {
      assert AllSpace(x) by {
        forall i | 0 <= i < |x| ensures IsSpace(x[i]) {
          if i < |a| { assert x[i] == a[i]; }
          else if i < |a| + |s| { assert x[i] == s[i - |a|]; }
          else { assert x[i] == b[i - |a| - |s|]; }
        }
      }
    } else {
      assert x == a + (s + b);
      LStripSurrounded(a, s, b);
      RStripIgnoresTrailing(LStrip(s), b);
    }
  }

  lemma {:induction false} LStripSurrounded(a: string, s: string, b: string)
    requires AllSpace(a) && AllSpace(b) && !AllSpace(s)
    ensures LStrip(a + (s + b)) == LStrip(s) + b
  {
    var t := a + (s + b);
    LeadingSpacesSkip(a, s + b);
    LeadingSpacesAppend(s, b);
    var k := LeadingSpaces(s);
    assert LeadingSpaces(t) == |a| + k;
    assert t[|a|..] == s + b;
    assert (s + b)[k..] == s[k..] + b;
    assert t[|a| + k..] == (s + b)[k..];
  }

  lemma {:induction false} RStripIgnoresTrailing(y: string, b: string)
    requires AllSpace(b)
    ensures RStrip(y + b) == RStrip(y)
  {
    TrailingSpacesSkip(y, b);
    assert (y + b)[..|y + b| - TrailingSpaces(y + b)] == y[..|y| - TrailingSpaces(y)];
  }

  lemma {:induction false} LeadingSpacesSkip(a: string, s: string)
    requires AllSpace(a)
    ensures LeadingSpaces(a + s) == |a| + LeadingSpaces(s)
    decreases |a|
  {
    if |a| > 0 {
      assert (a + s)[1..] == a[1..] + s;
      LeadingSpacesSkip(a[1..], s);
    } else {
      assert a + s == s;
    }
  }

  lemma {:induction false} LeadingSpacesAppend(s: string, b: string)
    requires !AllSpace(s)
    ensures LeadingSpaces(s + b) == LeadingSpaces(s)
    decreases |s|
  {
    if IsSpace(s[0]) {
      assert (s + b)[1..] == s[1..] + b;
      assert !AllSpace(s[1..]) by {
        var i :| 0 <= i < |s| && !IsSpace(s[i]);
        assert s[1..][i - 1] == s[i];
      }
      LeadingSpacesAppend(s[1..], b);
    }
  }

  lemma {:induction false} TrailingSpacesSkip(s: string, b: string)
    requires AllSpace(b)
    ensures TrailingSpaces(s + b) == |b| + TrailingSpaces(s)
    decreases |b|
  {
    if |b| > 0 {
      assert (s + b)[..|s + b| - 1] == s + b[..|b| - 1];
      TrailingSpacesSkip(s, b[..|b| - 1]);
    } else {
      assert s + b == s;
    }
  }

  // ---------------------------------------------------------------------------
  // lower(), prefixes, containment, replace()
  // ---------------------------------------------------------------------------

  function LowerChar(c: char): char {
    if 'A' <= c <= 'Z' then (c as int + 32) as char else c
  }

  /** Python's `s.lower()` on ASCII letters. */
  function Lower(s: string): (r: string)
    ensures |r| == |s|
    ensures forall i :: 0 <= i < |s| ==> r[i] == LowerChar(s[i])
  {
    seq(|s|, i requires 0 <= i < |s| => LowerChar(s[i]))
  }

  lemma LowerIdempotent(s: string)
    ensures Lower(Lower(s)) == Lower(s)
  {
    var l := Lower(s);
    assert forall i :: 0 <= i < |s| ==> LowerChar(l[i]) == l[i];
  }

  /** Text without upper-case ASCII letters is its own lower case. */
  lemma LowerOfNoUpper(s: string)
    requires forall i :: 0 <= i < |s| ==> !('A' <= s[i] <= 'Z')
    ensures Lower(s) == s
  {
  }

  predicate StartsWith(s: string, prefix: string) {
    |prefix| <= |s| && s[..|prefix|] == prefix
  }

  predicate EndsWith(s: string, suffix: string) {
    |suffix| <= |s| && s[|s| - |suffix|..] == suffix
  }

  /** Python's `t in s` for strings. */
  predicate Contains(s: string, t: string)
    decreases |s|
  {
    StartsWith(s, t) || (|s| > 0 && Contains(s[1..], t))
  }

  /** Python's `s.replace(t, u)` for a non-empty `t`: scan left to right, replacing each
      non-overlapping occurrence. */
  function ReplaceAll(s: string, t: string, u: string): (r: string)
    requires |t| > 0
    decreases |s|
  {
    if |s| < |t| then s
    else if s[..|t|] == t then u + ReplaceAll(s[|t|..], t, u)
    else [s[0]] + ReplaceAll(s[1..], t, u)
  }

  /** Removing a string that does not occur changes nothing. */
  lemma {:induction false} ReplaceAbsent(s: string, t: string, u: string)
    requires |t| > 0 && !Contains(s, t)
    ensures ReplaceAll(s, t, u) == s
    decreases |s|
  {
    if |s| >= |t| {
      assert s[..|t|] != t;
      ReplaceAbsent(s[1..], t, u);
      assert [s[0]] + s[1..] == s;
    }
  }

  /** Deleting occurrences never lengthens a string. */
  lemma {:induction false} ReplaceDeleteShortens(s: string, t: string)
    requires |t| > 0
    ensures |ReplaceAll(s, t, "")| <= |s|
    decreases |s|
  {
    if |s| >= |t| {
      if s[..|t|] == t {
        ReplaceDeleteShortens(s[|t|..], t);
      } else {
        ReplaceDeleteShortens(s[1..], t);
      }
    }
  }

  // ---------------------------------------------------------------------------
  // split(sep), join
  // ---------------------------------------------------------------------------

  /** Python's `s.split(sep)` for a one-character separator: always at least one
      part, and no part contains the separator. */
  function SplitOn(s: string, sep: char): (parts: seq<string>)
    ensures |parts| >= 1
    ensures forall k :: 0 <= k < |parts| ==> sep !in parts[k]
    decreases |s|
  {
    if |s| == 0 then [""]
    else if s[0] == sep then [""] + SplitOn(s[1..], sep)
    else
      var rest := SplitOn(s[1..], sep);
      [[s[0]] + rest[0]] + rest[1..]
  }

  /** Python's `sep.join(parts)` for a one-character separator. */
  function Join(sep: char, parts: seq<string>): string
    decreases |parts|
  {
    if |parts| == 0 then ""
    else if |parts| == 1 then parts[0]
    else parts[0] + [sep] + Join(sep, parts[1..])
  }

  /** Joining the parts of a split with the same separator gives back the input. */
  lemma {:induction false} JoinSplit(s: string, sep: char)
    ensures Join(sep, SplitOn(s, sep)) == s
    decreases |s|
  {
    if |s| == 0 {
    } else if s[0] == sep {
      JoinSplit(s[1..], sep);
      var rest := SplitOn(s[1..], sep);
      assert SplitOn(s, sep) == [""] + rest;
      assert ([""] + rest)[1..] == rest;
      assert s == [sep] + s[1..];
    } else {
      JoinSplit(s[1..], sep);
      var rest := SplitOn(s[1..], sep);
      var parts := SplitOn(s, sep);
      assert parts == [[s[0]] + rest[0]] + rest[1..];
      if |rest| == 1 {
        assert s == [s[0]] + s[1..];
      } else {
        assert parts[1..] == rest[1..];
        assert Join(sep, rest) == rest[0] + [sep] + Join(sep, rest[1..]);
        assert s == [s[0]] + s[1..];
      }
    }
  }

  /** A string without the separator splits into itself alone. */
  lemma {:induction false} SplitOnAbsent(a: string, sep: char)
    requires sep !in a
    ensures SplitOn(a, sep) == [a]
    decreases |a|
  {
    if |a| > 0 {
      assert a[0] in a;
      assert forall i :: 0 <= i < |a[1..]| ==> a[1..][i] == a[i + 1];
      SplitOnAbsent(a[1..], sep);
      assert a == [a[0]] + a[1..];
    }
  }

  /** The separator after a separator-free head ends the first part. */
  lemma {:induction false} SplitOnHead(a: string, sep: char, b: string)
    requires sep !in a
    ensures SplitOn(a + [sep] + b, sep) == [a] + SplitOn(b, sep)
    decreases |a|
  {
    var s := a + [sep] + b;
    if |a| == 0 {
      assert s == [sep] + b;
      assert s[1..] == b;
    } else {
      assert a[0] in a;
      assert forall i :: 0 <= i < |a[1..]| ==> a[1..][i] == a[i + 1];
      SplitOnHead(a[1..], sep, b);
      assert s[1..] == a[1..] + [sep] + b;
      assert s[0] == a[0];
      assert [a[0]] + a[1..] == a;
    }
  }

  /** Splitting a join of separator-free parts gives the parts back. */
  lemma {:induction false} SplitJoin(parts: seq<string>, sep: char)
    requires |parts| >= 1
    requires forall k :: 0 <= k < |parts| ==> sep !in parts[k]
    ensures SplitOn(Join(sep, parts), sep) == parts
    decreases |parts|
  {
    if |parts| == 1 {
      SplitOnAbsent(parts[0], sep);
    } else {
      SplitJoin(parts[1..], sep);
      SplitOnHead(parts[0], sep, Join(sep, parts[1..]));
      assert parts == [parts[0]] + parts[1..];
    }
  }

  /** A join starts with the first part's first character and ends with the last
      part's last character. */
  lemma {:induction false} JoinEdges(sep: char, parts: seq<string>)
    requires |parts| >= 1 && |parts[0]| > 0 && |parts[|parts| - 1]| > 0
    ensures var j := Join(sep, parts);
            |j| > 0 && j[0] == parts[0][0] && j[|j| - 1] == parts[|parts| - 1][|parts[|parts| - 1]| - 1]
  {
    JoinLast(sep, parts);
  }

  /** Joining one more part appends the separator and that part. */
  lemma {:induction false} JoinSnoc(sep: char, parts: seq<string>, x: string)
    requires |parts| >= 1
    ensures Join(sep, parts + [x]) == Join(sep, parts) + [sep] + x
    decreases |parts|
  {
    var all := parts + [x];
    if |parts| == 1 {
      assert all[1..] == [x];
    } else {
      assert all[1..] == parts[1..] + [x];
      JoinSnoc(sep, parts[1..], x);
    }
  }

  /** A join ends with the last part's last character. */
  lemma {:induction false} JoinLast(sep: char, parts: seq<string>)
    requires |parts| >= 1 && |parts[|parts| - 1]| > 0
    ensures var j := Join(sep, parts);
            |j| > 0 && j[|j| - 1] == parts[|parts| - 1][|parts[|parts| - 1]| - 1]
    decreases |parts|
  {
    if |parts| > 1 {
      JoinLast(sep, parts[1..]);
    }
  }

  // ---------------------------------------------------------------------------
  // split() on whitespace runs
  // ---------------------------------------------------------------------------

  predicate IsWord(w: string) {
    |w| > 0 && forall i :: 0 <= i < |w| ==> !IsSpace(w[i])
  }

  /** The longest prefix of `s` that holds no whitespace. */
  function WordPrefix(s: string): (w: string)
    ensures |w| <= |s| && w == s[..|w|]
    ensures forall i :: 0 <= i < |w| ==> !IsSpace(w[i])
    ensures |w| < |s| ==> IsSpace(s[|w|])
    decreases |s|
  {
    if |s| == 0 || IsSpace(s[0]) then "" else [s[0]] + WordPrefix(s[1..])
  }

  /** Python's `s.split()` with no argument: the maximal whitespace-free runs. */
  function SplitWhitespace(s: string): (words: seq<string>)
    ensures forall k :: 0 <= k < |words| ==> IsWord(words[k])
    decreases |s|
  {
    if |s| == 0 then []
    else if IsSpace(s[0]) then SplitWhitespace(s[1..])
    else
      var w := WordPrefix(s);
      [w] + SplitWhitespace(s[|w|..])
  }

  /** A string with only single spaces as whitespace, none at either end. */
  predicate Compact(s: string) {
    && NoEdgeSpace(s)
    && (forall i :: 0 <= i < |s| && IsSpace(s[i]) ==> s[i] == ' ')
    && (forall i :: 0 <= i < |s| - 1 ==> !(IsSpace(s[i]) && IsSpace(s[i + 1])))
  }

  /** `" ".join(words)` of whitespace-free words is compact. */
  lemma {:induction false} JoinWordsCompact(words: seq<string>)
    requires forall k :: 0 <= k < |words| ==> IsWord(words[k])
    ensures Compact(Join(' ', words))
    decreases |words|
  {
    if |words| > 1 {
      JoinWordsCompact(words[1..]);
      var rest := Join(' ', words[1..]);
      var w := words[0];
      var s := w + [' '] + rest;
      assert Join(' ', words) == s;
      assert |rest| > 0 by { JoinNonEmpty(words[1..]); }
      forall i | 0 <= i < |s| && IsSpace(s[i]) ensures s[i] == ' ' {
        if i > |w| { assert s[i] == rest[i - |w| - 1]; }
      }
      forall i | 0 <= i < |s| - 1 ensures !(IsSpace(s[i]) && IsSpace(s[i + 1])) {
        if i < |w| - 1 {
        } else if i == |w| - 1 {
          assert s[i] == w[|w| - 1];
        } else if i == |w| {
          assert s[i + 1] == rest[0];
        } else {
          assert s[i] == rest[i - |w| - 1] && s[i + 1] == rest[i - |w|];
        }
      }
      assert s[|s| - 1] == rest[|rest| - 1];
    }
  }

  lemma {:induction false} JoinNonEmpty(words: seq<string>)
    requires |words| > 0 && forall k :: 0 <= k < |words| ==> IsWord(words[k])
    ensures |Join(' ', words)| > 0
  {
  }

  /** Python's `" ".join(s.split())`: collapse whitespace runs to one space and trim. */
  function CollapseWhitespace(s: string): (r: string)
    ensures Compact(r)
  {
    JoinWordsCompact(SplitWhitespace(s));
    Join(' ', SplitWhitespace(s))
  }

  /** Collapsing whitespace changes nothing on text that is already compact, so
      collapsing twice is collapsing once. */
  lemma {:induction false} CollapseCompact(s: string)
    requires Compact(s)
    ensures CollapseWhitespace(s) == s
    decreases |s|
  {
    if |s| > 0 {
      var w := WordPrefix(s);
      assert |w| > 0;
      if |w| < |s| {
        var rest := s[|w| + 1..];
        CompactTail(s, |w|);
        CollapseCompact(rest);
        SplitAfterWord(s);
        var ws := SplitWhitespace(rest);
        assert ([w] + ws)[1..] == ws;
        assert Join(' ', [w] + ws) == w + [' '] + Join(' ', ws);
        assert s == w + [' '] + rest;
      } else {
        assert w == s;
        assert SplitWhitespace(s[|w|..]) == [];
        assert SplitWhitespace(s) == [w];
      }
    }
  }

  /** What follows a space inside compact text is compact and starts a word. */
  lemma CompactTail(s: string, n: nat)
    requires Compact(s) && 0 < n < |s| && s[n] == ' '
    ensures n + 1 < |s| && !IsSpace(s[n + 1]) && Compact(s[n + 1..])
  {
    var rest := s[n + 1..];
    assert n + 1 < |s| by { assert !IsSpace(s[|s| - 1]); }
    assert !(IsSpace(s[n]) && IsSpace(s[n + 1]));
    assert rest[|rest| - 1] == s[|s| - 1];
    forall i | 0 <= i < |rest| - 1 ensures !(IsSpace(rest[i]) && IsSpace(rest[i + 1])) {
      assert rest[i] == s[n + 1 + i] && rest[i + 1] == s[n + 2 + i];
    }
  }

  /** Text made of a word, one space and more text splits into the word and the rest's words. */
  lemma SplitAfterWord(s: string)
    requires |s| > 0 && !IsSpace(s[0]) && |WordPrefix(s)| < |s| && s[|WordPrefix(s)|] == ' '
    ensures SplitWhitespace(s) == [WordPrefix(s)] + SplitWhitespace(s[|WordPrefix(s)| + 1..])
  {
    var w := WordPrefix(s);
    assert s[|w|..][1..] == s[|w| + 1..];
  }

  // ---------------------------------------------------------------------------
  // Code-point ordering of strings and sorted()
  // ---------------------------------------------------------------------------

  /** Python's `a < b` on strings: lexicographic by code point. */
  predicate Lt(a: string, b: string)
    decreases |a|
  {
    if |a| == 0 then |b| > 0
    else if |b| == 0 then false
    else if a[0] != b[0] then a[0] < b[0]
    else Lt(a[1..], b[1..])
  }

  lemma {:induction false} LtIrreflexive(a: string)
    ensures !Lt(a, a)
    decreases |a|
  {
    if |a| > 0 { LtIrreflexive(a[1..]); }
  }

  lemma {:induction false} LtAsymmetric(a: string, b: string)
    ensures Lt(a, b) ==> !Lt(b, a)
    decreases |a|
  {
    if |a| > 0 && |b| > 0 && a[0] == b[0] { LtAsymmetric(a[1..], b[1..]); }
  }

  lemma {:induction false} LtTransitive(a: string, b: string, c: string)
    requires Lt(a, b) && Lt(b, c)
    ensures Lt(a, c)
    decreases |a|
  {
    if |a| > 0 && a[0] == b[0] && b[0] == c[0] { LtTransitive(a[1..], b[1..], c[1..]); }
  }

  lemma {:induction false} LtTotal(a: string, b: string)
    ensures a == b || Lt(a, b) || Lt(b, a)
    decreases |a|
  {
    if |a| > 0 && |b| > 0 && a[0] == b[0] {
      LtTotal(a[1..], b[1..]);
      if a[1..] == b[1..] {
        assert a == [a[0]] + a[1..] && b == [b[0]] + b[1..];
      }
    }
  }

  /** Strictly increasing under `Lt`. */
  predicate SortedStrict(xs: seq<string>) {
    forall i, j :: 0 <= i < j < |xs| ==> Lt(xs[i], xs[j])
  }

  predicate IsLeast(m: string, s: set<string>) {
    m in s && forall x :: x in s && x != m ==> Lt(m, x)
  }

  lemma {:induction false} LeastExists(s: set<string>)
    requires s != {}
    ensures exists m :: IsLeast(m, s)
    decreases |s|
  {
    var x :| x in s;
    var rest := s - {x};
    if rest == {} {
      assert s == {x};
      assert IsLeast(x, s);
    } else {
      LeastExists(rest);
      var m' :| IsLeast(m', rest);
      LtTotal(x, m');
      if Lt(x, m') {
        forall y | y in s && y != x ensures Lt(x, y) {
          if y != m' { LtTransitive(x, m', y); }
        }
        assert IsLeast(x, s);
      } else {
        assert IsLeast(m', s);
      }
    }
  }

  lemma LeastUnique(s: set<string>)
    ensures forall a, b :: IsLeast(a, s) && IsLeast(b, s) ==> a == b
  {
    forall a, b | IsLeast(a, s) && IsLeast(b, s) ensures a == b {
      if a != b { LtAsymmetric(a, b); }
    }
  }

  /** The smallest string of a non-empty set. */
  function Least(s: set<string>): (m: string)
    requires s != {}
    ensures IsLeast(m, s)
  {
    LeastExists(s);
    LeastUnique(s);
    var m :| IsLeast(m, s);
    m
  }

  /** Python's `sorted(s)` of a set of strings: every element once, in increasing
      order. */
  function SortSet(s: set<string>): (r: seq<string>)
    ensures |r| == |s|
    ensures forall x :: x in r <==> x in s
    ensures SortedStrict(r)
    decreases |s|
  {
    if s == {} then []
    else
      var m := Least(s);
      var rest := SortSet(s - {m});
      assert forall j :: 0 <= j < |rest| ==> Lt(m, rest[j]) by {
        forall j | 0 <= j < |rest| ensures Lt(m, rest[j]) {
          assert rest[j] in s - {m};
        }
      }
      [m] + rest
  }

  /** A strictly sorted sequence is determined by its elements. */
  lemma {:induction false} SortedStrictUnique(a: seq<string>, b: seq<string>)
    requires SortedStrict(a) && SortedStrict(b)
    requires forall x :: x in a <==> x in b
    ensures a == b
    decreases |a|
  {
    if |a| > 0 { assert a[0] in b; }
    if |b| > 0 { assert b[0] in a; }
    if |a| > 0 {
      assert a[0] == b[0] || Lt(b[0], a[0]) by {
        var j :| 0 <= j < |b| && b[j] == a[0];
      }
      assert b[0] == a[0] || Lt(a[0], b[0]) by {
        var i :| 0 <= i < |a| && a[i] == b[0];
      }
      LtAsymmetric(a[0], b[0]);
      forall x ensures x in a[1..] <==> x in b[1..] {
        if x in a[1..] {
          var i :| 1 <= i < |a| && a[i] == x;
          assert Lt(a[0], x);
          LtIrreflexive(x);
          assert x in b;
          var j :| 0 <= j < |b| && b[j] == x;
          assert j != 0;
        }
        if x in b[1..] {
          var j :| 1 <= j < |b| && b[j] == x;
          assert Lt(b[0], x);
          LtIrreflexive(x);
          assert x in a;
          var i :| 0 <= i < |a| && a[i] == x;
          assert i != 0;
        }
      }
      SortedStrictUnique(a[1..], b[1..]);
      assert a == [a[0]] + a[1..] && b == [b[0]] + b[1..];
    }
  }
}
